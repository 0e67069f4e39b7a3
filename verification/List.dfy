/**
 The intrusive singly linked list of src/lib/inc/list.h, as used for queues: push at the tail, pop at the head.

 Each method is one section under the list's lock.
 */
module LinkedList {
  class Node<T> {
    var next: Node?<T>
    var item: T

    constructor (item: T)
      ensures this.item == item && next == null
    {
      this.item, next := item, null;
    }
  }

  class List<T> {
    var head: Node?<T>
    var tail: Node?<T>
    ghost var nodes: seq<Node<T>>

    // The chain from `head` through `next` is `nodes`, without repetition, and `tail` is its last node.
    ghost predicate Valid()
      reads this, nodes
    {
      && (nodes == [] <==> head == null) && (nodes == [] <==> tail == null)
      && (nodes != [] ==> head == nodes[0] && tail == nodes[|nodes| - 1] && nodes[|nodes| - 1].next == null)
      && (forall i: nat | i + 1 < |nodes| :: nodes[i].next == nodes[i + 1])
      && forall i: nat, j: nat | i < j < |nodes| :: nodes[i] != nodes[j]
    }

    // list_init.
    constructor ()
      ensures Valid() && nodes == []
    {
      head, tail, nodes := null, null, [];
    }

    // Nothing is done for a null node; otherwise the node becomes the last.
    method Push(node: Node?<T>)
      requires Valid() && (node != null ==> node !in nodes)
      modifies this, node, if nodes == [] then {} else {nodes[|nodes| - 1]}
      ensures Valid() && nodes == if node == null then old(nodes) else old(nodes) + [node]
      ensures forall n: Node<T> | n in nodes :: n.item == old(n.item)
    {
      if node != null {
        node.next := null;
        if tail != null {
          tail.next := node;
        }
        tail := node;
        if head == null {
          head := node;
        }
        nodes := nodes + [node];
      }
    }

    // The first node, taken off the list and unlinked; null from an empty list.
    method Pop() returns (temp: Node?<T>)
      requires Valid()
      modifies this, if nodes == [] then {} else {nodes[0]}
      ensures Valid() && (temp == null <==> old(nodes) == [])
      ensures temp == null ==> nodes == []
      ensures temp != null ==> old(nodes) == [temp] + nodes && temp.next == null && temp !in nodes
      ensures temp != null ==> temp.item == old(temp.item)
    {
      temp := null;
      if head != null {
        temp := head;
        assert |nodes| > 1 ==> head.next == nodes[0 + 1];
        head := head.next;
        if head == null {
          tail := null;
        }
        temp.next := null;
        nodes := nodes[1..];
      }
    }
  }
}
