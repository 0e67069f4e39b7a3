/**
 Message transport between CPUs (src/core/cpu.c) as interleaved steps: cpu_send_msg takes a node from the pool, fills it
 and pushes it on the target's queue; cpu_get_msg pops a node, copies it and frees it, and the handler is then run.

 Pool and queue operations are locked, hence one step each; a queue is the sequence that List keeps and the pool the set
 of slots that ObjPool keeps. A handler may send messages like any other code. With no free slot the sender stops in
 an ERROR: there is no step.
 */
module Messages {
  datatype Msg = Msg(handler: bv32, event: bv32, data: bv64)

  // Filling, Filled: in cpu_send_msg, before and after writing the node. Popped, Copied: in cpu_get_msg, before and
  // after reading the node. Got: the node is freed and the handler about to run.
  datatype Pc = Idle | Filling(slot: nat, to: nat, msg: Msg) | Filled(slot: nat, to: nat, msg: Msg)
              | Popped(slot: nat) | Copied(slot: nat, msg: Msg) | Got(msg: Msg)

  // `pushed[c]` and `dispatched[c]` are what was ever pushed for CPU c and handed to its handlers, in order.
  datatype State = State(alloc: set<nat>, nodes: seq<Msg>, queues: seq<seq<nat>>, pcs: seq<Pc>,
                         pushed: seq<seq<Msg>>, dispatched: seq<seq<Msg>>)

  predicate Sized(s: State)
  {
    |s.queues| == |s.pcs| && |s.pushed| == |s.pcs| && |s.dispatched| == |s.pcs|
  }

  ghost predicate Init(s: State)
  {
    && Sized(s) && s.alloc == {}
    && forall c: nat | c < |s.pcs| ::
         s.pcs[c] == Idle && s.queues[c] == [] && s.pushed[c] == [] && s.dispatched[c] == []
  }

  // ---------------------------------------------------------------- steps of CPU c

  ghost predicate Alloc(s: State, s': State, c: nat, n: nat, to: nat, m: Msg)
  {
    && c < |s.pcs| && s.pcs[c].Idle? && n < |s.nodes| && n !in s.alloc && to < |s.pcs|
    && s' == s.(alloc := s.alloc + {n}, pcs := s.pcs[c := Filling(n, to, m)])
  }

  ghost predicate Fill(s: State, s': State, c: nat)
  {
    && c < |s.pcs| && s.pcs[c].Filling? && s.pcs[c].slot < |s.nodes|
    && s' == s.(nodes := s.nodes[s.pcs[c].slot := s.pcs[c].msg],
                pcs := s.pcs[c := Filled(s.pcs[c].slot, s.pcs[c].to, s.pcs[c].msg)])
  }

  ghost predicate Push(s: State, s': State, c: nat)
  {
    && Sized(s) && c < |s.pcs| && s.pcs[c].Filled? && s.pcs[c].to < |s.pcs|
    && var to := s.pcs[c].to;
       s' == s.(queues := s.queues[to := s.queues[to] + [s.pcs[c].slot]],
                pushed := s.pushed[to := s.pushed[to] + [s.pcs[c].msg]], pcs := s.pcs[c := Idle])
  }

  ghost predicate Pop(s: State, s': State, c: nat)
  {
    && Sized(s) && c < |s.pcs| && s.pcs[c].Idle? && s.queues[c] != []
    && s' == s.(queues := s.queues[c := s.queues[c][1..]], pcs := s.pcs[c := Popped(s.queues[c][0])])
  }

  ghost predicate Copy(s: State, s': State, c: nat)
  {
    && c < |s.pcs| && s.pcs[c].Popped? && s.pcs[c].slot < |s.nodes|
    && s' == s.(pcs := s.pcs[c := Copied(s.pcs[c].slot, s.nodes[s.pcs[c].slot])])
  }

  ghost predicate Free(s: State, s': State, c: nat)
  {
    && c < |s.pcs| && s.pcs[c].Copied?
    && s' == s.(alloc := s.alloc - {s.pcs[c].slot}, pcs := s.pcs[c := Got(s.pcs[c].msg)])
  }

  ghost predicate Dispatch(s: State, s': State, c: nat)
  {
    && Sized(s) && c < |s.pcs| && s.pcs[c].Got?
    && s' == s.(dispatched := s.dispatched[c := s.dispatched[c] + [s.pcs[c].msg]], pcs := s.pcs[c := Idle])
  }

  ghost predicate Step(s: State, s': State, c: nat)
  {
    || (exists n: nat, to: nat, m: Msg :: Alloc(s, s', c, n, to, m))
    || Fill(s, s', c) || Push(s, s', c) || Pop(s, s', c) || Copy(s, s', c) || Free(s, s', c) || Dispatch(s, s', c)
  }

  // ---------------------------------------------------------------- invariant

  // A place where a node may be: position i of the queue of CPU c, or held by CPU c in mid-call.
  datatype Place = Queued(c: nat, i: nat) | Held(c: nat)

  predicate Holds(pc: Pc, n: nat)
  {
    (pc.Filling? || pc.Filled? || pc.Popped? || pc.Copied?) && pc.slot == n
  }

  ghost predicate At(s: State, w: Place, n: nat)
  {
    match w
    case Queued(c, i) => c < |s.queues| && i < |s.queues[c]| && s.queues[c][i] == n
    case Held(c) => c < |s.pcs| && Holds(s.pcs[c], n)
  }

  // The slots in use are exactly those queued or held, each in one place.
  ghost predicate SlotsExact(s: State)
  {
    && (forall n: nat :: n in s.alloc <==> exists w: Place :: At(s, w, n))
    && (forall n: nat | n in s.alloc :: n < |s.nodes|)
    && forall n: nat, w: Place, v: Place | At(s, w, n) && At(s, v, n) :: w == v
  }

  // The message CPU c has taken off its queue and not yet dispatched.
  function Hand(pc: Pc, nodes: seq<Msg>): seq<Msg>
  {
    if pc.Popped? && pc.slot < |nodes| then [nodes[pc.slot]] else if pc.Copied? || pc.Got? then [pc.msg] else []
  }

  function Contents(queue: seq<nat>, nodes: seq<Msg>): (r: seq<Msg>)
    ensures |r| == |queue|
  {
    seq(|queue|, (i: nat) requires i < |queue| =>
      if queue[i] < |nodes| then nodes[queue[i]] else Msg(0, 0, 0))
  }

  // All that was pushed for CPU c, in order: dispatched, in hand, queued.
  ghost predicate InOrder(s: State, c: nat)
    requires c < |s.pcs| && Sized(s)
  {
    && s.pushed[c] == s.dispatched[c] + Hand(s.pcs[c], s.nodes) + Contents(s.queues[c], s.nodes)
    && (s.pcs[c].Filled? ==> s.pcs[c].slot < |s.nodes| && s.nodes[s.pcs[c].slot] == s.pcs[c].msg)
  }

  ghost predicate Inv(s: State)
  {
    Sized(s) && SlotsExact(s) && forall c: nat | c < |s.pcs| :: InOrder(s, c)
  }

  lemma InitInv(s: State)
    requires Init(s)
    ensures Inv(s)
  {
  }

  lemma StepInv(s: State, s': State, c: nat)
    requires Inv(s) && Step(s, s', c)
    ensures Inv(s') && |s'.pcs| == |s.pcs|
  {
    hide SlotsExact, InOrder;
    SlotsStep(s, s', c);
    forall d: nat | d < |s.pcs| ensures InOrder(s', d) {
      assert InOrder(s, d);
      OrderStep(s, s', c, d);
    }
  }

  // Moving nodes from place to place keeps the slots exact.
  lemma Relocated(s: State, s': State, back: Place -> Place, fwd: Place -> Place)
    requires SlotsExact(s) && s'.alloc == s.alloc && |s'.nodes| == |s.nodes|
    requires forall n: nat, w: Place | At(s', w, n) :: At(s, back(w), n) && fwd(back(w)) == w
    requires forall n: nat, w: Place | At(s, w, n) :: At(s', fwd(w), n)
    ensures SlotsExact(s')
  {
    hide At;
    forall n: nat ensures n in s'.alloc <==> exists w: Place :: At(s', w, n) {
      if w: Place :| At(s, w, n) { assert At(s', fwd(w), n); }
      if w: Place :| At(s', w, n) { assert At(s, back(w), n); }
    }
    forall n: nat, w: Place, v: Place | At(s', w, n) && At(s', v, n) ensures w == v {
      assert At(s, back(w), n) && At(s, back(v), n);
    }
  }

  lemma AllocSlots(s: State, s': State, c: nat, k: nat, to: nat, m: Msg)
    requires SlotsExact(s) && Alloc(s, s', c, k, to, m)
    ensures SlotsExact(s')
  {
    assert forall n: nat, w: Place :: At(s', w, n) <==> At(s, w, n) || (w == Held(c) && n == k);
    assert At(s', Held(c), k);
    forall n: nat | n in s.alloc ensures exists w: Place :: At(s', w, n) {
      var w: Place :| At(s, w, n);
      assert At(s', w, n);
    }
  }

  lemma FreeSlots(s: State, s': State, c: nat)
    requires SlotsExact(s) && Free(s, s', c)
    ensures SlotsExact(s')
  {
    var k := s.pcs[c].slot;
    assert At(s, Held(c), k);
    assert forall n: nat, w: Place :: At(s', w, n) <==> At(s, w, n) && w != Held(c);
    forall n: nat | n in s'.alloc ensures exists w: Place :: At(s', w, n) {
      var w: Place :| At(s, w, n);
      assert At(s', w, n);
    }
  }

  lemma SlotsStep(s: State, s': State, c: nat)
    requires Inv(s) && Step(s, s', c)
    ensures SlotsExact(s')
  {
    hide InOrder, SlotsExact;
    if n: nat, to: nat, m: Msg :| Alloc(s, s', c, n, to, m) {
      AllocSlots(s, s', c, n, to, m);
    } else if Push(s, s', c) {
      var to := s.pcs[c].to;
      var last := Queued(to, |s.queues[to]|);
      Relocated(s, s', w => if w == last then Held(c) else w, w => if w == Held(c) then last else w);
    } else if Pop(s, s', c) {
      Relocated(s, s',
                w => if w == Held(c) then Queued(c, 0) else if w.Queued? && w.c == c then Queued(c, w.i + 1) else w,
                w => if w == Queued(c, 0) then Held(c)
                    else if w.Queued? && w.c == c && w.i > 0 then Queued(c, w.i - 1) else w);
    } else if Free(s, s', c) {
      FreeSlots(s, s', c);
    } else {
      Relocated(s, s', w => w, w => w);
    }
  }

  // A node that is being filled is in nobody else's hand and in no queue.
  lemma FillOrder(s: State, s': State, c: nat, d: nat)
    requires Inv(s) && Fill(s, s', c) && d < |s.pcs|
    ensures InOrder(s', d)
  {
    hide At;
    var n := s.pcs[c].slot;
    assert InOrder(s, d) && At(s, Held(c), n) by { HeldAt(s, c); }
    forall i: nat | i < |s.queues[d]| ensures s.queues[d][i] != n {
      QueuedAt(s, d, i);
    }
    if d != c && !s.pcs[d].Idle? && !s.pcs[d].Got? { HeldAt(s, d); }
    assert Contents(s'.queues[d], s'.nodes) == Contents(s.queues[d], s.nodes);
  }

  lemma HeldAt(s: State, c: nat)
    requires c < |s.pcs| && !s.pcs[c].Idle? && !s.pcs[c].Got?
    ensures At(s, Held(c), s.pcs[c].slot)
  {
  }

  lemma QueuedAt(s: State, d: nat, i: nat)
    requires d < |s.queues| && i < |s.queues[d]|
    ensures At(s, Queued(d, i), s.queues[d][i])
  {
  }

  lemma ContentsPush(q: seq<nat>, nodes: seq<Msg>, n: nat)
    requires n < |nodes|
    ensures Contents(q + [n], nodes) == Contents(q, nodes) + [nodes[n]]
  {
  }

  lemma ContentsPop(q: seq<nat>, nodes: seq<Msg>)
    requires q != [] && q[0] < |nodes|
    ensures Contents(q, nodes) == [nodes[q[0]]] + Contents(q[1..], nodes)
  {
  }

  lemma OrderStep(s: State, s': State, c: nat, d: nat)
    requires Inv(s) && Step(s, s', c) && d < |s.pcs|
    ensures Sized(s') && |s'.pcs| == |s.pcs| && InOrder(s', d)
  {
    hide Contents, SlotsExact;
    assert InOrder(s, c) && InOrder(s, d);
    if Fill(s, s', c) {
      FillOrder(s, s', c, d);
    } else if Push(s, s', c) {
      ContentsPush(s.queues[d], s.nodes, s.pcs[c].slot);
    } else if Pop(s, s', c) {
      InPool(s, c);
      ContentsPop(s.queues[c], s.nodes);
    }
  }

  lemma InPool(s: State, c: nat)
    requires Inv(s) && c < |s.pcs|
    ensures forall i: nat | i < |s.queues[c]| :: s.queues[c][i] < |s.nodes|
  {
    forall i: nat | i < |s.queues[c]| ensures s.queues[c][i] < |s.nodes| {
      QueuedAt(s, c, i);
      assert s.queues[c][i] in s.alloc;
    }
  }

  // ---------------------------------------------------------------- whole runs

  // `who[k]` is the CPU that takes step k.
  ghost predicate Run(run: seq<State>, who: seq<nat>)
  {
    && |run| > 0 && |who| + 1 == |run| && Init(run[0])
    && forall k: nat | k < |who| :: Step(run[k], run[k + 1], who[k])
  }

  lemma {:induction false} RunInv(run: seq<State>, who: seq<nat>, t: nat)
    requires Run(run, who) && t < |run|
    ensures Inv(run[t]) && |run[t].pcs| == |run[0].pcs|
  {
    hide Inv, Step, Init;
    if t == 0 {
      assert Init(run[0]);
      InitInv(run[0]);
    } else {
      RunInv(run, who, t - 1);
      assert Step(run[t - 1], run[t - 1 + 1], who[t - 1]);
      StepInv(run[t - 1], run[t], who[t - 1]);
    }
  }

  // What was dispatched on a CPU is always a prefix of what was pushed for it: no message twice, none out of order.
  // What is missing is in hand or still queued, so with an idle CPU and an empty queue nothing is missing.
  lemma Delivered(run: seq<State>, who: seq<nat>, t: nat, c: nat)
    requires Run(run, who) && t < |run| && c < |run[t].pcs|
    ensures Sized(run[t]) && run[t].dispatched[c] <= run[t].pushed[c]
    ensures |run[t].pushed[c]| - |run[t].dispatched[c]| - |run[t].queues[c]| ==
            (if run[t].pcs[c].Popped? || run[t].pcs[c].Copied? || run[t].pcs[c].Got? then 1 else 0)
    ensures run[t].pcs[c].Idle? && run[t].queues[c] == [] ==> run[t].dispatched[c] == run[t].pushed[c]
  {
    hide Contents;
    RunInv(run, who, t);
    assert InOrder(run[t], c);
    if run[t].pcs[c].Popped? {
      HeldAt(run[t], c);
      assert run[t].pcs[c].slot in run[t].alloc;
    }
  }

  // Nothing dispatched or pushed is ever taken back.
  lemma {:induction false} OnlyGrows(run: seq<State>, who: seq<nat>, t: nat, u: nat, c: nat)
    requires Run(run, who) && t <= u < |run| && c < |run[0].pcs|
    ensures c < |run[t].dispatched| == |run[u].dispatched| == |run[t].pushed| == |run[u].pushed|
    ensures run[t].dispatched[c] <= run[u].dispatched[c] && run[t].pushed[c] <= run[u].pushed[c]
  {
    hide SlotsExact, InOrder;
    RunInv(run, who, t);
    if t < u {
      OnlyGrows(run, who, t, u - 1, c);
      RunInv(run, who, u - 1);
      assert Step(run[u - 1], run[u - 1 + 1], who[u - 1]);
    }
  }

  // At any moment the slots in use are the disjoint union of those queued and those held in mid-call. No slot leaks:
  // with every CPU outside a call and every queue empty, the whole pool is free.
  lemma SlotsAlways(run: seq<State>, who: seq<nat>, t: nat)
    requires Run(run, who) && t < |run|
    ensures SlotsExact(run[t]) && Sized(run[t])
    ensures (forall c: nat | c < |run[t].pcs| ::
        run[t].queues[c] == [] && (run[t].pcs[c].Idle? || run[t].pcs[c].Got?)) ==>
              run[t].alloc == {}
  {
    RunInv(run, who, t);
    if n: nat :| n in run[t].alloc {
      var w: Place :| At(run[t], w, n);
      assert w.c < |run[t].pcs|;
    }
  }
}
