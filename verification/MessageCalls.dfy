/**
 cpu_send_msg and cpu_get_msg read from top to bottom, and when a CPU can go on (src/core/cpu.c).
 */
module MessageCalls {
  import opened Messages

  // How n CPUs start with a pool of any nodes.
  lemma Starts(n: nat, nodes: seq<Msg>) returns (s: State)
    ensures Init(s) && |s.pcs| == n && s.nodes == nodes && s.alloc == {}
    ensures forall c: nat | c < n :: s.pcs[c] == Idle && s.queues[c] == [] && s.pushed[c] == s.dispatched[c] == []
  {
    s := State({}, nodes, seq(n, (c: nat) => []), seq(n, (c: nat) => Idle), seq(n, (c: nat) => []),
               seq(n, (c: nat) => []));
  }

  // States reached by steps of CPU c alone.
  ghost predicate Alone(path: seq<State>, c: nat)
  {
    |path| > 0 && forall k: nat | k + 1 < |path| :: Step(path[k], path[k + 1], c)
  }

  // cpu_send_msg, with nobody in between: a free node carries the message to the end of the target's queue.
  lemma SendAlone(s: State, c: nat, n: nat, to: nat, m: Msg) returns (path: seq<State>)
    requires Inv(s) && c < |s.pcs| && s.pcs[c] == Idle && to < |s.pcs| && n < |s.nodes| && n !in s.alloc
    ensures |path| == 4 && path[0] == s && Alone(path, c)
    ensures path[3] == s.(alloc := s.alloc + {n}, nodes := s.nodes[n := m],
                          queues := s.queues[to := s.queues[to] + [n]], pushed := s.pushed[to := s.pushed[to] + [m]])
  {
    var a := s.(alloc := s.alloc + {n}, pcs := s.pcs[c := Filling(n, to, m)]);
    var b := a.(nodes := s.nodes[n := m], pcs := s.pcs[c := Filled(n, to, m)]);
    var d := s.(alloc := s.alloc + {n}, nodes := s.nodes[n := m],
                queues := s.queues[to := s.queues[to] + [n]], pushed := s.pushed[to := s.pushed[to] + [m]]);
    path := [s, a, b, d];
    assert Alloc(s, a, c, n, to, m);
    assert a.pcs[c := Filled(n, to, m)] == b.pcs && Fill(a, b, c);
    assert b.pcs[c := Idle] == d.pcs && Push(b, d, c);
  }

  // cpu_get_msg and the handler, with nobody in between: the message at the head of the queue is dispatched and its
  // node is free again.
  lemma ReceiveAlone(s: State, c: nat) returns (path: seq<State>)
    requires Inv(s) && c < |s.pcs| && s.pcs[c] == Idle && s.queues[c] != []
    ensures |path| == 5 && path[0] == s && Alone(path, c) && s.queues[c][0] < |s.nodes|
    ensures path[4] == s.(alloc := s.alloc - {s.queues[c][0]}, queues := s.queues[c := s.queues[c][1..]],
                          dispatched := s.dispatched[c := s.dispatched[c] + [s.nodes[s.queues[c][0]]]])
  {
    hide SlotsExact, InOrder;
    var n := s.queues[c][0];
    InPool(s, c);
    var m := s.nodes[n];
    var a := s.(queues := s.queues[c := s.queues[c][1..]], pcs := s.pcs[c := Popped(n)]);
    var b := a.(pcs := s.pcs[c := Copied(n, m)]);
    var d := b.(alloc := s.alloc - {n}, pcs := s.pcs[c := Got(m)]);
    var e := d.(dispatched := s.dispatched[c := s.dispatched[c] + [m]], pcs := s.pcs);
    path := [s, a, b, d, e];
    assert a.pcs[c := Copied(n, m)] == b.pcs && b.pcs[c := Got(m)] == d.pcs && d.pcs[c := Idle] == e.pcs;
    assert Pop(s, a, c) && Copy(a, b, c) && Free(b, d, c) && Dispatch(d, e, c);
  }

  // ---------------------------------------------------------------- when a CPU can go on

  // Messages under way are for CPUs that exist.
  ghost predicate Aimed(s: State)
  {
    forall c: nat | c < |s.pcs| && (s.pcs[c].Filling? || s.pcs[c].Filled?) :: s.pcs[c].to < |s.pcs|
  }

  lemma {:induction false} RunAimed(run: seq<State>, who: seq<nat>, t: nat)
    requires Run(run, who) && t < |run|
    ensures Aimed(run[t])
  {
    if t > 0 {
      RunAimed(run, who, t - 1);
      assert Step(run[t - 1], run[t - 1 + 1], who[t - 1]);
    }
  }

  // In mid-call a CPU can go on, whatever the others do.
  lemma MidCallGoesOn(s: State, c: nat) returns (s': State)
    requires Inv(s) && Aimed(s) && c < |s.pcs| && s.pcs[c] != Idle
    ensures Step(s, s', c)
  {
    hide InOrder;
    var pc := s.pcs[c];
    if !pc.Got? {
      HeldAt(s, c);
      assert pc.slot in s.alloc;
    }
    match pc
    case Filling(n, to, m) =>
      s' := s.(nodes := s.nodes[n := m], pcs := s.pcs[c := Filled(n, to, m)]);
      assert Fill(s, s', c);
    case Filled(n, to, m) =>
      s' := s.(queues := s.queues[to := s.queues[to] + [n]], pushed := s.pushed[to := s.pushed[to] + [m]],
               pcs := s.pcs[c := Idle]);
      assert Push(s, s', c);
    case Popped(n) =>
      s' := s.(pcs := s.pcs[c := Copied(n, s.nodes[n])]);
      assert Copy(s, s', c);
    case Copied(n, m) =>
      s' := s.(alloc := s.alloc - {n}, pcs := s.pcs[c := Got(m)]);
      assert Free(s, s', c);
    case Got(m) =>
      s' := s.(dispatched := s.dispatched[c := s.dispatched[c] + [m]], pcs := s.pcs[c := Idle]);
      assert Dispatch(s, s', c);
  }

  // A CPU has no step left exactly outside a call, with nothing to receive and no node to send with.
  lemma NoStepIff(run: seq<State>, who: seq<nat>, t: nat, c: nat)
    requires Run(run, who) && t < |run| && c < |run[t].pcs|
    ensures var s := run[t];
            Sized(s) && ((forall s': State :: !Step(s, s', c)) <==>
              s.pcs[c] == Idle && s.queues[c] == [] && forall n: nat | n < |s.nodes| :: n in s.alloc)
  {
    hide SlotsExact, InOrder;
    var s := run[t];
    RunInv(run, who, t);
    RunAimed(run, who, t);
    if s.pcs[c] != Idle {
      var s' := MidCallGoesOn(s, c);
    } else if s.queues[c] != [] {
      var path := ReceiveAlone(s, c);
      assert Step(path[0], path[0 + 1], c);
    } else if n: nat :| n < |s.nodes| && n !in s.alloc {
      var path := SendAlone(s, c, n, c, Msg(0, 0, 0));
      assert Step(path[0], path[0 + 1], c);
    }
  }
}
