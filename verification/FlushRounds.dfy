/**
 What else cpu_sync_and_clear_msgs and the message handler promise (src/core/inc/cpu.h, src/core/cpu.c): each message is
 in one place and dispatched once, by its target, and from wherever they are the CPUs can bring a flush to its end.
 */
module FlushRounds {
  import opened Flush
  import B = Barrier

  // How n CPUs start.
  lemma Starts(n: nat) returns (s: State)
    requires n > 0
    ensures Init(s) && |s.cpus| == n && s.sent == {} && s.dispatched == {} && s.bar.count == 0
    ensures forall i: nat | i < n :: s.cpus[i].mode == Work && !s.cpus[i].handling && s.cpus[i].queue == []
  {
    var bar := B.Met(n, 0);
    s := State(bar, seq(n, (i: nat) => Cpu(Work, false, None, [])), {}, {});
  }

  // ---------------------------------------------------------------- where messages are

  ghost predicate Distinct(q: seq<Msg>)
  {
    forall a: nat, b: nat | a < b < |q| :: q[a] != q[b]
  }

  // What is pending on a CPU was sent to it, is pending once, and is not dispatched yet. What is dispatched was sent.
  ghost predicate Exact(s: State)
  {
    && (forall m: Msg | m in s.dispatched :: m in s.sent)
    && (forall i: nat, m: Msg | i < |s.cpus| && Pending(s.cpus[i], m) ::
          m in s.sent && m !in s.dispatched && m.to == i)
    && (forall i: nat | i < |s.cpus| ::
          && Distinct(s.cpus[i].queue)
          && (s.cpus[i].held.Some? ==> s.cpus[i].held.value !in s.cpus[i].queue))
  }

  lemma SendExact(s: State, s': State, i: nat, m: Msg)
    requires Exact(s) && Send(s, s', i, m)
    ensures Exact(s')
  {
    assert forall j: nat | j < |s.cpus| :: !Pending(s.cpus[j], m);
    forall j: nat, x: Msg | j < |s'.cpus| && Pending(s'.cpus[j], x)
      ensures x in s'.sent && x !in s'.dispatched && x.to == j
    {
      if x != m { assert Pending(s.cpus[j], x); }
    }
  }

  lemma OthersExact(s: State, s': State, plan: Plan, i: nat)
    requires Exact(s) && StepOf(s, s', plan, i) && forall m: Msg :: !Send(s, s', i, m)
    ensures Exact(s')
  {
    hide B.Arrive, B.Leave;
    forall j: nat, m: Msg | j < |s'.cpus| && Pending(s'.cpus[j], m)
      ensures m in s'.sent && m !in s'.dispatched && m.to == j
    {
      assert Pending(s.cpus[j], m);
    }
    forall m: Msg | m in s'.dispatched ensures m in s'.sent {
      if m !in s.dispatched { assert Pending(s.cpus[i], m); }
    }
  }

  lemma ExactStep(s: State, s': State, plan: Plan, i: nat)
    requires Exact(s) && StepOf(s, s', plan, i)
    ensures Exact(s')
  {
    hide Exact, Send;
    if m: Msg :| Send(s, s', i, m) { SendExact(s, s', i, m); } else { OthersExact(s, s', plan, i); }
  }

  lemma {:induction false} RunExact(run: seq<State>, plan: Plan, who: seq<nat>, t: nat)
    requires Run(run, plan, who) && t < |run|
    ensures Exact(run[t])
  {
    hide StepOf, Exact;
    if t == 0 {
      StartsExact(run[0]);
    } else {
      RunExact(run, plan, who, t - 1);
      assert StepOf(run[t - 1], run[t - 1 + 1], plan, who[t - 1]);
      ExactStep(run[t - 1], run[t], plan, who[t - 1]);
    }
  }

  lemma StartsExact(s: State)
    requires Init(s)
    ensures Exact(s)
  {
  }

  // At any moment, what was sent is what was dispatched together with what is pending on its target.
  lemma EachInOnePlace(run: seq<State>, plan: Plan, who: seq<nat>, t: nat, m: Msg)
    requires Run(run, plan, who) && t < |run|
    ensures var s := run[t];
            && (m in s.sent <==> m in s.dispatched || (m.to < |s.cpus| && Pending(s.cpus[m.to], m)))
            && (forall i: nat | i < |s.cpus| && Pending(s.cpus[i], m) :: i == m.to && m !in s.dispatched)
            && (forall i: nat | i < |s.cpus| :: multiset(s.cpus[i].queue)[m] <= 1 &&
                  (s.cpus[i].held == Some(m) ==> m !in s.cpus[i].queue))
  {
    RunInv(run, plan, who, t);
    RunExact(run, plan, who, t);
    forall i: nat | i < |run[t].cpus| ensures multiset(run[t].cpus[i].queue)[m] <= 1 { Once(run[t].cpus[i].queue, m); }
  }

  lemma {:induction false} Once(q: seq<Msg>, m: Msg)
    requires Distinct(q)
    ensures multiset(q)[m] <= 1
  {
    if q != [] {
      Once(q[1..], m);
      assert q == [q[0]] + q[1..];
      assert q[0] == m ==> m !in q[1..];
    }
  }

  // A message is dispatched by its target, which has just had it at the head of its queue or in hand.
  lemma DispatchedByTarget(run: seq<State>, plan: Plan, who: seq<nat>, t: nat, m: Msg)
    requires Run(run, plan, who) && t + 1 < |run| && m !in run[t].dispatched && m in run[t + 1].dispatched
    ensures who[t] == m.to < |run[t].cpus| && run[t].cpus[m.to].held == Some(m)
    ensures run[t + 1].cpus[m.to].held == None && run[t + 1].dispatched == run[t].dispatched + {m}
  {
    RunExact(run, plan, who, t);
    assert StepOf(run[t], run[t + 1], plan, who[t]);
    assert Pending(run[t].cpus[who[t]], m);
  }

  // A message is sent from a CPU's own work outside any barrier, or by the handler of another message, and goes to
  // the end of its target's queue, whatever that one is doing.
  lemma SentFrom(s: State, s': State, plan: Plan, i: nat, m: Msg)
    requires StepOf(s, s', plan, i) && m !in s.sent && m in s'.sent
    ensures i < |s.cpus| && m.to < |s.cpus| && (s.cpus[i].held.Some? || (s.cpus[i].mode == Work && !s.cpus[i].handling))
    ensures s' == s.(cpus := s'.cpus, sent := s.sent + {m}) && |s'.cpus| == |s.cpus|
    ensures s'.cpus[m.to] == s.cpus[m.to].(queue := s.cpus[m.to].queue + [m])
    ensures forall j: nat | j < |s.cpus| && j != m.to :: s'.cpus[j] == s.cpus[j]
  {
    hide B.Arrive, B.Leave;
  }

  // And each such CPU can send, to any CPU.
  lemma SendAlone(s: State, plan: Plan, i: nat, to: nat, id: nat) returns (s': State)
    requires Inv(s, plan) && i < |s.cpus| && to < |s.cpus|
    requires s.cpus[i].held.Some? || (s.cpus[i].mode == Work && !s.cpus[i].handling)
    requires Msg(id, to, s.bar.cpus[i].arrived) !in s.sent
    ensures StepOf(s, s', plan, i) && s'.sent == s.sent + {Msg(id, to, s.bar.cpus[i].arrived)}
  {
    var m := Msg(id, to, s.bar.cpus[i].arrived);
    s' := s.(cpus := s.cpus[to := s.cpus[to].(queue := s.cpus[to].queue + [m])], sent := s.sent + {m});
    assert Send(s, s', i, m);
  }

  // ---------------------------------------------------------------- the handler on its own

  // s' is reached from s in n steps of CPU i, none of which sends a message.
  ghost predicate Alone(s: State, s': State, plan: Plan, i: nat, n: nat)
    decreases n
  {
    if n == 0 then s' == s
    else exists u: State :: StepOf(s, u, plan, i) && u.sent == s.sent && Alone(u, s', plan, i, n - 1)
  }

  function PendingOn(c: Cpu): set<Msg>
  {
    (set m: Msg | m in c.queue) + if c.held.Some? then {c.held.value} else {}
  }

  // The handler of CPU i has run.
  function Emptied(s: State, i: nat): State
    requires i < |s.cpus|
  {
    var c := s.cpus[i];
    s.(cpus := s.cpus[i := Cpu(if c.mode == Drain then Drained else c.mode, false, None, [])],
       dispatched := s.dispatched + PendingOn(c))
  }

  predicate MayRun(c: Cpu)
  {
    && (c.held.Some? ==> c.handling)
    && (c.handling || c.mode == Work || c.mode == Spin || c.mode == Drain)
  }

  function Left(c: Cpu): nat
  {
    2 * |c.queue| + (if c.held.Some? then 1 else 0) + if c.handling then 0 else 1
  }

  lemma HandlerStep(s: State, plan: Plan, i: nat) returns (u: State)
    requires i < |s.cpus| && MayRun(s.cpus[i])
    requires s.cpus[i].handling ==> s.cpus[i].held.Some? || s.cpus[i].queue != []
    ensures StepOf(s, u, plan, i) && u.sent == s.sent && i < |u.cpus| && MayRun(u.cpus[i]) && u.cpus[i].handling
    ensures Emptied(u, i) == Emptied(s, i) && Left(u.cpus[i]) < Left(s.cpus[i])
  {
    var c := s.cpus[i];
    if !c.handling {
      u := s.(cpus := s.cpus[i := c.(handling := true)]);
      assert Enter(s, u, i);
    } else if c.held.Some? {
      u := s.(cpus := s.cpus[i := c.(held := None)], dispatched := s.dispatched + {c.held.value});
      assert Dispatch(s, u, i);
      assert u.dispatched + PendingOn(u.cpus[i]) == s.dispatched + PendingOn(c);
    } else {
      u := s.(cpus := s.cpus[i := c.(held := Some(c.queue[0]), queue := c.queue[1..])]);
      assert Pop(s, u, i);
      assert c.queue == [c.queue[0]] + c.queue[1..];
      assert PendingOn(u.cpus[i]) == PendingOn(c);
    }
  }

  // cpu_msg_handler can run at work and in and after the spin of a first half, needs nobody else, and dispatches all
  // that is pending.
  lemma {:induction false} HandlerRuns(s: State, plan: Plan, i: nat) returns (n: nat)
    requires i < |s.cpus| && (s.cpus[i].held.Some? ==> s.cpus[i].handling)
    requires s.cpus[i].handling || s.cpus[i].mode == Work || s.cpus[i].mode == Spin || s.cpus[i].mode == Drain
    ensures Alone(s, Emptied(s, i), plan, i, n)
    decreases Left(s.cpus[i])
  {
    hide StepOf;
    var c := s.cpus[i];
    if c.handling && c.held.None? && c.queue == [] {
      ExitAlone(s, plan, i);
      n := 1;
    } else {
      var u := HandlerStep(s, plan, i);
      hide Emptied;
      var left := HandlerRuns(u, plan, i);
      n := left + 1;
    }
  }

  lemma ExitAlone(s: State, plan: Plan, i: nat)
    requires i < |s.cpus| && s.cpus[i].handling && s.cpus[i].held.None? && s.cpus[i].queue == []
    ensures Alone(s, Emptied(s, i), plan, i, 1)
  {
    var u := Emptied(s, i);
    assert u.dispatched == s.dispatched;
    assert Exit(s, u, i);
    assert Alone(u, u, plan, i, 0);
  }

  // ---------------------------------------------------------------- a flush comes to its end

  // s' is reached from s in n steps of whatever CPUs, none of which sends a message.
  ghost predicate Path(s: State, s': State, plan: Plan, n: nat)
    decreases n
  {
    if n == 0 then s' == s
    else exists u: State, i: nat :: StepOf(s, u, plan, i) && u.sent == s.sent && Path(u, s', plan, n - 1)
  }

  // All CPUs are back at work after their T-th arrival.
  predicate Back(s: State, T: nat)
  {
    |s.bar.cpus| == |s.cpus| && forall i: nat | i < |s.cpus| :: At(s.cpus[i], s.bar.cpus[i].arrived, T)
  }

  predicate At(c: Cpu, arrived: nat, T: nat)
  {
    c.mode == Work && !c.handling && arrived == T
  }

  predicate Upto(b: B.State, T: nat)
  {
    forall i: nat | i < |b.cpus| :: b.cpus[i].arrived <= T
  }

  // What CPU c has to do until it is back.
  function Cost(c: Cpu, arrived: nat, T: nat): nat
    requires arrived <= T
  {
    (T - arrived) * 10 + 2 * |c.queue| + (if c.held.Some? then 1 else 0) +
    match c.mode
    case Work => if c.handling then 1 else 0
    case Wait => 1
    case Spin => if c.handling then 7 else 6
    case Drain => if c.handling then 3 else 4
    case Drained => 2
  }

  // What the first k CPUs have to do.
  function Costs(s: State, T: nat, k: nat): nat
    requires k <= |s.cpus| == |s.bar.cpus| && Upto(s.bar, T)
  {
    if k == 0 then 0 else Costs(s, T, k - 1) + Cost(s.cpus[k - 1], s.bar.cpus[k - 1].arrived, T)
  }

  lemma {:induction false} CostsDrop(s: State, s': State, T: nat, i: nat, k: nat)
    requires k <= |s.cpus| == |s.bar.cpus| == |s'.cpus| == |s'.bar.cpus| && Upto(s.bar, T) && Upto(s'.bar, T)
    requires i < |s.cpus| && Cost(s'.cpus[i], s'.bar.cpus[i].arrived, T) < Cost(s.cpus[i], s.bar.cpus[i].arrived, T)
    requires forall j: nat | j < |s.cpus| && j != i ::
               s'.cpus[j] == s.cpus[j] && s'.bar.cpus[j].arrived == s.bar.cpus[j].arrived
    ensures Costs(s', T, k) <= Costs(s, T, k) && (i < k ==> Costs(s', T, k) < Costs(s, T, k))
  {
    hide Cost, Upto;
    if k > 0 { CostsDrop(s, s', T, i, k - 1); }
  }

  // A step of CPU i that brings it nearer to being back.
  ghost predicate Nearer(s: State, s': State, plan: Plan, T: nat, i: nat)
  {
    && i < |s.cpus| == |s.bar.cpus| == |s'.cpus| == |s'.bar.cpus| && Upto(s.bar, T) && Upto(s'.bar, T)
    && StepOf(s, s', plan, i) && s'.sent == s.sent
    && Cost(s'.cpus[i], s'.bar.cpus[i].arrived, T) < Cost(s.cpus[i], s.bar.cpus[i].arrived, T)
    && forall j: nat | j < |s.cpus| && j != i ::
         s'.cpus[j] == s.cpus[j] && s'.bar.cpus[j].arrived == s.bar.cpus[j].arrived
  }

  // A CPU in the handler can always go on.
  lemma HandlerGoesOn(s: State, plan: Plan, T: nat, i: nat) returns (s': State)
    requires Inv(s, plan) && Upto(s.bar, T) && i < |s.cpus| && s.cpus[i].handling
    ensures Nearer(s, s', plan, T, i)
  {
    hide B.Inv;
    var c := s.cpus[i];
    if c.held.Some? {
      s' := s.(cpus := s.cpus[i := c.(held := None)], dispatched := s.dispatched + {c.held.value});
      assert Dispatch(s, s', i);
    } else if c.queue != [] {
      s' := s.(cpus := s.cpus[i := c.(held := Some(c.queue[0]), queue := c.queue[1..])]);
      assert Pop(s, s', i);
    } else {
      s' := s.(cpus := s.cpus[i := c.(handling := false, mode := if c.mode.Drain? then Drained else c.mode)]);
      assert Exit(s, s', i);
    }
  }

  // So can one that is on its way to a barrier or in between its two halves.
  lemma WalkerGoesOn(s: State, plan: Plan, T: nat, i: nat) returns (s': State)
    requires Inv(s, plan) && Upto(s.bar, T) && !plan(T) && i < |s.cpus| && !s.cpus[i].handling
    requires s.cpus[i].mode.Drain? || s.cpus[i].mode.Drained? ||
             (s.cpus[i].mode.Work? && s.bar.cpus[i].arrived < T)
    ensures Nearer(s, s', plan, T, i)
  {
    hide B.Inv;
    var c, b := s.cpus[i], s.bar.cpus[i];
    if c.mode.Drain? {
      s' := s.(cpus := s.cpus[i := c.(handling := true)]);
      assert Enter(s, s', i);
    } else {
      var next := B.Align(s.bar.count + 1, |s.bar.cpus|);
      var bar := B.State(s.bar.count + 1, s.bar.cpus[i := B.Cpu(b.arrived + 1, true, next)]);
      var first := c.mode.Work? && plan(b.arrived + 1);
      s' := s.(bar := bar, cpus := s.cpus[i := c.(mode := if first then Spin else Wait)]);
      assert B.Arrive(s.bar, bar, i);
      assert Arrive(s, s', plan, i);
    }
  }

  // And one that waits at a barrier where everyone has arrived.
  lemma WaiterGoesOn(s: State, plan: Plan, T: nat, i: nat) returns (s': State)
    requires Inv(s, plan) && Upto(s.bar, T) && i < |s.cpus| && !s.cpus[i].handling && s.bar.cpus[i].waiting
    requires forall j: nat | j < |s.cpus| :: s.bar.cpus[j].arrived >= s.bar.cpus[i].arrived
    ensures Nearer(s, s', plan, T, i)
  {
    var c := s.cpus[i];
    var r: nat :| B.Round(s.bar, r);
    B.OpenIff(s.bar, r, s.bar.cpus[i].arrived);
    var bar := s.bar.(cpus := s.bar.cpus[i := s.bar.cpus[i].(waiting := false)]);
    s' := s.(bar := bar, cpus := s.cpus[i := c.(mode := if c.mode.Spin? then Drain else Work)]);
    assert B.Leave(s.bar, bar, i);
    assert Leave(s, s', i);
  }

  // Until all are back, some CPU can go on.
  lemma SomeoneGoesOn(s: State, plan: Plan, T: nat) returns (s': State, i: nat)
    requires Inv(s, plan) && Upto(s.bar, T) && !plan(T) && !Back(s, T)
    ensures Nearer(s, s', plan, T, i)
  {
    if h: nat :| h < |s.cpus| && s.cpus[h].handling {
      i := h;
      s' := HandlerGoesOn(s, plan, T, i);
    } else if d: nat :| d < |s.cpus| && (s.cpus[d].mode.Drain? || s.cpus[d].mode.Drained? ||
                                         (s.cpus[d].mode.Work? && s.bar.cpus[d].arrived < T)) {
      i := d;
      s' := WalkerGoesOn(s, plan, T, i);
    } else {
      i := Hindmost(s, plan, T);
      s' := WaiterGoesOn(s, plan, T, i);
    }
  }

  // With nobody in the handler or on the way, a CPU that waits and is not ahead.
  lemma Hindmost(s: State, plan: Plan, T: nat) returns (i: nat)
    requires Inv(s, plan) && Upto(s.bar, T) && !plan(T) && !Back(s, T)
    requires forall d: nat | d < |s.cpus| ::
               !s.cpus[d].handling && (s.bar.cpus[d].waiting || (s.cpus[d].mode.Work? && s.bar.cpus[d].arrived == T))
    ensures i < |s.cpus| && s.bar.cpus[i].waiting
    ensures forall j: nat | j < |s.cpus| :: s.bar.cpus[j].arrived >= s.bar.cpus[i].arrived
  {
    var r: nat :| B.Round(s.bar, r);
    var w: nat :| w < |s.cpus| && s.bar.cpus[w].waiting;
    var j: nat :| j < |s.cpus| && s.bar.cpus[j].arrived == r;
    i := if s.bar.cpus[w].arrived == r then w else j;
  }

  lemma FlushedWhenBack(s: State, plan: Plan, T: nat)
    requires Inv(s, plan) && Back(s, T)
    ensures forall k: nat, m: Msg | plan(k) && k < T && m in s.sent && m.stamp < k :: m in s.dispatched
  {
    hide B.Inv;
  }

  // From every state of every run, without another message, the CPUs can get to their T-th arrival and back to work,
  // for every T that is not the first half of a flush. What was sent before a flush on the way is then dispatched.
  lemma {:induction false} ComesToItsEnd(s: State, plan: Plan, T: nat) returns (s': State, n: nat)
    requires Inv(s, plan) && Upto(s.bar, T) && !plan(T)
    ensures Path(s, s', plan, n) && Back(s', T) && Inv(s', plan) && s'.sent == s.sent
    ensures forall k: nat, m: Msg | plan(k) && k < T && m in s.sent && m.stamp < k :: m in s'.dispatched
    decreases Costs(s, T, |s.cpus|)
  {
    hide Inv, StepOf, Cost, Upto;
    if Back(s, T) {
      s', n := s, 0;
      FlushedWhenBack(s, plan, T);
    } else {
      var u, i := SomeoneGoesOn(s, plan, T);
      CostsDrop(s, u, T, i, |s.cpus|);
      StepInv(s, u, plan, i);
      var left: nat;
      s', left := ComesToItsEnd(u, plan, T);
      n := left + 1;
    }
  }

}
