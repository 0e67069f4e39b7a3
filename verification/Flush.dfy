/**
 cpu_sync_and_clear_msgs (src/core/inc/cpu.h): a barrier whose first half drains the message queues.

 `plan(k)` says that the k-th arrival of every CPU is the first half of such a call; the next arrival is then its
 second half. Other arrivals are plain barriers. Every call is made outside a message handler; a handler dispatches
 messages one by one until its queue is empty and may send further ones.
 */
module Flush {
  import B = Barrier

  // A message carries the number of arrivals its sender had made when sending it.
  datatype Msg = Msg(id: nat, to: nat, stamp: nat)

  datatype Option<+T> = None | Some(value: T)

  // Work: outside any barrier. Wait: in the spin of a plain barrier or of a second half. Spin: in the spin of a first
  // half. Drain: after it, before the last run of the handler. Drained: after that run.
  datatype Mode = Work | Wait | Spin | Drain | Drained

  datatype Cpu = Cpu(mode: Mode, handling: bool, held: Option<Msg>, queue: seq<Msg>)

  datatype State = State(bar: B.State, cpus: seq<Cpu>, sent: set<Msg>, dispatched: set<Msg>)

  type Plan = nat -> bool

  ghost predicate Init(s: State)
  {
    && B.Init(s.bar) && |s.cpus| == |s.bar.cpus| && s.sent == {} && s.dispatched == {}
    && forall i: nat | i < |s.cpus| :: s.cpus[i] == Cpu(Work, false, None, [])
  }

  // cpu_send_msg by i, from its own work or from the handler of the message it holds.
  ghost predicate Send(s: State, s': State, i: nat, m: Msg)
  {
    && i < |s.cpus| && |s.bar.cpus| == |s.cpus| && m.to < |s.cpus|
    && (if s.cpus[i].handling then s.cpus[i].held.Some? else s.cpus[i].mode.Work?)
    && m.stamp == s.bar.cpus[i].arrived && m !in s.sent
    && s' == s.(cpus := s.cpus[m.to := s.cpus[m.to].(queue := s.cpus[m.to].queue + [m])], sent := s.sent + {m})
  }

  // cpu_msg_handler begins: from an interrupt, or from the loops of cpu_sync_and_clear_msgs.
  ghost predicate Enter(s: State, s': State, i: nat)
  {
    && i < |s.cpus| && !s.cpus[i].handling && (s.cpus[i].mode.Work? || s.cpus[i].mode.Spin? || s.cpus[i].mode.Drain?)
    && s' == s.(cpus := s.cpus[i := s.cpus[i].(handling := true)])
  }

  // cpu_get_msg takes the head of the queue.
  ghost predicate Pop(s: State, s': State, i: nat)
  {
    && i < |s.cpus| && s.cpus[i].handling && s.cpus[i].held.None? && s.cpus[i].queue != []
    && s' == s.(cpus := s.cpus[i := s.cpus[i].(held := Some(s.cpus[i].queue[0]), queue := s.cpus[i].queue[1..])])
  }

  // The handler of the message held returns.
  ghost predicate Dispatch(s: State, s': State, i: nat)
  {
    && i < |s.cpus| && s.cpus[i].handling && s.cpus[i].held.Some?
    && s' == s.(cpus := s.cpus[i := s.cpus[i].(held := None)], dispatched := s.dispatched + {s.cpus[i].held.value})
  }

  // cpu_msg_handler returns when the queue is empty.
  ghost predicate Exit(s: State, s': State, i: nat)
  {
    && i < |s.cpus| && s.cpus[i].handling && s.cpus[i].held.None? && s.cpus[i].queue == []
    && s' == s.(cpus := s.cpus[i := s.cpus[i].(handling := false,
                                               mode := if s.cpus[i].mode.Drain? then Drained else s.cpus[i].mode)])
  }

  ghost predicate Arrive(s: State, s': State, plan: Plan, i: nat)
  {
    && i < |s.cpus| && !s.cpus[i].handling && i < |s.bar.cpus| && B.Arrive(s.bar, s'.bar, i)
    && (s.cpus[i].mode.Work? || s.cpus[i].mode.Drained?)
    && var first := s.cpus[i].mode.Work? && plan(s.bar.cpus[i].arrived + 1);
       s' == s.(bar := s'.bar, cpus := s.cpus[i := s.cpus[i].(mode := if first then Spin else Wait)])
  }

  ghost predicate Leave(s: State, s': State, i: nat)
  {
    && i < |s.cpus| && !s.cpus[i].handling && B.Leave(s.bar, s'.bar, i)
    && (s.cpus[i].mode.Wait? || s.cpus[i].mode.Spin?)
    && s' == s.(bar := s'.bar, cpus := s.cpus[i := s.cpus[i].(mode := if s.cpus[i].mode.Spin? then Drain else Work)])
  }

  ghost predicate StepOf(s: State, s': State, plan: Plan, i: nat)
  {
    || (exists m: Msg :: Send(s, s', i, m))
    || Enter(s, s', i) || Pop(s, s', i) || Dispatch(s, s', i) || Exit(s, s', i)
    || Arrive(s, s', plan, i) || Leave(s, s', i)
  }

  // ---------------------------------------------------------------- invariant

  // First halves are followed by second halves, and arrivals are counted from 1.
  ghost predicate GoodPlan(plan: Plan)
  {
    !plan(0) && forall k: nat | plan(k) :: !plan(k + 1)
  }

  ghost predicate Pending(c: Cpu, m: Msg)
  {
    m in c.queue || c.held == Some(m)
  }

  // Messages pending on a CPU are not older than its last completed first half; nor, once it has drained, than
  // the first half it is in.
  ghost predicate Fresh(c: Cpu, arrived: nat, plan: Plan, m: Msg)
  {
    && (forall k: nat | plan(k) && k < arrived :: m.stamp >= k)
    && (c.mode.Drained? ==> m.stamp >= arrived)
  }

  ghost predicate CpuInv(c: Cpu, b: B.Cpu, plan: Plan)
  {
    && (c.mode.Spin? || c.mode.Wait? <==> b.waiting)
    && (plan(b.arrived) <==> c.mode.Spin? || c.mode.Drain? || c.mode.Drained?)
    && (c.held.Some? ==> c.handling)
    && (c.mode.Wait? || c.mode.Drained? ==> !c.handling)
    && (forall m: Msg | Pending(c, m) :: Fresh(c, b.arrived, plan, m))
  }

  ghost predicate Inv(s: State, plan: Plan)
  {
    && GoodPlan(plan) && B.Inv(s.bar) && |s.bar.cpus| == |s.cpus|
    && (forall i: nat | i < |s.cpus| :: CpuInv(s.cpus[i], s.bar.cpus[i], plan))
    && (forall m: Msg | m in s.sent :: m.to < |s.cpus| && (m in s.dispatched || Pending(s.cpus[m.to], m)))
  }

  lemma InitInv(s: State, plan: Plan)
    requires Init(s) && GoodPlan(plan)
    ensures Inv(s, plan)
  {
    B.InitInv(s.bar);
  }

  // No CPU is more than one arrival ahead, and none is behind a CPU that is past its barrier.
  lemma Spread(b: B.State, i: nat, j: nat)
    requires B.Inv(b) && i < |b.cpus| && j < |b.cpus|
    ensures b.cpus[i].arrived + 1 >= b.cpus[j].arrived
    ensures !b.cpus[j].waiting ==> b.cpus[i].arrived >= b.cpus[j].arrived
  {
  }

  lemma SendInv(s: State, s': State, plan: Plan, i: nat, m: Msg)
    requires Inv(s, plan) && Send(s, s', i, m)
    ensures Inv(s', plan)
  {
    hide B.Inv, B.Round;
    var j := m.to;
    Spread(s.bar, i, j);
    forall x: Msg | Pending(s'.cpus[j], x) ensures Fresh(s'.cpus[j], s.bar.cpus[j].arrived, plan, x) {
      if x != m { assert Pending(s.cpus[j], x) && Fresh(s.cpus[j], s.bar.cpus[j].arrived, plan, x); }
    }
    forall x: Msg | x in s'.sent ensures x.to < |s'.cpus| && (x in s'.dispatched || Pending(s'.cpus[x.to], x)) {
      if x != m { assert x in s.dispatched || Pending(s.cpus[x.to], x); }
    }
  }

  lemma HandlerInv(s: State, s': State, plan: Plan, i: nat)
    requires Inv(s, plan) && (Enter(s, s', i) || Pop(s, s', i) || Dispatch(s, s', i) || Exit(s, s', i))
    ensures Inv(s', plan)
  {
    forall x: Msg | Pending(s'.cpus[i], x) ensures Fresh(s'.cpus[i], s.bar.cpus[i].arrived, plan, x) {
      assert Pending(s.cpus[i], x) && Fresh(s.cpus[i], s.bar.cpus[i].arrived, plan, x);
    }
    forall x: Msg | x in s'.sent ensures x.to < |s'.cpus| && (x in s'.dispatched || Pending(s'.cpus[x.to], x)) {
      assert x in s.dispatched || Pending(s.cpus[x.to], x);
    }
  }

  lemma ArriveInv(s: State, s': State, plan: Plan, i: nat)
    requires Inv(s, plan) && Arrive(s, s', plan, i)
    ensures Inv(s', plan)
  {
    B.StepInv(s.bar, s'.bar);
    forall x: Msg | Pending(s'.cpus[i], x) ensures Fresh(s'.cpus[i], s'.bar.cpus[i].arrived, plan, x) {
      assert Pending(s.cpus[i], x) && Fresh(s.cpus[i], s.bar.cpus[i].arrived, plan, x);
    }
    assert forall x: Msg | x in s.sent :: Pending(s'.cpus[x.to], x) == Pending(s.cpus[x.to], x);
  }

  lemma LeaveInv(s: State, s': State, plan: Plan, i: nat)
    requires Inv(s, plan) && Leave(s, s', i)
    ensures Inv(s', plan)
  {
    B.StepInv(s.bar, s'.bar);
    forall x: Msg | Pending(s'.cpus[i], x) ensures Fresh(s'.cpus[i], s'.bar.cpus[i].arrived, plan, x) {
      assert Pending(s.cpus[i], x) && Fresh(s.cpus[i], s.bar.cpus[i].arrived, plan, x);
    }
    assert forall x: Msg | x in s.sent :: Pending(s'.cpus[x.to], x) == Pending(s.cpus[x.to], x);
  }

  lemma StepInv(s: State, s': State, plan: Plan, i: nat)
    requires Inv(s, plan) && StepOf(s, s', plan, i)
    ensures Inv(s', plan)
  {
    hide Inv, Send, Enter, Pop, Dispatch, Exit, Arrive, Leave;
    if m: Msg :| Send(s, s', i, m) { SendInv(s, s', plan, i, m); }
    else if Arrive(s, s', plan, i) { ArriveInv(s, s', plan, i); }
    else if Leave(s, s', i) { LeaveInv(s, s', plan, i); }
    else { HandlerInv(s, s', plan, i); }
  }

  // ---------------------------------------------------------------- whole runs

  // `who[k]` is the CPU that takes step k.
  ghost predicate Run(run: seq<State>, plan: Plan, who: seq<nat>)
  {
    && |run| > 0 && |who| + 1 == |run| && Init(run[0]) && GoodPlan(plan)
    && forall k: nat | k < |who| :: StepOf(run[k], run[k + 1], plan, who[k])
  }

  lemma {:induction false} RunInv(run: seq<State>, plan: Plan, who: seq<nat>, t: nat)
    requires Run(run, plan, who) && t < |run|
    ensures Inv(run[t], plan)
  {
    if t == 0 {
      InitInv(run[0], plan);
    } else {
      RunInv(run, plan, who, t - 1);
      assert StepOf(run[t - 1], run[t - 1 + 1], plan, who[t - 1]);
      StepInv(run[t - 1], run[t], plan, who[t - 1]);
    }
  }

  // A CPU that no longer waits has left.
  lemma LeftBy(s: State, s': State, plan: Plan, j: nat, i: nat)
    requires StepOf(s, s', plan, j) && i < |s.bar.cpus| && i < |s'.bar.cpus|
    requires s.bar.cpus[i].waiting && !s'.bar.cpus[i].waiting
    ensures Leave(s, s', i) && j == i
  {
  }

  // CPU i leaves the second half of a flushing barrier that began with everyone's k-th arrival, or any later barrier,
  // only when every message sent before its sender's k-th arrival has been dispatched.
  lemma FlushedBeforeLeaving(run: seq<State>, plan: Plan, who: seq<nat>, t: nat, i: nat, k: nat, m: Msg)
    requires Run(run, plan, who) && t + 1 < |run| && i < |run[t].bar.cpus| && i < |run[t + 1].bar.cpus|
    requires run[t].bar.cpus[i].waiting && !run[t + 1].bar.cpus[i].waiting
    requires plan(k) && run[t].bar.cpus[i].arrived > k
    requires m in run[t].sent && m.stamp < k
    ensures m in run[t].dispatched
  {
    var s := run[t];
    RunInv(run, plan, who, t);
    assert StepOf(s, run[t + 1], plan, who[t]);
    LeftBy(s, run[t + 1], plan, who[t], i);
    var r: nat :| B.Round(s.bar, r);
    B.OpenIff(s.bar, r, s.bar.cpus[i].arrived);
    assert Pending(s.cpus[m.to], m) ==> Fresh(s.cpus[m.to], s.bar.cpus[m.to].arrived, plan, m);
  }
}
