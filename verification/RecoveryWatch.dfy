/**
 What the health monitor starts (src/core/health_monitor.c, src/core/vm_recovery.c): nothing where the configuration
 says so, and, of one CPU on its own, what the two functions do when read from top to bottom.
 */
module RecoveryWatch {
  import opened Recovery
  import B = Barrier

  // ---------------------------------------------------------------- VMs that are not to be recovered

  // No recovery was started, and no CPU is past the first check of vm_recovery_start.
  ghost predicate LeftAlone(s: State)
  {
    && s.count == 0 && s.started == 0 && s.writes == 0 && !s.status.Recovering?
    && |s.queue| == |s.joined| == |s.resets| == |s.pcs|
    && forall i: nat | i < |s.pcs| :: s.queue[i] == 0 && s.joined[i] == 0 && s.resets[i] == 0 && Monitoring(s.pcs[i])
  }

  predicate Monitoring(pc: Pc)
  {
    pc.Guest? || pc.Late? || pc.Overdue? || pc.Marked?
  }

  lemma LeaveAlone(s: State, s': State, c: Config, i: nat)
    requires LeftAlone(s) && Step(s, s', c, i) && !c.auto
    ensures LeftAlone(s') && |s'.pcs| == |s.pcs|
  {
    hide LeftAlone, Watch, B.Arrive, B.Leave;
    if Watch(s, s', c, i) { WatchAlone(s, s', c, i); } else { NothingElse(s, s', c, i); }
  }

  lemma WatchAlone(s: State, s': State, c: Config, i: nat)
    requires LeftAlone(s) && Watch(s, s', c, i) && !c.auto
    ensures LeftAlone(s') && |s'.pcs| == |s.pcs|
  {
    assert i < |s.pcs| ==> Monitoring(s.pcs[i]);
  }

  // Where no recovery was started a CPU does nothing but watch.
  lemma NothingElse(s: State, s': State, c: Config, i: nat)
    requires LeftAlone(s) && Step(s, s', c, i)
    ensures Watch(s, s', c, i)
  {
    hide Watch, B.Arrive, B.Leave;
    assert i < |s.pcs| ==> Monitoring(s.pcs[i]);
  }

  // Without auto_recover no run ever starts a recovery, sends a reset, rewrites the image or resets a vCPU.
  lemma {:induction false} NoAutoRecovery(run: seq<State>, c: Config, who: seq<nat>, t: nat)
    requires Run(run, c, who) && t < |run| && !c.auto
    ensures LeftAlone(run[t])
  {
    hide Step, LeftAlone;
    if t == 0 {
      StartsAlone(run[0], c);
    } else {
      NoAutoRecovery(run, c, who, t - 1);
      assert Step(run[t - 1], run[t - 1 + 1], c, who[t - 1]);
      LeaveAlone(run[t - 1], run[t], c, who[t - 1]);
    }
  }

  lemma StartsAlone(s: State, c: Config)
    requires Init(s, c)
    ensures LeftAlone(s)
  {
  }

  // A VM that is not monitored stays so, and its CPUs never leave the guest.
  ghost predicate Unwatched(s: State)
  {
    LeftAlone(s) && s.status == NotMonitored && forall i: nat | i < |s.pcs| :: s.pcs[i] == Guest
  }

  lemma NoStep(s: State, s': State, c: Config, i: nat)
    requires Unwatched(s)
    ensures !Step(s, s', c, i)
  {
    hide B.Arrive, B.Leave;
  }

  // Where monitoring is off no run goes anywhere.
  lemma NotMonitoredIdle(run: seq<State>, c: Config, who: seq<nat>)
    requires Run(run, c, who) && !c.enabled
    ensures who == [] && Unwatched(run[0])
  {
    hide Step, LeftAlone;
    StartsAlone(run[0], c);
    if who != [] {
      assert Step(run[0], run[0 + 1], c, who[0]);
      NoStep(run[0], run[1], c, who[0]);
    }
  }

  // ---------------------------------------------------------------- one CPU on its own

  // What comes of health_monitor_check: the status, recovery_count, and whether a recovery was started.
  datatype Result = Result(status: Status, count: nat, starts: bool)

  // health_monitor_check from top to bottom, vm_recovery_start included.
  function Check(status: Status, count: nat, c: Config, overdue: bool, enough: bool): Result
  {
    if status == NotMonitored || status == Recovering || !overdue then Result(status, count, false)
    else if !enough then Result(Suspect, count, false)
    else if status == Unhealthy then Result(Unhealthy, count, false)
    else Start(Unhealthy, count, c)
  }

  // vm_recovery_start from top to bottom.
  function Start(status: Status, count: nat, c: Config): Result
  {
    if !c.auto then Result(status, count, false)
    else if c.max > 0 && count >= c.max then Result(status, count, false)
    else if status == Recovering then Result(status, count, false)
    else Result(Recovering, count + 1, true)
  }

  // What is left of a check for a CPU at this place, run to its end without other CPUs in between.
  function Rest(s: State, c: Config, pc: Pc, enough: bool): Result
  {
    match pc
    case Late => Check(s.status, s.count, c, true, enough)
    case Overdue(prev) =>
      if !enough then Result(Suspect, s.count, false)
      else if prev == Unhealthy then Result(Unhealthy, s.count, false)
      else Start(Unhealthy, s.count, c)
    case Marked => Start(s.status, s.count, c)
    case Counted => Start(s.status, s.count, c.(auto := true, max := 0))
    case Ready => Result(Recovering, s.count + 1, true)
    case _ => Result(s.status, s.count, false)
  }

  // A heartbeat always gets through, and makes the VM healthy whatever it was.
  lemma HeartbeatGoesOn(s: State, c: Config, i: nat)
    requires i < |s.pcs| && s.pcs[i] == Guest && s.status != NotMonitored
    ensures Step(s, s.(status := Healthy), c, i)
  {
    assert Heartbeat(s, s.(status := Healthy), i);
  }

  // With enough misses or without.
  predicate Comes(s: State, c: Config, pc: Pc, r: Result)
  {
    r == Rest(s, c, pc, true) || r == Rest(s, c, pc, false)
  }

  // The CPU is inside a check.
  predicate Checking(pc: Pc)
  {
    pc.Late? || pc.Overdue? || pc.Marked? || pc.Counted? || pc.Ready?
  }

  // A CPU that takes a step inside a check has the rest of it before it, or has just done it, in one of its two
  // forms, and touches nothing but the status, the two counts and its own place.
  lemma CheckStep(s: State, s': State, c: Config, i: nat)
    requires Step(s, s', c, i) && i < |s.pcs| && Checking(s.pcs[i])
    requires s.pcs[i].Late? ==> s.status != NotMonitored && s.status != Recovering
    ensures i < |s'.pcs|
    ensures s' == s.(pcs := s.pcs[i := s'.pcs[i]], status := s'.status, count := s'.count, started := s'.started)
    ensures Checking(s'.pcs[i]) ==>
              && s'.started == s.started && !s'.pcs[i].Late?
              && forall r: Result :: Comes(s', c, s'.pcs[i], r) ==> Comes(s, c, s.pcs[i], r)
    ensures !Checking(s'.pcs[i]) ==>
              && s'.started <= s.started + 1
              && Comes(s, c, s.pcs[i], Result(s'.status, s'.count, s'.started > s.started))
              && s'.pcs[i] == (if s'.started > s.started then Sending(0) else Guest)
  {
    hide B.Arrive, B.Leave;
  }

  // A CPU leaves the guest for a check only where the VM is monitored and not being recovered.
  lemma CheckBegins(s: State, s': State, c: Config, i: nat)
    requires Step(s, s', c, i) && i < |s.pcs| && s.pcs[i].Guest? && i < |s'.pcs| && Checking(s'.pcs[i])
    ensures s'.pcs[i] == Late && s' == s.(pcs := s.pcs[i := Late]) && s.status != NotMonitored && s.status != Recovering
  {
    hide B.Arrive, B.Leave;
  }

  // CPU i alone takes every step, inside a check from the second state on.
  ghost predicate Alone(ss: seq<State>, c: Config, i: nat)
  {
    && |ss| >= 2 && (forall k: nat | k < |ss| :: i < |ss[k].pcs|)
    && ss[0].pcs[i] == Guest && (forall k: nat | 0 < k < |ss| - 1 :: Checking(ss[k].pcs[i]))
    && (forall k: nat | 0 < k < |ss| :: Step(ss[k - 1], ss[k], c, i))
  }

  // With no other CPU in between, a check that finds the heartbeat overdue does what the two functions say: it ends
  // in one of their outcomes, goes on to broadcast exactly if that starts a recovery, and touches nothing else.
  lemma {:induction false} CheckAlone(ss: seq<State>, c: Config, i: nat)
    requires Alone(ss, c, i) && |ss| > 2 && !Checking(ss[|ss| - 1].pcs[i])
    ensures var s, s' := ss[0], ss[|ss| - 1];
            && s' == s.(pcs := s.pcs[i := s'.pcs[i]], status := s'.status, count := s'.count, started := s'.started)
            && (Result(s'.status, s'.count, s'.started > s.started) == Check(s.status, s.count, c, true, true)
                || Result(s'.status, s'.count, s'.started > s.started) == Check(s.status, s.count, c, true, false))
            && s'.pcs[i] == (if s'.started > s.started then Sending(0) else Guest)
  {
    hide Step, Start;
    assert Step(ss[0], ss[1], c, i) && Checking(ss[1].pcs[i]);
    CheckBegins(ss[0], ss[1], c, i);
    var k := 1;
    while k < |ss| - 2
      invariant 1 <= k <= |ss| - 2 && ss[k].started == ss[0].started && (ss[k].pcs[i].Late? ==> ss[k] == ss[1])
      invariant ss[k] == ss[0].(pcs := ss[0].pcs[i := ss[k].pcs[i]], status := ss[k].status, count := ss[k].count)
      invariant forall r: Result :: Comes(ss[k], c, ss[k].pcs[i], r) ==> Comes(ss[1], c, Late, r)
    {
      CheckStep(ss[k], ss[k + 1], c, i);
      k := k + 1;
    }
    CheckStep(ss[k], ss[k + 1], c, i);
  }

  // Every check can begin, both of its forms, and every step of it can be taken.
  lemma CheckGoesOn(s: State, c: Config, i: nat, enough: bool) returns (s': State)
    requires i < |s.pcs| && (Checking(s.pcs[i]) || s.pcs[i].Guest?)
    requires s.pcs[i].Guest? ==> s.status != NotMonitored && s.status != Recovering
    ensures Step(s, s', c, i) && i < |s'.pcs|
    ensures s.pcs[i].Guest? ==> s'.pcs[i] == Late
    ensures s.pcs[i].Overdue? ==> s'.status == (if enough then Unhealthy else Suspect)
  {
    var pcs := s.pcs;
    match pcs[i]
    case Guest => s' := s.(pcs := pcs[i := Late]);
    case Late => s' := s.(pcs := pcs[i := Overdue(s.status)]);
    case Overdue(prev) =>
      if enough {
        s' := s.(pcs := pcs[i := if prev.Unhealthy? then Guest else Marked], status := Unhealthy);
        assert MarkUnhealthy(s, s', i);
      } else {
        s' := s.(pcs := pcs[i := Guest], status := Suspect);
        assert MarkSuspect(s, s', i);
      }
    case Marked => s' := s.(pcs := pcs[i := if Passes(s, c, i) then Counted else Guest]);
    case Counted => s' := s.(pcs := pcs[i := if s.status.Recovering? then Guest else Ready]);
    case Ready =>
      s' := s.(pcs := pcs[i := Sending(0)], status := Recovering, count := s.count + 1, started := s.started + 1);
      assert Commit(s, s', i);
  }
}
