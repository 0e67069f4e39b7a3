/**
 How far recovery_count can pass max_recoveries: for any number of vCPUs and any limit there is a run that reaches the
 bound of Recovery.LimitOverrun.

 The run goes through all but one of the recoveries allowed, each one started by CPU 0 and joined by all; then every CPU
 finds the heartbeat overdue and passes both checks before any of them commits.
 */
module RecoveryLimit {
  import opened Recovery
  import B = Barrier

  ghost predicate Path(run: seq<State>, c: Config, who: seq<nat>)
  {
    |run| == |who| + 1 && forall k: nat | k < |who| :: Step(run[k], run[k + 1], c, who[k])
  }

  ghost predicate Reaches(s: State, s': State, c: Config)
  {
    exists run: seq<State>, who: seq<nat> :: Path(run, c, who) && run[0] == s && run[|run| - 1] == s'
  }

  lemma Here(s: State, c: Config)
    ensures Reaches(s, s, c)
  {
    assert Path([s], c, []) && [s][|[s]| - 1] == s;
  }

  lemma Then(a: State, s: State, s': State, c: Config, i: nat)
    requires Reaches(a, s, c) && Step(s, s', c, i)
    ensures Reaches(a, s', c)
  {
    hide Step;
    var run: seq<State>, who: seq<nat> :| Path(run, c, who) && run[0] == a && run[|run| - 1] == s;
    var r, w := run + [s'], who + [i];
    forall k: nat | k < |w| ensures Step(r[k], r[k + 1], c, w[k]) {
      if k < |who| { assert Step(run[k], run[k + 1], c, who[k]); }
    }
    assert Path(r, c, w) && r[|r| - 1] == s';
  }

  // ---------------------------------------------------------------- all CPUs make the same move in turn

  // The CPUs below i are at y and the others at x; each joined r rounds and no VM_RESET is queued.
  ghost predicate Half(s: State, c: Config, i: nat, x: Pc, y: Pc, r: nat)
  {
    && Inv(s, c) && i <= |s.pcs|
    && (forall j: nat | j < i :: s.pcs[j] == y) && (forall j: nat | i <= j < |s.pcs| :: s.pcs[j] == x)
    && forall j: nat | j < |s.pcs| :: s.joined[j] == r && s.queue[j] == 0
  }

  // The step that takes a CPU from x to y is possible as far as status and count go.
  predicate CanMove(s: State, c: Config, x: Pc, y: Pc)
  {
    match x
    case Guest => y.Late? && !s.status.NotMonitored? && !s.status.Recovering?
    case Late => y == Overdue(s.status)
    case Overdue(prev) => y.Marked? && !prev.Unhealthy?
    case Marked => y.Counted? && c.auto && (c.max == 0 || s.count < c.max)
    case Counted => y.Ready? && !s.status.Recovering?
    case Ready => y == Sending(0)
    case Stop => y.B1?
    case B1 => y.To2?
    case To2 => y.B2?
    case B2 => y.Reset?
    case Reset => y.To3?
    case To3 => y.B3?
    case B3 => y.Guest?
    case _ => false
  }

  // What the sweep of a move does to status and count.
  predicate Moved(s: State, s': State, c: Config, i: nat, x: Pc)
  {
    && |s'.pcs| == |s.pcs|
    && s'.count == s.count + (if x.Ready? then |s.pcs| - i else 0)
    && (!x.Overdue? && !x.Ready? && !x.Reset? ==> s'.status == s.status)
    && (x.Overdue? ==> s'.status == if i < |s.pcs| then Unhealthy else s.status)
    && (x.Reset? && i <= c.master && c.enabled ==> s'.status == Healthy)
    && (x.Reset? && i > c.master ==> s'.status == s.status)
  }

  lemma WatchOne(s: State, c: Config, i: nat, x: Pc, y: Pc) returns (s': State)
    requires i < |s.pcs| && s.pcs[i] == x && CanMove(s, c, x, y)
    requires x.Guest? || x.Late? || x.Overdue? || x.Marked? || x.Counted? || x.Ready?
    ensures Step(s, s', c, i) && s'.pcs == s.pcs[i := y] && s'.joined == s.joined && s'.queue == s.queue
    ensures s'.count == s.count + (if x.Ready? then 1 else 0)
    ensures s'.status == if x.Overdue? then Unhealthy else if x.Ready? then Recovering else s.status
  {
    hide Inv;
    var pcs := s.pcs[i := y];
    match x
    case Guest => s' := s.(pcs := pcs); assert Miss(s, s', i);
    case Late => s' := s.(pcs := pcs); assert ReadPrev(s, s', i);
    case Overdue(prev) => s' := s.(pcs := pcs, status := Unhealthy); assert MarkUnhealthy(s, s', i);
    case Marked => s' := s.(pcs := pcs); assert CheckLimit(s, s', c, i);
    case Counted => s' := s.(pcs := pcs); assert CheckStatus(s, s', i);
    case Ready =>
      s' := s.(pcs := pcs, status := Recovering, count := s.count + 1, started := s.started + 1);
      assert Commit(s, s', i);
  }

  lemma ArriveOne(s: State, c: Config, i: nat, x: Pc, y: Pc, r: nat) returns (s': State)
    requires Half(s, c, i, x, y, r) && i < |s.pcs| && CanMove(s, c, x, y) && (x.Stop? || x.To2? || x.To3?)
    ensures Step(s, s', c, i) && s'.pcs == s.pcs[i := y] && s'.joined == s.joined && s'.queue == s.queue
    ensures s'.count == s.count && s'.status == s.status
  {
    hide B.Inv;
    assert CpuInv(s, c, i);
    var b := s.bar;
    var a := B.Cpu(b.cpus[i].arrived + 1, true, B.Align(b.count + 1, |b.cpus|));
    s' := s.(bar := B.State(b.count + 1, b.cpus[i := a]), pcs := s.pcs[i := y]);
    assert B.Arrive(b, s'.bar, i) && Arrive(s, s', i);
  }

  lemma LeaveOne(s: State, c: Config, i: nat, x: Pc, y: Pc, r: nat) returns (s': State)
    requires Half(s, c, i, x, y, r) && i < |s.pcs| && CanMove(s, c, x, y) && (x.B1? || x.B2? || x.B3?)
    ensures Step(s, s', c, i) && s'.pcs == s.pcs[i := if x.B1? && i == c.master then Install else y]
    ensures s'.joined == s.joined && s'.queue == s.queue && s'.count == s.count && s'.status == s.status
  {
    hide Account, Checked;
    var b := s.bar;
    var m: nat :| B.Round(b, m);
    assert CpuInv(s, c, i);
    forall j: nat | j < |b.cpus| ensures b.cpus[j].arrived >= b.cpus[i].arrived { assert CpuInv(s, c, j); }
    B.OpenIff(b, m, b.cpus[i].arrived);
    s' := s.(bar := b.(cpus := b.cpus[i := b.cpus[i].(waiting := false)]),
             pcs := s.pcs[i := if x.B1? && i == c.master then Install else y]);
    assert B.Leave(b, s'.bar, i) && Leave(s, s', c, i);
  }

  lemma ResetOne(s: State, c: Config, i: nat, x: Pc, y: Pc, r: nat) returns (s': State)
    requires Half(s, c, i, x, y, r) && i < |s.pcs| && CanMove(s, c, x, y) && x.Reset?
    ensures Step(s, s', c, i) && s'.pcs == s.pcs[i := y] && s'.joined == s.joined && s'.queue == s.queue
    ensures s'.count == s.count
    ensures s'.status == if i != c.master then s.status else if c.enabled then Healthy else NotMonitored
  {
    s' := s.(pcs := s.pcs[i := y], resets := s.resets[i := s.resets[i] + 1],
             status := if i != c.master then s.status else if c.enabled then Healthy else NotMonitored);
    assert DoReset(s, s', c, i);
  }

  lemma MoveOne(a: State, s: State, c: Config, i: nat, x: Pc, y: Pc, r: nat) returns (s': State)
    requires Half(s, c, i, x, y, r) && i < |s.pcs| && CanMove(s, c, x, y) && Reaches(a, s, c)
    ensures Reaches(a, s', c) && Half(s', c, i + 1, x, y, r) && s'.count == s.count + (if x.Ready? then 1 else 0)
    ensures |s'.pcs| == |s.pcs|
    ensures s'.status == if x.Overdue? then Unhealthy else if x.Ready? then Recovering
                         else if x.Reset? && i == c.master then (if c.enabled then Healthy else NotMonitored)
                             else s.status
  {
    hide Inv, Step, Reaches;
    if x.Stop? || x.To2? || x.To3? {
      s' := ArriveOne(s, c, i, x, y, r);
    } else if x.B1? || x.B2? || x.B3? {
      s' := LeaveOne(s, c, i, x, y, r);
    } else if x.Reset? {
      s' := ResetOne(s, c, i, x, y, r);
    } else {
      s' := WatchOne(s, c, i, x, y);
    }
    Then(a, s, s', c, i);
    StepInv(s, s', c, i);
    if x.B1? && i == c.master {
      var t := s'.(pcs := s'.pcs[i := To2], writes := s'.writes + 1);
      WriteStep(s', t, c, i);
      Then(a, s', t, c, i);
      StepInv(s', t, c, i);
      s' := t;
    }
  }

  lemma WriteStep(s: State, s': State, c: Config, i: nat)
    requires At(s, i, Install) && s' == s.(pcs := s.pcs[i := To2], writes := s.writes + 1)
    ensures Step(s, s', c, i)
  {
    assert Write(s, s', i);
  }

  lemma Sizes(s: State, c: Config)
    requires Inv(s, c)
    ensures Sized(s) && |s.pcs| > 0 && c.master < |s.pcs|
  {
  }

  lemma {:induction false} Sweep(a: State, s: State, c: Config, i: nat, x: Pc, y: Pc, r: nat) returns (s': State)
    requires Half(s, c, i, x, y, r) && Reaches(a, s, c) && CanMove(s, c, x, y)
    ensures Reaches(a, s', c) && Half(s', c, |s'.pcs|, x, y, r) && Moved(s, s', c, i, x)
    decreases |s.pcs| - i
  {
    hide Inv, Reaches;
    Sizes(s, c);
    s' := s;
    if i < |s.pcs| {
      var t := MoveOne(a, s, c, i, x, y, r);
      s' := Sweep(a, t, c, i + 1, x, y, r);
    }
  }

  // ---------------------------------------------------------------- one recovery from rest

  // Every CPU runs the guest, healthy, with r rounds joined and nothing queued.
  ghost predicate Rest(s: State, c: Config, r: nat)
  {
    Half(s, c, 0, Guest, Guest, r) && s.status.Healthy?
  }

  // CPU 0 alone finds the heartbeat overdue and starts a recovery.
  lemma Start(a: State, s: State, c: Config, r: nat) returns (s': State)
    requires Rest(s, c, r) && Reaches(a, s, c) && c.auto && s.count < c.max
    ensures Reaches(a, s', c) && Inv(s', c) && s'.pcs == s.pcs[0 := Sending(0)] && s'.joined == s.joined
        && s'.queue == s.queue
    ensures s'.count == s.count + 1
  {
    hide Inv, Step, Reaches;
    Sizes(s, c);
    s' := s;
    s' := Alone(a, s', c, Guest, Late);
    s' := Alone(a, s', c, Late, Overdue(Healthy));
    s' := Alone(a, s', c, Overdue(Healthy), Marked);
    s' := Alone(a, s', c, Marked, Counted);
    s' := Alone(a, s', c, Counted, Ready);
    s' := Alone(a, s', c, Ready, Sending(0));
    assert s'.pcs == s.pcs[0 := Sending(0)];
  }

  lemma Alone(a: State, s: State, c: Config, x: Pc, y: Pc) returns (s': State)
    requires Reaches(a, s, c) && Inv(s, c) && |s.pcs| > 0 && s.pcs[0] == x && CanMove(s, c, x, y)
    requires x.Guest? || x.Late? || x.Overdue? || x.Marked? || x.Counted? || x.Ready?
    ensures Reaches(a, s', c) && Inv(s', c) && s'.pcs == s.pcs[0 := y] && s'.joined == s.joined && s'.queue == s.queue
    ensures s'.count == s.count + (if x.Ready? then 1 else 0)
    ensures s'.status == if x.Overdue? then Unhealthy else if x.Ready? then Recovering else s.status
  {
    hide Inv, Step, Reaches;
    s' := WatchOne(s, c, 0, x, y);
    Then(a, s, s', c, 0);
    StepInv(s, s', c, 0);
  }

  // CPU 0 has sent VM_RESET to the CPUs below k.
  ghost predicate Spreading(s: State, c: Config, k: nat, r: nat)
  {
    && Inv(s, c) && k <= |s.pcs| && s.pcs[0] == Sending(k)
    && (forall j: nat | 0 < j < |s.pcs| :: s.pcs[j] == Guest)
    && forall j: nat | j < |s.pcs| :: s.joined[j] == r && s.queue[j] == if 0 < j < k then 1 else 0
  }

  lemma {:induction false} SendAll(a: State, s: State, c: Config, k: nat, r: nat) returns (s': State)
    requires Reaches(a, s, c) && Spreading(s, c, k, r)
    ensures Reaches(a, s', c) && |s'.pcs| == |s.pcs| && Spreading(s', c, |s.pcs|, r) && s'.count == s.count
    decreases |s.pcs| - k
  {
    hide Inv, Step, Reaches;
    s' := s;
    if k < |s.pcs| {
      var t := SendOne(s, c, k, r);
      Then(a, s, t, c, 0);
      StepInv(s, t, c, 0);
      Sizes(s, c); Sizes(t, c);
      s' := SendAll(a, t, c, k + 1, r);
    }
  }

  lemma SendOne(s: State, c: Config, k: nat, r: nat) returns (s': State)
    requires Spreading(s, c, k, r) && k < |s.pcs|
    ensures Step(s, s', c, 0) && s'.pcs == s.pcs[0 := Sending(k + 1)] && s'.joined == s.joined && s'.count == s.count
    ensures |s'.queue| == |s.queue| && forall j: nat | j < |s.queue| :: s'.queue[j] == if 0 < j < k + 1 then 1 else 0
  {
    s' := s.(pcs := s.pcs[0 := Sending(k + 1)], queue := s.queue[k := s.queue[k] + if k == 0 then 0 else 1]);
    assert Send(s, s', 0);
  }

  // The CPUs below k have joined round r + 1; VM_RESET is queued for the others.
  ghost predicate Gathering(s: State, c: Config, k: nat, r: nat)
  {
    && Inv(s, c) && 0 < k <= |s.pcs|
    && (forall j: nat | j < k :: s.pcs[j] == Stop && s.joined[j] == r + 1 && s.queue[j] == 0)
    && forall j: nat | k <= j < |s.pcs| :: s.pcs[j] == Guest && s.joined[j] == r && s.queue[j] == 1
  }

  lemma JoinFirst(a: State, s: State, c: Config, r: nat) returns (s': State)
    requires Reaches(a, s, c) && Spreading(s, c, |s.pcs|, r)
    ensures Reaches(a, s', c) && |s'.pcs| == |s.pcs| && Gathering(s', c, 1, r) && s'.count == s.count
  {
    hide Reaches, Inv, B.Inv;
    assert |s.joined| == |s.pcs| && |s.queue| == |s.pcs| && |s.pcs| > 0 by { Sizes(s, c); }
    s' := s.(pcs := s.pcs[0 := Stop], joined := s.joined[0 := s.joined[0] + 1]);
    assert Join(s, s', 0) && Step(s, s', c, 0);
    Then(a, s, s', c, 0);
    StepInv(s, s', c, 0);
    Sizes(s', c);
  }

  lemma {:induction false} ReceiveAll(a: State, s: State, c: Config, k: nat, r: nat) returns (s': State)
    requires Reaches(a, s, c) && Gathering(s, c, k, r)
    ensures Reaches(a, s', c) && |s'.pcs| == |s.pcs| && Half(s', c, 0, Stop, B1, r + 1) && s'.count == s.count
    decreases |s.pcs| - k
  {
    hide Inv, Step, Reaches;
    s' := s;
    if k < |s.pcs| {
      var t := ReceiveOne(s, c, k, r);
      Then(a, s, t, c, k);
      StepInv(s, t, c, k);
      Sizes(s, c); Sizes(t, c);
      s' := ReceiveAll(a, t, c, k + 1, r);
    }
  }

  lemma ReceiveOne(s: State, c: Config, k: nat, r: nat) returns (s': State)
    requires Gathering(s, c, k, r) && k < |s.pcs|
    ensures Step(s, s', c, k) && s'.pcs == s.pcs[k := Stop] && s'.count == s.count
    ensures s'.joined == s.joined[k := r + 1] && s'.queue == s.queue[k := 0]
  {
    s' := s.(pcs := s.pcs[k := Stop], joined := s.joined[k := s.joined[k] + 1], queue := s.queue[k := s.queue[k] - 1]);
    assert Receive(s, s', k);
  }

  lemma OneRecovery(a: State, s: State, c: Config, r: nat) returns (s': State)
    requires Rest(s, c, r) && Reaches(a, s, c) && c.auto && c.enabled && s.count < c.max
    ensures Reaches(a, s', c) && Rest(s', c, r + 1) && s'.count == s.count + 1 && |s'.pcs| == |s.pcs|
  {
    hide Inv, Reaches;
    Sizes(s, c);
    s' := Start(a, s, c, r);
    s' := SendAll(a, s', c, 0, r);
    s' := JoinFirst(a, s', c, r);
    s' := ReceiveAll(a, s', c, 1, r);
    s' := Sweep(a, s', c, 0, Stop, B1, r + 1);
    s' := Sweep(a, s', c, 0, B1, To2, r + 1);
    s' := Sweep(a, s', c, 0, To2, B2, r + 1);
    s' := Sweep(a, s', c, 0, B2, Reset, r + 1);
    Sizes(s', c);
    s' := Sweep(a, s', c, 0, Reset, To3, r + 1);
    s' := Sweep(a, s', c, 0, To3, B3, r + 1);
    s' := Sweep(a, s', c, 0, B3, Guest, r + 1);
  }

  lemma {:induction false} Recoveries(a: State, s: State, c: Config, r: nat) returns (s': State, r': nat)
    requires Rest(s, c, r) && Reaches(a, s, c) && c.auto && c.enabled && s.count < c.max
    ensures Reaches(a, s', c) && Rest(s', c, r') && s'.count == c.max - 1 && |s'.pcs| == |s.pcs|
    decreases c.max - s.count
  {
    hide Inv, Reaches, Rest;
    s', r' := s, r;
    if s.count < c.max - 1 {
      var t := OneRecovery(a, s, c, r);
      s', r' := Recoveries(a, t, c, r + 1);
    }
  }

  // ---------------------------------------------------------------- the bound is reached

  // All CPUs pass both checks before any commits.
  lemma AllAtOnce(a: State, s: State, c: Config, r: nat) returns (s': State)
    requires Rest(s, c, r) && Reaches(a, s, c) && c.auto && s.count < c.max
    ensures Reaches(a, s', c) && |s'.pcs| == |s.pcs| && s'.count == s.count + |s.pcs|
  {
    hide Inv, Reaches;
    s' := Sweep(a, s, c, 0, Guest, Late, r);
    s' := Sweep(a, s', c, 0, Late, Overdue(Healthy), r);
    s' := Sweep(a, s', c, 0, Overdue(Healthy), Marked, r);
    s' := Sweep(a, s', c, 0, Marked, Counted, r);
    s' := Sweep(a, s', c, 0, Counted, Ready, r);
    s' := Sweep(a, s', c, 0, Ready, Sending(0), r);
  }

  function Fresh(n: nat): State
    requires n > 0
  {
    State(B.State(0, seq(n, _ => B.Cpu(0, false, 0))), seq(n, _ => Guest), Healthy, 0, seq(n, _ => 0),
          seq(n, _ => 0), seq(n, _ => 0), 0, 0)
  }

  // For every number of vCPUs, every limit and every master the bound max_recoveries + n - 1 is reached: with more
  // than one vCPU recovery_count passes the limit.
  lemma LimitCanBePassed(n: nat, c: Config) returns (run: seq<State>, who: seq<nat>)
    requires c.master < n && c.enabled && c.auto && c.max > 0
    ensures Run(run, c, who) && |run[0].pcs| == n && run[|run| - 1].count == c.max + n - 1
  {
    hide Inv, Reaches;
    var a := Fresh(n);
    InitInv(a, c);
    Here(a, c);
    var s, r := Recoveries(a, a, c, 0);
    s := AllAtOnce(a, s, c, r);
    run, who := Extract(a, s, c);
  }

  lemma Extract(a: State, s: State, c: Config) returns (run: seq<State>, who: seq<nat>)
    requires Reaches(a, s, c)
    ensures Path(run, c, who) && run[0] == a && run[|run| - 1] == s
  {
    run, who :| Path(run, c, who) && run[0] == a && run[|run| - 1] == s;
  }
}
