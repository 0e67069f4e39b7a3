/**
 VM recovery (src/core/vm_recovery.c, BAO_RECOVERY build) as interleaved steps of the n CPUs of one VM, fed by the
 health monitor (src/core/health_monitor.c) and by VM_RESET messages (src/core/vm.c, vm_msg_broadcast).

 vm->health is written without a lock: reading the previous status, marking the VM unhealthy, the two checks of
 vm_recovery_start and its commit are separate steps. Messages and barrier operations are locked, so atomic.
 Time only decides whether a check finds the heartbeat overdue; that choice is left open.
 */
module Recovery {
  import B = Barrier
  import opened Counting

  datatype Status = Healthy | Suspect | Unhealthy | NotMonitored | Recovering

  // Where a CPU is. Late, Overdue: in health_monitor_check, past its two readings of the status. Marked, Counted,
  // Ready: in vm_recovery_start, before its first check, past it, and past its second. Sending(j): broadcasting,
  // VM_RESET sent to the CPUs below j. The rest is vm_recovery_execute or its slave form, named after the barrier
  // awaited or the action to do next.
  datatype Pc = Guest | Late | Overdue(prev: Status) | Marked | Counted | Ready | Sending(next: nat)
              | Stop | B1 | Install | To2 | B2 | Reset | To3 | B3

  datatype Config = Config(master: nat, enabled: bool, auto: bool, max: nat)

  // `joined`, `resets`, `writes` and `started` count rounds joined, vCPU resets, image rewrites and commits.
  datatype State = State(bar: B.State, pcs: seq<Pc>, status: Status, count: nat, queue: seq<nat>,
                         joined: seq<nat>, resets: seq<nat>, writes: nat, started: nat)

  ghost predicate Init(s: State, c: Config)
  {
    var n := |s.pcs|;
    && B.Init(s.bar) && |s.bar.cpus| == n && |s.queue| == n && |s.joined| == n && |s.resets| == n && c.master < n
    && s.status == (if c.enabled then Healthy else NotMonitored)
    && s.count == 0 && s.writes == 0 && s.started == 0
    && forall i: nat | i < n :: s.pcs[i] == Guest && s.queue[i] == 0 && s.joined[i] == 0 && s.resets[i] == 0
  }

  // ---------------------------------------------------------------- steps of CPU i

  predicate At(s: State, i: nat, pc: Pc)
  {
    i < |s.pcs| && s.pcs[i] == pc
  }

  // health_monitor_heartbeat.
  ghost predicate Heartbeat(s: State, s': State, i: nat)
  {
    At(s, i, Guest) && !s.status.NotMonitored? && s' == s.(status := Healthy)
  }

  // health_monitor_check finds the heartbeat overdue.
  ghost predicate Miss(s: State, s': State, i: nat)
  {
    && At(s, i, Guest) && !s.status.NotMonitored? && !s.status.Recovering?
    && s' == s.(pcs := s.pcs[i := Late])
  }

  ghost predicate ReadPrev(s: State, s': State, i: nat)
  {
    At(s, i, Late) && s' == s.(pcs := s.pcs[i := Overdue(s.status)])
  }

  // Too few misses yet.
  ghost predicate MarkSuspect(s: State, s': State, i: nat)
  {
    i < |s.pcs| && s.pcs[i].Overdue? && s' == s.(pcs := s.pcs[i := Guest], status := Suspect)
  }

  // Enough misses: the VM is unhealthy, and vm_recovery_start is called if it was not so before.
  ghost predicate MarkUnhealthy(s: State, s': State, i: nat)
  {
    && i < |s.pcs| && s.pcs[i].Overdue?
    && s' == s.(pcs := s.pcs[i := if s.pcs[i].prev.Unhealthy? then Guest else Marked], status := Unhealthy)
  }

  predicate Passes(s: State, c: Config, i: nat)
  {
    At(s, i, Marked) && c.auto && (c.max == 0 || s.count < c.max)
  }

  // The first check of vm_recovery_start reads recovery_count.
  ghost predicate CheckLimit(s: State, s': State, c: Config, i: nat)
  {
    At(s, i, Marked) && s' == s.(pcs := s.pcs[i := if Passes(s, c, i) then Counted else Guest])
  }

  ghost predicate CheckStatus(s: State, s': State, i: nat)
  {
    At(s, i, Counted) && s' == s.(pcs := s.pcs[i := if s.status.Recovering? then Guest else Ready])
  }

  ghost predicate Commit(s: State, s': State, i: nat)
  {
    && At(s, i, Ready)
    && s' == s.(pcs := s.pcs[i := Sending(0)], status := Recovering, count := s.count + 1, started := s.started + 1)
  }

  // One turn of vm_msg_broadcast, which skips the sender.
  ghost predicate Send(s: State, s': State, i: nat)
  {
    && i < |s.pcs| && |s.queue| == |s.pcs| && s.pcs[i].Sending? && s.pcs[i].next < |s.pcs|
    && var j := s.pcs[i].next;
       s' == s.(pcs := s.pcs[i := Sending(j + 1)], queue := s.queue[j := s.queue[j] + if j == i then 0 else 1])
  }

  ghost predicate Join(s: State, s': State, i: nat)
  {
    && At(s, i, Sending(|s.pcs|)) && |s.joined| == |s.pcs|
    && s' == s.(pcs := s.pcs[i := Stop], joined := s.joined[i := s.joined[i] + 1])
  }

  // vm_recovery_msg_handler.
  ghost predicate Receive(s: State, s': State, i: nat)
  {
    && At(s, i, Guest) && |s.joined| == |s.pcs| && |s.queue| == |s.pcs| && s.queue[i] > 0
    && s' == s.(pcs := s.pcs[i := Stop], joined := s.joined[i := s.joined[i] + 1],
        queue := s.queue[i := s.queue[i] - 1])
  }

  ghost predicate Arrive(s: State, s': State, i: nat)
  {
    && i < |s.pcs| && B.Arrive(s.bar, s'.bar, i)
    && (s.pcs[i].Stop? || s.pcs[i].To2? || s.pcs[i].To3?)
    && s' == s.(bar := s'.bar, pcs := s.pcs[i := if s.pcs[i].Stop? then B1 else if s.pcs[i].To2? then B2 else B3])
  }

  ghost predicate Leave(s: State, s': State, c: Config, i: nat)
  {
    && i < |s.pcs| && B.Leave(s.bar, s'.bar, i)
    && (s.pcs[i].B1? || s.pcs[i].B2? || s.pcs[i].B3?)
    && s' == s.(bar := s'.bar, pcs := s.pcs[i := if s.pcs[i].B1? then (if i == c.master then Install else To2)
                                               else if s.pcs[i].B2? then Reset else Guest])
  }

  // vm_reinstall_image.
  ghost predicate Write(s: State, s': State, i: nat)
  {
    At(s, i, Install) && s' == s.(pcs := s.pcs[i := To2], writes := s.writes + 1)
  }

  // vcpu_arch_reset; the master also re-initialises the health state.
  ghost predicate DoReset(s: State, s': State, c: Config, i: nat)
  {
    && At(s, i, Reset) && |s.resets| == |s.pcs|
    && s' == s.(pcs := s.pcs[i := To3], resets := s.resets[i := s.resets[i] + 1],
                status := if i != c.master then s.status else if c.enabled then Healthy else NotMonitored)
  }

  // A step of the health monitor or of vm_recovery_start, up to the commit.
  ghost predicate Watch(s: State, s': State, c: Config, i: nat)
  {
    || Heartbeat(s, s', i) || Miss(s, s', i) || ReadPrev(s, s', i) || MarkSuspect(s, s', i) || MarkUnhealthy(s, s', i)
    || CheckLimit(s, s', c, i) || CheckStatus(s, s', i) || Commit(s, s', i)
  }

  ghost predicate Step(s: State, s': State, c: Config, i: nat)
  {
    || Watch(s, s', c, i) || Send(s, s', i) || Join(s, s', i) || Receive(s, s', i)
    || Arrive(s, s', i) || Leave(s, s', c, i) || Write(s, s', i) || DoReset(s, s', c, i)
  }

  predicate Watching(pc: Pc)
  {
    pc.Guest? || pc.Late? || pc.Overdue? || pc.Marked? || pc.Counted? || pc.Ready?
  }

  // Such a step moves one CPU within the monitor, or commits.
  lemma WatchMoves(s: State, s': State, c: Config, i: nat)
    requires Watch(s, s', c, i)
    ensures i < |s.pcs| && |s'.pcs| == |s.pcs| && Watching(s.pcs[i])
    ensures s' == s.(pcs := s.pcs[i := s'.pcs[i]], status := s'.status, count := s'.count, started := s'.started)
    ensures s'.pcs[i] == Sending(0) || Watching(s'.pcs[i])
    ensures s'.started == s.started + (if s'.pcs[i] == Sending(0) then 1 else 0)
  {
  }

  // ---------------------------------------------------------------- counting CPUs

  // CPU k has committed to a recovery that CPU i has not joined nor been sent.
  predicate Owes(pcs: seq<Pc>, i: nat, k: nat)
  {
    k < |pcs| && pcs[k].Sending? && (k == i || pcs[k].next <= i)
  }

  // Recoveries started that CPU i has neither joined nor been sent.
  function Owed(pcs: seq<Pc>, i: nat): nat
  {
    Tally(|pcs|, (k: nat) => Owes(pcs, i, k))
  }

  predicate Passed(pcs: seq<Pc>, k: nat)
  {
    k < |pcs| && (pcs[k].Counted? || pcs[k].Ready?)
  }

  // CPUs between the check of recovery_count and the commit.
  function Checked(pcs: seq<Pc>): nat
  {
    Tally(|pcs|, (k: nat) => Passed(pcs, k))
  }

  lemma OwedChange(pcs: seq<Pc>, i: nat, k: nat, pc: Pc)
    requires k < |pcs|
    ensures Owed(pcs[k := pc], i) + (if Owes(pcs, i, k) then 1 else 0)
         == Owed(pcs, i) + (if pc.Sending? && (k == i || pc.next <= i) then 1 else 0)
  {
    TallyChange(|pcs|, (x: nat) => Owes(pcs, i, x), (x: nat) => Owes(pcs[k := pc], i, x), k);
  }

  lemma CheckedChange(pcs: seq<Pc>, k: nat, pc: Pc)
    requires k < |pcs|
    ensures Checked(pcs[k := pc]) + (if Passed(pcs, k) then 1 else 0)
         == Checked(pcs) + (if pc.Counted? || pc.Ready? then 1 else 0)
    ensures !Passed(pcs, k) ==> Checked(pcs) < |pcs|
  {
    TallyChange(|pcs|, (x: nat) => Passed(pcs, x), (x: nat) => Passed(pcs[k := pc], x), k);
    if !Passed(pcs, k) { TallyMiss(|pcs|, (x: nat) => Passed(pcs, x), k); }
  }

  // ---------------------------------------------------------------- invariant

  // Arrivals CPU has made, from where it is and how many rounds it joined.
  function Arrivals(pc: Pc, joined: nat): int
  {
    match pc
    case Stop => 3 * joined - 3
    case B1 => 3 * joined - 2
    case Install => 3 * joined - 2
    case To2 => 3 * joined - 2
    case B2 => 3 * joined - 1
    case Reset => 3 * joined - 1
    case To3 => 3 * joined - 1
    case _ => 3 * joined
  }

  predicate BeforeReset(pc: Pc)
  {
    pc.Stop? || pc.B1? || pc.Install? || pc.To2? || pc.B2? || pc.Reset?
  }

  predicate BeforeWrite(pc: Pc)
  {
    pc.Stop? || pc.B1? || pc.Install?
  }

  ghost predicate Sized(s: State)
  {
    |s.bar.cpus| == |s.pcs| && |s.joined| == |s.pcs| && |s.resets| == |s.pcs| && |s.queue| == |s.pcs|
  }

  // Where CPU i is agrees with its arrivals, its resets and its role.
  ghost predicate Phase(s: State, c: Config, i: nat)
    requires i < |s.pcs| && Sized(s)
  {
    var pc := s.pcs[i];
    && s.bar.cpus[i].arrived == Arrivals(pc, s.joined[i])
    && (s.bar.cpus[i].waiting <==> pc.B1? || pc.B2? || pc.B3?)
    && s.resets[i] + (if BeforeReset(pc) then 1 else 0) == s.joined[i]
    && (pc.Install? ==> i == c.master)
    && (pc.Sending? ==> pc.next <= |s.pcs|)
  }

  // Each recovery started was joined by CPU i, is queued for it, or is still to be sent to it.
  ghost predicate Account(s: State, i: nat)
    requires i < |s.pcs| && Sized(s)
  {
    s.joined[i] + s.queue[i] + Owed(s.pcs, i) == s.started
  }

  ghost predicate CpuInv(s: State, c: Config, i: nat)
    requires i < |s.pcs| && Sized(s)
  {
    Phase(s, c, i) && Account(s, i)
  }

  ghost predicate Inv(s: State, c: Config)
  {
    var n := |s.pcs|;
    && n > 0 && B.Inv(s.bar) && Sized(s) && c.master < n
    && (forall i: nat | i < n :: CpuInv(s, c, i))
    && s.writes + (if BeforeWrite(s.pcs[c.master]) then 1 else 0) == s.joined[c.master]
    && (c.max > 0 ==> s.count + Checked(s.pcs) <= c.max + n - 1)
  }

  lemma InitInv(s: State, c: Config)
    requires Init(s, c)
    ensures Inv(s, c)
  {
    B.InitInv(s.bar);
    TallyNone(|s.pcs|, (k: nat) => Passed(s.pcs, k));
    forall i: nat | i < |s.pcs| ensures CpuInv(s, c, i) { TallyNone(|s.pcs|, (k: nat) => Owes(s.pcs, i, k)); }
  }

  lemma StepInv(s: State, s': State, c: Config, i: nat)
    requires Inv(s, c) && Step(s, s', c, i)
    ensures Inv(s', c) && |s'.pcs| == |s.pcs|
  {
    hide B.Inv, B.Round, B.Arrive, B.Leave, Owed, Checked, Phase, Account;
    assert s'.pcs == s.pcs[i := s'.pcs[i]] && CpuInv(s, c, i) && CpuInv(s, c, c.master);
    CheckedChange(s.pcs, i, s'.pcs[i]);
    if Arrive(s, s', i) || Leave(s, s', c, i) { BarrierMoves(s, s', c, i); }
    WritesStep(s, s', c, i);
    forall j: nat | j < |s'.pcs| ensures CpuInv(s', c, j) {
      if j == i { OwnPhase(s, s', c, i); } else { OtherPhase(s, s', c, i, j); }
      AccountStep(s, s', c, i, j);
    }
  }

  lemma OwnPhase(s: State, s': State, c: Config, i: nat)
    requires Inv(s, c) && Step(s, s', c, i)
    ensures |s'.pcs| == |s.pcs| && Sized(s') && Phase(s', c, i)
  {
    if Arrive(s, s', i) || Leave(s, s', c, i) { BarrierPhase(s, s', c, i); } else { PlainPhase(s, s', c, i); }
  }

  lemma BarrierPhase(s: State, s': State, c: Config, i: nat)
    requires Inv(s, c) && (Arrive(s, s', i) || Leave(s, s', c, i))
    ensures |s'.pcs| == |s.pcs| && Sized(s') && Phase(s', c, i)
  {
    hide B.Inv, B.Arrive, B.Leave, Account, Checked;
    assert CpuInv(s, c, i);
    BarrierMoves(s, s', c, i);
  }

  lemma PlainPhase(s: State, s': State, c: Config, i: nat)
    requires Inv(s, c) && Step(s, s', c, i) && !Arrive(s, s', i) && !Leave(s, s', c, i)
    ensures |s'.pcs| == |s.pcs| && Sized(s') && Phase(s', c, i)
  {
    hide B.Inv, Arrive, Leave, Account, Checked, Watch;
    if Watch(s, s', c, i) { WatchMoves(s, s', c, i); }
    assert CpuInv(s, c, i);
  }

  lemma OtherPhase(s: State, s': State, c: Config, i: nat, j: nat)
    requires Inv(s, c) && Step(s, s', c, i) && j < |s.pcs| && j != i
    ensures |s'.pcs| == |s.pcs| && Sized(s') && Phase(s', c, j)
  {
    hide B.Inv, B.Round, Account, Checked, Arrivals, Watch;
    if Watch(s, s', c, i) { WatchMoves(s, s', c, i); }
    assert s'.pcs == s.pcs[i := s'.pcs[i]] && CpuInv(s, c, j);
    if Arrive(s, s', i) || Leave(s, s', c, i) { BarrierMoves(s, s', c, i); }
  }

  lemma AccountStep(s: State, s': State, c: Config, i: nat, j: nat)
    requires Inv(s, c) && Step(s, s', c, i) && j < |s.pcs|
    ensures |s'.pcs| == |s.pcs| && Sized(s') && Account(s', j)
  {
    hide B.Inv, B.Round, Owed, Checked, Arrivals, BeforeReset, Watch;
    if Watch(s, s', c, i) { WatchMoves(s, s', c, i); }
    assert s'.pcs == s.pcs[i := s'.pcs[i]] && CpuInv(s, c, j) && CpuInv(s, c, i);
    OwedChange(s.pcs, j, i, s'.pcs[i]);
    if Arrive(s, s', i) || Leave(s, s', c, i) { BarrierMoves(s, s', c, i); }
  }

  lemma WritesStep(s: State, s': State, c: Config, i: nat)
    requires Inv(s, c) && Step(s, s', c, i)
    ensures |s'.pcs| == |s.pcs| == |s'.joined|
    ensures s'.writes + (if BeforeWrite(s'.pcs[c.master]) then 1 else 0) == s'.joined[c.master]
  {
    hide B.Inv, B.Round, B.Arrive, B.Leave, Owed, Checked, Watch;
    if Watch(s, s', c, i) { WatchMoves(s, s', c, i); }
    assert s'.pcs == s.pcs[i := s'.pcs[i]] && CpuInv(s, c, i);
  }

  lemma BarrierMoves(s: State, s': State, c: Config, i: nat)
    requires Inv(s, c) && (Arrive(s, s', i) || Leave(s, s', c, i))
    ensures B.Inv(s'.bar) && |s'.bar.cpus| == |s.bar.cpus|
    ensures forall j: nat | j < |s.pcs| && j != i :: s'.bar.cpus[j] == s.bar.cpus[j]
    ensures s'.bar.cpus[i].arrived == s.bar.cpus[i].arrived + (if Arrive(s, s', i) then 1 else 0)
    ensures s'.bar.cpus[i].waiting <==> Arrive(s, s', i)
  {
    B.StepInv(s.bar, s'.bar);
  }

  // ---------------------------------------------------------------- whole runs

  // `who[k]` is the CPU that takes step k.
  ghost predicate Run(run: seq<State>, c: Config, who: seq<nat>)
  {
    && |run| > 0 && |who| + 1 == |run| && Init(run[0], c) && |run[0].pcs| > 0
    && forall k: nat | k < |who| :: Step(run[k], run[k + 1], c, who[k])
  }

  lemma {:induction false} RunInv(run: seq<State>, c: Config, who: seq<nat>, t: nat)
    requires Run(run, c, who) && t < |run|
    ensures Inv(run[t], c) && |run[t].pcs| == |run[0].pcs|
  {
    hide Inv, Init, Step;
    if t == 0 {
      InitInv(run[0], c);
    } else {
      RunInv(run, c, who, t - 1);
      assert Step(run[t - 1], run[t - 1 + 1], c, who[t - 1]);
      StepInv(run[t - 1], run[t], c, who[t - 1]);
    }
  }

  // The CPU has arrived at the first barrier of round r and has not left the second.
  predicate Stopped(s: State, i: nat, r: nat)
    requires i < |s.pcs| == |s.joined|
  {
    s.joined[i] == r && (s.pcs[i].B1? || s.pcs[i].Install? || s.pcs[i].To2? || s.pcs[i].B2?)
  }

  // The guest image is rewritten only by the master, and only while every vCPU of the VM is stopped in the same round.
  lemma RewriteIsExclusive(run: seq<State>, c: Config, who: seq<nat>, t: nat, i: nat)
    requires Run(run, c, who) && t + 1 < |run| && Write(run[t], run[t + 1], i)
    ensures i == c.master && |run[t].joined| == |run[t].pcs|
    ensures var r := run[t].writes + 1; forall j: nat | j < |run[t].pcs| :: Stopped(run[t], j, r)
  {
    var s := run[t];
    RunInv(run, c, who, t);
    var m: nat :| B.Round(s.bar, m);
    assert CpuInv(s, c, i);
    var r := s.writes + 1;
    forall j: nat | j < |s.pcs| ensures Stopped(s, j, r) {
      assert CpuInv(s, c, j);
    }
  }

  // A CPU goes back to the guest only after the image of its round was rewritten and every vCPU, its own
  // included, was reset in that round.
  lemma ResumeAfterRewrite(run: seq<State>, c: Config, who: seq<nat>, t: nat, i: nat)
    requires Run(run, c, who) && t + 1 < |run| && Leave(run[t], run[t + 1], c, i) && run[t].pcs[i].B3?
    ensures i < |run[t].joined| && run[t].writes == run[t].joined[i]
    ensures forall j: nat | j < |run[t].resets| :: run[t].resets[j] == run[t].joined[i]
  {
    var s := run[t];
    RunInv(run, c, who, t);
    var m: nat :| B.Round(s.bar, m);
    assert CpuInv(s, c, i);
    B.OpenIff(s.bar, m, s.bar.cpus[i].arrived);
    B.LeaveInv(s.bar, run[t + 1].bar, i, m);
    assert CpuInv(s, c, c.master);
    forall j: nat | j < |s.resets| ensures s.resets[j] == s.joined[i] { assert CpuInv(s, c, j); }
  }

  // With no broadcast under way, the rounds a CPU joined and the VM_RESETs queued for it are the recoveries started.
  lemma ResetsAccounted(run: seq<State>, c: Config, who: seq<nat>, t: nat, i: nat)
    requires Run(run, c, who) && t < |run| && i < |run[t].pcs|
    ensures i < |run[t].joined| && i < |run[t].queue|
    ensures run[t].joined[i] + run[t].queue[i] + Owed(run[t].pcs, i) == run[t].started
    ensures (forall k: nat | k < |run[t].pcs| :: !run[t].pcs[k].Sending?) ==>
              run[t].joined[i] + run[t].queue[i] == run[t].started
  {
    RunInv(run, c, who, t);
    assert CpuInv(run[t], c, i);
    if forall k: nat | k < |run[t].pcs| :: !run[t].pcs[k].Sending? {
      TallyNone(|run[t].pcs|, (k: nat) => Owes(run[t].pcs, i, k));
    }
  }

  // ---------------------------------------------------------------- the limit on recoveries

  // Over all interleavings the limit can be passed by at most the number of other CPUs.
  lemma LimitOverrun(run: seq<State>, c: Config, who: seq<nat>, t: nat)
    requires Run(run, c, who) && t < |run| && c.max > 0
    ensures run[t].count <= c.max + |run[t].pcs| - 1
  {
    RunInv(run, c, who, t);
  }

  predicate IsReady(pcs: seq<Pc>, k: nat)
  {
    k < |pcs| && pcs[k].Ready?
  }

  // CPUs past both checks and about to commit.
  function Readies(pcs: seq<Pc>): nat
  {
    Tally(|pcs|, (k: nat) => IsReady(pcs, k))
  }

  lemma ReadiesChange(pcs: seq<Pc>, k: nat, pc: Pc)
    requires k < |pcs|
    ensures Readies(pcs[k := pc]) + (if pcs[k].Ready? then 1 else 0) == Readies(pcs) + (if pc.Ready? then 1 else 0)
  {
    TallyChange(|pcs|, (x: nat) => IsReady(pcs, x), (x: nat) => IsReady(pcs[k := pc], x), k);
  }

  lemma NoneReady(s: State, c: Config)
    requires Init(s, c)
    ensures Readies(s.pcs) == 0
  {
    TallyNone(|s.pcs|, (k: nat) => IsReady(s.pcs, k));
  }

  // Recoveries counted or about to be counted.
  function Bound(s: State): nat
  {
    s.count + Readies(s.pcs)
  }

  // CPU i passes the second check of vm_recovery_start while those counted and those about to be use up the limit.
  ghost predicate Oversteps(s: State, s': State, c: Config, i: nat)
  {
    At(s, i, Counted) && !s.status.Recovering? && Bound(s) == c.max && CheckStatus(s, s', i)
  }

  lemma BoundStep(s: State, s': State, c: Config, i: nat)
    requires Inv(s, c) && Step(s, s', c, i)
    ensures Bound(s) <= Bound(s') <= Bound(s) + 1
    ensures Bound(s') > Bound(s) <==> At(s, i, Counted) && !s.status.Recovering? && CheckStatus(s, s', i)
  {
    hide Inv, B.Arrive, B.Leave, Readies;
    assert s'.pcs == s.pcs[i := s'.pcs[i]];
    ReadiesChange(s.pcs, i, s'.pcs[i]);
  }

  // The exact condition: recoveries counted or about to be counted exceed the limit exactly when some earlier second
  // check was passed with the limit used up. Where no CPU is about to commit that is recovery_count itself.
  lemma {:induction false} LimitExact(run: seq<State>, c: Config, who: seq<nat>, t: nat)
    requires Run(run, c, who) && t < |run|
    ensures Bound(run[t]) > c.max <==> exists k: nat :: k < t && Oversteps(run[k], run[k + 1], c, who[k])
    ensures Readies(run[t].pcs) == 0 ==>
              (run[t].count > c.max <==> exists k: nat :: k < t && Oversteps(run[k], run[k + 1], c, who[k]))
  {
    hide Inv, Step, Readies;
    if t == 0 {
      NoneReady(run[0], c);
    } else {
      LimitExact(run, c, who, t - 1);
      RunInv(run, c, who, t - 1);
      assert Step(run[t - 1], run[t - 1 + 1], c, who[t - 1]);
      BoundStep(run[t - 1], run[t], c, who[t - 1]);
      if Bound(run[t]) > c.max >= Bound(run[t - 1]) { assert Oversteps(run[t - 1], run[t - 1 + 1], c, who[t - 1]); }
    }
  }

  // In a run that ends with no CPU about to commit, recovery_count stays within max_recoveries throughout exactly
  // when no second check is passed with the limit used up.
  lemma LimitKept(run: seq<State>, c: Config, who: seq<nat>)
    requires Run(run, c, who) && Readies(run[|run| - 1].pcs) == 0
    ensures (forall t: nat | t < |run| :: run[t].count <= c.max) <==>
            (forall k: nat | k < |who| :: !Oversteps(run[k], run[k + 1], c, who[k]))
  {
    hide Step, Init, Oversteps, Readies;
    LimitExact(run, c, who, |run| - 1);
    forall t: nat | t < |run| ensures
      run[t].count > c.max ==> exists k: nat :: k < t && Oversteps(run[k], run[k + 1], c, who[k])
    {
      LimitExact(run, c, who, t);
    }
  }
}
