/**
 Boot-time assignment of CPUs to VMs (src/core/vmm.c, vmm_assign_vcpu) as interleaved steps of n CPUs.

 Each section under a VM's lock is one step. Between the two passes every CPU goes through the barrier `cpu_glb_sync`,
 where each has already made the same number of arrivals. CPU bit masks are sets of CPU ids.
 */
module CpuAssign {
  import opened Counting
  import B = Barrier

  datatype Option<T> = None | Some(value: T)

  // One entry of vm_assign[].
  datatype Vm = Vm(master: bool, ncpus: nat, cpus: set<nat>)

  // What the configuration says of one VM: cpu_affinity and platform.cpu_num.
  datatype Want = Want(affinity: set<nat>, num: nat)

  // First(i), Second(i): about to try VM i in the first or the second pass.
  datatype Pc = First(next: nat) | Waiting | Second(next: nat) | Done

  // `vm` and `master` are what vmm_assign_vcpu gives back to its caller.
  datatype Cpu = Cpu(pc: Pc, vm: Option<nat>, master: bool)

  // `before` is the number of arrivals each CPU made at the barrier in the past.
  datatype Config = Config(vms: seq<Want>, before: nat)

  datatype State = State(bar: B.State, vms: seq<Vm>, cpus: seq<Cpu>)

  ghost predicate Init(s: State, g: Config)
  {
    && B.Inv(s.bar) && |s.bar.cpus| == |s.cpus| && |s.vms| == |g.vms|
    && (forall i: nat | i < |g.vms| :: g.vms[i].num >= 1 && s.vms[i] == Vm(false, 0, {}))
    && forall c: nat | c < |s.cpus| ::
         s.cpus[c] == Cpu(First(0), None, false) && s.bar.cpus[c].arrived == g.before && !s.bar.cpus[c].waiting
  }

  // Any VMs that ask for a CPU at least, on any CPUs: they start with no VM begun and no CPU given.
  lemma Starts(g: Config, n: nat) returns (s: State)
    requires n > 0 && forall i: nat | i < |g.vms| :: g.vms[i].num >= 1
    ensures Init(s, g) && |s.cpus| == n && |s.vms| == |g.vms|
    ensures forall i: nat | i < |s.vms| :: !s.vms[i].master && s.vms[i].ncpus == 0 && s.vms[i].cpus == {}
    ensures forall c: nat | c < n :: s.cpus[c].pc == First(0) && s.cpus[c].vm == None
  {
    var bar := B.Met(n, g.before);
    s := State(bar, seq(|g.vms|, (i: nat) => Vm(false, 0, {})), seq(n, (c: nat) => Cpu(First(0), None, false)));
  }

  // ---------------------------------------------------------------- steps of CPU c

  function Goto(s: State, c: nat, pc: Pc): State
    requires c < |s.cpus|
  {
    s.(cpus := s.cpus[c := s.cpus[c].(pc := pc)])
  }

  // VM i takes CPU c, as its master if it has none.
  function Place(s: State, c: nat, i: nat, pc: Pc): State
    requires c < |s.cpus| && i < |s.vms|
  {
    s.(vms := s.vms[i := Vm(true, s.vms[i].ncpus + 1, s.vms[i].cpus + {c})],
       cpus := s.cpus[c := Cpu(pc, Some(i), !s.vms[i].master)])
  }

  // The CPU is in a pass, unassigned and with VMs left to try.
  predicate Looking(s: State, g: Config, c: nat)
  {
    && c < |s.cpus| && s.cpus[c].vm.None? && (s.cpus[c].pc.First? || s.cpus[c].pc.Second?)
    && s.cpus[c].pc.next < |s.vms| == |g.vms|
  }

  // One turn of the first loop: only VMs of the CPU's affinity are tried; the first CPU to come gets in
  // unconditionally.
  ghost predicate TryFirst(s: State, s': State, g: Config, c: nat)
  {
    && Looking(s, g, c) && s.cpus[c].pc.First?
    && var i := s.cpus[c].pc.next;
       s' == if c in g.vms[i].affinity && (!s.vms[i].master || s.vms[i].ncpus < g.vms[i].num)
             then Place(s, c, i, First(i + 1)) else Goto(s, c, First(i + 1))
  }

  ghost predicate Arrive(s: State, s': State, c: nat)
  {
    && c < |s.cpus| && s.cpus[c].pc.First? && (s.cpus[c].vm.Some? || s.cpus[c].pc.next == |s.vms|)
    && B.Arrive(s.bar, s'.bar, c) && s' == Goto(s, c, Waiting).(bar := s'.bar)
  }

  ghost predicate Leave(s: State, s': State, c: nat)
  {
    && c < |s.cpus| && s.cpus[c].pc.Waiting? && B.Leave(s.bar, s'.bar, c)
    && s' == Goto(s, c, if s.cpus[c].vm.Some? then Done else Second(0)).(bar := s'.bar)
  }

  // One turn of the second loop.
  ghost predicate TrySecond(s: State, s': State, g: Config, c: nat)
  {
    && Looking(s, g, c) && s.cpus[c].pc.Second?
    && var i := s.cpus[c].pc.next;
       s' == if s.vms[i].ncpus < g.vms[i].num then Place(s, c, i, Second(i + 1)) else Goto(s, c, Second(i + 1))
  }

  ghost predicate Finish(s: State, s': State, c: nat)
  {
    && c < |s.cpus| && s.cpus[c].pc.Second? && (s.cpus[c].vm.Some? || s.cpus[c].pc.next == |s.vms|)
    && s' == Goto(s, c, Done)
  }

  ghost predicate Step(s: State, s': State, g: Config, c: nat)
  {
    TryFirst(s, s', g, c) || Arrive(s, s', c) || Leave(s, s', c) || TrySecond(s, s', g, c) || Finish(s, s', c)
  }

  // ---------------------------------------------------------------- invariant

  predicate Full(s: State, g: Config, i: nat)
    requires |s.vms| == |g.vms|
  {
    i < |s.vms| && s.vms[i].ncpus == g.vms[i].num
  }

  // CPU c is the one master of VM i.
  ghost predicate Leader(s: State, i: nat, c: nat)
  {
    && i < |s.vms| && c < |s.cpus| && c in s.vms[i].cpus && s.cpus[c].master
    && forall d: nat | d < |s.cpus| && d in s.vms[i].cpus && s.cpus[d].master :: d == c
  }

  ghost predicate VmInv(s: State, g: Config, i: nat)
    requires i < |s.vms| == |g.vms|
  {
    var v := s.vms[i];
    && v.ncpus == |v.cpus| <= g.vms[i].num && (v.master <==> v.ncpus > 0)
    && (forall c: nat :: c in v.cpus <==> c < |s.cpus| && s.cpus[c].vm == Some(i))
    && (v.cpus != {} ==> exists c: nat :: Leader(s, i, c))
  }

  // An unassigned CPU has met only full VMs: those of its affinity in the first pass, all of them in the second.
  ghost predicate CpuInv(s: State, g: Config, c: nat)
    requires c < |s.cpus| == |s.bar.cpus| && |s.vms| == |g.vms|
  {
    var u := s.cpus[c];
    && s.bar.cpus[c].arrived == g.before + (if u.pc.First? then 0 else 1)
    && (s.bar.cpus[c].waiting <==> u.pc.Waiting?)
    && (u.vm.Some? ==> u.vm.value < |s.vms|)
    && (u.master ==> u.vm.Some?)
    && (u.vm.None? ==> forall i: nat | i < |s.vms| && c in g.vms[i].affinity && (u.pc.First? ==> i < u.pc.next) ::
                         Full(s, g, i))
    && (u.vm.None? && (u.pc.Second? || u.pc.Done?) ==>
          forall i: nat | i < |s.vms| && (u.pc.Second? ==> i < u.pc.next) :: Full(s, g, i))
    && (u.pc.Second? || u.pc.Done? ==> forall d: nat | d < |s.cpus| :: !s.cpus[d].pc.First?)
    && ((u.pc.First? || u.pc.Second?) ==> u.pc.next <= |s.vms|)
  }

  predicate Assigned(cpus: seq<Cpu>, c: nat)
  {
    c < |cpus| && cpus[c].vm.Some?
  }

  function Placed(cpus: seq<Cpu>): nat
  {
    Tally(|cpus|, (c: nat) => Assigned(cpus, c))
  }

  function Total(vms: seq<Vm>): nat
  {
    if vms == [] then 0 else Total(vms[..|vms| - 1]) + vms[|vms| - 1].ncpus
  }

  function Demand(vms: seq<Want>): nat
  {
    if vms == [] then 0 else Demand(vms[..|vms| - 1]) + vms[|vms| - 1].num
  }

  ghost predicate Inv(s: State, g: Config)
  {
    && B.Inv(s.bar) && |s.bar.cpus| == |s.cpus| && |s.vms| == |g.vms|
    && (forall i: nat | i < |s.vms| :: g.vms[i].num >= 1 && VmInv(s, g, i))
    && (forall c: nat | c < |s.cpus| :: CpuInv(s, g, c))
    && Total(s.vms) == Placed(s.cpus)
  }

  lemma {:induction false} TotalUpdate(vms: seq<Vm>, i: nat, v: Vm)
    requires i < |vms|
    ensures Total(vms[i := v]) == Total(vms) - vms[i].ncpus + v.ncpus
  {
    var n := |vms| - 1;
    if i == n {
      assert vms[i := v][..n] == vms[..n];
    } else {
      assert vms[i := v][..n] == vms[..n][i := v];
      TotalUpdate(vms[..n], i, v);
    }
  }

  lemma {:induction false} TotalZero(vms: seq<Vm>)
    requires forall i: nat | i < |vms| :: vms[i].ncpus == 0
    ensures Total(vms) == 0
  {
    if vms != [] { TotalZero(vms[..|vms| - 1]); }
  }

  lemma InitInv(s: State, g: Config)
    requires Init(s, g)
    ensures Inv(s, g)
  {
    TotalZero(s.vms);
    TallyNone(|s.cpus|, (c: nat) => Assigned(s.cpus, c));
  }

  lemma PlacedChange(cpus: seq<Cpu>, c: nat, u: Cpu)
    requires c < |cpus|
    ensures Placed(cpus[c := u]) + (if cpus[c].vm.Some? then 1 else 0) == Placed(cpus) + (if u.vm.Some? then 1 else 0)
  {
    TallyChange(|cpus|, (k: nat) => Assigned(cpus, k), (k: nat) => Assigned(cpus[c := u], k), c);
  }

  // A CPU leaves the barrier between the passes only when every CPU has finished its first pass.
  lemma LeaveAfterAll(s: State, s': State, g: Config, c: nat)
    requires Inv(s, g) && Leave(s, s', c)
    ensures forall d: nat | d < |s.cpus| :: !s.cpus[d].pc.First?
  {
    hide Total, Placed, VmInv;
    var m: nat :| B.Round(s.bar, m);
    assert CpuInv(s, g, c);
    B.OpenIff(s.bar, m, s.bar.cpus[c].arrived);
    forall d: nat | d < |s.cpus| ensures !s.cpus[d].pc.First? { assert CpuInv(s, g, d); }
  }

  lemma StepInv(s: State, s': State, g: Config, c: nat)
    requires Inv(s, g) && Step(s, s', g, c)
    ensures Inv(s', g) && |s'.cpus| == |s.cpus| && |s'.vms| == |s.vms|
  {
    hide B.Inv, Total, Placed, CpuInv, VmInv, Demand;
    assert CpuInv(s, g, c) && s'.cpus == s.cpus[c := s'.cpus[c]];
    PlacedChange(s.cpus, c, s'.cpus[c]);
    if Arrive(s, s', c) || Leave(s, s', c) { B.StepInv(s.bar, s'.bar); }
    if Looking(s, g, c) && s'.cpus[c].vm.Some? {
      var i := s.cpus[c].pc.next;
      TotalUpdate(s.vms, i, s'.vms[i]);
    }
    forall i: nat | i < |s'.vms| ensures VmInv(s', g, i) { assert VmInv(s, g, i); VmStep(s, s', g, c, i); }
    forall d: nat | d < |s'.cpus| ensures CpuInv(s', g, d) { CpuStep(s, s', g, c, d); }
  }

  lemma PlaceVm(s: State, g: Config, c: nat, i: nat, pc: Pc)
    requires i < |s.vms| == |g.vms| && VmInv(s, g, i) && c < |s.cpus| && s.cpus[c].vm.None? && g.vms[i].num >= 1
    requires !s.vms[i].master || s.vms[i].ncpus < g.vms[i].num
    ensures VmInv(Place(s, c, i, pc), g, i)
  {
    var s' := Place(s, c, i, pc);
    var v := s.vms[i];
    assert c !in v.cpus;
    if !v.master {
      assert v.cpus == {};
      assert Leader(s', i, c);
    } else {
      var m: nat :| Leader(s, i, m);
      assert Leader(s', i, m);
    }
  }

  lemma KeepVm(s: State, s': State, g: Config, c: nat, i: nat)
    requires i < |s.vms| == |g.vms| == |s'.vms| && VmInv(s, g, i) && c < |s.cpus| == |s'.cpus|
    requires s'.vms[i] == s.vms[i] && s'.cpus == s.cpus[c := s'.cpus[c]]
    requires s'.cpus[c].vm == Some(i) <==> s.cpus[c].vm == Some(i)
    requires s.cpus[c].vm == Some(i) ==> s'.cpus[c].master == s.cpus[c].master
    ensures VmInv(s', g, i)
  {
    if s.vms[i].cpus != {} {
      var m: nat :| Leader(s, i, m);
      assert Leader(s', i, m);
    }
  }

  lemma VmStep(s: State, s': State, g: Config, c: nat, i: nat)
    requires Inv(s, g) && Step(s, s', g, c) && i < |s.vms|
    ensures |s'.vms| == |s.vms| && VmInv(s', g, i)
  {
    hide B.Inv, B.Arrive, B.Leave, Total, Placed, CpuInv, VmInv;
    assert VmInv(s, g, i);
    if Looking(s, g, c) && s'.cpus[c].vm == Some(i) {
      PlaceVm(s, g, c, i, s'.cpus[c].pc);
    } else {
      KeepVm(s, s', g, c, i);
    }
  }

  lemma FullStays(s: State, s': State, g: Config, c: nat, i: nat)
    requires Inv(s, g) && Step(s, s', g, c) && i < |s.vms| && Full(s, g, i)
    ensures |s'.vms| == |s.vms| && Full(s', g, i)
  {
    hide B.Inv, B.Arrive, B.Leave, Total, Placed, CpuInv;
    assert VmInv(s, g, i);
  }

  lemma NoRoomIsFull(s: State, g: Config, i: nat)
    requires Inv(s, g) && i < |s.vms| && s.vms[i].ncpus >= g.vms[i].num
    ensures Full(s, g, i)
  {
    hide B.Inv, Total, Placed, CpuInv;
    assert VmInv(s, g, i);
  }

  lemma CpuStep(s: State, s': State, g: Config, c: nat, d: nat)
    requires Inv(s, g) && Step(s, s', g, c) && d < |s.cpus|
    ensures |s'.cpus| == |s'.bar.cpus| == |s.cpus| && |s'.vms| == |s.vms| && CpuInv(s', g, d)
  {
    hide B.Inv, Total, Placed, VmInv;
    assert CpuInv(s, g, c) && CpuInv(s, g, d);
    forall i: nat | i < |s.vms| && Full(s, g, i) ensures |s'.vms| == |s.vms| && Full(s', g, i) {
      FullStays(s, s', g, c, i);
    }
    if Looking(s, g, c) && s'.cpus[c].vm.None? && s.vms[s.cpus[c].pc.next].ncpus >= g.vms[s.cpus[c].pc.next].num {
      NoRoomIsFull(s, g, s.cpus[c].pc.next);
    }
    if Leave(s, s', c) { LeaveAfterAll(s, s', g, c); }
  }

  // ---------------------------------------------------------------- whole runs

  // `who[k]` is the CPU that takes step k.
  ghost predicate Run(run: seq<State>, g: Config, who: seq<nat>)
  {
    && |run| > 0 && |who| + 1 == |run| && Init(run[0], g)
    && forall k: nat | k < |who| :: Step(run[k], run[k + 1], g, who[k])
  }

  lemma {:induction false} RunInv(run: seq<State>, g: Config, who: seq<nat>, t: nat)
    requires Run(run, g, who) && t < |run|
    ensures Inv(run[t], g)
  {
    hide Inv, Init, Step;
    if t == 0 {
      InitInv(run[0], g);
    } else {
      RunInv(run, g, who, t - 1);
      assert Step(run[t - 1], run[t - 1 + 1], g, who[t - 1]);
      StepInv(run[t - 1], run[t], g, who[t - 1]);
    }
  }

  // At any moment of any run: no VM exceeds its CPU count, the recorded count is that of its set, a CPU is in the set
  // of the VM it was given and in no other, and every non-empty VM has exactly one master.
  lemma AssignmentSafe(run: seq<State>, g: Config, who: seq<nat>, t: nat, i: nat)
    requires Run(run, g, who) && t < |run| && i < |run[t].vms|
    ensures i < |g.vms| && run[t].vms[i].ncpus == |run[t].vms[i].cpus| <= g.vms[i].num
    ensures forall c: nat | c < |run[t].cpus| :: c in run[t].vms[i].cpus <==> run[t].cpus[c].vm == Some(i)
    ensures run[t].vms[i].cpus != {} ==> exists c: nat :: Leader(run[t], i, c)
  {
    RunInv(run, g, who, t);
    assert VmInv(run[t], g, i);
  }

  // CPU c is given VM i.
  ghost predicate Gets(s: State, s': State, c: nat, i: nat)
  {
    c < |s.cpus| == |s'.cpus| && s.cpus[c].vm != Some(i) && s'.cpus[c].vm == Some(i)
  }

  // In a step a VM is given only to the CPU that takes the step, that had none, and the VM had room for it. Each VM
  // before it that the CPU could have had is full.
  lemma GivenInOrder(s: State, s': State, g: Config, who: nat, c: nat, i: nat)
    requires Inv(s, g) && Step(s, s', g, who) && Gets(s, s', c, i)
    ensures c == who && s.cpus[c].vm.None? && i < |g.vms| == |s.vms| && s.vms[i].ncpus < g.vms[i].num
    ensures s'.cpus[c].master <==> s.vms[i].cpus == {}
    ensures forall j: nat | j < i && (c in g.vms[j].affinity || !s.cpus[c].pc.First?) :: Full(s, g, j)
  {
    hide B.Inv, B.Arrive, B.Leave, Total, Placed;
    assert CpuInv(s, g, who);
    assert VmInv(s, g, i);
  }

  // A CPU is given a VM it has no affinity to only once every CPU has finished the first pass.
  lemma OutsideAfterAll(s: State, s': State, g: Config, who: nat, c: nat, i: nat)
    requires Inv(s, g) && Step(s, s', g, who) && Gets(s, s', c, i)
    requires i < |g.vms| ==> c !in g.vms[i].affinity
    ensures forall d: nat | d < |s.cpus| :: !s.cpus[d].pc.First?
  {
    hide B.Inv, B.Arrive, B.Leave, Total, Placed, VmInv;
    assert CpuInv(s, g, who);
  }

  // Over whole runs: what a CPU is given outside its affinity it is given after the first pass of all CPUs, when
  // every CPU still unassigned has all the VMs of its affinity full.
  lemma AffinityFirst(run: seq<State>, g: Config, who: seq<nat>, t: nat, c: nat, i: nat, d: nat)
    requires Run(run, g, who) && t + 1 < |run| && Gets(run[t], run[t + 1], c, i) && d < |run[t].cpus|
    requires i < |g.vms| ==> c !in g.vms[i].affinity
    ensures !run[t].cpus[d].pc.First? && |g.vms| == |run[t].vms|
    ensures run[t].cpus[d].vm.Some? || forall j: nat | j < |g.vms| && d in g.vms[j].affinity :: Full(run[t], g, j)
  {
    hide Step, Inv;
    RunInv(run, g, who, t);
    assert Step(run[t], run[t + 1], g, who[t]);
    OutsideAfterAll(run[t], run[t + 1], g, who[t], c, i);
    UnassignedMet(run[t], g, d);
  }

  lemma UnassignedMet(s: State, g: Config, d: nat)
    requires Inv(s, g) && d < |s.cpus| && !s.cpus[d].pc.First?
    ensures |g.vms| == |s.vms|
    ensures s.cpus[d].vm.Some? || forall j: nat | j < |g.vms| && d in g.vms[j].affinity :: Full(s, g, j)
  {
    assert CpuInv(s, g, d);
  }

  // A CPU that has not left the first pass and its barrier has a VM of its affinity or none.
  ghost predicate OwnPass(s: State, g: Config)
  {
    forall c: nat | c < |s.cpus| && (s.cpus[c].pc.First? || s.cpus[c].pc.Waiting?) && s.cpus[c].vm.Some? ::
      s.cpus[c].vm.value < |g.vms| && c in g.vms[s.cpus[c].vm.value].affinity
  }

  lemma {:induction false} FirstPassOwn(run: seq<State>, g: Config, who: seq<nat>, t: nat)
    requires Run(run, g, who) && t < |run|
    ensures OwnPass(run[t], g)
  {
    hide Inv, Step;
    if t > 0 {
      FirstPassOwn(run, g, who, t - 1);
      RunInv(run, g, who, t - 1);
      assert Step(run[t - 1], run[t - 1 + 1], g, who[t - 1]);
      OwnStep(run[t - 1], run[t], g, who[t - 1]);
    }
  }

  lemma OwnStep(s: State, s': State, g: Config, c: nat)
    requires OwnPass(s, g) && Step(s, s', g, c)
    ensures OwnPass(s', g)
  {
    hide B.Arrive, B.Leave;
  }

  lemma {:induction false} TotalAtMost(vms: seq<Vm>, want: seq<Want>)
    requires |vms| == |want| && forall i: nat | i < |vms| :: vms[i].ncpus <= want[i].num
    ensures Total(vms) <= Demand(want)
    ensures Total(vms) == Demand(want) <==> forall i: nat | i < |vms| :: vms[i].ncpus == want[i].num
  {
    if vms != [] {
      var n := |vms| - 1;
      TotalAtMost(vms[..n], want[..n]);
      assert (forall i: nat | i < n :: vms[..n][i].ncpus == want[..n][i].num) <==>
             (forall i: nat | i < n :: vms[i].ncpus == want[i].num);
    }
  }

  // When every CPU is done, the places filled are as many as possible: all VMs are full unless CPUs run short, and
  // every CPU is assigned unless places run short.
  lemma AllFilled(run: seq<State>, g: Config, who: seq<nat>, t: nat)
    requires Run(run, g, who) && t < |run| && forall c: nat | c < |run[t].cpus| :: run[t].cpus[c].pc.Done?
    ensures |g.vms| == |run[t].vms|
    ensures (forall i: nat | i < |g.vms| :: Full(run[t], g, i)) <==> Demand(g.vms) <= |run[t].cpus|
    ensures (forall c: nat | c < |run[t].cpus| :: run[t].cpus[c].vm.Some?) <==> Demand(g.vms) >= |run[t].cpus|
  {
    hide Total, Demand, B.Inv;
    var s := run[t];
    RunInv(run, g, who, t);
    forall i: nat | i < |s.vms| ensures s.vms[i].ncpus <= g.vms[i].num { assert VmInv(s, g, i); }
    TotalAtMost(s.vms, g.vms);
    if forall i: nat | i < |g.vms| :: Full(s, g, i) {
      forall i: nat | i < |s.vms| ensures s.vms[i].ncpus == g.vms[i].num { assert Full(s, g, i); }
    }
    var f := (c: nat) => Assigned(s.cpus, c);
    if c: nat :| c < |s.cpus| && s.cpus[c].vm.None? {
      assert CpuInv(s, g, c);
      TallyMiss(|s.cpus|, f, c);
    } else {
      TallyAll(|s.cpus|, f);
    }
  }

  // Until every CPU is done some CPU can take a step: nobody waits at the barrier for ever.
  lemma NeverStuck(run: seq<State>, g: Config, who: seq<nat>, t: nat, d: nat) returns (c: nat, s': State)
    requires Run(run, g, who) && t < |run| && d < |run[t].cpus| && !run[t].cpus[d].pc.Done?
    ensures Step(run[t], s', g, c)
  {
    hide Total, Demand, Placed, VmInv;
    var s := run[t];
    RunInv(run, g, who, t);
    c, s' := d, s;
    if e: nat :| e < |s.cpus| && s.cpus[e].pc.First? { c := e; }
    assert CpuInv(s, g, c);
    var u, i := s.cpus[c], s.cpus[c].pc;
    if Looking(s, g, c) {
      s' := if i.First? && c in g.vms[i.next].affinity
          && (!s.vms[i.next].master || s.vms[i.next].ncpus < g.vms[i.next].num)
            then Place(s, c, i.next, First(i.next + 1))
            else if i.First? then Goto(s, c, First(i.next + 1))
            else if s.vms[i.next].ncpus < g.vms[i.next].num then Place(s, c, i.next, Second(i.next + 1))
            else Goto(s, c, Second(i.next + 1));
    } else if u.pc.First? {
      var b := B.State(s.bar.count + 1, s.bar.cpus[c := B.Cpu(s.bar.cpus[c].arrived + 1, true,
                                                             B.Align(s.bar.count + 1, |s.bar.cpus|))]);
      s' := Goto(s, c, Waiting).(bar := b);
    } else if u.pc.Waiting? {
      var m: nat :| B.Round(s.bar, m);
      forall e: nat | e < |s.cpus| ensures s.bar.cpus[e].arrived == g.before + 1 { assert CpuInv(s, g, e); }
      B.OpenIff(s.bar, m, g.before + 1);
      var b := s.bar.(cpus := s.bar.cpus[c := s.bar.cpus[c].(waiting := false)]);
      s' := Goto(s, c, if u.vm.Some? then Done else Second(0)).(bar := b);
    } else {
      s' := Goto(s, c, Done);
    }
  }
}
