/**
 The counting barrier of src/core/inc/cpu.h, as interleaved steps of n CPUs.

 A CPU arrives (the locked increment) and later leaves (its spin on `count` ends). The token is initialised, so
 `ready` is set; counters are unbounded.
 */
module Barrier {
  import opened Arith

  // Arrivals made so far; whether the CPU spins, and on which count.
  datatype Cpu = Cpu(arrived: nat, waiting: bool, next: nat)

  datatype State = State(count: nat, cpus: seq<Cpu>)

  function Size(s: State): nat
  {
    |s.cpus|
  }

  // ALIGN(val, to) of src/lib/inc/util.h.
  function Align(val: nat, to: nat): nat
    requires to > 0
  {
    ((val + to - 1) / to) * to
  }

  // cpu_sync_init.
  ghost predicate Init(s: State)
  {
    s.count == 0 && |s.cpus| > 0 && forall i: nat | i < |s.cpus| :: s.cpus[i] == Cpu(0, false, 0)
  }

  ghost predicate Arrive(s: State, s': State, i: nat)
  {
    && i < |s.cpus| && !s.cpus[i].waiting
    && s' == State(s.count + 1, s.cpus[i := Cpu(s.cpus[i].arrived + 1, true, Align(s.count + 1, |s.cpus|))])
  }

  ghost predicate Leave(s: State, s': State, i: nat)
  {
    && i < |s.cpus| && s.cpus[i].waiting && s.count >= s.cpus[i].next
    && s' == s.(cpus := s.cpus[i := s.cpus[i].(waiting := false)])
  }

  ghost predicate Step(s: State, s': State)
  {
    exists i: nat :: Arrive(s, s', i) || Leave(s, s', i)
  }

  // ---------------------------------------------------------------- invariant

  function Sum(cpus: seq<Cpu>): nat
  {
    if cpus == [] then 0 else Sum(cpus[..|cpus| - 1]) + cpus[|cpus| - 1].arrived
  }

  // Every CPU has made m or m + 1 arrivals; those ahead all wait, and someone is not ahead.
  ghost predicate Round(s: State, m: nat)
  {
    && |s.cpus| > 0 && s.count == Sum(s.cpus)
    && (forall i: nat | i < |s.cpus| :: m <= s.cpus[i].arrived <= m + 1)
    && (forall i: nat | i < |s.cpus| && s.cpus[i].arrived > m :: s.cpus[i].waiting)
    && (forall i: nat | i < |s.cpus| && s.cpus[i].waiting :: s.cpus[i].next == s.cpus[i].arrived * |s.cpus|)
    && (exists i: nat :: i < |s.cpus| && s.cpus[i].arrived == m)
  }

  ghost predicate Inv(s: State)
  {
    exists m: nat :: Round(s, m)
  }

  lemma {:induction false} SumBounds(cpus: seq<Cpu>, m: nat)
    requires forall i: nat | i < |cpus| :: m <= cpus[i].arrived <= m + 1
    ensures m * |cpus| <= Sum(cpus) <= (m + 1) * |cpus|
    ensures (exists i: nat :: i < |cpus| && cpus[i].arrived == m) ==> Sum(cpus) < (m + 1) * |cpus|
  {
    if cpus != [] {
      var n := |cpus| - 1;
      SumBounds(cpus[..n], m);
      assert m * (n + 1) == m * n + m && (m + 1) * (n + 1) == (m + 1) * n + (m + 1);
      if cpus[n].arrived == m + 1 && exists i: nat :: i < |cpus| && cpus[i].arrived == m {
        var i: nat :| i < |cpus| && cpus[i].arrived == m;
        assert cpus[..n][i].arrived == m;
      }
    }
  }

  lemma {:induction false} SumUpdate(cpus: seq<Cpu>, i: nat, c: Cpu)
    requires i < |cpus|
    ensures Sum(cpus[i := c]) == Sum(cpus) - cpus[i].arrived + c.arrived
  {
    var n := |cpus| - 1;
    if i == n {
      assert cpus[i := c][..n] == cpus[..n];
    } else {
      assert cpus[i := c][..n] == cpus[..n][i := c];
      SumUpdate(cpus[..n], i, c);
    }
  }

  lemma AlignUp(m: nat, n: nat, val: nat)
    requires n > 0 && m * n < val <= (m + 1) * n
    ensures Align(val, n) == (m + 1) * n
  {
    Distribute(n, m, 1);
    DivUnique(val + n - 1, n, m + 1, val + n - 1 - (m + 1) * n);
  }

  // The k-th opening of the barrier is exactly the k-th arrival of everyone.
  lemma OpenIff(s: State, m: nat, k: nat)
    requires Round(s, m)
    ensures s.count >= k * |s.cpus| <==> forall j: nat | j < |s.cpus| :: s.cpus[j].arrived >= k
  {
    var n := |s.cpus|;
    SumBounds(s.cpus, m);
    if k <= m { MulLe(k, m, n); } else { MulLe(m + 1, k, n); }
  }

  lemma InitInv(s: State)
    requires Init(s)
    ensures Round(s, 0)
  {
    ZeroSum(s.cpus);
    assert s.cpus[0].arrived == 0;
  }

  lemma {:induction false} ZeroSum(cpus: seq<Cpu>)
    requires forall i: nat | i < |cpus| :: cpus[i].arrived == 0
    ensures Sum(cpus) == 0
  {
    if cpus != [] { ZeroSum(cpus[..|cpus| - 1]); }
  }

  // n CPUs that have met k times and are all on their way. With k == 0 this is how they start.
  lemma Met(n: nat, k: nat) returns (s: State)
    requires n > 0
    ensures Round(s, k) && s.count == k * n && |s.cpus| == n
    ensures forall i: nat | i < n :: s.cpus[i].arrived == k && !s.cpus[i].waiting
    ensures k == 0 ==> Init(s)
  {
    s := State(k * n, seq(n, (i: nat) => Cpu(k, false, 0)));
    EvenSum(s.cpus, k);
    assert s.cpus[0].arrived == k;
  }

  lemma {:induction false} EvenSum(cpus: seq<Cpu>, k: nat)
    requires forall i: nat | i < |cpus| :: cpus[i].arrived == k
    ensures Sum(cpus) == k * |cpus|
  {
    if cpus != [] {
      EvenSum(cpus[..|cpus| - 1], k);
      assert k * (|cpus| - 1) + k == k * |cpus|;
    }
  }

  lemma ArriveInv(s: State, s': State, i: nat, m: nat)
    requires Round(s, m) && Arrive(s, s', i)
    ensures s.cpus[i].arrived == m && s'.cpus[i].next == (m + 1) * |s.cpus|
    ensures Round(s', m) || Round(s', m + 1)
  {
    var n := |s.cpus|;
    SumBounds(s.cpus, m);
    AlignUp(m, n, s.count + 1);
    SumUpdate(s.cpus, i, s'.cpus[i]);
    if j: nat :| j < n && s'.cpus[j].arrived == m {
      assert Round(s', m);
    } else {
      assert s'.cpus[i].arrived == m + 1;
      assert Round(s', m + 1);
    }
  }

  lemma LeaveInv(s: State, s': State, i: nat, m: nat)
    requires Round(s, m) && Leave(s, s', i)
    ensures s.cpus[i].arrived == m && Round(s', m)
  {
    OpenIff(s, m, s.cpus[i].arrived);
    SumUpdate(s.cpus, i, s'.cpus[i]);
    var j: nat :| j < |s.cpus| && s.cpus[j].arrived == m;
    assert s'.cpus[j].arrived == m;
  }

  // ---------------------------------------------------------------- whole runs

  ghost predicate Run(run: seq<State>)
  {
    && |run| > 0 && Init(run[0])
    && forall k: nat | k + 1 < |run| :: Step(run[k], run[k + 1])
  }

  lemma StepInv(s: State, s': State)
    requires Inv(s) && Step(s, s')
    ensures Inv(s') && |s'.cpus| == |s.cpus|
    ensures forall j: nat | j < |s.cpus| :: s'.cpus[j].arrived >= s.cpus[j].arrived
  {
    var m: nat :| Round(s, m);
    var i: nat :| Arrive(s, s', i) || Leave(s, s', i);
    if Arrive(s, s', i) { ArriveInv(s, s', i, m); } else { LeaveInv(s, s', i, m); }
  }

  lemma {:induction false} RunInv(run: seq<State>, k: nat)
    requires Run(run) && k < |run|
    ensures Inv(run[k]) && |run[k].cpus| == |run[0].cpus|
  {
    if k == 0 { InitInv(run[0]); } else { RunInv(run, k - 1); StepInv(run[k - 1], run[k]); }
  }

  lemma {:induction false} RunGrows(run: seq<State>, j: nat, k: nat)
    requires Run(run) && j <= k < |run|
    ensures |run[k].cpus| == |run[j].cpus|
    ensures forall i: nat | i < |run[j].cpus| :: run[k].cpus[i].arrived >= run[j].cpus[i].arrived
  {
    if j < k { RunGrows(run, j, k - 1); RunInv(run, k - 1); StepInv(run[k - 1], run[k]); }
  }

  // Safety, both ways: a waiting CPU may leave exactly when everyone has made the arrival it waits at.
  lemma BarrierSafety(run: seq<State>, t: nat, i: nat)
    requires Run(run) && t < |run| && i < |run[t].cpus| && run[t].cpus[i].waiting
    ensures var c := run[t].cpus[i];
            run[t].count >= c.next <==> forall j: nat | j < |run[t].cpus| :: run[t].cpus[j].arrived >= c.arrived
  {
    RunInv(run, t);
    var m: nat :| Round(run[t], m);
    OpenIff(run[t], m, run[t].cpus[i].arrived);
  }

  // Once the barrier is open for a CPU it stays open.
  lemma StaysOpen(run: seq<State>, t: nat, u: nat, i: nat)
    requires Run(run) && t <= u < |run| && i < |run[t].cpus| == |run[u].cpus|
    requires run[t].cpus[i].waiting && run[u].cpus[i] == run[t].cpus[i] && run[t].count >= run[t].cpus[i].next
    ensures run[u].count >= run[u].cpus[i].next
  {
    BarrierSafety(run, t, i);
    RunGrows(run, t, u);
    BarrierSafety(run, u, i);
  }
}
