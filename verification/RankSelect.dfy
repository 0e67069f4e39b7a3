/**
 Virtual and physical CPU ids (src/core/inc/vm.h, src/core/vm.c). The i-th vCPU of a VM runs on the i-th CPU of its set,
 so the two translations are rank and select on the word `cpus`, read as a bitmap of two granules. CPU masks are sets of
 bit positions. None is INVALID_CPUID.
 */
module RankSelect {
  import opened Bitmap

  datatype Option<T> = None | Some(value: T)

  const CPUMAP_BITS: nat := 64

  // ---------------------------------------------------------------- rank

  predicate Has(s: seq<bv32>, p: nat)
  {
    p < GRANULE * |s| && Bit(s, p)
  }

  // How many CPUs of the set come before p.
  ghost function Rank(s: seq<bv32>, p: nat): (r: nat)
    requires p <= GRANULE * |s|
    ensures r <= p
  {
    CountBits(s, 0, p, true)
  }

  ghost function Size(s: seq<bv32>): nat
  {
    Rank(s, GRANULE * |s|)
  }

  lemma {:induction false} RankGrows(s: seq<bv32>, p: nat, q: nat)
    requires p <= q <= GRANULE * |s|
    ensures Rank(s, p) <= Rank(s, q) && (p < q && Bit(s, p) ==> Rank(s, p) < Rank(s, q))
  {
    if p < q { RankGrows(s, p, q - 1); }
  }

  lemma RankUnique(s: seq<bv32>, p: nat, q: nat)
    requires Has(s, p) && Has(s, q)
    ensures Rank(s, p) == Rank(s, q) <==> p == q
    ensures Rank(s, p) < Size(s)
  {
    hide Bit, Rank;
    if p < q { RankGrows(s, p, q); }
    if q < p { RankGrows(s, q, p); }
    RankGrows(s, p, GRANULE * |s|);
  }

  lemma {:induction false} Selects(s: seq<bv32>, k: nat, top: nat) returns (p: nat)
    requires top <= GRANULE * |s| && k < Rank(s, top)
    ensures p < top && Bit(s, p) && Rank(s, p) == k
  {
    if Bit(s, top - 1) && Rank(s, top - 1) == k { p := top - 1; } else { p := Selects(s, k, top - 1); }
  }

  lemma RankStep(s: seq<bv32>, i: nat)
    requires i < GRANULE * |s|
    ensures Rank(s, i + 1) == Rank(s, i) + if Has(s, i) then 1 else 0
  {
  }

  // Two CPUs of the set from i on are counted after i.
  lemma TwoMore(s: seq<bv32>, i: nat, p: nat, q: nat)
    requires i <= p < q && Has(s, p) && Has(s, q)
    ensures Rank(s, i) + 2 <= Size(s)
  {
    RankGrows(s, i, p);
    RankGrows(s, p, q);
    RankGrows(s, q, GRANULE * |s|);
  }

  lemma SizeAfter(s: seq<bv32>, i: nat, p: nat)
    requires i <= p && Has(s, p)
    ensures Rank(s, i) < Size(s)
  {
    RankGrows(s, i, p);
    RankGrows(s, p, GRANULE * |s|);
  }

  // The CPU before which k others of the set come.
  ghost function Select(s: seq<bv32>, k: nat): (p: Option<nat>)
    ensures p.Some? <==> k < Size(s)
    ensures p.Some? ==> Has(s, p.value) && Rank(s, p.value) == k
  {
    if k < Size(s) then
      SelectExists(s, k);
      var p: nat :| Has(s, p) && Rank(s, p) == k;
      Some(p)
    else None
  }

  lemma SelectExists(s: seq<bv32>, k: nat)
    requires k < Size(s)
    ensures exists p: nat :: Has(s, p) && Rank(s, p) == k
  {
    var p := Selects(s, k, GRANULE * |s|);
    assert Has(s, p);
  }

  // Rank and select undo each other, on every virtual id and on every CPU of the set.
  lemma Inverse(s: seq<bv32>, k: nat, p: nat)
    ensures Select(s, k) == Some(p) <==> Has(s, p) && Rank(s, p) == k
  {
    hide Rank, Bit;
    if Has(s, p) && Rank(s, p) == k {
      RankUnique(s, p, p);
      RankUnique(s, p, Select(s, k).value);
    }
  }

  // ---------------------------------------------------------------- masks

  // The CPUs that run the vCPUs below `len` of a mask.
  ghost function PcpuMask(s: seq<bv32>, mask: set<nat>, len: nat): set<nat>
  {
    set p: nat | p < GRANULE * |s| && Has(s, p) && Rank(s, p) in mask && Rank(s, p) < len
  }

  // The vCPUs that run on the CPUs below `len` of a mask.
  ghost function VcpuMask(s: seq<bv32>, mask: set<nat>, len: nat): set<nat>
  {
    set p: nat | p < GRANULE * |s| && p < len && p in mask && Has(s, p) :: Rank(s, p)
  }

  // Down and up a mask keeps its vCPUs that the VM has; up and down it keeps its CPUs that the VM has.
  lemma MaskRoundTrip(s: seq<bv32>, mask: set<nat>, len: nat)
    ensures VcpuMask(s, PcpuMask(s, mask, len), GRANULE * |s|) == set k: nat | k in mask && k < len && k < Size(s)
    ensures PcpuMask(s, VcpuMask(s, mask, len), Size(s)) == set p: nat | p in mask && p < len && Has(s, p)
  {
    hide Rank, Bit;
    forall k: nat | k in mask && k < len && k < Size(s)
      ensures k in VcpuMask(s, PcpuMask(s, mask, len), GRANULE * |s|)
    {
      var p := Select(s, k).value;
      assert p in PcpuMask(s, mask, len);
    }
    forall p: nat | Has(s, p) ensures Rank(s, p) < Size(s) { RankUnique(s, p, p); }
    forall p: nat | p in PcpuMask(s, VcpuMask(s, mask, len), Size(s)) ensures p in mask && p < len {
      var q: nat :| q < len && q in mask && Has(s, q) && Rank(s, q) == Rank(s, p);
      RankUnique(s, p, q);
    }
  }

  class Vm {
    const cpus: array<bv32>
    var cpuNum: nat

    ghost predicate Valid()
      reads this, cpus
    {
      GRANULE * cpus.Length == CPUMAP_BITS
    }

    // vm_translate_to_pcpuid.
    method ToPcpuid(vcpuid: nat) returns (pcpuid: Option<nat>)
      requires Valid()
      ensures pcpuid == Select(cpus[..], vcpuid)
    {
      hide Bit;
      var i := FindNth(cpus, CPUMAP_BITS, vcpuid + 1, 0, true);
      if i < 0 {
        return None;
      }
      Inverse(cpus[..], vcpuid, i);
      return Some(i);
    }

    // vm_translate_to_vcpuid.
    method ToVcpuid(pcpuid: nat) returns (vcpuid: Option<nat>)
      requires Valid() && pcpuid < CPUMAP_BITS
      ensures vcpuid == if Has(cpus[..], pcpuid) then Some(Rank(cpus[..], pcpuid)) else None
    {
      var has := Get(cpus, pcpuid);
      if has {
        var n := Count(cpus, 0, pcpuid, true);
        return Some(n);
      }
      return None;
    }

    // vm_calc_vcpu_id on CPU `self`.
    method CalcVcpuId(self: nat) returns (vcpuId: nat)
      requires Valid() && self < CPUMAP_BITS
      ensures vcpuId == Rank(cpus[..], self)
    {
      vcpuId := 0;
      for i: nat := 0 to self
        invariant vcpuId == Rank(cpus[..], i)
      {
        var has := Get(cpus, i);
        if has { vcpuId := vcpuId + 1; }
      }
    }

    method ToPcpuMask(mask: set<nat>, len: nat) returns (pmask: set<nat>)
      requires Valid() && len <= CPUMAP_BITS
      ensures pmask == PcpuMask(cpus[..], mask, len)
    {
      hide Bit, Rank;
      pmask := {};
      for i: nat := 0 to len
        invariant pmask == PcpuMask(cpus[..], mask, i)
      {
        if i in mask {
          var shift := ToPcpuid(i);
          if shift.Some? { pmask := pmask + {shift.value}; }
        }
        forall p: nat ensures Select(cpus[..], i) == Some(p) <==> Has(cpus[..], p) && Rank(cpus[..], p) == i {
          Inverse(cpus[..], i, p);
        }
      }
    }

    method ToVcpuMask(mask: set<nat>, len: nat) returns (vmask: set<nat>)
      requires Valid() && len <= CPUMAP_BITS
      ensures vmask == VcpuMask(cpus[..], mask, len)
    {
      hide Bit, Rank;
      vmask := {};
      for i: nat := 0 to len
        invariant vmask == VcpuMask(cpus[..], mask, i)
      {
        if i in mask {
          var shift := ToVcpuid(i);
          if shift.Some? { vmask := vmask + {shift.value}; }
        }
      }
    }

    // CPUs of the set with ids below i, without `self`.
    ghost function Others(i: nat, self: nat): nat
      requires Valid() && i <= CPUMAP_BITS
      reads this, cpus
    {
      var n := Rank(cpus[..], i);
      if self < i && Has(cpus[..], self) && n > 0 then n - 1 else n
    }

    lemma OthersStep(i: nat, self: nat)
      requires Valid() && i < CPUMAP_BITS
      ensures Others(i + 1, self) == Others(i, self) + if Has(cpus[..], i) && i != self then 1 else 0
    {
      hide Bit, Rank;
      RankStep(cpus[..], i);
      if self < i && Has(cpus[..], self) {
        RankGrows(cpus[..], 0, self);
        RankGrows(cpus[..], self, i);
      }
    }

    // vm_msg_broadcast by CPU `self`: the first cpu_num - 1 other CPUs of the set, in order, and on a fully populated
    // VM all of them. The shift `1U << i` reaches only the ids below 32, so it takes that many such CPUs for the loop
    // to end.
    method Broadcast(self: nat) returns (targets: seq<nat>)
      requires Valid() && 0 < cpuNum && cpuNum - 1 <= Others(32, self)
      ensures |targets| == cpuNum - 1 && forall i: nat, j: nat | i < j < |targets| :: targets[i] < targets[j]
      ensures forall p: nat | p in targets :: Has(cpus[..], p) && p != self
      ensures forall p: nat, q: nat | q in targets && p < q && Has(cpus[..], p) && p != self :: p in targets
      ensures cpuNum == Size(cpus[..]) && Has(cpus[..], self) ==>
                forall p: nat | Has(cpus[..], p) && p != self :: p in targets
    {
      hide Bit, Rank, Others;
      targets := [];
      var i: nat, n: nat := 0, 0;
      ghost var s := cpus[..];
      OthersStart(self);
      while n < cpuNum - 1
        invariant i <= 32 && n == |targets| == Others(i, self) && n <= cpuNum - 1
        invariant forall k: nat | k < |targets| :: targets[k] < i
        invariant forall k: nat, j: nat | k < j < |targets| :: targets[k] < targets[j]
        invariant forall p: nat :: p in targets <==> p < i && Has(s, p) && p != self
        decreases 32 - i
      {
        OthersStep(i, self);
        var has := Get(cpus, i);
        if has && i != self {
          n := n + 1;
          targets := targets + [i];
        }
        i := i + 1;
      }
      if cpuNum == Size(s) && Has(s, self) {
        forall p: nat | Has(s, p) && p != self ensures p in targets {
          AllCounted(i, self, p);
        }
      }
    }

    lemma OthersStart(self: nat)
      requires Valid()
      ensures Others(0, self) == 0
    {
    }

    // All others counted, none comes from i on.
    lemma AllCounted(i: nat, self: nat, p: nat)
      requires Valid() && i <= CPUMAP_BITS && Has(cpus[..], self) && Has(cpus[..], p) && p != self
      requires Others(i, self) == Size(cpus[..]) - 1
      ensures p < i
    {
      hide Bit, Rank;
      if p >= i {
        if self >= i {
          TwoMore(cpus[..], i, if p < self then p else self, if p < self then self else p);
        } else {
          RankGrows(cpus[..], 0, self);
          RankGrows(cpus[..], self, i);
          SizeAfter(cpus[..], i, p);
        }
      }
    }
  }
}
