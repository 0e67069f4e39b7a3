/**
 Stream-match entries of the SMMUv2 (src/arch/armv8/armv8-a/smmuv2.c and iommu.c): the bitmaps of used entries, groups
 and context banks, and what was recorded for each entry. Stream ids and masks have 15 bits.

 ERROR does not return; the outcome Halted stands for it.
 */
module StreamMatch {
  datatype Option<T> = None | Some(value: T)

  // An entry matches the stream ids that equal `id` outside `mask`, and sends them to context bank `ctx`.
  datatype Entry = Entry(id: bv15, mask: bv15, ctx: nat)

  type Table = seq<Option<Entry>>

  predicate Covers(e: Entry, s: bv15)
  {
    (s ^ e.id) & !e.mask == 0
  }

  // The test `!diff_id` of the source.
  predicate Overlap(e: Entry, f: Entry)
  {
    (e.id ^ f.id) & !(e.mask | f.mask) == 0
  }

  predicate Inside(e: Entry, f: Entry)
  {
    e.mask & f.mask == e.mask
  }

  // ---------------------------------------------------------------- bit facts

  function Common(e: Entry, f: Entry): bv15
  {
    (e.id & !e.mask) | (f.id & e.mask)
  }

  // The test finds exactly the entries that match a common stream id.
  lemma OverlapIff(e: Entry, f: Entry)
    ensures Overlap(e, f) <==> exists s: bv15 :: Covers(e, s) && Covers(f, s)
  {
    if Overlap(e, f) {
      CommonCovered(e, f);
      var s := Common(e, f);
      assert Covers(e, s) && Covers(f, s);
    }
    if s: bv15 :| Covers(e, s) && Covers(f, s) { CommonOverlap(e, f, s); }
  }

  lemma CommonCovered(e: Entry, f: Entry)
    requires Overlap(e, f)
    ensures Covers(e, Common(e, f)) && Covers(f, Common(e, f))
  {
  }

  lemma CommonOverlap(e: Entry, f: Entry, s: bv15)
    requires Covers(e, s) && Covers(f, s)
    ensures Overlap(e, f) && Overlap(f, e)
  {
  }

  lemma InsideCovers(e: Entry, f: Entry, s: bv15)
    requires Overlap(e, f) && Inside(e, f) && Covers(e, s)
    ensures Covers(f, s)
  {
  }

  // The test `mask > sme_mask` of the source.
  predicate Greater(a: bv15, b: bv15)
  {
    a > b
  }

  lemma IncludedIsLess(a: bv15, b: bv15)
    requires a & b == a
    ensures !Greater(a, b)
  {
  }

  function Or(a: bv15, b: bv15): bv15 { a | b }

  function Extra(a: bv15, b: bv15): bv15 { a & !b }

  lemma MoreBits(a: bv15, b: bv15)
    requires Extra(a, b) != 0
    ensures Greater(Or(b, Extra(a, b)), b)
  {
  }

  lemma OrExtra(a: bv15, b: bv15)
    requires b & a == b
    ensures Or(b, Extra(a, b)) == a && Or(b, 0) == b
  {
  }

  lemma IncludesIsGreater(a: bv15, b: bv15)
    requires b & a == b && a != b
    ensures Greater(a, b)
  {
    hide Or, Extra, Greater;
    OrExtra(a, b);
    MoreBits(a, b);
  }

  lemma InsideItself(e: Entry, f: Entry)
    requires e.mask == f.mask
    ensures Inside(e, f) && Inside(f, e)
  {
  }

  // Of two masks one of which includes the other, the greater number is the one that includes.
  lemma GreaterIncludes(e: Entry, f: Entry)
    requires Inside(e, f) || Inside(f, e)
    ensures if Greater(e.mask, f.mask) then Inside(f, e) else Inside(e, f)
  {
    hide Greater;
    if e.mask == f.mask {
      InsideItself(e, f);
    } else if Inside(e, f) {
      IncludedIsLess(e.mask, f.mask);
    } else {
      IncludesIsGreater(e.mask, f.mask);
    }
  }

  // ---------------------------------------------------------------- tables

  ghost predicate Matches(t: Table, s: bv15, i: nat)
  {
    i < |t| && t[i].Some? && Covers(t[i].value, s)
  }

  // The context a stream is sent to.
  ghost function Translate(t: Table, s: bv15): Option<nat>
  {
    if exists i: nat :: Matches(t, s, i) then Some(t[Match(t, s)].value.ctx) else None
  }

  ghost function Match(t: Table, s: bv15): (i: nat)
    requires exists i: nat :: Matches(t, s, i)
    ensures Matches(t, s, i)
  {
    var i: nat :| Matches(t, s, i);
    i
  }

  // No two entries match a common stream id.
  ghost predicate Apart(t: Table)
  {
    forall i: nat, j: nat | i < j < |t| && t[i].Some? && t[j].Some? :: !Overlap(t[i].value, t[j].value)
  }

  lemma Unique(t: Table, s: bv15, i: nat)
    requires Apart(t) && Matches(t, s, i)
    ensures Translate(t, s) == Some(t[i].value.ctx)
  {
    var j := Match(t, s);
    CommonOverlap(t[i].value, t[j].value, s);
  }

  // The new entry meets entry i.
  predicate Meets(t: Table, e: Entry, i: nat)
  {
    i < |t| && t[i].Some? && Overlap(t[i].value, e)
  }

  // Entry i includes the new one, for the same context.
  predicate Hosts(t: Table, e: Entry, i: nat)
  {
    Meets(t, e, i) && Inside(e, t[i].value) && t[i].value.ctx == e.ctx
  }

  // Every entry the new one meets is included in it, for the same context.
  ghost predicate Absorbs(t: Table, e: Entry)
  {
    forall i: nat | Meets(t, e, i) :: Inside(t[i].value, e) && t[i].value.ctx == e.ctx
  }

  // The table without the entries below `top` that the new one meets.
  function Swept(t: Table, e: Entry, top: nat): (u: Table)
    ensures |u| == |t|
  {
    seq(|t|, (i: nat) requires i < |t| => if i < top && Meets(t, e, i) then None else t[i])
  }

  function Without(t: Table, e: Entry): (u: Table)
    ensures |u| == |t|
  {
    Swept(t, e, |t|)
  }

  lemma SweepOne(t: Table, e: Entry, i: nat)
    requires i < |t|
    ensures Swept(t, e, i)[i] == t[i]
    ensures Swept(t, e, i + 1) == if Meets(t, e, i) then Swept(t, e, i)[i := None] else Swept(t, e, i)
  {
  }

  lemma FullIsWhole(t: Table, e: Entry)
    requires forall i: nat | i < |t| :: Without(t, e)[i].Some?
    ensures Without(t, e) == t
  {
  }

  lemma SweepNone(t: Table, e: Entry, top: nat)
    requires forall k: nat | k < top :: !Meets(t, e, k)
    ensures Swept(t, e, top) == t
  {
  }

  // What a successful add does: the streams of the new entry, which had no context or this one, now have it; every
  // other stream keeps what it had.
  ghost predicate Added(t: Table, u: Table, e: Entry)
  {
    forall s: bv15 ::
      if Covers(e, s) then Translate(t, s) in {None, Some(e.ctx)} && Translate(u, s) == Some(e.ctx)
      else Translate(u, s) == Translate(t, s)
  }

  lemma HostAdds(t: Table, e: Entry, i: nat)
    requires Apart(t) && Hosts(t, e, i)
    ensures Added(t, t, e)
  {
    hide Overlap, Covers, Inside, Translate;
    forall s: bv15 | Covers(e, s) ensures Translate(t, s) == Some(e.ctx) {
      Symmetric(t[i].value, e);
      InsideCovers(e, t[i].value, s);
      Unique(t, s, i);
    }
  }

  lemma Symmetric(e: Entry, f: Entry)
    ensures Overlap(e, f) == Overlap(f, e)
  {
  }

  // An entry that includes the new one is the only one the new one meets.
  lemma HostIsAlone(t: Table, e: Entry, i: nat, k: nat)
    requires Apart(t) && Meets(t, e, i) && Inside(e, t[i].value) && Meets(t, e, k)
    ensures k == i
  {
    hide Overlap, Covers, Inside;
    OverlapIff(t[k].value, e);
    var s: bv15 :| Covers(t[k].value, s) && Covers(e, s);
    Symmetric(t[i].value, e);
    InsideCovers(e, t[i].value, s);
    CommonOverlap(t[i].value, t[k].value, s);
  }

  // Merging keeps the table apart and adds exactly the new streams, though absorbed entries are gone.
  lemma MergeAdds(t: Table, e: Entry, j: nat)
    requires Apart(t) && Absorbs(t, e) && j < |t| && Without(t, e)[j].None?
    ensures var u := Without(t, e)[j := Some(e)]; Apart(u) && Added(t, u, e)
  {
    hide Overlap, Covers, Inside, Translate;
    var u := Without(t, e)[j := Some(e)];
    forall a: nat, b: nat | a < b < |u| && u[a].Some? && u[b].Some? ensures !Overlap(u[a].value, u[b].value) {
      if b == j { assert !Meets(t, e, a); }
      if a == j { Symmetric(e, t[b].value); assert !Meets(t, e, b); }
    }
    forall s: bv15 ensures if Covers(e, s) then Translate(t, s) in {None, Some(e.ctx)} && Translate(u, s) == Some(e.ctx)
                           else Translate(u, s) == Translate(t, s) {
      if Covers(e, s) {
        assert Matches(u, s, j);
        Unique(u, s, j);
        TranslateNew(t, e, s);
      } else {
        TranslateOld(t, e, j, s);
      }
    }
  }

  lemma TranslateNew(t: Table, e: Entry, s: bv15)
    requires Apart(t) && Absorbs(t, e) && Covers(e, s)
    ensures Translate(t, s) in {None, Some(e.ctx)}
  {
    hide Overlap, Covers, Inside;
    if i: nat :| Matches(t, s, i) {
      CommonOverlap(t[i].value, e, s);
      assert Meets(t, e, i);
      Unique(t, s, i);
    }
  }

  lemma TranslateOld(t: Table, e: Entry, j: nat, s: bv15)
    requires Apart(t) && Absorbs(t, e) && j < |t| && Without(t, e)[j].None? && !Covers(e, s)
    requires Apart(Without(t, e)[j := Some(e)])
    ensures Translate(Without(t, e)[j := Some(e)], s) == Translate(t, s)
  {
    hide Overlap, Covers, Inside;
    var u := Without(t, e)[j := Some(e)];
    if i: nat :| Matches(t, s, i) {
      Unique(t, s, i);
      if Meets(t, e, i) { InsideCovers(t[i].value, e, s); }
      assert Matches(u, s, i);
      Unique(u, s, i);
    } else {
      assert forall i: nat | Matches(u, s, i) :: Matches(t, s, i);
    }
  }
}

module Smmu {
  import opened StreamMatch
  import opened Bitmap

  const SME_MAX_NUM: nat := 128
  const CTX_MAX_NUM: nat := 128

  // What smmu_compatible_sme_exists comes to, and what a whole request comes to.
  datatype Scan = Included | NotIncluded | Conflict
  datatype Outcome = Done | Refused | Halted

  // The part of a VM that the SMMU code reads and writes.
  class VmIo {
    const globalMask: bv15
    var ctx: Option<nat>

    constructor (globalMask: bv15)
      ensures this.globalMask == globalMask && ctx == None
    {
      this.globalMask := globalMask;
      ctx := None;
    }
  }

  // The request raises an ERROR at entry i: they meet and cannot be merged.
  predicate Clash(t: Table, groups: seq<bv32>, e: Entry, group: bool, i: nat)
    requires |t| <= GRANULE * |groups|
  {
    && Meets(t, e, i)
    && !((group || Bit(groups, i)) && (Inside(e, t[i].value) || Inside(t[i].value, e)) && t[i].value.ctx == e.ctx)
  }

  function TableOf(used: seq<bv32>, entries: seq<Entry>): (t: Table)
    requires |entries| <= GRANULE * |used|
    ensures |t| == |entries|
  {
    seq(|entries|, (i: nat) requires i < |entries| => if Bit(used, i) then Some(entries[i]) else None)
  }

  lemma EntryOf(used: seq<bv32>, entries: seq<Entry>, i: nat)
    requires i < |entries| <= GRANULE * |used|
    ensures TableOf(used, entries)[i] == if Bit(used, i) then Some(entries[i]) else None
  {
  }

  lemma WriteInTable(used: seq<bv32>, entries: seq<Entry>, i: nat, e: Entry)
    requires i < |entries| <= GRANULE * |used| && Bit(used, i)
    ensures TableOf(used, entries[i := e]) == TableOf(used, entries)[i := Some(e)]
  {
  }

  lemma SetBitInTable(used: seq<bv32>, used': seq<bv32>, entries: seq<Entry>, i: nat, v: bool)
    requires |used| == |used'| && i < |entries| <= GRANULE * |used|
    requires forall k: nat | k < GRANULE * |used| :: Bit(used', k) == if k == i then v else Bit(used, k)
    ensures TableOf(used', entries) == TableOf(used, entries)[i := if v then Some(entries[i]) else None]
  {
    hide Bit;
  }

  ghost predicate Conflicts(t: Table, groups: seq<bv32>, e: Entry, group: bool)
    requires |t| <= GRANULE * |groups|
  {
    exists i: nat :: Clash(t, groups, e, group, i)
  }

  class Smmu {
    const smeNum: nat
    const ctxNum: nat
    const smes: array<bv32>
    const grps: array<bv32>
    const ctxs: array<bv32>
    var entries: seq<Entry>

    ghost predicate Valid()
      reads this
    {
      && smeNum <= SME_MAX_NUM && ctxNum <= CTX_MAX_NUM && |entries| == smeNum
      && GRANULE * smes.Length == GRANULE * grps.Length == SME_MAX_NUM && GRANULE * ctxs.Length == CTX_MAX_NUM
      && smes != grps && smes != ctxs && grps != ctxs
    }

    ghost function Entries(): (t: Table)
      requires Valid()
      reads this, smes
    {
      TableOf(smes[..], entries)
    }

    ghost predicate HasCtx(c: nat)
      requires Valid()
      reads this, ctxs
    {
      c < ctxNum && Bit(ctxs[..], c)
    }

    // smmu_init: every entry and context bank is free.
    constructor (smeNum: nat, ctxNum: nat)
      requires smeNum <= SME_MAX_NUM && ctxNum <= CTX_MAX_NUM
      ensures Valid() && this.smeNum == smeNum && this.ctxNum == ctxNum && fresh(smes) && fresh(grps) && fresh(ctxs)
      ensures (forall i: nat | i < smeNum :: Entries()[i].None?) && forall c: nat :: !HasCtx(c)
    {
      this.smeNum, this.ctxNum := smeNum, ctxNum;
      smes, grps, ctxs := new bv32[4], new bv32[4], new bv32[4];
      entries := seq(smeNum, _ => Entry(0, 0, 0));
      new;
      ClearConsecutive(ctxs, 0, ctxNum);
      ClearConsecutive(smes, 0, smeNum);
      ClearConsecutive(grps, 0, smeNum);
    }

    // If the new entry can be merged with none of those it meets, an ERROR. If one of those includes it, nothing is to
    // be done. Otherwise those it meets, which it includes, are gone.
    method CompatibleExists(e: Entry, group: bool) returns (r: Scan)
      requires Valid() && Apart(Entries())
      modifies smes
      ensures Valid()
      ensures r.Conflict? <==> Conflicts(old(Entries()), old(grps[..]), e, group)
      ensures r.Included? ==> Entries() == old(Entries()) && exists i: nat :: Hosts(Entries(), e, i)
      ensures r.NotIncluded? ==> Absorbs(old(Entries()), e) && Entries() == Without(old(Entries()), e)
    {
      hide Greater, Inside, Overlap, Bit, Apart, TableOf, Swept;
      ghost var t, gs := Entries(), grps[..];
      SweepNone(t, e, 0);
      var i: nat := 0;
      while i < smeNum
        invariant i <= smeNum && Entries() == Swept(t, e, i)
        invariant forall k: nat | k < i && Meets(t, e, k) ::
                    Inside(t[k].value, e) && t[k].value.ctx == e.ctx && (group || Bit(gs, k))
      {
        SweepOne(t, e, i);
        EntryOf(smes[..], entries, i);
        var used := Get(smes, i);
        if used {
          if Overlap(entries[i], e) {
            var g := Get(grps, i);
            if (group || g) && (Inside(e, entries[i]) || Inside(entries[i], e)) && e.ctx == entries[i].ctx {
              GreaterIncludes(e, entries[i]);
              if Greater(e.mask, entries[i].mask) {
                ghost var was := smes[..];
                Clear(smes, i);
                SetBitInTable(was, smes[..], entries, i, false);
              } else {
                assert Hosts(t, e, i);
                forall k: nat | Meets(t, e, k) ensures k == i { HostIsAlone(t, e, i, k); }
                SweepNone(t, e, i);
                return Included;
              }
            } else {
              assert Clash(t, gs, e, group, i);
              return Conflict;
            }
          }
        }
        i := i + 1;
      }
      return NotIncluded;
    }

    // The least free entry is taken; its stale contents are visible until it is written.
    method AllocSme() returns (sme: int)
      requires Valid()
      modifies smes
      ensures Valid()
      ensures sme < 0 ==> Entries() == old(Entries()) && forall i: nat | i < smeNum :: Entries()[i].Some?
      ensures sme >= 0 ==> sme < smeNum && old(Entries()[sme]).None? && Bit(smes[..], sme)
                           && Entries() == old(Entries())[sme := Some(entries[sme])]
    {
      hide Bit;
      sme := FindNth(smes, smeNum, 1, 0, false);
      if sme >= 0 {
        Set(smes, sme);
      } else if smeNum > 0 {
        CountZero(smes[..], 0, smeNum, false);
      }
    }

    method WriteSme(sme: nat, e: Entry, group: bool)
      requires Valid() && sme < smeNum && Bit(smes[..], sme)
      modifies this`entries, grps
      ensures Valid() && entries == old(entries)[sme := e.(ctx := old(entries)[sme].ctx)]
      ensures forall i: nat | i < SME_MAX_NUM :: Bit(grps[..], i) == ((group && i == sme) || Bit(old(grps[..]), i))
    {
      entries := entries[sme := Entry(e.id, e.mask, entries[sme].ctx)];
      if group {
        Set(grps, sme);
      }
    }

    method WriteS2c(sme: nat, ctx: nat)
      requires Valid() && sme < smeNum && Bit(smes[..], sme) && HasCtx(ctx)
      modifies this`entries
      ensures Valid() && entries == old(entries)[sme := old(entries)[sme].(ctx := ctx)]
    {
      entries := entries[sme := entries[sme].(ctx := ctx)];
    }

    // A VM keeps its context bank; without one it gets the least free one, if any.
    method InitCtx(vm: VmIo) returns (ctx: Option<nat>)
      requires Valid() && (vm.ctx.Some? ==> HasCtx(vm.ctx.value))
      modifies ctxs, vm
      ensures Valid() && vm.ctx == ctx && (old(vm.ctx).Some? ==> ctx == old(vm.ctx))
      ensures old(vm.ctx).None? ==> forall c: nat | old(HasCtx(c)) :: ctx != Some(c)
      ensures ctx.None? <==> old(vm.ctx).None? && forall c: nat | c < ctxNum :: old(HasCtx(c))
      ensures forall c: nat :: HasCtx(c) <==> old(HasCtx(c)) || ctx == Some(c)
    {
      hide Bit;
      ctx := vm.ctx;
      if ctx.None? {
        var c := FindNth(ctxs, ctxNum, 1, 0, false);
        if c >= 0 {
          Set(ctxs, c);
          ctx := Some(c);
          vm.ctx := ctx;
        } else if ctxNum > 0 {
          CountZero(ctxs[..], 0, ctxNum, false);
        }
      }
    }

    // iommu_vm_arch_add: the stream ids equal to `id` outside `mask` and the VM's global mask are to reach the VM's
    // context. Only the low 15 bits of `mask` and `id` are used, but any bit of `mask` makes the request a group.
    method Add(vm: VmIo, mask: bv32, id: bv32) returns (r: Outcome)
      requires Valid() && Apart(Entries()) && (vm.ctx.Some? ==> HasCtx(vm.ctx.value))
      modifies this`entries, smes, grps, ctxs, vm
      ensures Valid()
      ensures old(vm.ctx).Some? ==> vm.ctx == old(vm.ctx)
      ensures forall c: nat :: HasCtx(c) <==> old(HasCtx(c)) || vm.ctx == Some(c)
      ensures old(vm.ctx).None? ==> forall c: nat | old(HasCtx(c)) :: vm.ctx != Some(c)
      ensures r.Done? ==> vm.ctx.Some? && Apart(Entries()) && Added(old(Entries()), Entries(), Request(vm, mask, id))
      ensures r.Refused? ==> Entries() == old(Entries())
      ensures r.Refused? && vm.ctx.Some? ==> forall i: nat | i < smeNum :: Entries()[i].Some?
      ensures r.Refused? && vm.ctx.None? ==> forall c: nat | c < ctxNum :: old(HasCtx(c))
      ensures r.Halted? <==> vm.ctx.Some? && Conflicts(old(Entries()), old(grps[..]), Request(vm, mask, id), mask != 0)
    {
      hide Bit, Apart, Added, TableOf, Without, Absorbs, Conflicts;
      ghost var t := Entries();
      var ctx := InitCtx(vm);
      var prepMask := ((mask & 0x7fff) as bv15) | vm.globalMask;
      var prepId := (id & 0x7fff) as bv15;
      var group := mask != 0;
      if ctx.None? {
        return Refused;
      }
      var e := Entry(prepId, prepMask, ctx.value);
      assert Entries() == t;
      var included := CompatibleExists(e, group);
      if included.Conflict? {
        return Halted;
      }
      if included.NotIncluded? {
        var sme := AllocSme();
        if sme < 0 {
          FullIsWhole(t, e);
          return Refused;
        }
        MergeAdds(t, e, sme);
        WriteInTable(smes[..], entries, sme, e);
        ghost var was, w := entries, Without(t, e);
        assert w[sme := Some(entries[sme])][sme := Some(e)] == w[sme := Some(e)];
        WriteSme(sme, e, group);
        WriteS2c(sme, ctx.value);
        assert entries == was[sme := e];
      } else {
        ghost var i: nat :| Hosts(t, e, i);
        HostAdds(t, e, i);
      }
      return Done;
    }
  }

  // The entry that a request asks for, once the VM has its context.
  function Request(vm: VmIo, mask: bv32, id: bv32): Entry
    requires vm.ctx.Some?
    reads vm
  {
    Entry((id & 0x7fff) as bv15, ((mask & 0x7fff) as bv15) | vm.globalMask, vm.ctx.value)
  }
}

/**
 Whole runs: any sequence of requests of any number of VMs, up to an ERROR.
 */
module DeviceIsolation {
  import opened StreamMatch
  import opened Smmu

  datatype Req = Req(vm: nat, mask: bv32, id: bv32)

  ghost predicate Ready(smmu: Smmu, vms: seq<VmIo>)
    reads smmu, smmu.smes, smmu.grps, smmu.ctxs, vms
  {
    && smmu.Valid() && Apart(smmu.Entries())
    && (forall i: nat, j: nat | i < j < |vms| :: vms[i] != vms[j])
    && (forall i: nat | i < |vms| && vms[i].ctx.Some? :: smmu.HasCtx(vms[i].ctx.value))
    && forall i: nat, j: nat | i < j < |vms| && vms[i].ctx.Some? :: vms[i].ctx != vms[j].ctx
  }

  // Every stream of a request that was done goes to the context of the VM that made it.
  ghost predicate Holds(t: Table, vms: seq<VmIo>, q: Req)
    requires q.vm < |vms|
    reads vms
  {
    vms[q.vm].ctx.Some? && forall s: bv15 | Covers(Request(vms[q.vm], q.mask, q.id), s) ::
        Translate(t, s) == vms[q.vm].ctx
  }

  ghost predicate Asked(vms: seq<VmIo>, reqs: seq<Req>, log: seq<Outcome>, s: bv15)
    reads vms
  {
    exists k: nat :: k < |log| <= |reqs| && log[k].Done? && reqs[k].vm < |vms| && vms[reqs[k].vm].ctx.Some?
                     && Covers(Request(vms[reqs[k].vm], reqs[k].mask, reqs[k].id), s)
  }

  // What one more request does to a stream: asked for, it keeps or gets the context of the VM.
  lemma StreamKeeps(t: Table, u: Table, e: Entry, s: bv15)
    requires Added(t, u, e)
    ensures Translate(t, s).Some? ==> Translate(u, s) == Translate(t, s)
    ensures if Covers(e, s) then Translate(u, s) == Some(e.ctx) else Translate(u, s) == Translate(t, s)
  {
  }

  // A request that was done still holds, every stream still goes where it went, and no VM shares its context after any
  // number of further requests by any VMs; a stream changes only if a request that is done asks for it.
  method Serve(smmu: Smmu, vms: seq<VmIo>, reqs: seq<Req>) returns (log: seq<Outcome>)
    requires Ready(smmu, vms) && forall k: nat | k < |reqs| :: reqs[k].vm < |vms|
    modifies smmu`entries, smmu.smes, smmu.grps, smmu.ctxs, vms
    ensures |log| <= |reqs| && forall k: nat | k < |log| && log[k].Halted? :: k + 1 == |log|
    ensures |log| == |reqs| || Halts(log)
    ensures Halts(log) || Ready(smmu, vms)
    ensures Halts(log) || forall k: nat | k < |log| && log[k].Done? :: Holds(smmu.Entries(), vms, reqs[k])
    ensures Halts(log) || forall s: bv15 ::
              var was := old(Translate(smmu.Entries(), s));
              Translate(smmu.Entries(), s) == was || (was.None? && Asked(vms, reqs, log, s))
  {
    hide Apart, Translate, Covers, Asked, Request;
    log := [];
    for n: nat := 0 to |reqs|
      invariant |log| == n && (forall k: nat | k < n :: !log[k].Halted?) && Ready(smmu, vms)
      invariant forall k: nat | k < n && log[k].Done? :: Holds(smmu.Entries(), vms, reqs[k])
      invariant forall s: bv15 ::
                  var was := old(Translate(smmu.Entries(), s));
                  Translate(smmu.Entries(), s) == was || (was.None? && Asked(vms, reqs, log, s))
    {
      var q := reqs[n];
      var r := Step(smmu, vms, q, reqs, log);
      ghost var before := log;
      log := log + [r];
      AskedGrows(vms, reqs, before, r);
      if r.Halted? { return; }
    }
  }

  predicate Halts(log: seq<Outcome>)
  {
    log != [] && log[|log| - 1].Halted?
  }

  // One request; `reqs` and `log` are what came before.
  method Step(smmu: Smmu, vms: seq<VmIo>, q: Req, ghost reqs: seq<Req>, ghost log: seq<Outcome>) returns (r: Outcome)
    requires Ready(smmu, vms) && q.vm < |vms| && |log| <= |reqs|
    requires forall k: nat | k < |log| && log[k].Done? :: reqs[k].vm < |vms| && Holds(smmu.Entries(), vms, reqs[k])
    modifies smmu`entries, smmu.smes, smmu.grps, smmu.ctxs, vms[q.vm]
    ensures !r.Halted? ==> Ready(smmu, vms)
    ensures !r.Halted? ==> forall k: nat | k < |log| && log[k].Done? :: Holds(smmu.Entries(), vms, reqs[k])
    ensures r.Done? ==> Holds(smmu.Entries(), vms, q)
    ensures !r.Halted? ==> forall s: bv15 | old(Asked(vms, reqs, log, s)) :: Asked(vms, reqs, log, s)
    ensures !r.Halted? ==> forall s: bv15 ::
              var was := old(Translate(smmu.Entries(), s));
              Translate(smmu.Entries(), s) == was ||
              (r.Done? && was.None? && Covers(Request(vms[q.vm], q.mask, q.id), s))
  {
    hide Apart, Added, Translate, Covers;
    ghost var t := smmu.Entries();
    r := smmu.Add(vms[q.vm], q.mask, q.id);
    if r.Done? {
      ghost var e := Request(vms[q.vm], q.mask, q.id);
      forall s: bv15
        ensures Translate(t, s).Some? ==> Translate(smmu.Entries(), s) == Translate(t, s)
        ensures Covers(e, s) ==> Translate(smmu.Entries(), s) == Some(e.ctx)
        ensures !Covers(e, s) ==> Translate(smmu.Entries(), s) == Translate(t, s)
      {
        StreamKeeps(t, smmu.Entries(), e, s);
      }
    }
  }

  lemma AskedGrows(vms: seq<VmIo>, reqs: seq<Req>, log: seq<Outcome>, r: Outcome)
    requires |log| < |reqs| && reqs[|log|].vm < |vms|
    ensures forall s: bv15 | Asked(vms, reqs, log, s) :: Asked(vms, reqs, log + [r], s)
    ensures var q := reqs[|log|];
            r.Done? && vms[q.vm].ctx.Some? ==>
              forall s: bv15 | Covers(Request(vms[q.vm], q.mask, q.id), s) :: Asked(vms, reqs, log + [r], s)
  {
    hide Covers, Request;
    forall s: bv15 | Asked(vms, reqs, log, s) ensures Asked(vms, reqs, log + [r], s) {
      var k: nat :| k < |log| && log[k].Done? && reqs[k].vm < |vms| && vms[reqs[k].vm].ctx.Some?
                     && Covers(Request(vms[reqs[k].vm], reqs[k].mask, reqs[k].id), s);
      assert (log + [r])[k] == log[k];
    }
    assert (log + [r])[|log|] == r;
  }

  // Requests of different VMs that both hold have no stream id in common.
  lemma NoSharedStream(t: Table, vms: seq<VmIo>, p: Req, q: Req)
    requires p.vm < |vms| && q.vm < |vms| && Holds(t, vms, p) && Holds(t, vms, q)
    requires vms[p.vm].ctx != vms[q.vm].ctx
    ensures !Overlap(Request(vms[p.vm], p.mask, p.id), Request(vms[q.vm], q.mask, q.id))
  {
    var e, f := Request(vms[p.vm], p.mask, p.id), Request(vms[q.vm], q.mask, q.id);
    hide Overlap, Covers, Request;
    OverlapIff(e, f);
  }
}
