/**
 Address spaces: the page-table manager of the MMU build (src/core/mmu/mem.c) over the walk of
 src/arch/riscv. Every method is stated on `Look`, the meaning of each virtual page.
 */
module AddrSpace {
  import opened Arith
  import opened Platform
  import opened PageTable
  import opened TableUpdate
  import opened PageRange
  import opened MapStep
  import opened VpageStep
  import opened WalkStart
  import opened FirstFree
  import opened IdentityMap
  import opened Inflating
  import Colour
  import PagePool

  // NoTables: no page for a page table. NoFrames, Overlap: the two ERROR calls of mem_map, which halt.
  // NoEntry: the last-level entry is NULL, which mem_map writes to without a check.
  datatype Outcome = Done | NoTables | NoFrames | Overlap | OutOfSection | NoEntry

  // The page of the last byte of n pages from v, in the width of an address.
  function LastPage(v: nat, n: nat): nat
  {
    (v + n + MAX_PAGE - 1) % MAX_PAGE
  }

  // It is the page of the byte before the end of the range, on 64-bit byte addresses.
  lemma LastPageIs(v: nat, n: nat)
    ensures LastPage(v, n) == ((v + n) * 4096 + 0xFFFF_FFFF_FFFF_FFFF) % 0x1_0000_0000_0000_0000 / 4096
    ensures 0 < v + n <= MAX_PAGE ==> LastPage(v, n) == v + n - 1
  {
    var q, r := (v + n + MAX_PAGE - 1) / MAX_PAGE, LastPage(v, n);
    var x := (v + n) * 4096 + 0xFFFF_FFFF_FFFF_FFFF;
    assert v + n + MAX_PAGE - 1 == MAX_PAGE * q + r;
    DivUnique(x, 0x1_0000_0000_0000_0000, q, r * 4096 + 4095);
    if 0 < v + n <= MAX_PAGE { DivUnique(v + n + MAX_PAGE - 1, MAX_PAGE, 1, v + n - 1); }
  }

  // NoRoom: no page for a page table. RanOff: the search left the 64-bit address space, where the
  // address of the source wraps to zero.
  datatype Vpage = Found(page: nat) | Invalid | NoRoom | RanOff

  // First and last page of a section of the address space.
  datatype Section = Section(beg: nat, end: nat)

  // Pages of the 64-bit address space.
  const MAX_PAGE: nat := 0x10_0000_0000_0000

  const HYP_FLAGS: bv8 := 0xE0
  const VM_FLAGS: bv8 := 0xD0

  // PTE_PAGE | flags, the low byte pte_set gives a leaf.
  function LeafFlags(flags: bv8): bv8
  {
    0x0F | flags
  }

  // V, R, W, X, A and D in bits 0 to 3, 6 and 7, U in bit 4 for pages of a guest, G in bit 5 for those of the
  // hypervisor.
  predicate OwnFlags(flags: bv8, hyp: bool)
  {
    && flags & 0xCF == 0xCF
    && (flags & 0x10 != 0 <==> !hyp)
    && (flags & 0x20 != 0 <==> hyp)
  }

  // Pages outside [v, v + n) with the flags of the space's own pages keep frame and flags.
  ghost predicate OwnKept(was: PT, pt: PT, hyp: bool, v: nat, n: nat)
  {
    forall p: nat | Look(was, p).Mapped? && OwnFlags(Look(was, p).flags, hyp) && !Hits(pt.guest, p, v, n) ::
      Look(pt, p) == Look(was, p)
  }

  lemma OwnAre(flags: bv8, hyp: bool)
    ensures OwnFlags(flags, hyp) <==> flags == if hyp then 0xEF else 0xDF
  {
  }

  // What keeps every page up to the flags of the space keeps its own pages.
  lemma KeptOwn(was: PT, pt: PT, hyp: bool, flags: bv8, v: nat, n: nat)
    requires forall p: nat | !Hits(pt.guest, p, v, n) :: Kept(Look(was, p), Look(pt, p), flags)
    requires OwnFlags(flags, hyp)
    ensures OwnKept(was, pt, hyp, v, n)
  {
    hide Look, OwnFlags, Hits;
    OwnAre(flags, hyp);
    forall p: nat | Look(was, p).Mapped? && OwnFlags(Look(was, p).flags, hyp) && !Hits(pt.guest, p, v, n)
      ensures Look(pt, p) == Look(was, p)
    {
      OwnAre(Look(was, p).flags, hyp);
      assert Kept(Look(was, p), Look(pt, p), flags);
    }
  }

  lemma OwnStart(pt: PT, hyp: bool, flags: bv8)
    requires OwnFlags(flags, hyp)
    ensures OwnKept(pt, pt, hyp, 0, 0)
  {
    hide Look, OwnFlags;
  }

  lemma ClearedOwn(was: PT, pt: PT, hyp: bool, flags: bv8, v: nat, c: nat, n: nat)
    requires Cleared(was, pt, v, c, flags) && c <= n && OwnFlags(flags, hyp)
    ensures OwnKept(was, pt, hyp, v, n)
  {
    hide Look, OwnFlags, Kept;
    forall p: nat | !Hits(pt.guest, p, v, n) ensures Kept(Look(was, p), Look(pt, p), flags) {
      assert !Hits(pt.guest, p, v, c);
    }
    KeptOwn(was, pt, hyp, flags, v, n);
  }

  lemma InflatedOwn(was: PT, pt: PT, hyp: bool, flags: bv8)
    requires AllKept(was, pt, flags) && OwnFlags(flags, hyp)
    ensures OwnKept(was, pt, hyp, 0, 0)
  {
    hide Look, OwnFlags, Kept;
    KeptOwn(was, pt, hyp, flags, 0, 0);
  }

  // The same of one split.
  lemma SplitOwn(was: PT, pt: PT, hyp: bool, flags: bv8, u: nat, l: nat)
    requires forall q: nat :: SplitsAt(was, pt, u, l, flags, q)
    requires OwnFlags(flags, hyp)
    ensures OwnKept(was, pt, hyp, 0, 0)
  {
    hide Look, EndLevel, OwnFlags, Block;
    forall p: nat ensures Kept(Look(was, p), Look(pt, p), flags) { assert SplitsAt(was, pt, u, l, flags, p); }
    KeptOwn(was, pt, hyp, flags, 0, 0);
  }

  class AddrSpace {
    const guest: bool
    const hyp: bool
    const sections: seq<Section>
    const root: nat
    const mem: PagePool.PageAllocator
    var tables: map<nat, seq<Pte>>
    ghost var home: map<nat, Home>

    ghost function Pt(): PT
      reads this
    {
      PT(guest, root, tables)
    }

    // Pages the root table occupies: a guest root is four pages long.
    ghost function RootPages(): set<nat>
    {
      PagePool.Range(root, if guest then 4 else 1)
    }

    ghost predicate Valid()
      reads this, mem, mem.Repr
    {
      && WF(Pt(), home)
      && mem.Valid() && this !in mem.Repr
      && tables.Keys <= mem.taken && RootPages() <= mem.taken
    }

    // Flags given to the pieces of a split superpage.
    function SplitFlags(): bv8
    {
      LeafFlags(if hyp then HYP_FLAGS else VM_FLAGS)
    }

    lemma SplitFlagsOwn()
      ensures OwnFlags(SplitFlags(), hyp)
    {
    }

    // as_init on zeroed root pages: the hypervisor's own space starts with the identity map of physical memory.
    constructor (guest: bool, hyp: bool, sections: seq<Section>, mem: PagePool.PageAllocator, root: nat,
                 regions: seq<Region>)
      requires mem.Valid() && PagePool.Range(root, if guest then 4 else 1) <= mem.taken
      requires hyp ==> !guest && forall i: nat | i < |regions| :: GoodRegion(regions[i])
      ensures Valid() && tables.Keys == {root} && this.mem == mem && this.guest == guest && this.hyp == hyp
      ensures this.sections == sections && this.root == root
      ensures hyp ==> Identity(Pt(), regions, LeafFlags(HYP_FLAGS))
      ensures !hyp ==> forall v: nat :: Look(Pt(), v) == Unmapped(0)
    {
      hide PagePool.Range, PagePool.PageAllocator.Valid, Node, Index, Block, Identity, GoodRegion, LeafFlags;
      this.guest, this.hyp, this.sections, this.mem, this.root := guest, hyp, sections, mem, root;
      tables := map[root := seq(NEntries(guest, 0), _ => Pte(Empty, 0, 0, 0))];
      home := map[root := Home(0, 0)];
      new;
      EmptyRoot(Pt(), home);
      if hyp { MapPhysicalIdentity(regions); }
    }

    // as_map_physical_identity: root entries for all blocks that regions of physical memory touch.
    method MapPhysicalIdentity(regions: seq<Region>)
      requires tables == map[root := seq(512, _ => Pte(Empty, 0, 0, 0))] && home == map[root := Home(0, 0)] && !guest
      requires forall i: nat | i < |regions| :: GoodRegion(regions[i])
      modifies this`tables
      ensures tables.Keys == {root} && WF(Pt(), home) && Identity(Pt(), regions, LeafFlags(HYP_FLAGS))
    {
      hide Look, EndLevel, Rooted, LeafFlags, Entries, First, IdentityAt, Overlaps, WF, Leaf;
      var flags := LeafFlags(HYP_FLAGS);
      ghost var done: iset<nat> := iset{};
      RootedStart(flags);
      for i := 0 to |regions|
        invariant tables.Keys == {root} && Rooted(tables[root], done, flags) && |tables[root]| == 512
        invariant forall b: nat | b in done :: b * LvlPages(0) < FRAMES
        invariant forall b: nat :: b in done <==> Backed(regions[..i], b)
      {
        var reg := regions[i];
        var addr := reg.base - reg.base % BLOCK;
        FirstAddress(reg);
        for j := 0 to Entries(reg)
          invariant tables.Keys == {root} && Rooted(tables[root], done, flags) && |tables[root]| == 512
          invariant addr == (First(reg) + j) * BLOCK
          invariant forall b: nat | b in done :: b * LvlPages(0) < FRAMES
          invariant forall b: nat :: b in done <==> Backed(regions[..i], b) || First(reg) <= b < First(reg) + j
        {
          ghost var b := First(reg) + j;
          BlockAddress(b, addr, flags);
          EntriesFit(reg, b);
          RootedStep(tables[root], done, flags, b);
          var index := Index(guest, addr / 4096, 0);
          tables := tables[root := tables[root][index := Pte(Final, addr / 4096, flags, 0)]];
          done := done + iset{b};
          addr := addr + BLOCK;
        }
        forall b: nat ensures b in done <==> Backed(regions[..i + 1], b) {
          EntriesOverlap(reg, b);
          BackedNext(regions, i, b);
        }
      }
      assert regions[..|regions|] == regions;
      RootedWF(Pt(), home, tables[root], done, flags);
      forall v: nat ensures IdentityAt(Pt(), regions, flags, v) {
        RootedLook(Pt(), tables[root], done, flags, regions, v);
      }
    }

    static lemma EmptyRoot(pt: PT, home: map<nat, Home>)
      requires pt.tables == map[pt.root := seq(NEntries(pt.guest, 0), _ => Pte(Empty, 0, 0, 0))]
      requires home == map[pt.root := Home(0, 0)]
      ensures WF(pt, home) && forall v: nat :: Look(pt, v) == Unmapped(0)
    {
      forall v: nat ensures Look(pt, v) == Unmapped(0) {
        assert EntryAt(pt, 0, v) == Pte(Empty, 0, 0, 0);
      }
    }

    // pt_get_pte: the table and index of the level-l entry for v, or None where the walk ends in an
    // invalid entry. The source would read through a leaf above level l as if it were a table.
    method GetPte(l: nat, v: nat) returns (r: Option<(nat, nat)>)
      requires WF(Pt(), home) && l < LEVELS
      requires forall m: nat | m < l :: !EntryAt(Pt(), m, v).kind.Final?
      ensures Node(Pt(), l, v).None? ==> r == None
      ensures Node(Pt(), l, v).Some? ==> r == Some((Node(Pt(), l, v).value, Index(guest, v, l)))
      ensures r.Some? ==> r.value.0 in tables && r.value.1 < |tables[r.value.0]|
      ensures r.Some? ==> tables[r.value.0][r.value.1] == EntryAt(Pt(), l, v)
    {
      var t := root;
      var i := Index(guest, v, 0);
      for m := 0 to l
        invariant Node(Pt(), m, v) == Some(t) && i == Index(guest, v, m)
      {
        NodeHome(Pt(), home, m, v);
        if tables[t][i].kind.Empty? {
          NoNode(Pt(), m + 1, l, v);
          return None;
        }
        t := tables[t][i].addr;
        i := Index(guest, v, m + 1);
      }
      NodeHome(Pt(), home, l, v);
      return Some((t, i));
    }

    // mem_translate, on byte addresses.
    method MemTranslate(va: nat) returns (ok: bool, pa: nat)
      requires WF(Pt(), home)
      ensures Translate(Pt(), va) == if ok then Some(pa) else None
    {
      hide WF, Index, LeafByte;
      var v := va / 4096;
      var t := root;
      var i := Index(guest, v, 0);
      var lvl := 0;
      var m := 0;
      NodeHome(Pt(), home, 0, v);
      while m < LEVELS
        invariant m < LEVELS && lvl == 0
        invariant Node(Pt(), m, v) == Some(t) && i == Index(guest, v, m)
        decreases LEVELS - m
      {
        NodeHome(Pt(), home, m, v);
        if tables[t][i].kind.Empty? || !tables[t][i].kind.Next? {
          lvl := m;
          break;
        }
        t := tables[t][i].addr;
        i := Index(guest, v, m + 1);
        m := m + 1;
      }
      NodeHome(Pt(), home, lvl, v);
      ReachedEnds(Pt(), home, lvl, v);
      var e := tables[t][i];
      if !e.kind.Empty? {
        LeafByteIsPage(e.addr, va, lvl);
        pa := LeafByte(e.addr, va, lvl);
        ok := true;
      } else {
        ok, pa := false, 0;
      }
    }

    // (addr & ~mask) | (va & mask), on bytes, with a mask of the low bits of level l.
    static function LeafByte(addr: nat, va: nat, l: nat): int
    {
      var size := LvlPages(l) * 4096;
      addr * 4096 - (addr * 4096) % size + va % size
    }

    static lemma LeafByteIsPage(addr: nat, va: nat, l: nat)
      requires l < LEVELS && Aligned(addr, l)
      ensures LeafByte(addr, va, l) == (addr + (va / 4096) % LvlPages(l)) * 4096 + va % 4096
    {
      var p, n := LvlPages(l), addr / LvlPages(l);
      assert addr * 4096 == (p * 4096) * n;
      DivUnique(addr * 4096, p * 4096, n, 0);
      var x, y := va / 4096, va % 4096;
      assert va == (p * 4096) * (x / p) + ((x % p) * 4096 + y) by { assert x == p * (x / p) + x % p; }
      DivUnique(va, p * 4096, x / p, (x % p) * 4096 + y);
    }

    // mem_alloc_pt: entry (t, i), the level-l entry for v, comes to point to a new table whose entries
    // keep the software bits of the old entry.
    method AllocPt(t: nat, i: nat, l: nat, v: nat) returns (ok: bool, ghost nt: nat)
      requires Valid() && l < 2 && Node(Pt(), l, v) == Some(t) && i == Index(guest, v, l)
      requires !EntryAt(Pt(), l, v).kind.Next?
      modifies this, mem, mem.Repr
      ensures Valid()
      ensures !ok ==> Pt() == old(Pt()) && home == old(home) && mem.taken == old(mem.taken) && mem.Exhausted()
      ensures ok ==> nt !in old(mem.taken) && mem.taken == old(mem.taken) + {nt} && nt < FRAMES
      ensures ok ==> t in old(tables) && i < |old(tables)[t]| && nt !in old(tables)
      ensures ok ==> Pt() == Install(old(Pt()), t, i, nt, Defaults(EntryAt(old(Pt()), l, v).rsw))
      ensures ok ==> home == old(home)[nt := Home(l + 1, Block(guest, v, l))]
    {
      hide WF, Node, EntryAt, Index, Block, PagePool.Range, PagePool.PageAllocator.Valid;
      ghost var pt0 := Pt();
      NodeHome(pt0, home, l, v);
      ghost var e := EntryAt(pt0, l, v);
      var pages := mem.AllocPpages(1, false);
      if pages.numPages == 0 { return false, 0; }
      nt := pages.base;
      PagePool.OnePage(pages.base);
      assert nt !in old(mem.taken);
      var dflt := Pte(Empty, 0, 0, tables[t][i].rsw);
      tables := tables[t := tables[t][i := Pte(Next, pages.base, 0, 0)]];
      assert |Defaults(0)| == 512;
      var fill: seq<Pte> :| |fill| == 512;
      for k := 0 to 512
        invariant |fill| == 512 && forall j: nat | j < k :: fill[j] == dflt
      {
        fill := fill[k := dflt];
      }
      tables := tables[pages.base := fill];
      home := home[nt := Home(l + 1, Block(guest, v, l))];
      assert fill == Defaults(e.rsw);
      DefaultEnds(e.rsw, l);
      InstallWF(pt0, old(home), l, v, t, nt, fill);
      assert Pt() == Install(pt0, t, i, nt, fill);
      return true, nt;
    }

    static lemma DefaultEnds(rsw: nat, l: nat)
      ensures EndEntries(Defaults(rsw), l + 1)
    {
    }

    // AllocPt on an entry that is empty changes the meaning of no page.
    method AllocEmpty(t: nat, i: nat, l: nat, v: nat) returns (ok: bool)
      requires Valid() && l < 2 && Node(Pt(), l, v) == Some(t) && i == Index(guest, v, l)
      requires EntryAt(Pt(), l, v).kind.Empty?
      modifies this, mem, mem.Repr
      ensures Valid()
      ensures !ok ==> Pt() == old(Pt()) && mem.taken == old(mem.taken) && mem.Exhausted()
      ensures Grew(old(mem.taken), mem.taken, old(tables.Keys), tables.Keys, [], false)
      ensures forall q: nat :: Look(Pt(), q) == Look(old(Pt()), q)
      ensures ok ==> Node(Pt(), l + 1, v).Some? && EndLevel(Pt(), v) == l + 1
      ensures ok ==> forall q: nat :: (
                EndLevel(Pt(), q) == if Block(guest, q, l) == Block(guest, v, l) then l + 1 else EndLevel(old(Pt()), q))
    {
      hide WF, Node, EntryAt, Index, Block, Look, EndLevel, PagePool.PageAllocator.Valid,
           PagePool.PageAllocator.Exhausted, PagePool.Range;
      ghost var pt0, home0 := Pt(), home;
      ghost var nt;
      ok, nt := AllocPt(t, i, l, v);
      if ok {
        ghost var e := EntryAt(pt0, l, v);
        DefaultsSplit(e, l, 0);
        forall q: nat
          ensures Look(Pt(), q) == Look(pt0, q) && Node(Pt(), l + 1, v).Some?
          ensures EndLevel(Pt(), q) == if Block(guest, q, l) == Block(guest, v, l) then l + 1 else EndLevel(pt0, q)
        {
          SplitLook(pt0, home0, l, v, t, nt, 0, q);
        }
        assert tables.Keys == pt0.tables.Keys + {nt};
      }
    }

    // mem_expand_pte: the entry that maps (or reserves, or leaves empty) the level-l block of v becomes a table
    // whose entries say the same.
    method Expand(v: nat, l: nat) returns (r: Outcome)
      requires Valid() && l < LEVELS && Walkable(Pt(), l, v)
      modifies this, mem, mem.Repr
      ensures Valid() && (r == Done || r == NoTables)
      ensures r == NoTables ==> Pt() == old(Pt()) && mem.taken == old(mem.taken) && mem.Exhausted()
      ensures Grew(old(mem.taken), mem.taken, old(tables.Keys), tables.Keys, [], false)
      ensures r == Done ==> forall q: nat :: SplitsAt(old(Pt()), Pt(), v, l, SplitFlags(), q)
      ensures OwnFlags(SplitFlags(), hyp) && OwnKept(old(Pt()), Pt(), hyp, 0, 0)
    {
      hide WF, Node, EntryAt, Index, Block, Look, EndLevel, SplitsAt, SplitFlags, OwnFlags, OwnKept,
           PagePool.PageAllocator.Valid, PagePool.PageAllocator.Exhausted, PagePool.Range;
      SplitFlagsOwn();
      OwnStart(Pt(), hyp, SplitFlags());
      WalkableMeans(Pt(), home, l, v);
      if LEVELS - 1 <= l {
        NoSplit(Pt(), v, l, SplitFlags());
        return Done;
      }
      var slot := GetPte(l, v);
      if slot.None? || tables[slot.value.0][slot.value.1].kind.Next? {
        NoSplit(Pt(), v, l, SplitFlags());
        return Done;
      }
      ghost var was := Pt();
      r := ExpandEntry(v, l, slot.value.0, slot.value.1);
      if r == Done { SplitOwn(was, Pt(), hyp, SplitFlags(), v, l); }
    }

    // The part of mem_expand_pte that runs when there is an entry and it is no table yet.
    method ExpandEntry(v: nat, l: nat, t: nat, i: nat) returns (r: Outcome)
      requires Valid() && l < 2 && Node(Pt(), l, v) == Some(t) && i == Index(guest, v, l)
      requires !EntryAt(Pt(), l, v).kind.Next?
      modifies this, mem, mem.Repr
      ensures Valid() && (r == Done || r == NoTables)
      ensures r == NoTables ==> Pt() == old(Pt()) && mem.taken == old(mem.taken) && mem.Exhausted()
      ensures Grew(old(mem.taken), mem.taken, old(tables.Keys), tables.Keys, [], false)
      ensures r == Done ==> forall q: nat :: SplitsAt(old(Pt()), Pt(), v, l, SplitFlags(), q)
    {
      hide WF, Node, EntryAt, Index, Block, Look, EndLevel, Aligned, Install, SplitsAt,
           PagePool.PageAllocator.Valid, PagePool.PageAllocator.Exhausted, PagePool.Range;
      ghost var pt0, home0, taken0 := Pt(), home, mem.taken;
      NodeHome(pt0, home, l, v);
      var e := tables[t][i];
      var flags := SplitFlags();
      var ok;
      ghost var nt0;
      ok, nt0 := AllocPt(t, i, l, v);
      if !ok { return NoTables; }
      ghost var cur := Defaults(e.rsw);
      InstallEdge(pt0, t, i, nt0, cur);
      var nt := tables[t][i].addr;
      var j := 0;
      var paddr := e.addr;
      if e.kind.Final? || e.rsw == RSRV {
        while j < 512
          invariant 0 <= j <= 512 && |cur| == 512 && paddr == e.addr + j * LvlPages(l + 1)
          invariant forall k: nat | k < j :: cur[k] == SplitEntry(e, l, k, flags)
          invariant forall k: nat | j <= k < 512 :: cur[k] == Pte(Empty, 0, 0, e.rsw)
          invariant Pt() == Install(pt0, t, i, nt, cur) && mem.Valid() && mem.taken == taken0 + {nt}
          invariant home == home0[nt := Home(l + 1, Block(guest, v, l))]
        {
          InstallSet(pt0, t, i, nt, cur, j, SplitEntry(e, l, j, flags));
          var w := if e.kind.Final? then Pte(Final, paddr, flags, 0) else tables[nt][j].(rsw := RSRV);
          tables := tables[nt := tables[nt][j := w]];
          cur := cur[j := w];
          j := j + 1;
          paddr := paddr + LvlPages(l + 1);
        }
      }
      assert cur == SplitTable(e, l, flags);
      InstallEdge(pt0, t, i, nt, cur);
      SplitLook(pt0, home0, l, v, t, nt, flags, v);
      forall q: nat ensures SplitsAt(pt0, Pt(), v, l, flags, q) {
        SplitMeans(pt0, home0, l, v, t, nt, flags, q);
      }
      return Done;
    }

    // mem_find_sec, on pages: the first section that holds page v, or -1.
    method FindSec(v: nat) returns (r: int)
      ensures r == SecOf(v)
      ensures r >= 0 ==> r < |sections| && sections[r].beg <= v <= sections[r].end
      ensures forall k: nat | k < (if r < 0 then |sections| else r) :: !(sections[k].beg <= v <= sections[k].end)
    {
      for i := 0 to |sections|
        invariant forall k: nat | k < i :: !(sections[k].beg <= v <= sections[k].end)
      {
        if sections[i].beg <= v <= sections[i].end {
          SecIs(v, i);
          return i;
        }
      }
      SecIs(v, |sections|);
      return -1;
    }

    ghost function SecOf(v: nat): int
    {
      if exists i: nat :: IsSec(v, i) then var i: nat :| IsSec(v, i); i else -1
    }

    ghost predicate IsSec(v: nat, i: nat)
    {
      i < |sections| && sections[i].beg <= v <= sections[i].end
      && forall k: nat | k < i :: !(sections[k].beg <= v <= sections[k].end)
    }

    lemma SecIs(v: nat, i: nat)
      requires i <= |sections| && forall k: nat | k < i :: !(sections[k].beg <= v <= sections[k].end)
      requires i < |sections| ==> sections[i].beg <= v <= sections[i].end
      ensures SecOf(v) == if i < |sections| then i else -1
    {
      if i < |sections| { assert IsSec(v, i); }
    }

    lemma SecHolds(v: nat)
      ensures SecOf(v) >= 0 ==> SecOf(v) < |sections| && sections[SecOf(v)].beg <= v <= sections[SecOf(v)].end
    {
    }

    // The walk of mem_map: down to the first entry the next block can be written to, making tables on the way.
    method Descend(v: nat, left: nat, pa: nat) returns (r: Outcome, l: nat, t: nat, i: nat)
      requires Valid() && left > 0
      modifies this, mem, mem.Repr
      ensures Valid() && Grew(old(mem.taken), mem.taken, old(tables.Keys), tables.Keys, [], false)
      ensures forall q: nat :: Look(Pt(), q) == Look(old(Pt()), q)
      ensures EndLevel(Pt(), v) >= EndLevel(old(Pt()), v)
      ensures r == Done || r == Overlap || (r == NoTables && mem.Exhausted())
      ensures r == Overlap <==> Look(old(Pt()), v).Mapped?
      ensures r == Done ==> l < LEVELS && Node(Pt(), l, v) == Some(t) && i == Index(guest, v, l)
      ensures r == Done ==> EndLevel(Pt(), v) == l && Look(Pt(), v).Unmapped?
      ensures r == Done ==> LvlPages(l) <= left && Aligned(v, l) && Aligned(pa, l)
      ensures left <= NBlocks(guest, 2) ==> Ahead(old(Pt()), Pt(), v, v + left, pa - v)
      ensures left <= NBlocks(guest, 2) && r == Done ==> l == Level(old(Pt()), v, v + left, pa - v)
    {
      hide WF, Node, EntryAt, Index, Block, Look, EndLevel, LvlPages, NBlocks, Ahead, PagePool.PageAllocator.Valid,
           PagePool.PageAllocator.Exhausted, PagePool.Range;
      AheadStart(Pt(), v, v + left, pa - v);
      ghost var was := Pt();
      l := 0;
      while l < LEVELS
        invariant l < LEVELS && Valid() && l <= EndLevel(Pt(), v) && EndLevel(Pt(), v) >= EndLevel(old(Pt()), v)
        invariant Grew(old(mem.taken), mem.taken, old(tables.Keys), tables.Keys, [], false)
        invariant forall q: nat :: Look(Pt(), q) == Look(old(Pt()), q)
        invariant left <= NBlocks(guest, 2) ==> Ahead(was, Pt(), v, v + left, pa - v)
        decreases LEVELS - l
      {
        WalkableMeans(Pt(), home, l, v);
        var slot := GetPte(l, v);
        t, i := slot.value.0, slot.value.1;
        var e := tables[t][i];
        LastLevel(v); LastLevel(pa);
        if e.kind.Empty? && LvlPages(l) <= left && Aligned(v, l) && Aligned(pa, l) {
          if left <= NBlocks(guest, 2) { LevelKept(was, Pt(), v, v + left, pa - v); }
          return Done, l, t, i;
        } else if e.kind.Empty? {
          ghost var taken1, keys1, pt1 := mem.taken, tables.Keys, Pt();
          BlocksEnd(pt1, home, l, v);
          var ok := AllocEmpty(t, i, l, v);
          GrewTwice(old(mem.taken), taken1, mem.taken, old(tables.Keys), keys1, tables.Keys, [], false);
          if ok && left <= NBlocks(guest, 2) { AheadTable(was, pt1, Pt(), v, l, v + left, pa - v); }
          if !ok { return NoTables, l, t, i; }
        } else if !e.kind.Next? {
          return Overlap, l, t, i;
        }
        l := l + 1;
      }
    }

    // The pages [v, v + |frames|) of the n to map are done; `extra` is allocated and not mapped yet.
    ghost predicate MapInv(was: PT, taken0: set<nat>, v: nat, n: nat, frames: seq<nat>, extra: seq<nat>,
                           pages: Option<nat>, flags: bv8)
      reads this, mem, mem.Repr
    {
      && Valid() && |frames| <= n <= NBlocks(guest, 2) && was.tables.Keys <= taken0
      && Framed(was, Pt(), v, |frames|) && MapsTo(Pt(), v, frames, flags)
      && Grew(taken0, mem.taken, was.tables.Keys, tables.Keys, frames + extra, pages.None?)
      && (pages.Some? ==> frames == Run(pages.value, |frames|) && pages.value + n <= FRAMES)
      && (pages.Some? ==> Ahead(was, Pt(), v + |frames|, v + n, pages.value - v))
    }

    // Frames for the next block: those given, or newly allocated ones.
    method TakeFrames(ghost was: PT, ghost taken0: set<nat>, ghost v: nat, ghost n: nat, ghost frames: seq<nat>,
                      pages: Option<nat>, ghost flags: bv8, l: nat, paddr: nat)
      returns (ok: bool, pa: nat)
      requires MapInv(was, taken0, v, n, frames, [], pages, flags)
      requires pages.Some? ==> Aligned(paddr, l) && paddr == pages.value + |frames| && |frames| + LvlPages(l) <= n
      modifies mem, mem.Repr
      ensures Valid() && Pt() == old(Pt())
      ensures ok ==> MapInv(was, taken0, v, n, frames, Run(pa, LvlPages(l)), pages, flags) && Aligned(pa, l)
      ensures ok ==> pa + LvlPages(l) <= FRAMES
      ensures !ok ==> pages.None? && MapInv(was, taken0, v, n, frames, [], pages, flags)
      ensures !ok && l == LEVELS - 1 ==> mem.Exhausted()
      ensures pages.Some? ==> pa == paddr
    {
      hide WF, Hits, LvlPages, Aligned, NBlocks, Grew, Run, Framed, MapsTo,
           PagePool.PageAllocator.Valid, PagePool.PageAllocator.Exhausted, PagePool.Range, PagePool.Mod;
      assert frames + [] == frames;
      ghost var run;
      if pages.Some? {
        run := Run(paddr, LvlPages(l));
        GrewNotOwn(taken0, mem.taken, was.tables.Keys, tables.Keys, frames, frames + run);
        return true, paddr;
      }
      ghost var taken1 := mem.taken;
      LastLevel(paddr);
      var temp := mem.AllocPpages(LvlPages(l), true);
      if temp.numPages == 0 { return false, 0; }
      AllocAligned(temp.base, l);
      GrewRun(taken0, taken1, was.tables.Keys, tables.Keys, frames, temp.base, LvlPages(l));
      return true, temp.base;
    }

    // pte_set of a leaf for the next block: the assignment of the inner loop of mem_map.
    method SetLeaf(ghost was: PT, ghost taken0: set<nat>, ghost v: nat, ghost n: nat, ghost frames: seq<nat>,
                   ghost pages: Option<nat>, flags: bv8, l: nat, t: nat, entry: nat, pa: nat)
      requires MapInv(was, taken0, v, n, frames, Run(pa, LvlPages(l)), pages, LeafFlags(flags))
      requires |frames| + LvlPages(l) <= n
      requires pages.Some? ==> pa == pages.value + |frames|
      requires l < LEVELS && Node(Pt(), l, v + |frames|) == Some(t) && entry == Index(guest, v + |frames|, l)
      requires Aligned(v + |frames|, l) && Aligned(pa, l) && pa < FRAMES
      modifies this`tables
      ensures MapInv(was, taken0, v, n, frames + Run(pa, LvlPages(l)), [], pages, LeafFlags(flags))
      ensures var u := v + |frames| + LvlPages(l);
              entry + 1 < NEntries(guest, l) ==>
                Node(Pt(), l, u) == Some(t) && Index(guest, u, l) == entry + 1 && Aligned(u, l)
      ensures Aligned(pa + LvlPages(l), l)
    {
      hide WF, Node, EntryAt, Index, Block, Look, EndLevel, Hits, LvlPages, Aligned, NBlocks, Grew, LeafFlags,
           Run, MapsTo, Ahead, PagePool.PageAllocator.Valid, PagePool.PageAllocator.Exhausted, PagePool.Range;
      ghost var pt0 := Pt();
      MapBlock(was, pt0, home, v, frames, l, t, pa, LeafFlags(flags));
      if pages.Some? {
        AheadLeaf(was, pt0, home, v + |frames|, v + n, pages.value - v, l, t, Pte(Final, pa, LeafFlags(flags), 0));
      }
      tables := tables[t := tables[t][entry := Pte(Final, pa, LeafFlags(flags), 0)]];
      assert Pt() == Put(pt0, t, entry, Pte(Final, pa, LeafFlags(flags), 0));
      assert tables.Keys == pt0.tables.Keys;
      assert frames + Run(pa, LvlPages(l)) + [] == frames + Run(pa, LvlPages(l));
      NextAligned(pa, l);
      if pages.Some? { RunAppend(pages.value, |frames|, LvlPages(l)); }
      if entry + 1 < NEntries(guest, l) {
        NextSlot(Pt(), v + |frames|, l);
        SameTable(pt0, home, v + |frames|, l, t, pa, LeafFlags(flags));
      }
    }

    static lemma NextAligned(x: nat, l: nat)
      requires Aligned(x, l)
      ensures Aligned(x + LvlPages(l), l)
    {
      DivUnique(x + LvlPages(l), LvlPages(l), x / LvlPages(l) + 1, 0);
    }

    static lemma AllocAligned(x: nat, l: nat)
      ensures PagePool.Mod(x, LvlPages(l)) == 0 ==> Aligned(x, l)
    {
    }

    static lemma RunAppend(base: nat, a: nat, b: nat)
      ensures Run(base, a) + Run(base + a, b) == Run(base, a + b)
    {
    }

    static lemma SameTable(pt: PT, home: map<nat, Home>, u: nat, l: nat, t: nat, pa: nat, flags: bv8)
      requires WF(pt, home) && l < LEVELS && Node(pt, l, u) == Some(t)
      requires t in pt.tables && Index(pt.guest, u, l) < |pt.tables[t]|
      ensures Node(Put(pt, t, Index(pt.guest, u, l), Pte(Final, pa, flags, 0)), l, u) == Some(t)
    {
      PutNode(pt, home, l, u, t, Pte(Final, pa, flags, 0), l, u);
    }

    // No block of this size: an empty entry gets a table, so that smaller blocks are tried next.
    method MakeRoom(v: nat, l: nat, t: nat, i: nat) returns (r: Outcome)
      requires Valid() && l < 2 && Node(Pt(), l, v) == Some(t) && i == Index(guest, v, l)
      modifies this, mem, mem.Repr
      ensures Valid() && Grew(old(mem.taken), mem.taken, old(tables.Keys), tables.Keys, [], false)
      ensures forall q: nat :: Look(Pt(), q) == Look(old(Pt()), q)
      ensures r == Done || (r == NoTables && mem.Exhausted())
      ensures r == Done && EndLevel(old(Pt()), v) == l && Look(old(Pt()), v).Unmapped? ==> EndLevel(Pt(), v) == l + 1
    {
      hide WF, Node, Index, Block, Look, EndLevel, PagePool.PageAllocator.Valid, PagePool.PageAllocator.Exhausted,
           PagePool.Range;
      NodeHome(Pt(), home, l, v);
      ReachedEnds(Pt(), home, l, v);
      WalkableMeans(Pt(), home, l, v);
      if tables[t][i].kind.Empty? {
        var ok := AllocEmpty(t, i, l, v);
        if !ok { return NoTables; }
      }
      return Done;
    }

    // MakeRoom in the middle of a mapping.
    method Retry(ghost was: PT, ghost taken0: set<nat>, v: nat, ghost n: nat, ghost frames: seq<nat>,
                 ghost pages: Option<nat>, ghost flags: bv8, l: nat, t: nat, i: nat, count: nat)
      returns (r: Outcome)
      requires MapInv(was, taken0, v, n, frames, [], pages, flags) && count == |frames| && pages.None?
      requires l < 2 && Node(Pt(), l, v + count) == Some(t) && i == Index(guest, v + count, l)
      modifies this, mem, mem.Repr
      ensures MapInv(was, taken0, v, n, frames, [], pages, flags) && (r == Done || (r == NoTables && mem.Exhausted()))
      ensures r == Done && EndLevel(old(Pt()), v + count) == l && Look(old(Pt()), v + count).Unmapped? ==>
                EndLevel(Pt(), v + count) == l + 1
    {
      hide WF, Node, Index, Look, EndLevel, Framed, MapsTo, Grew, Run, NBlocks, PagePool.PageAllocator.Valid,
           PagePool.PageAllocator.Exhausted, PagePool.Range;
      ghost var pt1, taken1, keys1 := Pt(), mem.taken, tables.Keys;
      r := MakeRoom(v + count, l, t, i);
      SameLooks(was, pt1, Pt(), v, frames, flags);
      GrewTwice(taken0, taken1, mem.taken, was.tables.Keys, keys1, tables.Keys, frames + [], pages.None?);
    }

    // Descend in the middle of a mapping.
    method DescendIn(ghost was: PT, ghost taken0: set<nat>, v: nat, n: nat, ghost frames: seq<nat>, pages: Option<nat>,
                     ghost flags: bv8, count: nat)
      returns (r: Outcome, l: nat, t: nat, i: nat)
      requires MapInv(was, taken0, v, n, frames, [], pages, flags) && count == |frames| < n
      modifies this, mem, mem.Repr
      ensures MapInv(was, taken0, v, n, frames, [], pages, flags)
      ensures EndLevel(Pt(), v + count) >= EndLevel(old(Pt()), v + count)
      ensures r == Done || r == Overlap || (r == NoTables && mem.Exhausted())
      ensures r == Overlap <==> Look(was, v + count).Mapped?
      ensures r == Done ==> l < LEVELS && Node(Pt(), l, v + count) == Some(t) && i == Index(guest, v + count, l)
      ensures r == Done ==> EndLevel(Pt(), v + count) == l && Look(Pt(), v + count).Unmapped?
      ensures r == Done ==> LvlPages(l) <= n - count && Aligned(v + count, l)
      ensures r == Done && pages.Some? ==> Aligned(pages.value + count, l)
      ensures r == Done && pages.Some? ==> l == Level(was, v + count, v + n, pages.value - v)
      ensures r == Done && pages.None? ==> l == Level(old(Pt()), v + count, v + n, -(v as int) - count)
    {
      hide WF, Node, Index, Look, EndLevel, LvlPages, Aligned, Framed, MapsTo, Grew, Run, NBlocks,
           PagePool.PageAllocator.Valid, PagePool.PageAllocator.Exhausted, PagePool.Range;
      ghost var pt1, taken1, keys1 := Pt(), mem.taken, tables.Keys;
      ghost var off := (if pages.Some? then pages.value else 0) - v;
      r, l, t, i := Descend(v + count, n - count, if pages.Some? then pages.value + count else 0);
      SameLooks(was, pt1, Pt(), v, frames, flags);
      GrewTwice(taken0, taken1, mem.taken, was.tables.Keys, keys1, tables.Keys, frames + [], pages.None?);
      FramedAhead(was, Pt(), v, count, v + count);
      if pages.Some? {
        AheadTwice(was, pt1, Pt(), v + count, v + n, off);
        LevelAhead(was, pt1, v + count, v + n, off);
      }
    }

    static lemma IndexIn(guest: bool, u: nat, l: nat)
      ensures Index(guest, u, l) < NEntries(guest, l)
    {
    }

    // The inner loop of mem_map: entries of one table, from entry i on.
    method MapEntries(ghost was: PT, ghost taken0: set<nat>, v: nat, n: nat, pages: Option<nat>, flags: bv8,
                      l: nat, t: nat, i: nat, from: nat, ghost frames0: seq<nat>)
      returns (r: Outcome, count: nat, ghost frames: seq<nat>)
      requires MapInv(was, taken0, v, n, frames0, [], pages, LeafFlags(flags)) && from == |frames0| < n
      requires l < LEVELS && Node(Pt(), l, v + from) == Some(t) && i == Index(guest, v + from, l)
      requires EndLevel(Pt(), v + from) == l && Look(Pt(), v + from).Unmapped?
      requires LvlPages(l) <= n - from && Aligned(v + from, l)
      requires pages.Some? ==> Aligned(pages.value + from, l)
      modifies this, mem, mem.Repr
      ensures MapInv(was, taken0, v, n, frames, [], pages, LeafFlags(flags)) && count == |frames| >= from
      ensures r == Done || r == NoTables || (r == NoFrames && pages.None?)
      ensures r == NoTables || r == NoFrames ==> mem.Exhausted()
      ensures r == Done ==> count > from || EndLevel(Pt(), v + from) > l
      ensures r == Done && pages.Some? ==> i < NEntries(guest, l) && LvlPages(l) > 0 &&
                                           count == from + StretchOf(NEntries(guest, l) - i, n - from, LvlPages(l))
    {
      hide Valid, MapInv, WF, Node, EntryAt, Index, Block, Look, EndLevel, Hits, LvlPages, Aligned, LeafFlags,
           Run, Span, StretchOf;
      SpanNext(0, l);
      IndexIn(guest, v + from, l);
      frames := frames0;
      count := from;
      var entry := i;
      var paddr: nat := if pages.Some? then pages.value + from else 0;
      while entry < NEntries(guest, l) && count < n && n - count >= LvlPages(l)
        invariant MapInv(was, taken0, v, n, frames, [], pages, LeafFlags(flags)) && count == |frames| >= from
        invariant pages.Some? ==> paddr == pages.value + count && (entry < NEntries(guest, l) ==> Aligned(paddr, l))
        invariant entry < NEntries(guest, l) ==>
            Node(Pt(), l, v + count) == Some(t) && Index(guest, v + count, l) == entry
        invariant entry < NEntries(guest, l) ==> Aligned(v + count, l)
        invariant i <= entry <= NEntries(guest, l)
        invariant pages.Some? ==> count <= n && count == from + Span(entry - i, l)
        invariant count == from ==> entry == i && EndLevel(Pt(), v + from) == l && Look(Pt(), v + from).Unmapped?
        decreases n - count
      {
        var ok, pa := TakeFrames(was, taken0, v, n, frames, pages, LeafFlags(flags), l, paddr);
        if !ok {
          if l == LEVELS - 1 { return NoFrames, count, frames; }
          r := Retry(was, taken0, v, n, frames, pages, LeafFlags(flags), l, t, entry, count);
          return r, count, frames;
        }
        SetLeaf(was, taken0, v, n, frames, pages, flags, l, t, entry, pa);
        frames := frames + Run(pa, LvlPages(l));
        paddr := pa + LvlPages(l);
        count := count + LvlPages(l);
        SpanNext(entry - i, l);
        entry := entry + 1;
      }
      if pages.Some? { SpanEnds(NEntries(guest, l) - i, n - from, l, entry - i); }
      return Done, count, frames;
    }

    static lemma NoFramesGrew(taken0: set<nat>, taken: set<nat>, keys0: set<nat>, keys: set<nat>, pages: Option<nat>)
      requires Grew(taken0, taken, keys0, keys, [], false)
      ensures Grew(taken0, taken, keys0, keys, [], pages.None?) && (pages.Some? ==> [] == Run(pages.value, 0))
    {
    }

    // The branch of mem_map for pages without colours.
    method MapRange(v: nat, pages: Option<nat>, n: nat, flags: bv8) returns (r: Outcome, ghost frames: seq<nat>)
      requires Valid() && n <= NBlocks(guest, 2) && (pages.Some? ==> pages.value + n <= FRAMES)
      modifies this, mem, mem.Repr
      ensures Valid() && |frames| <= n && Framed(old(Pt()), Pt(), v, |frames|)
          && MapsTo(Pt(), v, frames, LeafFlags(flags))
      ensures r == Done ==> |frames| == n
      ensures r != NoEntry && r != OutOfSection && (r == NoFrames ==> pages.None?)
      ensures r == NoTables || r == NoFrames ==> mem.Exhausted()
      ensures r == Overlap ==> exists q: nat :: v <= q < v + n && Look(old(Pt()), q).Mapped?
      ensures n > 0 && Look(old(Pt()), v).Mapped? ==> r == Overlap && frames == []
      ensures pages.Some? && (r == Done || r == Overlap) ==> (r == Overlap <==> Meets(old(Pt()), v, pages.value, n, 0))
      ensures Grew(old(mem.taken), mem.taken, old(tables.Keys), tables.Keys, frames, pages.None?)
      ensures pages.Some? ==> frames == Run(pages.value, |frames|)
    {
      hide WF, Node, EntryAt, Index, Block, Look, EndLevel, Hits, LvlPages, Aligned, NBlocks, LeafFlags, Run,
           Framed, MapsTo, Grew, Meets, Level, StretchOf, PagePool.PageAllocator.Valid,
           PagePool.PageAllocator.Exhausted, PagePool.Range;
      ghost var was, taken0 := Pt(), mem.taken;
      frames := [];
      StartMap(was, v, LeafFlags(flags), n, taken0);
      if pages.Some? { AheadStart(was, v, v + n, pages.value - v); }
      assert forall s: seq<nat> :: s + [] == s;
      var count := 0;
      r := Done;
      while count < n
        invariant MapInv(was, taken0, v, n, frames, [], pages, LeafFlags(flags)) && count == |frames| && r == Done
        invariant count > 0 ==> !Look(was, v).Mapped?
        invariant pages.Some? ==> (Meets(was, v, pages.value, n, count) <==> Meets(was, v, pages.value, n, 0))
        decreases n - count, LEVELS - EndLevel(Pt(), v + count)
      {
        var l, t, i;
        r, l, t, i := DescendIn(was, taken0, v, n, frames, pages, LeafFlags(flags), count);
        if r != Done {
          if pages.Some? { MeetsHere(was, v, pages.value, n, count); }
          return;
        }
        ghost var from := count;
        r, count, frames := MapEntries(was, taken0, v, n, pages, flags, l, t, i, count, frames);
        if r != Done { return; }
        if pages.Some? { MeetsLater(was, v, pages.value, n, from, l, i, count); }
      }
      if pages.Some? { MeetsHere(was, v, pages.value, n, count); }
    }

    // mem_map for pages without colours: `pages` is the first of n given frames, or None to allocate them.
    method Map(v: nat, pages: Option<nat>, n: nat, flags: bv8) returns (r: Outcome, ghost frames: seq<nat>)
      requires Valid() && n <= NBlocks(guest, 2) && (pages.Some? ==> pages.value + n <= FRAMES)
      modifies this, mem, mem.Repr
      ensures Valid() && |frames| <= n && Framed(old(Pt()), Pt(), v, |frames|)
          && MapsTo(Pt(), v, frames, LeafFlags(flags))
      ensures r == OutOfSection <==> SecOf(v) < 0 || SecOf(v) != SecOf(LastPage(v, n))
      ensures 0 < v + n <= MAX_PAGE ==>
          (r != OutOfSection <==> SecOf(v) >= 0 && SecOf(v + n - 1) == SecOf(v))
      ensures r == OutOfSection ==> Pt() == old(Pt()) && mem.taken == old(mem.taken) && frames == []
      ensures r == Done ==> |frames| == n
      ensures r != NoEntry && (r == NoFrames ==> pages.None?)
      ensures r == NoTables || r == NoFrames ==> mem.Exhausted()
      ensures r == Overlap ==> exists q: nat :: v <= q < v + n && Look(old(Pt()), q).Mapped?
      ensures n > 0 && r != OutOfSection && Look(old(Pt()), v).Mapped? ==> r == Overlap && frames == []
      ensures pages.Some? && (r == Done || r == Overlap) ==> (r == Overlap <==> Meets(old(Pt()), v, pages.value, n, 0))
      ensures Grew(old(mem.taken), mem.taken, old(tables.Keys), tables.Keys, frames, pages.None?)
      ensures pages.Some? ==> frames == Run(pages.value, |frames|)
    {
      hide WF, Look, EndLevel, NBlocks, LeafFlags, Run, LastPage, SecOf, Framed, MapsTo, Grew, Meets,
           PagePool.PageAllocator.Valid, PagePool.PageAllocator.Exhausted, PagePool.Range;
      StartMap(Pt(), v, LeafFlags(flags), n, mem.taken);
      NoFramesGrew(mem.taken, mem.taken, tables.Keys, tables.Keys, pages);
      LastPageIs(v, n);
      var sec := FindSec(v);
      var sec' := FindSec(LastPage(v, n));
      if sec < 0 || sec != sec' { return OutOfSection, []; }
      r, frames := MapRange(v, pages, n, flags);
    }

    // State of mem_unmap with the first c of n pages done: level lvl is on the walk of the next page, and past
    // the root every page of the range has a second-level table.
    ghost predicate UnmapInv(was: PT, taken0: set<nat>, v: nat, n: nat, c: nat, lvl: int)
      reads this, mem, mem.Repr
    {
      && Valid() && 0 <= c <= n <= NBlocks(guest, 2) && OneRoot(v, n) && was.tables.Keys <= taken0
      && (forall q: nat | v <= q < v + n :: Look(was, q).Mapped?)
      && Cleared(was, Pt(), v, c, SplitFlags())
      && Grew(taken0, mem.taken, was.tables.Keys, tables.Keys, [], false)
      && (c < n ==> 0 <= lvl <= EndLevel(Pt(), v + c) && (lvl >= 1 ==> Below(Pt(), v, n)))
    }

    // `*pte = 0` on the entry of a whole block.
    method ClearLeaf(ghost was: PT, ghost taken0: set<nat>, ghost v: nat, ghost n: nat, ghost c: nat, l: nat,
                     t: nat, entry: nat)
      requires UnmapInv(was, taken0, v, n, c, l) && l < LEVELS && c + LvlPages(l) <= n && Aligned(v + c, l)
      requires Node(Pt(), l, v + c) == Some(t) && entry == Index(guest, v + c, l)
      modifies this`tables
      ensures UnmapInv(was, taken0, v, n, c + LvlPages(l), if entry + 1 < NEntries(guest, l) then l else l - 1)
      ensures entry + 1 < NEntries(guest, l) ==>
                && Node(Pt(), l, v + c + LvlPages(l)) == Some(t) && Index(guest, v + c + LvlPages(l), l) == entry + 1
                && Aligned(v + c + LvlPages(l), l)
    {
      hide WF, Node, EntryAt, Index, Block, Look, EndLevel, LvlPages, Aligned, NBlocks, Cleared, Below, OneRoot, Grew,
           SplitFlags, PagePool.PageAllocator.Valid, PagePool.PageAllocator.Exhausted, PagePool.Range;
      ghost var pt0 := Pt();
      ClearBlock(was, pt0, home, v, c, n, l, t, SplitFlags());
      tables := tables[t := tables[t][entry := Pte(Empty, 0, 0, 0)]];
      assert Pt() == Put(pt0, t, entry, Pte(Empty, 0, 0, 0));
      assert tables.Keys == pt0.tables.Keys;
      if l == 0 { WholeRoot(v, n, v + c); }
      if entry + 1 < NEntries(guest, l) {
        NextSlot(Pt(), v + c, l);
        ReachedEnds(Pt(), home, l, v + c + LvlPages(l));
      } else {
        TableDone(v, n, c, l);
        if c + LvlPages(l) < n { BelowMeans(Pt(), v, n, v + c + LvlPages(l)); }
      }
    }

    static lemma BelowMeans(pt: PT, v: nat, n: nat, q: nat)
      requires Below(pt, v, n) && v <= q < v + n
      ensures EndLevel(pt, q) >= 1
    {
    }

    // A table is left before the range ends only from the last level.
    lemma TableDone(v: nat, n: nat, c: nat, l: nat)
      requires OneRoot(v, n) && l < LEVELS && Aligned(v + c, l) && c + LvlPages(l) <= n
      requires Index(guest, v + c, l) + 1 >= NEntries(guest, l)
      ensures c + LvlPages(l) < n ==> l == 2
    {
      if l == 0 { WholeRoot(v, n, v + c); }
      if l == 1 { TableEnds(guest, v + c); RootEnds(v, n, v + c + LvlPages(1)); }
    }

    // mem_expand_pte on a superpage that sticks out of the range.
    method SplitLeaf(ghost was: PT, ghost taken0: set<nat>, v: nat, ghost n: nat, c: nat, l: nat) returns (r: Outcome)
      requires UnmapInv(was, taken0, v, n, c, l) && l < 2 && c < n && EndLevel(Pt(), v + c) == l
      modifies this, mem, mem.Repr
      ensures r == Done ==> UnmapInv(was, taken0, v, n, c, l + 1)
      ensures r == Done || (r == NoTables && UnmapInv(was, taken0, v, n, c, l) && mem.Exhausted())
    {
      hide WF, Node, EntryAt, Index, Block, Look, EndLevel, LvlPages, NBlocks, Cleared, Below, OneRoot, Grew, SplitsAt,
           SplitFlags, PagePool.PageAllocator.Valid, PagePool.PageAllocator.Exhausted, PagePool.Range;
      ghost var pt1, taken1, keys1 := Pt(), mem.taken, tables.Keys;
      r := Expand(v + c, l);
      GrewTwice(taken0, taken1, mem.taken, was.tables.Keys, keys1, tables.Keys, [], false);
      if r == Done {
        ClearedSplit(was, pt1, Pt(), v, c, n, v + c, l, SplitFlags());
        if l == 0 { RootSplit(pt1, Pt(), v, n, v + c, SplitFlags()); }
      }
    }

    lemma SlotFacts(was: PT, taken0: set<nat>, v: nat, n: nat, c: nat, l: nat, t: nat, entry: nat)
      requires UnmapInv(was, taken0, v, n, c, l) && l < LEVELS && c < n
      requires Node(Pt(), l, v + c) == Some(t) && Index(guest, v + c, l) == entry
      ensures t in tables && entry < |tables[t]|
      ensures if tables[t][entry].kind.Next? then EndLevel(Pt(), v + c) > l else EndLevel(Pt(), v + c) == l
    {
      hide WF, Node, EntryAt, Index, Look, EndLevel, Cleared, Below, OneRoot, Grew, NBlocks, GoodEntry,
           PagePool.PageAllocator.Valid, PagePool.PageAllocator.Exhausted, PagePool.Range;
      NodeHome(Pt(), home, l, v + c);
      ReachedEnds(Pt(), home, l, v + c);
    }

    static lemma BaseFacts(v: nat, n: nat, c: nat, l: nat)
      requires c < n && l < LEVELS
      ensures var base := BlockBase(v + c, l);
              && (v + c > base || v + n < base + LvlPages(l) ==> l < 2)
              && (v + c <= base && v + n >= base + LvlPages(l) ==> Aligned(v + c, l) && c + LvlPages(l) <= n)
    {
    }

    // The inner loop of mem_unmap: leaves of one table, from entry i on.
    method ClearEntries(ghost was: PT, ghost taken0: set<nat>, v: nat, n: nat, from: nat, l: nat, t: nat, i: nat)
      returns (r: Outcome, c: nat, lvl: int)
      requires UnmapInv(was, taken0, v, n, from, l) && from < n && l < LEVELS
      requires EndLevel(Pt(), v + from) == l && Node(Pt(), l, v + from) == Some(t) && i == Index(guest, v + from, l)
      modifies this, mem, mem.Repr
      ensures r == Done || (r == NoTables && mem.Exhausted())
      ensures UnmapInv(was, taken0, v, n, c, lvl) && c >= from && (r == NoTables ==> c < n)
      ensures r == Done ==> c > from || lvl > l
    {
      hide Valid, UnmapInv, WF, Node, EntryAt, Index, Look, EndLevel, LvlPages, NBlocks, Aligned, BlockBase;
      c, lvl := from, l;
      var entry := i;
      while entry < NEntries(guest, l) && c < n
        invariant from <= c && lvl == l && entry <= NEntries(guest, l)
        invariant entry < NEntries(guest, l) ==> UnmapInv(was, taken0, v, n, c, l)
        invariant entry >= NEntries(guest, l) ==> UnmapInv(was, taken0, v, n, c, l - 1) && c > from
        invariant entry < NEntries(guest, l) && c < n ==>
            Node(Pt(), l, v + c) == Some(t) && Index(guest, v + c, l) == entry
        invariant entry < NEntries(guest, l) && c > from ==> Aligned(v + c, l)
        invariant c == from ==> EndLevel(Pt(), v + c) == l
        decreases n - c
      {
        SlotFacts(was, taken0, v, n, c, l, t, entry);
        if tables[t][entry].kind.Next? { break; }
        BaseFacts(v, n, c, l);
        var base := BlockBase(v + c, l);
        if v + c > base || v + n < base + LvlPages(l) {
          r := SplitLeaf(was, taken0, v, n, c, l);
          if r == Done { lvl := l + 1; }
          return;
        }
        ClearLeaf(was, taken0, v, n, c, l, t, entry);
        c := c + LvlPages(l);
        entry := entry + 1;
      }
      r := Done;
      if entry == NEntries(guest, l) { lvl := lvl - 1; }
    }

    // mem_unmap, for a fully mapped range under one root entry and without freeing the frames.
    method Unmap(v: nat, n: nat) returns (r: Outcome)
      requires Valid() && n <= NBlocks(guest, 2) && OneRoot(v, n) && SecOf(v) >= 0
      requires forall q: nat | v <= q < v + n :: Look(Pt(), q).Mapped?
      modifies this, mem, mem.Repr
      ensures Valid() && (r == Done || r == NoTables)
      ensures r == Done ==> Cleared(old(Pt()), Pt(), v, n, SplitFlags())
      ensures r == NoTables ==> exists c: nat :: c < n && Cleared(old(Pt()), Pt(), v, c, SplitFlags())
      ensures OwnFlags(SplitFlags(), hyp) && OwnKept(old(Pt()), Pt(), hyp, v, n)
      ensures r == NoTables ==> mem.Exhausted()
      ensures Grew(old(mem.taken), mem.taken, old(tables.Keys), tables.Keys, [], false)
    {
      hide WF, Node, EntryAt, Index, Look, EndLevel, NBlocks, Cleared, Below, OneRoot, Grew, SplitFlags, OwnFlags,
           OwnKept, PagePool.PageAllocator.Valid, PagePool.PageAllocator.Exhausted, PagePool.Range;
      ghost var was, taken0 := Pt(), mem.taken;
      SplitFlagsOwn();
      ClearStart(was, v, SplitFlags());
      StartMap(was, v, 0, n, taken0);
      var c: nat := 0;
      var lvl: int := 0;
      while c < n
        invariant UnmapInv(was, taken0, v, n, c, lvl) && (c < n ==> lvl < LEVELS)
        decreases n - c, LEVELS - lvl
      {
        NextIsMapped(was, taken0, v, n, c, lvl, v + c);
        var slot := GetPte(lvl, v + c);
        var (t, i) := slot.value;
        SlotFacts(was, taken0, v, n, c, lvl, t, i);
        if tables[t][i].kind.Next? {
          RootTable(Pt(), v, n, v + c);
          lvl := lvl + 1;
        } else {
          r, c, lvl := ClearEntries(was, taken0, v, n, c, lvl, t, i);
          if r != Done {
            ClearedOwn(was, Pt(), hyp, SplitFlags(), v, c, n);
            return;
          }
        }
      }
      ClearedOwn(was, Pt(), hyp, SplitFlags(), v, c, n);
      r := Done;
    }

    // The page mem_unmap turns to next is mapped, and its entry at the current level exists and is valid.
    lemma NextIsMapped(was: PT, taken0: set<nat>, v: nat, n: nat, c: nat, lvl: nat, u: nat)
      requires UnmapInv(was, taken0, v, n, c, lvl) && c < n && lvl < LEVELS && u == v + c
      ensures Look(Pt(), u).Mapped? && Node(Pt(), lvl, u).Some? && !EntryAt(Pt(), lvl, u).kind.Empty?
      ensures forall m: nat | m < lvl :: !EntryAt(Pt(), m, u).kind.Final?
    {
      hide Cleared, Below, OneRoot, Grew, NBlocks, PagePool.PageAllocator.Valid, PagePool.PageAllocator.Exhausted,
           PagePool.Range, Node, EntryAt, EndLevel, Look;
      StillMapped(was, Pt(), v, c, SplitFlags(), u);
      WalkableMeans(Pt(), home, lvl, u);
    }

    // State of the search of mem_alloc_vpage: the last `count` pages before addr are free, and vpage is the first.
    ghost predicate ScanInv(was: PT, taken0: set<nat>, n: nat, addr: nat, count: nat, vpage: Option<nat>)
      reads this, mem, mem.Repr
    {
      && Valid() && Pt().guest == was.guest && was.tables.Keys <= taken0 && count <= n && count <= addr
      && (forall q: nat :: Look(Pt(), q) == Look(was, q))
      && Grew(taken0, mem.taken, was.tables.Keys, tables.Keys, [], false)
      && vpage == (if count > 0 then Some(addr - count) else None)
      && FreeRun(Pt(), addr - count, addr)
    }

    // What the entry under the cursor says about the page it stands for.
    lemma CursorFacts(was: PT, taken0: set<nat>, n: nat, addr: nat, count: nat, vpage: Option<nat>, l: nat,
                      t: nat, entry: nat)
      requires ScanInv(was, taken0, n, addr, count, vpage) && l < LEVELS
      requires Node(Pt(), l, addr) == Some(t) && Index(guest, addr, l) == entry
      ensures t in tables && entry < |tables[t]| && tables[t][entry] == EntryAt(Pt(), l, addr)
      ensures tables[t][entry].kind.Next? ==> EndLevel(Pt(), addr) > l && tables[t][entry].rsw != RSRV
      ensures !tables[t][entry].kind.Next? ==> EndLevel(Pt(), addr) == l
      ensures !tables[t][entry].kind.Next? ==>
                (Occupied(Look(Pt(), addr)) <==> tables[t][entry].kind.Final? || tables[t][entry].rsw == RSRV)
      ensures Look(Pt(), addr) == Look(was, addr)
    {
      hide WF, Node, EntryAt, Index, Look, EndLevel, FreeRun, Grew, PagePool.PageAllocator.Valid,
           PagePool.PageAllocator.Exhausted, PagePool.Range;
      NodeHome(Pt(), home, l, addr);
      ReachedEnds(Pt(), home, l, addr);
      WalkableMeans(Pt(), home, l, addr);
    }

    // mem_alloc_pt on an entry too big, or too unaligned, for what is still wanted.
    method ScanDown(ghost was: PT, ghost taken0: set<nat>, ghost n: nat, addr: nat, ghost count: nat,
                    ghost vpage: Option<nat>, l: nat, t: nat, entry: nat, ghost fixed: bool, ghost s: nat,
                    ghost first: bool)
      returns (ok: bool)
      requires ScanInv(was, taken0, n, addr, count, vpage) && l < 2
      requires fixed ==>
          && Ahead(was, Pt(), addr, s + n, 0) && addr < s + n <= addr + NBlocks(guest, 2)
          && !FitsAt(addr, l, s + n, 0)
      requires first ==> Searched(was, Pt(), s, addr, count, n) && !Occupied(Look(Pt(), addr))
      requires Node(Pt(), l, addr) == Some(t) && Index(guest, addr, l) == entry && EntryAt(Pt(), l, addr).kind.Empty?
      modifies this, mem, mem.Repr
      ensures ScanInv(was, taken0, n, addr, count, vpage) && (!ok ==> mem.Exhausted())
      ensures ok ==> EndLevel(Pt(), addr) == l + 1
      ensures ok && fixed ==> Ahead(was, Pt(), addr, s + n, 0)
      ensures ok && first ==> Searched(was, Pt(), s, addr, count, n)
    {
      hide WF, Node, EntryAt, Index, Block, Look, EndLevel, Grew, FreeRun, Ahead, FitsAt, NBlocks, Occupied, Searched,
           PagePool.PageAllocator.Valid, PagePool.PageAllocator.Exhausted, PagePool.Range;
      ghost var pt1, taken1, keys1 := Pt(), mem.taken, tables.Keys;
      NodeHome(pt1, home, l, addr);
      BlocksEnd(pt1, home, l, addr);
      ok := AllocEmpty(t, entry, l, addr);
      GrewTwice(taken0, taken1, mem.taken, was.tables.Keys, keys1, tables.Keys, [], false);
      RunSplit(pt1, Pt(), addr - count, addr);
      if ok && fixed { AheadTable(was, pt1, Pt(), addr, l, s + n, 0); }
      if ok && first { StillSearched(was, pt1, Pt(), s, addr, count, n); }
    }

    // The walks of all pages of a block whose entry ends the walk end there.
    static lemma BlocksEnd(pt: PT, home: map<nat, Home>, l: nat, v: nat)
      requires WF(pt, home) && l < LEVELS && Node(pt, l, v).Some? && !EntryAt(pt, l, v).kind.Next?
      ensures forall q: nat | Block(pt.guest, q, l) == Block(pt.guest, v, l) :: EndLevel(pt, q) == l
    {
      forall q: nat | Block(pt.guest, q, l) == Block(pt.guest, v, l) ensures EndLevel(pt, q) == l {
        SharedWalk(pt, l, q, v);
        ReachedEnds(pt, home, l, q);
      }
    }

    // The run starts over, from any address.
    lemma Restart(was: PT, taken0: set<nat>, n: nat, addr: nat, count: nat, vpage: Option<nat>)
      requires ScanInv(was, taken0, n, addr, count, vpage)
      ensures forall a: nat :: ScanInv(was, taken0, n, a, 0, None)
    {
      hide WF, Look, EndLevel, Grew, PagePool.PageAllocator.Valid, PagePool.PageAllocator.Exhausted, PagePool.Range;
    }

    static lemma LastLevel(x: nat)
      ensures LvlPages(LEVELS - 1) == 1 && Aligned(x, LEVELS - 1)
    {
    }

    lemma VpageIs(was: PT, taken0: set<nat>, n: nat, addr: nat, count: nat, vpage: Option<nat>)
      requires ScanInv(was, taken0, n, addr, count, vpage)
      ensures count <= addr && vpage == (if count > 0 then Some(addr - count) else None)
    {
    }

    // A free block is counted.
    lemma CountBlock(was: PT, taken0: set<nat>, n: nat, addr: nat, count: nat, vpage: Option<nat>, l: nat)
      requires ScanInv(was, taken0, n, addr, count, vpage) && l < LEVELS && count < n
      requires EndLevel(Pt(), addr) == l && !Occupied(Look(Pt(), addr))
      requires l == LEVELS - 1 || (LvlPages(l) <= n - count && Aligned(addr, l))
      ensures ScanInv(was, taken0, n, addr + LvlPages(l), count + LvlPages(l), Some(addr - count))
    {
      hide WF, Look, EndLevel, Grew, FreeRun, LvlPages, Aligned, Occupied, PagePool.PageAllocator.Valid,
           PagePool.PageAllocator.Exhausted, PagePool.Range;
      LastLevel(addr);
      RunGrows(Pt(), home, addr - count, addr, l);
    }

    // PassOccupied and CountFree on the tables as they are.
    lemma PassBlock(was: PT, taken0: set<nat>, n: nat, addr: nat, count: nat, vpage: Option<nat>, s: nat, l: nat)
      requires ScanInv(was, taken0, n, addr, count, vpage) && Searched(was, Pt(), s, addr, count, n) && count < n
      requires EndLevel(Pt(), addr) == l && Occupied(Look(Pt(), addr))
      ensures Searched(was, Pt(), s, addr + LvlPages(l), 0, n)
    {
      hide WF, Look, EndLevel, Occupied, Searched, LvlPages, FreeRun, Grew, PagePool.PageAllocator.Valid;
      PassOccupied(was, Pt(), home, s, addr, count, n, l);
    }

    lemma CountOn(was: PT, taken0: set<nat>, n: nat, addr: nat, count: nat, vpage: Option<nat>, s: nat, l: nat)
      requires ScanInv(was, taken0, n, addr, count, vpage) && Searched(was, Pt(), s, addr, count, n)
      requires EndLevel(Pt(), addr) == l && (l == LEVELS - 1 || Aligned(addr, l))
      ensures Searched(was, Pt(), s, addr + LvlPages(l), count + LvlPages(l), n)
    {
      hide WF, Look, EndLevel, Searched, LvlPages, Aligned, FreeRun, Grew, PagePool.PageAllocator.Valid;
      CountFree(was, Pt(), home, s, addr, count, n, l);
    }

    // The inner loop of mem_alloc_vpage. `stop` is the failure of a search at a given address.
    method ScanTable(ghost was: PT, ghost taken0: set<nat>, n: nat, fixed: bool, lvl0: nat, t: nat, i: nat,
                     addr0: nat, count0: nat, vpage0: Option<nat>, ghost s: nat, ghost top: nat, ghost first: bool)
      returns (ok: bool, stop: bool, lvl: nat, addr: nat, count: nat, vpage: Option<nat>)
      requires ScanInv(was, taken0, n, addr0, count0, vpage0) && count0 < n && lvl0 < LEVELS
      requires Node(Pt(), lvl0, addr0) == Some(t) && i == Index(guest, addr0, lvl0)
      requires addr0 >= s + count0 && (first ==> Searched(was, Pt(), s, addr0, count0, n))
      requires fixed ==> addr0 == s + count0 && addr0 + n <= top + 1 && n <= NBlocks(guest, 2)
      requires fixed ==> Ahead(was, Pt(), addr0, s + n, 0) && was.guest == guest
      modifies this, mem, mem.Repr
      ensures ScanInv(was, taken0, n, addr, count, vpage) && (!ok ==> mem.Exhausted())
      ensures stop ==> fixed && Occupied(Look(was, addr))
      ensures ok && !stop ==> lvl < LEVELS && (count < n ==> lvl <= EndLevel(Pt(), addr))
      ensures ok && !stop ==> addr > addr0 || (addr == addr0 && lvl > lvl0)
      ensures addr >= s + count && (first && ok && !stop ==> Searched(was, Pt(), s, addr, count, n))
      ensures addr >= addr0 && (fixed ==> addr - addr0 + count0 == count || stop)
          && (stop ==> addr - addr0 + count0 < n)
      ensures fixed && ok && !stop ==> Ahead(was, Pt(), addr, s + n, 0)
      ensures fixed && ok && !stop ==> (Refuses(was, s, n, top, count0, None) <==> Refuses(was, s, n, top, count, None))
    {
      hide Valid, ScanInv, WF, Node, EntryAt, Index, Look, EndLevel, LvlPages, NBlocks, Aligned, Occupied, Ahead,
           FitsAt, Level, Refuses, Searched;
      if fixed { RefusesHead(was, s, n, top, count0, Some(lvl0)); }
      ok, stop, lvl, addr, count, vpage := true, false, lvl0, addr0, count0, vpage0;
      var entry := i;
      while entry < NEntries(guest, lvl) && count < n && !stop
        invariant ok && !stop && lvl == lvl0 && entry < NEntries(guest, lvl)
        invariant addr >= addr0 && (addr > addr0 || count < n) && addr >= s + count
        invariant first ==> Searched(was, Pt(), s, addr, count, n)
        invariant ScanInv(was, taken0, n, addr, count, vpage)
        invariant Node(Pt(), lvl, addr) == Some(t) && Index(guest, addr, lvl) == entry
        invariant fixed ==> addr - addr0 + count0 == count && Ahead(was, Pt(), addr, s + n, 0)
        invariant fixed ==> (Refuses(was, s, n, top, count0, None) <==> Refuses(was, s, n, top, count, Some(lvl)))
        decreases NEntries(guest, lvl) - entry
      {
        if fixed {
          ScanLevel(was, Pt(), addr, s + n);
          ScanFits(addr, lvl, n - count, s + n);
        }
        CursorFacts(was, taken0, n, addr, count, vpage, lvl, t, entry);
        var e := tables[t][entry];
        if e.rsw == RSRV || e.kind.Final? {
          Restart(was, taken0, n, addr, count, vpage);
          if first { PassBlock(was, taken0, n, addr, count, vpage, s, lvl); }
          if fixed { stop := true; count, vpage := 0, None; return; }
          count, vpage := 0, None;
        } else if e.kind.Empty? {
          if lvl == LEVELS - 1 || (LvlPages(lvl) <= n - count && Aligned(addr, lvl)) {
            CountBlock(was, taken0, n, addr, count, vpage, lvl);
            VpageIs(was, taken0, n, addr, count, vpage);
            if first { CountOn(was, taken0, n, addr, count, vpage, s, lvl); }
            if fixed {
              RefusesNext(was, s, n, top, count, lvl);
              AheadLater(was, Pt(), addr, addr + LvlPages(lvl), s + n, 0);
            }
            if count == 0 { vpage := Some(addr); }
            count := count + LvlPages(lvl);
          } else {
            ok := ScanDown(was, taken0, n, addr, count, vpage, lvl, t, entry, fixed, s, first);
            if fixed { RefusesTurn(was, s, n, top, count, lvl); }
            if ok { lvl := lvl + 1; }
            return;
          }
        } else {
          if fixed { RefusesTurn(was, s, n, top, count, lvl); }
          lvl := lvl + 1;
          return;
        }
        if entry + 1 < NEntries(guest, lvl) { NextSlot(Pt(), addr, lvl); }
        addr := addr + LvlPages(lvl);
        entry := entry + 1;
        if entry >= NEntries(guest, lvl) {
          lvl := 0;
          return;
        }
      }
      if fixed { RefusesDone(was, s, n, top, count); }
    }

    // The walk of the marking loop: down to the entry where the walk of v ends, in an invalid entry.
    method EndEntry(v: nat) returns (l: nat, t: nat, i: nat)
      requires WF(Pt(), home) && Look(Pt(), v).Unmapped?
      ensures l == EndLevel(Pt(), v) && Node(Pt(), l, v) == Some(t) && i == Index(guest, v, l)
      ensures t in tables && i < |tables[t]| && tables[t][i].kind.Empty?
    {
      hide WF, Node, EntryAt, Index, Look, EndLevel;
      l := 0;
      while l < LEVELS
        invariant l <= EndLevel(Pt(), v) < LEVELS
        decreases LEVELS - l
      {
        WalkableMeans(Pt(), home, l, v);
        var slot := GetPte(l, v);
        t, i := slot.value.0, slot.value.1;
        NodeHome(Pt(), home, l, v);
        if tables[t][i].kind.Empty? {
          ReachedEnds(Pt(), home, l, v);
          return;
        }
        l := l + 1;
      }
    }

    // The last loop of mem_alloc_vpage: every page of the run found is marked as reserved.
    method MarkRun(v: nat, n: nat)
      requires Valid() && n <= NBlocks(guest, 2) && FreeRun(Pt(), v, v + n)
      modifies this`tables
      ensures Valid() && Marked(old(Pt()), Pt(), v, n, n) && tables.Keys == old(tables.Keys)
    {
      hide WF, Node, EntryAt, Index, Look, EndLevel, LvlPages, NBlocks, Aligned, FreeRun, Marked,
           PagePool.PageAllocator.Valid, PagePool.PageAllocator.Exhausted, PagePool.Range;
      ghost var was := Pt();
      MarkStart(was, v, n);
      var count: nat := 0;
      while count < n
        invariant count <= n && Valid() && Marked(was, Pt(), v, count, n) && tables.Keys == was.tables.Keys
      {
        NextBlock(was, Pt(), v, count, n);
        var l, t, i := EndEntry(v + count);
        ghost var pt1 := Pt();
        var e := tables[t][i].(rsw := RSRV);
        MarkBlock(was, pt1, home, v, count, n, l, t, e);
        tables := tables[t := tables[t][i := e]];
        assert Pt() == Put(pt1, t, i, e);
        count := count + LvlPages(l);
      }
    }

    // What refuses n pages at byte address `at`: no page is asked for, the address is no page address or not in the
    // section, a page of the range is occupied, or some walk starts too near the end of the section.
    ghost predicate Refused(pt: PT, section: nat, at: nat, n: nat)
      requires section < |sections|
    {
      || n == 0 || at % 4096 != 0 || SecOf(at / 4096) != section
      || (exists q: nat :: at / 4096 <= q < at / 4096 + n && Occupied(Look(pt, q)))
      || Refuses(pt, at / 4096, n, sections[section].end, 0, None)
    }

    // What a search comes out with: the first n free pages of the section on, or there are none but near its end.
    ghost predicate FoundFirst(pt: PT, section: nat, n: nat, r: Vpage)
      requires section < |sections|
    {
      var beg, end := sections[section].beg, sections[section].end;
      match r
      case Found(page) => NoneFree(pt, beg, page, n)
      case Invalid => n == 0 || forall q: nat | beg <= q && q + 2 * n <= end + 2 :: Taken(pt, q, n)
      case RanOff => forall q: nat | beg <= q && q + n <= MAX_PAGE :: Taken(pt, q, n)
      case NoRoom => true
    }

    // mem_alloc_vpage. `at` is a byte address, or None for a search.
    method AllocVpage(section: nat, at: Option<nat>, n: nat) returns (r: Vpage)
      requires Valid() && section < |sections| && n <= NBlocks(guest, 2)
      requires sections[section].beg <= sections[section].end < MAX_PAGE && (at.Some? ==> at.value / 4096 < MAX_PAGE)
      modifies this, mem, mem.Repr
      ensures Valid() && Grew(old(mem.taken), mem.taken, old(tables.Keys), tables.Keys, [], false)
      ensures r.Found? ==> n > 0 && forall q: nat | r.page <= q < r.page + n ::
                !Occupied(Look(old(Pt()), q)) && Look(Pt(), q) == Unmapped(RSRV)
      ensures r.Found? ==> forall p: nat | !Hits(guest, p, r.page, n) :: Look(Pt(), p) == Look(old(Pt()), p)
      ensures !r.Found? ==> forall p: nat :: Look(Pt(), p) == Look(old(Pt()), p)
      ensures r.Found? && at.Some? ==> at.value == r.page * 4096 && SecOf(r.page) == section
      ensures r.Found? && at.Some? ==> r.page + n <= sections[section].end + 1
      ensures at.Some? && !r.NoRoom? ==> (r.Invalid? <==> Refused(old(Pt()), section, at.value, n))
      ensures r.RanOff? ==> at.None?
      ensures r.NoRoom? ==> mem.Exhausted()
      ensures r.Found? && at.None? ==> sections[section].beg <= r.page
      ensures at.None? && Snug(old(Pt()), sections[section].beg) ==> FoundFirst(old(Pt()), section, n, r)
    {
      hide WF, Node, EntryAt, Index, Look, EndLevel, LvlPages, NBlocks, Aligned, FreeRun, Marked, Occupied, Grew,
           SecOf, Avail, Ahead, Refuses, Searched, Snug, Taken, PagePool.PageAllocator.Valid,
           PagePool.PageAllocator.Exhausted, PagePool.Range, Hits;
      ghost var was, taken0 := Pt(), mem.taken;
      var top := sections[section].end;
      var start := sections[section].beg;
      StartMap(was, 0, 0, 0, taken0);
      if at.Some? {
        var sec := FindSec(at.value / 4096);
        if sec != section { return Invalid; }
        start := at.value / 4096;
      }
      SecHolds(start);
      if start > top || (at.Some? && at.value % 4096 != 0) { return Invalid; }
      var lvl: nat, addr: nat, count: nat, vpage: Option<nat> := 0, start, 0, None;
      EmptyRun(was, addr);
      SpaceFits();
      ghost var first := at.None? && Snug(was, start);
      if first { SearchStart(was, start, n); }
      AheadStart(was, start, start + n, 0);
      while count < n
        invariant ScanInv(was, taken0, n, addr, count, vpage) && lvl < LEVELS
        invariant count < n ==> lvl <= EndLevel(Pt(), addr)
        invariant at.Some? ==> addr == start + count && (count > 0 ==> start + n <= top + 1)
        invariant addr >= start + count && (first ==> Searched(was, Pt(), start, addr, count, n))
        invariant at.Some? ==> Ahead(was, Pt(), addr, start + n, 0)
        invariant at.Some? ==> (Refuses(was, start, n, top, 0, None) <==> Refuses(was, start, n, top, count, None))
        decreases if addr < MAX_PAGE then MAX_PAGE - addr else 0, LEVELS - lvl
      {
        if at.Some? { RefusesDone(was, start, n, top, count); }
        if addr >= MAX_PAGE {
          if first { SearchedAll(was, Pt(), start, addr, count, n, MAX_PAGE); }
          return RanOff;
        }
        var fullAs := addr == 0 && top == MAX_PAGE - 1;
        AvailIs(top, addr);
        if !fullAs && Avail(top, addr) < n {
          if first { SearchedOut(was, Pt(), start, addr, count, n, top); }
          return Invalid;
        }
        WalkableMeans(Pt(), home, lvl, addr);
        var slot := GetPte(lvl, addr);
        var (t, i) := slot.value;
        var ok, stop;
        ok, stop, lvl, addr, count, vpage := ScanTable(was, taken0, n, at.Some?, lvl, t, i, addr, count, vpage,
                                                       start, top, first);
        if !ok { return NoRoom; }
        if stop { return Invalid; }
      }
      if at.Some? { RefusesDone(was, start, n, top, count); }
      if vpage.None? { return Invalid; }
      if first { SearchedBefore(was, Pt(), start, addr, count, n); }
      ghost var pt1 := Pt();
      MarkRun(vpage.value, n);
      MarkedMeans(was, pt1, Pt(), vpage.value, n);
      return Found(vpage.value);
    }

    // top + 1 - addr, in the width of an address.
    static function Avail(top: nat, addr: nat): nat
    {
      (top + 1 - addr) % MAX_PAGE
    }

    static lemma AvailIs(top: nat, addr: nat)
      ensures addr <= top + 1 <= MAX_PAGE && !(addr == 0 && top == MAX_PAGE - 1) ==> Avail(top, addr) == top + 1 - addr
    {
    }

    lemma SpaceFits()
      ensures NBlocks(guest, 2) < MAX_PAGE
    {
    }

    static lemma EmptyRun(pt: PT, a: nat)
      ensures FreeRun(pt, a, a)
    {
    }

    static lemma MarkedMeans(was: PT, pt1: PT, pt: PT, v: nat, n: nat)
      requires was.guest == pt1.guest && (forall q: nat :: Look(pt1, q) == Look(was, q))
      requires FreeRun(pt1, v, v + n) && Marked(pt1, pt, v, n, n)
      ensures forall q: nat | v <= q < v + n :: !Occupied(Look(was, q)) && Look(pt, q) == Unmapped(RSRV)
      ensures forall p: nat | !Hits(was.guest, p, v, n) :: Look(pt, p) == Look(was, p)
    {
      hide Look, EndLevel, Hits, Occupied;
    }

    // mem_inflate_pt. Its walk assumes that its first pass leaves no root superpage of the range.
    method Inflate(v: nat, n: nat) returns (r: Outcome)
      requires Valid() && RootsVisited(Pt(), v, n)
      modifies this, mem, mem.Repr
      ensures Valid() && (r == Done || (r == NoTables && mem.Exhausted()))
      ensures AllKept(old(Pt()), Pt(), SplitFlags())
      ensures OwnFlags(SplitFlags(), hyp) && OwnKept(old(Pt()), Pt(), hyp, 0, 0)
      ensures r == Done ==> InflatedAll(old(Pt()), Pt(), v, n)
      ensures Grew(old(mem.taken), mem.taken, old(tables.Keys), tables.Keys, [], false)
    {
      hide WF, Node, EntryAt, Index, Block, Look, EndLevel, SplitsAt, Grew, LvlPages, Deepened, InflatedAll,
           AllKept, SplitFlags, Span, RootsVisited, PagePool.PageAllocator.Valid,
           PagePool.PageAllocator.Exhausted, PagePool.Range;
      ghost var was, taken0 := Pt(), mem.taken;
      StartMap(was, 0, 0, 0, taken0);
      SplitFlagsOwn();
      DeepenStart(was, v, 0, SplitFlags());
      ghost var mid := was;
      for l := 0 to LEVELS - 1
        invariant Valid() && AllKept(was, Pt(), SplitFlags())
        invariant Grew(taken0, mem.taken, was.tables.Keys, tables.Keys, [], false)
        invariant l == 0 ==> Pt() == was && mid == was
        invariant l == 1 ==> Deepened(was, Pt(), v, 0, n)
        invariant l == 2 ==> Deepened(was, mid, v, 0, n) && Deepened(mid, Pt(), v, 1, n)
      {
        mid := Pt();
        DeepenStart(mid, v, l, SplitFlags());
        SpanNext(0, l);
        var vaddr: nat := v;
        ghost var j: nat := 0;
        while vaddr < v + n
          invariant vaddr == v + Span(j, l) && (j > 0 ==> Span(j - 1, l) < n) && Valid()
          invariant AllKept(was, Pt(), SplitFlags()) && Deepened(mid, Pt(), v, l, Span(j, l))
          invariant Grew(taken0, mem.taken, was.tables.Keys, tables.Keys, [], false)
          decreases v + n - vaddr
        {
          ghost var pt1, taken1, keys1 := Pt(), mem.taken, tables.Keys;
          PassWalks(was, mid, pt1, v, n, l, j, SplitFlags());
          r := Expand(vaddr, l);
          GrewTwice(taken0, taken1, mem.taken, was.tables.Keys, keys1, tables.Keys, [], false);
          if r != Done {
            InflatedOwn(was, Pt(), hyp, SplitFlags());
            return;
          }
          DeepenStep(was, mid, pt1, Pt(), v, l, j, vaddr, SplitFlags());
          SpanNext(j, l);
          j := j + 1;
          vaddr := vaddr + LvlPages(l);
        }
        DeepenEnd(mid, Pt(), v, l, j, n);
      }
      BothPasses(was, mid, Pt(), v, n);
      InflatedOwn(was, Pt(), hyp, SplitFlags());
      r := Done;
    }

    // mem_map for the n pages of a set of colours from `base` on. The range is inflated first; the pages are then
    // mapped one by one, up to the first for which the passes have made no last-level table. It overrides what was
    // mapped there.
    method MapColoured(g: Colour.Geometry, v: nat, base: nat, colors: set<nat>, n: nat, flags: bv8)
      returns (r: Outcome, ghost frames: seq<nat>)
      requires Valid() && n <= NBlocks(guest, 2) && Colour.Usable(g, colors)
      requires Colour.Below(Colour.Block(g, colors, base, n), FRAMES)
      requires forall p: nat | v <= p < v + n :: InflatedLevel(Pt(), v, n, p) == 2 || Look(Pt(), p).Unmapped?
      modifies this, mem, mem.Repr
      ensures Valid() && |frames| <= n && frames == Colour.Block(g, colors, base, |frames|)
      ensures MapsTo(Pt(), v, frames, LeafFlags(flags))
      ensures forall p: nat | !Hits(guest, p, v, |frames|) :: Kept(Look(old(Pt()), p), Look(Pt(), p), SplitFlags())
      ensures OwnFlags(SplitFlags(), hyp) && OwnKept(old(Pt()), Pt(), hyp, v, |frames|)
      ensures r == OutOfSection <==> SecOf(v) < 0 || SecOf(v) != SecOf(LastPage(v, n))
      ensures 0 < v + n <= MAX_PAGE ==>
          (r != OutOfSection <==> SecOf(v) >= 0 && SecOf(v + n - 1) == SecOf(v))
      ensures r == OutOfSection ==> Pt() == old(Pt()) && mem.taken == old(mem.taken)
      ensures r == OutOfSection || r == Done || r == NoEntry || (r == NoTables && mem.Exhausted())
      ensures r != Done && r != NoEntry ==> frames == []
      ensures r == Done || r == NoEntry ==>
          forall p: nat | v <= p < v + |frames| :: InflatedLevel(old(Pt()), v, n, p) == 2
      ensures r == Done ==> |frames| == n
      ensures r == NoEntry ==> |frames| < n && InflatedLevel(old(Pt()), v, n, v + |frames|) < 2
      ensures Grew(old(mem.taken), mem.taken, old(tables.Keys), tables.Keys, [], false)
    {
      hide Valid, WF, Node, EntryAt, Index, Block, Look, EndLevel, Hits, NBlocks, LeafFlags, LastPage, SecOf,
           Framed, MapsTo, Grew, Kept, AllKept, InflatedAll, InflatedLevel, SameEnds, SplitFlags, OwnFlags, OwnKept,
           Colour.Usable,
           Colour.IsNext, Colour.ColourOf, Colour.Below, PagePool.PageAllocator.Valid,
           PagePool.PageAllocator.Exhausted, PagePool.Range;
      ghost var was := Pt();
      frames := [];
      StartMap(was, v, LeafFlags(flags), n, mem.taken);
      DeepenStart(was, v, 0, SplitFlags());
      SplitFlagsOwn();
      KeptFramed(was, was, was, v, 0, SplitFlags());
      KeptOwn(was, was, hyp, SplitFlags(), v, 0);
      var sec := FindSec(v);
      LastPageIs(v, n);
      var sec' := FindSec(LastPage(v, n));
      if sec < 0 || sec != sec' { return OutOfSection, []; }
      RootsReached(was, v, n);
      r := Inflate(v, n);
      ghost var mid := Pt();
      StartMap(mid, v, LeafFlags(flags), n, mem.taken);
      KeptFramed(was, mid, mid, v, 0, SplitFlags());
      KeptOwn(was, mid, hyp, SplitFlags(), v, 0);
      if r != Done { return; }
      r, frames := MapPages(was, mid, g, v, base, colors, n, flags);
      KeptFramed(was, mid, Pt(), v, |frames|, SplitFlags());
      KeptOwn(was, Pt(), hyp, SplitFlags(), v, |frames|);
    }

    // The loop of mem_map over coloured pages, after inflating.
    method MapPages(ghost was: PT, ghost mid: PT, g: Colour.Geometry, v: nat, base: nat, colors: set<nat>, n: nat,
                    flags: bv8)
      returns (r: Outcome, ghost frames: seq<nat>)
      requires Valid() && n <= NBlocks(guest, 2) && Colour.Usable(g, colors) && mid == Pt()
      requires Colour.Below(Colour.Block(g, colors, base, n), FRAMES)
      requires AllKept(was, mid, SplitFlags()) && InflatedAll(was, mid, v, n)
      requires forall p: nat | v <= p < v + n :: InflatedLevel(was, v, n, p) == 2 || Look(was, p).Unmapped?
      modifies this`tables
      ensures Valid() && tables.Keys == old(tables.Keys)
      ensures |frames| <= n && frames == Colour.Block(g, colors, base, |frames|)
      ensures MapsTo(Pt(), v, frames, LeafFlags(flags)) && Framed(mid, Pt(), v, |frames|)
      ensures r == Done || r == NoEntry
      ensures forall p: nat | v <= p < v + |frames| :: InflatedLevel(was, v, n, p) == 2
      ensures r == Done ==> |frames| == n
      ensures r == NoEntry ==> |frames| < n && InflatedLevel(was, v, n, v + |frames|) < 2
    {
      hide Valid, WF, Node, EntryAt, Index, Block, Look, EndLevel, Hits, NBlocks, LeafFlags, Framed, MapsTo,
           Kept, AllKept, InflatedAll, InflatedLevel, SameEnds, SplitFlags, Colour.Usable, Colour.IsNext,
           Colour.ColourOf, Colour.Below, Colour.Block, Colour.After, Walkable,
           PagePool.PageAllocator.Valid, PagePool.PageAllocator.Exhausted, PagePool.Range;
      Colour.BlockStart(g, colors, base);
      StartMap(mid, v, LeafFlags(flags), n, mem.taken);
      EndsItself(mid);
      frames := [];
      var index := 0;
      for i: nat := 0 to n
        invariant Valid() && |frames| == i && frames == Colour.Block(g, colors, base, i)
        invariant base + index == Colour.After(frames, base)
        invariant Framed(mid, Pt(), v, i) && MapsTo(Pt(), v, frames, LeafFlags(flags)) && SameEnds(mid, Pt())
        invariant tables.Keys == mid.tables.Keys
        invariant forall p: nat | v <= p < v + i :: InflatedLevel(was, v, n, p) == 2
      {
        ValidTables();
        MissedFree(was, mid, Pt(), v, n, i, v + i, SplitFlags());
        WalkableMeans(Pt(), home, 2, v + i);
        var slot := GetPte(2, v + i);
        if slot.None? { return NoEntry, frames; }
        index := Colour.NextPage(g, base, index, colors, i, n, FRAMES);
        SetLast(mid, v, frames, slot.value.0, slot.value.1, base + index, flags);
        frames := frames + [base + index];
        index := index + 1;
      }
      r := Done;
    }

    lemma ValidTables()
      requires Valid()
      ensures WF(Pt(), home)
    {
    }

    // pte_set of the loop of mem_map over coloured pages.
    method SetLast(ghost mid: PT, ghost v: nat, ghost frames: seq<nat>, t: nat, entry: nat, pa: nat, flags: bv8)
      requires Valid() && |frames| < NBlocks(guest, 2) && pa < FRAMES
      requires Node(Pt(), 2, v + |frames|) == Some(t) && entry == Index(guest, v + |frames|, 2)
      requires Framed(mid, Pt(), v, |frames|) && MapsTo(Pt(), v, frames, LeafFlags(flags)) && SameEnds(mid, Pt())
      modifies this`tables
      ensures Valid() && tables.Keys == old(tables.Keys) && SameEnds(mid, Pt())
      ensures Framed(mid, Pt(), v, |frames| + 1) && MapsTo(Pt(), v, frames + [pa], LeafFlags(flags))
    {
      hide WF, Node, EntryAt, Index, Block, Look, EndLevel, Hits, NBlocks, LeafFlags, Framed, MapsTo, SameEnds,
           PagePool.PageAllocator.Valid, PagePool.Range;
      ghost var pt0 := Pt();
      MapLast(mid, pt0, home, v, frames, t, pa, LeafFlags(flags));
      tables := tables[t := tables[t][entry := Pte(Final, pa, LeafFlags(flags), 0)]];
      assert Pt() == Put(pt0, t, entry, Pte(Final, pa, LeafFlags(flags), 0));
      assert tables.Keys == pt0.tables.Keys;
    }

    // mem_alloc_map for pages without colours: `pages` as in mem_map, whose outcome is dropped.
    method AllocMap(section: nat, at: Option<nat>, pages: Option<nat>, n: nat, flags: bv8)
      returns (r: Vpage, m: Outcome, ghost frames: seq<nat>)
      requires Valid() && section < |sections| && n <= NBlocks(guest, 2) && (pages.Some? ==> pages.value + n <= FRAMES)
      requires sections[section].beg <= sections[section].end < MAX_PAGE && (at.Some? ==> at.value / 4096 < MAX_PAGE)
      modifies this, mem, mem.Repr
      ensures Valid() && Grew(old(mem.taken), mem.taken, old(tables.Keys), tables.Keys, frames, pages.None?)
      ensures |frames| <= n && (r.Found? && m == Done ==> |frames| == n)
          && (!r.Found? || m == OutOfSection ==> frames == [])
      ensures pages.Some? ==> frames == Run(pages.value, |frames|)
      ensures r.Found? ==> MapsFresh(old(Pt()), Pt(), r.page, frames, LeafFlags(flags))
      ensures !r.Found? ==> forall p: nat :: Look(Pt(), p) == Look(old(Pt()), p)
      ensures r.Found? ==> forall p: nat | !Hits(guest, p, r.page, n) :: Look(Pt(), p) == Look(old(Pt()), p)
      ensures r.Found? ==> forall q: nat | r.page <= q < r.page + n :: !Occupied(Look(old(Pt()), q))
      ensures r.Found? && at.Some? ==> at.value == r.page * 4096
      ensures r.Found? ==> m != Overlap && m != NoEntry && (m == NoFrames ==> pages.None?)
      ensures r.Found? && 0 < r.page + n <= MAX_PAGE ==>
          (m != OutOfSection <==> SecOf(r.page) >= 0 && SecOf(r.page + n - 1) == SecOf(r.page))
      ensures at.Some? && !r.NoRoom? ==> (r.Invalid? <==> Refused(old(Pt()), section, at.value, n))
      ensures r.RanOff? ==> at.None?
      ensures r.NoRoom? || m == NoTables || m == NoFrames ==> mem.Exhausted()
      ensures r.Found? && at.None? ==> sections[section].beg <= r.page
      ensures at.None? && Snug(old(Pt()), sections[section].beg) ==> FoundFirst(old(Pt()), section, n, r)
    {
      hide WF, Node, EntryAt, Index, Block, Look, EndLevel, Grew, NBlocks, Hits, MapsTo, Framed, LeafFlags, SecOf,
           Occupied, MapsFresh, LastPage, Meets, Run, Refused, Snug, FoundFirst, PagePool.PageAllocator.Valid,
           PagePool.PageAllocator.Exhausted, PagePool.Range;
      ghost var pt0, taken0 := Pt(), mem.taken;
      r := AllocVpage(section, at, n);
      ghost var pt1, taken1 := Pt(), mem.taken;
      m, frames := Done, [];
      if r.Found? {
        m, frames := Map(r.page, pages, n, flags);
        GrewThen(taken0, taken1, mem.taken, pt0.tables.Keys, pt1.tables.Keys, tables.Keys, frames, pages.None?);
        FreshMap(pt0, pt1, Pt(), r.page, n, frames, LeafFlags(flags));
      } else {
        NoFramesGrew(taken0, taken1, pt0.tables.Keys, pt1.tables.Keys, pages);
      }
    }

    // A range that mem_map refuses for its section.
    ghost predicate LeavesSection(page: nat, n: nat)
    {
      page + n == 0 || page + n > MAX_PAGE || SecOf(page) < 0 || SecOf(page + n - 1) != SecOf(page)
    }

    // What mem_alloc_map makes of a request for n pages that does not run out of memory or of addresses: the address
    // asked for or the first free pages of the section, or nothing, because these cannot be had or leave the section.
    ghost predicate Answered(pt: PT, section: nat, at: Option<nat>, n: nat, page: nat, frames: seq<nat>)
      requires section < |sections|
    {
      var beg := sections[section].beg;
      if frames != [] then
        if at.Some? then at.value == page * 4096 && !Refused(pt, section, at.value, n)
        else beg <= page && (Snug(pt, beg) ==> NoneFree(pt, beg, page, n))
      else if at.Some? then Refused(pt, section, at.value, n) || LeavesSection(at.value / 4096, n)
      else Snug(pt, beg) ==>
          FoundFirst(pt, section, n, Invalid) || exists p: nat :: NoneFree(pt, beg, p, n) && LeavesSection(p, n)
    }

    lemma AnsweredIs(pt: PT, section: nat, at: Option<nat>, n: nat, r: Vpage, m: Outcome, frames: seq<nat>)
      requires section < |sections| && n > 0 && (r.Found? || r.Invalid?) && m != NoTables && m != NoFrames
      requires r.Found? ==> m != Overlap && m != NoEntry && (m == Done ==> |frames| == n)
      requires !r.Found? || m == OutOfSection ==> frames == []
      requires r.Found? && at.Some? ==> at.value == r.page * 4096
      requires r.Found? && 0 < r.page + n <= MAX_PAGE ==>
                 (m != OutOfSection <==> SecOf(r.page) >= 0 && SecOf(r.page + n - 1) == SecOf(r.page))
      requires at.Some? ==> (r.Invalid? <==> Refused(pt, section, at.value, n))
      requires r.Found? && at.None? ==> sections[section].beg <= r.page
      requires at.None? && Snug(pt, sections[section].beg) ==> FoundFirst(pt, section, n, r)
      ensures Answered(pt, section, at, n, if r.Found? then r.page else 0, frames)
    {
      hide SecOf, Snug, Refused, NoneFree;
      if r.Found? && at.None? && Snug(pt, sections[section].beg) {
        assert NoneFree(pt, sections[section].beg, r.page, n);
      }
    }

    // mem_alloc_page: n frames, in one run, mapped wherever the section has room for them.
    method AllocPage(section: nat, n: nat, aligned: bool)
      returns (r: Vpage, m: Outcome, base: nat, ghost frames: seq<nat>)
      requires Valid() && section < |sections| && 0 < n <= NBlocks(guest, 2)
      requires sections[section].beg <= sections[section].end < MAX_PAGE
      modifies this, mem, mem.Repr
      ensures Valid() && Grew(old(mem.taken), mem.taken, old(tables.Keys), tables.Keys, frames, true)
      ensures frames == [] || (frames == Run(base, n) && (aligned ==> PagePool.Mod(base, n) == 0))
      ensures r.Found? ==> frames != []
      ensures frames == [] ==> r == Invalid && mem.taken == old(mem.taken) && mem.NoRoomFor(n, aligned)
      ensures frames != [] && Snug(old(Pt()), sections[section].beg) ==> FoundFirst(old(Pt()), section, n, r)
      ensures r.Found? ==> sections[section].beg <= r.page && m != Overlap && m != NoFrames && m != NoEntry
      ensures r.Found? && 0 < r.page + n <= MAX_PAGE ==>
          (m != OutOfSection <==> SecOf(r.page) >= 0 && SecOf(r.page + n - 1) == SecOf(r.page))
      ensures r.NoRoom? || m == NoTables ==> mem.Exhausted()
      ensures r.Found? && m == Done ==> MapsFresh(old(Pt()), Pt(), r.page, frames, LeafFlags(HYP_FLAGS))
      ensures Keeps(old(Pt()), Pt())
    {
      hide Valid, WF, Look, EndLevel, Grew, NBlocks, Hits, MapsTo, LeafFlags, Occupied, MapsFresh, Run, Keeps, Refused,
           Snug, FoundFirst, SecOf, PagePool.PageAllocator.NoRoomFor,
           PagePool.Mod, PagePool.PageAllocator.Valid, PagePool.PageAllocator.Exhausted, PagePool.Range;
      ghost var pt0, taken0 := Pt(), mem.taken;
      KeepsItself(pt0);
      m := Done;
      var ok;
      ok, base, frames := TakeRun(n, aligned);
      if !ok { return Invalid, m, base, frames; }
      ghost var taken1 := mem.taken;
      ghost var mapped;
      r, m, mapped := AllocMap(section, None, Some(base), n, HYP_FLAGS);
      GrewNotOwn(taken1, mem.taken, pt0.tables.Keys, tables.Keys, mapped, []);
      GrewTwice(taken0, taken1, mem.taken, pt0.tables.Keys, pt0.tables.Keys, tables.Keys, frames, true);
      if r.Found? { FreshKept(pt0, Pt(), r.page, n); } else { FreshKept(pt0, Pt(), 0, 0); }
    }

    // The frames of mem_alloc_page.
    method TakeRun(n: nat, aligned: bool) returns (ok: bool, base: nat, ghost frames: seq<nat>)
      requires Valid() && n > 0
      modifies mem, mem.Repr
      ensures Valid() && Pt() == old(Pt()) && tables.Keys <= old(mem.taken) && tables.Keys <= mem.taken
      ensures Grew(old(mem.taken), mem.taken, tables.Keys, tables.Keys, frames, true)
      ensures if ok then frames == Run(base, n) && |frames| == n && base + n <= FRAMES else frames == []
      ensures ok && aligned ==> PagePool.Mod(base, n) == 0
      ensures !ok ==> mem.taken == old(mem.taken) && mem.NoRoomFor(n, aligned)
    {
      hide WF, Look, EndLevel, Grew, Run, PagePool.Mod, PagePool.PageAllocator.Valid, PagePool.Range,
           PagePool.PageAllocator.NoRoomFor;
      ghost var taken0 := mem.taken;
      var pages := mem.AllocPpages(n, aligned);
      ok, base, frames := pages.numPages == n, pages.base, Run(pages.base, n);
      if ok {
        RunGrew(taken0, tables.Keys, base, n);
      } else {
        frames := [];
        NoFramesGrew(taken0, taken0, tables.Keys, tables.Keys, None);
      }
    }

    static lemma RunGrew(taken: set<nat>, keys: set<nat>, base: nat, n: nat)
      requires keys <= taken && PagePool.Range(base, n) !! taken
      ensures Grew(taken, taken + PagePool.Range(base, n), keys, keys, Run(base, n), true) && |Run(base, n)| == n
    {
      assert |Run(base, n)| == n;
      hide PagePool.Range, Run;
      assert Grew(taken, taken, keys, keys, [], true);
      hide Grew;
      GrewRun(taken, taken, keys, keys, [], base, n);
      assert [] + Run(base, n) == Run(base, n);
    }

    // The search for n virtual pages of the section finds none, if the section does not begin inside an occupied block.
    static ghost predicate NoPlace(pt: PT, cpu: AddrSpace, section: nat, n: nat)
      requires section < |cpu.sections|
    {
      Snug(pt, cpu.sections[section].beg) ==>
        cpu.FoundFirst(pt, section, n, Invalid) || cpu.FoundFirst(pt, section, n, RanOff)
    }

    // as_init without a root: new root pages, aligned to their number, mapped in the space of the calling CPU. None
    // is a failure of mem_alloc_page.
    static method Create(cpu: AddrSpace, section: nat, guest: bool, hyp: bool, sections: seq<Section>,
                         regions: seq<Region>)
      returns (space: AddrSpace?, va: nat, m: Outcome)
      requires cpu.Valid() && section < |cpu.sections|
      requires cpu.sections[section].beg <= cpu.sections[section].end < MAX_PAGE
      requires hyp ==> !guest && forall i: nat | i < |regions| :: GoodRegion(regions[i])
      modifies cpu, cpu.mem, cpu.mem.Repr
      ensures cpu.Valid() && (space != null ==> space.Valid() && fresh(space) && space.mem == cpu.mem)
      ensures space != null ==> space.RootPages() !! old(cpu.mem.taken) && space.RootPages() !! cpu.tables.Keys
      ensures space != null ==>
          PagePool.Mod(space.root, if guest then 4 else 1) == 0 && space.tables.Keys == {space.root}
      ensures space != null && hyp ==> Identity(space.Pt(), regions, LeafFlags(HYP_FLAGS))
      ensures space != null && !hyp ==> forall v: nat :: Look(space.Pt(), v) == Unmapped(0)
      ensures space != null && m == Done ==>
                MapsFresh(old(cpu.Pt()), cpu.Pt(), va, Run(space.root, if guest then 4 else 1), LeafFlags(HYP_FLAGS))
      ensures Keeps(old(cpu.Pt()), cpu.Pt())
      ensures space == null ==> (cpu.mem.taken == old(cpu.mem.taken) && cpu.mem.NoRoomFor(if guest then 4 else 1, true))
                                || NoPlace(old(cpu.Pt()), cpu, section, if guest then 4 else 1) || cpu.mem.Exhausted()
    {
      hide WF, Look, EndLevel, MapsTo, Grew, LeafFlags, MapsFresh, Identity, GoodRegion, Run, Keeps, PagePool.Mod,
           PagePool.PageAllocator.Valid, PagePool.PageAllocator.Exhausted, PagePool.Range;
      ghost var taken0, keys0 := cpu.mem.taken, cpu.tables.Keys;
      var n := if guest then 4 else 1;
      var r, base;
      ghost var frames;
      r, m, base, frames := cpu.AllocPage(section, n, true);
      if !r.Found? { return null, 0, m; }
      va := r.page;
      RootFrames(taken0, cpu.mem.taken, keys0, cpu.tables.Keys, base, n);
      space := new AddrSpace(guest, hyp, sections, cpu.mem, base, regions);
    }

    static lemma RootFrames(taken0: set<nat>, taken: set<nat>, keys0: set<nat>, keys: set<nat>, base: nat, n: nat)
      requires Grew(taken0, taken, keys0, keys, Run(base, n), true)
      ensures PagePool.Range(base, n) <= taken && PagePool.Range(base, n) !! taken0 && PagePool.Range(base, n) !! keys
    {
      forall p: nat | p in PagePool.Range(base, n) ensures p in Elems(Run(base, n)) {
        assert Run(base, n)[p - base] == p;
      }
    }
  }
}
