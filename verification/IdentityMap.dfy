/**
 The identity map the hypervisor's own space starts with (src/arch/riscv/mem.c): whole root blocks over every region of
 physical memory, on values.
 */
module IdentityMap {
  import opened Arith
  import opened Platform
  import opened PageTable
  import opened PageRange

  // A region of physical memory, in bytes.
  datatype Region = Region(base: nat, size: nat)

  // Bytes of a root block.
  const BLOCK: nat := 0x4000_0000

  predicate GoodRegion(r: Region)
  {
    r.size > 0 && r.base + r.size <= FRAMES * 4096
  }

  // Root block b holds a byte of the region.
  predicate Overlaps(r: Region, b: nat)
  {
    r.base < (b + 1) * BLOCK && b * BLOCK < r.base + r.size
  }

  ghost predicate Backed(regions: seq<Region>, b: nat)
  {
    exists i: nat :: i < |regions| && Overlaps(regions[i], b)
  }

  // Exactly the physical pages of root blocks that hold a byte of some region are mapped, each at the page of its own
  // number as far as the width of a virtual address goes.
  ghost predicate Identity(pt: PT, regions: seq<Region>, flags: bv8)
  {
    forall v: nat :: IdentityAt(pt, regions, flags, v)
  }

  ghost predicate IdentityAt(pt: PT, regions: seq<Region>, flags: bv8, v: nat)
  {
    && (Look(pt, v).Mapped? ==> Backed(regions, Look(pt, v).page / LvlPages(0)))
    && (Look(pt, v).Mapped? ==> SamePage(pt.guest, Look(pt, v).page, v) && Look(pt, v).flags == flags)
    && (!Look(pt, v).Mapped? ==> Look(pt, v) == Unmapped(0))
    && (!Look(pt, v).Mapped? ==> forall p: nat | Backed(regions, p / LvlPages(0)) :: !SamePage(pt.guest, p, v))
  }

  function First(r: Region): nat
  {
    r.base / BLOCK
  }

  // The rounding of the source: `base` down, `top` up to whole blocks.
  function Entries(r: Region): nat
    requires r.size > 0
  {
    var base := r.base - r.base % BLOCK;
    var up := r.base + r.size + (BLOCK - 1);
    var top := up - up % BLOCK;
    (top - base - 1) / BLOCK + 1
  }

  lemma EntriesOverlap(r: Region, b: nat)
    requires r.size > 0
    ensures Overlaps(r, b) <==> First(r) <= b < First(r) + Entries(r)
  {
  }

  lemma EntriesFit(r: Region, b: nat)
    requires GoodRegion(r) && First(r) <= b < First(r) + Entries(r)
    ensures b * LvlPages(0) + LvlPages(0) <= FRAMES
  {
    EntriesOverlap(r, b);
  }

  function Leaf(b: nat, flags: bv8): Pte
  {
    Pte(Final, b * LvlPages(0), flags, 0)
  }

  // The root entries with the blocks of `done` written: the entry of a block is its leaf, or that of one that wraps
  // to it.
  ghost predicate Rooted(entries: seq<Pte>, done: iset<nat>, flags: bv8)
  {
    && |entries| == 512
    && forall k: nat | k < 512 :: RootEntry(entries[k], k, done, flags)
  }

  ghost predicate RootEntry(e: Pte, k: nat, done: iset<nat>, flags: bv8)
  {
    || (e == Pte(Empty, 0, 0, 0) && forall b: nat | b in done :: b % 512 != k)
    || exists b: nat :: b in done && b % 512 == k && e == Leaf(b, flags)
  }

  lemma RootedStep(entries: seq<Pte>, done: iset<nat>, flags: bv8, b: nat)
    requires Rooted(entries, done, flags)
    ensures Rooted(entries[b % 512 := Leaf(b, flags)], done + iset{b}, flags)
  {
    hide Leaf;
    var entries' := entries[b % 512 := Leaf(b, flags)];
    forall k: nat | k < 512 ensures RootEntry(entries'[k], k, done + iset{b}, flags) {
      assert RootEntry(entries[k], k, done, flags);
      if k != b % 512 && exists c: nat :: c in done && c % 512 == k && entries[k] == Leaf(c, flags) {
        var c: nat :| c in done && c % 512 == k && entries[k] == Leaf(c, flags);
        assert c in done + iset{b};
      }
    }
  }

  lemma RootedLook(pt: PT, entries: seq<Pte>, done: iset<nat>, flags: bv8, regions: seq<Region>, v: nat)
    requires !pt.guest && pt.tables == map[pt.root := entries] && Rooted(entries, done, flags)
    requires forall b: nat :: b in done <==> Backed(regions, b)
    ensures IdentityAt(pt, regions, flags, v)
  {
    hide Backed, Leaf, SamePage;
    var k := Index(false, v, 0);
    var e := entries[k];
    assert EntryAt(pt, 0, v) == e && RootEntry(e, k, done, flags);
    if e.kind.Final? {
      var b: nat :| b in done && b % 512 == k && e == Leaf(b, flags);
      LeafPage(b, flags, v);
    } else {
      LeafKind(done, k, e, flags);
      forall p: nat | Backed(regions, p / LvlPages(0)) ensures !SamePage(false, p, v) {
        OtherRoot(p, v, done);
      }
    }
  }

  lemma RootIndex(p: nat)
    ensures Block(false, p, 0) == Index(false, p, 0) == (p / LvlPages(0)) % 512
  {
  }

  lemma OtherRoot(p: nat, v: nat, done: iset<nat>)
    requires forall b: nat | b in done :: b % 512 != Index(false, v, 0)
    requires p / LvlPages(0) in done
    ensures !SamePage(false, p, v)
  {
    RootIndex(p);
    RootIndex(v);
    if SamePage(false, p, v) {
      hide SamePage, Block, Index, LvlPages;
      SameBlocks(false, p, v);
    }
  }

  lemma LeafKind(done: iset<nat>, k: nat, e: Pte, flags: bv8)
    requires RootEntry(e, k, done, flags) && !e.kind.Final?
    ensures e == Pte(Empty, 0, 0, 0) && forall b: nat | b in done :: b % 512 != k
  {
  }

  lemma LeafPage(b: nat, flags: bv8, v: nat)
    requires b % 512 == Index(false, v, 0)
    ensures Leaf(b, flags).kind.Final? && Leaf(b, flags).flags == flags && Leaf(b, flags).rsw == 0
    ensures var p := Leaf(b, flags).addr + v % LvlPages(0);
            p / LvlPages(0) == b && SamePage(false, p, v)
  {
    var p := b * LvlPages(0) + v % LvlPages(0);
    assert p / LvlPages(0) == b && p % LvlPages(0) == v % LvlPages(0);
    SameOffset(false, p, v, 0);
  }

  lemma RootedWF(pt: PT, home: map<nat, Home>, entries: seq<Pte>, done: iset<nat>, flags: bv8)
    requires !pt.guest && pt.tables == map[pt.root := entries] && home == map[pt.root := Home(0, 0)]
    requires Rooted(entries, done, flags) && forall b: nat | b in done :: b * LvlPages(0) < FRAMES
    ensures WF(pt, home)
  {
    forall i: nat | i < 512 ensures GoodEntry(pt, home, pt.root, i) {
      assert RootEntry(entries[i], i, done, flags);
    }
  }

  lemma FirstAddress(r: Region)
    ensures r.base - r.base % BLOCK == First(r) * BLOCK
  {
  }

  lemma BlockAddress(b: nat, addr: nat, flags: bv8)
    requires addr == b * BLOCK
    ensures Leaf(b, flags) == Pte(Final, addr / 4096, flags, 0) && Index(false, addr / 4096, 0) == b % 512
  {
  }

  lemma BackedNext(regions: seq<Region>, i: nat, b: nat)
    requires i < |regions|
    ensures Backed(regions[..i + 1], b) <==> Backed(regions[..i], b) || Overlaps(regions[i], b)
  {
    hide Overlaps;
    if Backed(regions[..i + 1], b) && !Overlaps(regions[i], b) {
      var m: nat :| m < i + 1 && Overlaps(regions[..i + 1][m], b);
      assert m < i && regions[..i][m] == regions[..i + 1][m];
    }
    if Backed(regions[..i], b) {
      var m: nat :| m < i && Overlaps(regions[..i][m], b);
      assert regions[..i + 1][m] == regions[..i][m];
    }
    assert regions[..i + 1][i] == regions[i];
  }

  lemma RootedStart(flags: bv8)
    ensures Rooted(seq(512, _ => Pte(Empty, 0, 0, 0)), iset{}, flags)
  {
  }
}
