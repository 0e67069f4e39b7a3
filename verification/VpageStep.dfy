/**
 What mem_alloc_vpage keeps while it searches for free pages and while it marks them.
 */
module VpageStep {
  import opened Arith
  import opened PageTable
  import opened TableUpdate
  import opened PageRange
  import opened MapStep

  predicate Occupied(c: Cell)
  {
    c.Mapped? || c.rsw == RSRV
  }

  // vaddr & ~(lvlsz - 1).
  function BlockBase(u: nat, l: nat): (b: nat)
    ensures b <= u
  {
    u - u % LvlPages(l)
  }

  // The block at which the walk of q ends lies inside [lo, hi).
  ghost predicate Inside(pt: PT, q: nat, lo: nat, hi: nat)
  {
    lo <= BlockBase(q, EndLevel(pt, q)) && BlockBase(q, EndLevel(pt, q)) + LvlPages(EndLevel(pt, q)) <= hi
  }

  ghost predicate Tiled(pt: PT, lo: nat, hi: nat)
  {
    forall q: nat | lo <= q < hi :: Inside(pt, q, lo, hi)
  }

  // [lo, hi) is free and made of whole end-of-walk blocks.
  ghost predicate FreeRun(pt: PT, lo: nat, hi: nat)
  {
    && (forall q: nat | lo <= q < hi :: !Occupied(Look(pt, q)))
    && Tiled(pt, lo, hi)
  }

  lemma BaseNests(q: nat, l: nat, l': nat)
    requires l <= l' < LEVELS
    ensures BlockBase(q, l) <= BlockBase(q, l') && BlockBase(q, l') + LvlPages(l') <= BlockBase(q, l) + LvlPages(l)
    decreases l' - l
  {
    if l < l' {
      BaseStep(q, l);
      BaseNests(q, l + 1, l');
    }
  }

  lemma BaseStep(q: nat, l: nat)
    requires l < 2
    ensures BlockBase(q, l) <= BlockBase(q, l + 1)
    ensures BlockBase(q, l + 1) + LvlPages(l + 1) <= BlockBase(q, l) + LvlPages(l)
  {
    var p := LvlPages(l + 1);
    assert LvlPages(l) == 512 * p;
    var a, b := q / (512 * p), (q / p) % 512;
    assert q / p == 512 * a + b by { assert q / (512 * p) == (q / p) / 512; }
  }

  // Splitting empty entries keeps a free run.
  lemma RunSplit(pt: PT, pt': PT, lo: nat, hi: nat)
    requires FreeRun(pt, lo, hi) && forall q: nat :: Look(pt', q) == Look(pt, q) && EndLevel(pt', q) >= EndLevel(pt, q)
    ensures FreeRun(pt', lo, hi)
  {
    hide Look, EndLevel, BlockBase, LvlPages;
    forall q: nat | lo <= q < hi ensures Inside(pt', q, lo, hi) {
      assert Inside(pt, q, lo, hi);
      assert Look(pt', q) == Look(pt, q);
      BaseNests(q, EndLevel(pt, q), EndLevel(pt', q));
    }
  }

  // One more free block at the end of the run.
  lemma RunGrows(pt: PT, home: map<nat, Home>, lo: nat, hi: nat, l: nat)
    requires WF(pt, home) && FreeRun(pt, lo, hi) && lo <= hi && l < LEVELS && Aligned(hi, l)
    requires EndLevel(pt, hi) == l && !Occupied(Look(pt, hi))
    ensures FreeRun(pt, lo, hi + LvlPages(l))
  {
    hide WF, Look, EndLevel, Block, BlockBase, LvlPages, Aligned;
    var hi' := hi + LvlPages(l);
    forall q: nat | lo <= q < hi' ensures !Occupied(Look(pt, q)) {
      if q >= hi { SameEnd(pt, home, hi, q, l); }
    }
    forall q: nat | lo <= q < hi' ensures Inside(pt, q, lo, hi') {
      if q < hi {
        assert Inside(pt, q, lo, hi);
      } else {
        SameEnd(pt, home, hi, q, l);
        BaseOf(hi, q, l);
      }
    }
  }

  lemma BaseOf(u: nat, q: nat, l: nat)
    requires l < LEVELS && Aligned(u, l) && u <= q < u + LvlPages(l)
    ensures BlockBase(q, l) == u
  {
  }

  // Pages of the block at which a free walk ends mean the same.
  lemma SameEnd(pt: PT, home: map<nat, Home>, u: nat, q: nat, l: nat)
    requires WF(pt, home) && l < LEVELS && Aligned(u, l) && u <= q < u + LvlPages(l)
    requires EndLevel(pt, u) == l && Look(pt, u).Unmapped?
    ensures EndLevel(pt, q) == l && Look(pt, q) == Look(pt, u) && EntryAt(pt, l, q) == EntryAt(pt, l, u)
  {
    InBlock(pt.guest, u, q - u, l);
    hide WF, Block, LvlPages, Aligned;
    SharedWalk(pt, l, q, u);
    EndReached(pt, home, u);
    ReachedEnds(pt, home, l, u);
    ReachedEnds(pt, home, l, q);
  }

  // ---------------------------------------------------------------- marking

  // The first c of the n pages from v are reserved; the rest of the run is still free; nothing else changed.
  ghost predicate Marked(was: PT, pt: PT, v: nat, c: nat, n: nat)
  {
    && pt.guest == was.guest
    && (forall q: nat | v <= q < v + c :: Look(pt, q) == Unmapped(RSRV))
    && (forall p: nat | !Hits(pt.guest, p, v, c) :: Look(pt, p) == Look(was, p))
    && (forall q: nat | v <= q < v + n :: EndLevel(pt, q) == EndLevel(was, q))
    && Tiled(was, v, v + c)
  }

  lemma MarkStart(pt: PT, v: nat, n: nat)
    ensures Marked(pt, pt, v, 0, n)
  {
  }

  // The next page to mark begins the block its walk ends at, and the block fits in the run.
  lemma NextBlock(was: PT, pt: PT, v: nat, c: nat, n: nat)
    requires Marked(was, pt, v, c, n) && FreeRun(was, v, v + n) && c < n <= NBlocks(pt.guest, 2)
    ensures var l := EndLevel(pt, v + c);
            Aligned(v + c, l) && c + LvlPages(l) <= n && Look(pt, v + c).Unmapped?
  {
    var u := v + c;
    var l := EndLevel(was, u);
    assert Inside(was, u, v, v + n);
    if c > 0 { BeforeBase(was, v, c, n); }
    BaseIsAligned(u, l);
    forall p: nat | v <= p < v + c ensures !SamePage(pt.guest, u, p) { NoAlias(pt.guest, p, u); }
  }

  lemma BaseIsAligned(u: nat, l: nat)
    ensures BlockBase(u, l) == u ==> Aligned(u, l)
  {
  }

  // If the block of page v + c began earlier, the page before it would share the block.
  lemma BeforeBase(was: PT, v: nat, c: nat, n: nat)
    requires 0 < c < n && FreeRun(was, v, v + n) && Tiled(was, v, v + c)
    ensures BlockBase(v + c, EndLevel(was, v + c)) == v + c
  {
    var u := v + c;
    var l := EndLevel(was, u);
    var b := BlockBase(u, l);
    if b < u {
      assert Inside(was, u, v, v + n) && v <= b;
      SameEndOf(was, b, u, l);
      assert Inside(was, b, v, v + c);
      BaseOfBase(u, l);
    }
  }

  lemma BaseOfBase(u: nat, l: nat)
    ensures BlockBase(BlockBase(u, l), l) == BlockBase(u, l) && u < BlockBase(u, l) + LvlPages(l)
  {
    ModZero(u, LvlPages(l));
  }

  lemma ModZero(x: nat, p: nat)
    requires p > 0
    ensures (x - x % p) % p == 0 && x % p < p && x - x % p >= 0
  {
    DivUnique(x - x % p, p, x / p, 0);
  }

  // The walk of a page ends where the walk of the first page of its block ends.
  lemma SameEndOf(pt: PT, b: nat, u: nat, l: nat)
    requires l < LEVELS && EndLevel(pt, u) == l && b == BlockBase(u, l)
    ensures EndLevel(pt, b) == l
  {
    BaseOfBase(u, l);
    assert Aligned(b, l);
    InBlock(pt.guest, b, u - b, l);
    hide Block, LvlPages, Aligned, BlockBase;
    SharedWalk(pt, l, b, u);
    if l > 0 { SameBlockUp(pt.guest, b, u, l); SharedWalk(pt, l - 1, b, u); }
    if l > 1 { SameBlockUp(pt.guest, b, u, l - 1); SharedWalk(pt, l - 2, b, u); }
  }

  // pte_set_rsw on the next block.
  lemma MarkBlock(was: PT, pt: PT, home: map<nat, Home>, v: nat, c: nat, n: nat, l: nat, t: nat, e: Pte)
    requires WF(pt, home) && Marked(was, pt, v, c, n) && l == EndLevel(pt, v + c) && Aligned(v + c, l)
    requires c + LvlPages(l) <= n <= NBlocks(pt.guest, 2) && Node(pt, l, v + c) == Some(t) && e.kind.Empty?
        && e.rsw == RSRV
    ensures t in pt.tables && Index(pt.guest, v + c, l) < |pt.tables[t]|
    ensures var pt' := Put(pt, t, Index(pt.guest, v + c, l), e);
            WF(pt', home) && Marked(was, pt', v, c + LvlPages(l), n)
  {
    hide Node, EntryAt, Index, Block, Look, EndLevel, Hits, WF, LvlPages, NBlocks, Aligned, BlockBase, Inside;
    var u, k := v + c, LvlPages(l);
    PutWF(pt, home, l, u, t, e);
    var pt' := Put(pt, t, Index(pt.guest, u, l), e);
    forall p: nat | !Hits(pt.guest, p, v, c + k) ensures Look(pt', p) == Look(was, p) {
      HitsSplit(pt.guest, p, v, c, k);
      BlockMeaning(pt, home, u, l, t, e, p);
    }
    var hi := u + k;
    forall q: nat | v <= q < v + n
      ensures EndLevel(pt', q) == EndLevel(was, q)
      ensures q < hi ==> Look(pt', q) == Unmapped(RSRV)
    {
      BlockMeaning(pt, home, u, l, t, e, q);
      if q < u {
        NotHit(pt.guest, q, u, k);
      } else if q < hi {
        OwnHit(pt.guest, q, u, k);
        InsideBlock(pt, home, was, u, q, l, v);
      } else {
        PastBlock(pt.guest, q, u, k, v, n);
      }
    }
    forall q: nat | v <= q < hi ensures Inside(was, q, v, hi) {
      if q < u {
        InsideMore(was, q, v, u, hi);
      } else {
        InsideBlock(pt, home, was, u, q, l, v);
      }
    }
    assert Tiled(was, v, v + (c + k));
  }

  lemma InsideMore(pt: PT, q: nat, lo: nat, hi: nat, hi': nat)
    requires Inside(pt, q, lo, hi) && hi <= hi'
    ensures Inside(pt, q, lo, hi')
  {
  }

  lemma InsideBlock(pt: PT, home: map<nat, Home>, was: PT, u: nat, q: nat, l: nat, v: nat)
    requires WF(pt, home) && l < LEVELS && Aligned(u, l) && v <= u <= q < u + LvlPages(l) && EndLevel(pt, u) == l
    requires EndLevel(was, u) == l && was.guest == pt.guest && EndLevel(was, q) == EndLevel(pt, q)
    ensures EndLevel(pt, q) == l && Inside(was, q, v, u + LvlPages(l))
  {
    InBlock(pt.guest, u, q - u, l);
    BaseOf(u, q, l);
    hide WF, Block, LvlPages, Aligned, BlockBase;
    SharedWalk(pt, l, q, u);
    EndReached(pt, home, u);
    ReachedEnds(pt, home, l, u);
    ReachedEnds(pt, home, l, q);
  }

  lemma PastBlock(guest: bool, q: nat, u: nat, k: nat, v: nat, n: nat)
    requires v <= u && u + k <= q < v + n && n <= NBlocks(guest, 2)
    ensures !Hits(guest, q, u, k)
  {
    hide Block, NBlocks;
    forall p: nat | u <= p < u + k ensures !SamePage(guest, q, p) { NoAlias(guest, p, q); }
  }

  // ---------------------------------------------------------------- allocating and mapping

  // The pages from v on are mapped to `frames`; any other mapped page was mapped so before.
  ghost predicate MapsFresh(was: PT, pt: PT, v: nat, frames: seq<nat>, flags: bv8)
  {
    && pt.guest == was.guest && MapsTo(pt, v, frames, flags)
    && (forall p: nat | !Hits(pt.guest, p, v, |frames|) && Look(pt, p).Mapped? :: Look(pt, p) == Look(was, p))
  }

  lemma FreshMap(was: PT, pt1: PT, pt: PT, v: nat, n: nat, frames: seq<nat>, flags: bv8)
    requires was.guest == pt1.guest && |frames| <= n
    requires forall q: nat | v <= q < v + n :: !Occupied(Look(was, q)) && Look(pt1, q) == Unmapped(RSRV)
    requires forall p: nat | !Hits(was.guest, p, v, n) :: Look(pt1, p) == Look(was, p)
    requires Framed(pt1, pt, v, |frames|) && MapsTo(pt, v, frames, flags)
    ensures MapsFresh(was, pt, v, frames, flags)
    ensures forall p: nat | !Hits(was.guest, p, v, n) :: Look(pt, p) == Look(was, p)
    ensures !exists q: nat :: v <= q < v + n && Look(pt1, q).Mapped?
  {
    hide Look, Occupied;
    forall p: nat | !Hits(pt.guest, p, v, |frames|) && Look(pt, p).Mapped? ensures Look(pt, p) == Look(was, p) {
      assert Look(pt, p) == Look(pt1, p);
      if Hits(pt.guest, p, v, n) {
        var q: nat :| v <= q < v + n && SamePage(pt.guest, p, q);
        SameLook(pt1, p, q);
      }
    }
    forall p: nat | !Hits(was.guest, p, v, n) ensures Look(pt, p) == Look(was, p) {
      assert !Hits(pt.guest, p, v, |frames|);
    }
  }

  // ---------------------------------------------------------------- what stays mapped

  // Every mapped page stays mapped as it was.
  ghost predicate Keeps(was: PT, pt: PT)
  {
    forall p: nat | Look(was, p).Mapped? :: Look(pt, p) == Look(was, p)
  }

  // What maps only pages that were free overrides nothing.
  lemma FreshKept(was: PT, pt: PT, v: nat, n: nat)
    requires forall p: nat | !Hits(was.guest, p, v, n) :: Look(pt, p) == Look(was, p)
    requires forall q: nat | v <= q < v + n :: !Occupied(Look(was, q))
    ensures Keeps(was, pt)
  {
    hide Look;
    forall p: nat | Look(was, p).Mapped? ensures !Hits(was.guest, p, v, n) {
      if q: nat :| v <= q < v + n && SamePage(was.guest, p, q) { SameLook(was, p, q); }
    }
  }

  lemma KeepsItself(pt: PT)
    ensures Keeps(pt, pt)
  {
    hide Look;
  }

  lemma KeepsTwice(a: PT, b: PT, c: PT)
    requires Keeps(a, b) && Keeps(b, c)
    ensures Keeps(a, c)
  {
    hide Look;
  }
}
