/**
 What mem_inflate_pt (src/core/mmu/mem.c) leaves behind, on values: which walks its two passes make longer. A pass
 visits one page in each step of the size of a block, so a range that does not begin with a block can miss its last
 one.
 */
module Inflating {
  import opened Arith
  import opened PageTable
  import opened Platform
  import opened TableUpdate
  import opened PageRange
  import opened MapStep
  import opened WalkStart

  // Among the first `lim` pages from v, the pass of level l visits one in the block of q.
  ghost predicate Visits(guest: bool, v: nat, l: nat, lim: nat, q: nat)
  {
    exists i: nat :: VisitAt(guest, v, l, i, q) && Span(i, l) < lim
  }

  predicate VisitAt(guest: bool, v: nat, l: nat, i: nat, q: nat)
  {
    Block(guest, v + Span(i, l), l) == Block(guest, q, l)
  }

  // The pass of level l makes longer the walks that end at level l in a block it visits, and no others.
  ghost predicate Deepened(was: PT, pt: PT, v: nat, l: nat, lim: nat)
  {
    && pt.guest == was.guest
    && forall q: nat :: EndLevel(pt, q) == Deeper(was, v, l, lim, q)
  }

  ghost function Deeper(was: PT, v: nat, l: nat, lim: nat, q: nat): nat
  {
    if EndLevel(was, q) == l && Visits(was.guest, v, l, lim, q) then l + 1 else EndLevel(was, q)
  }

  // Where the walk of q ends after both passes over n pages from v.
  ghost function InflatedLevel(was: PT, v: nat, n: nat, q: nat): nat
  {
    var l := Deeper(was, v, 0, n, q);
    if l == 1 && Visits(was.guest, v, 1, n, q) then 2 else l
  }

  // A page ends up at the last level exactly when each level it lacks is one whose pass visits its block.
  lemma InflatedFully(was: PT, v: nat, n: nat, q: nat)
    ensures InflatedLevel(was, v, n, q) == 2 <==>
              && (EndLevel(was, q) >= 1 || Visits(was.guest, v, 0, n, q))
              && (EndLevel(was, q) == 2 || Visits(was.guest, v, 1, n, q))
  {
    hide EndLevel, Visits;
  }

  // The block of a page of the range is visited exactly when it has a page of the range at the offset that v has in
  // its own block: always if v begins a block.
  lemma VisitsIff(guest: bool, v: nat, n: nat, l: nat, q: nat)
    requires v <= q < v + n && l < LEVELS && n + LvlPages(l) <= NBlocks(guest, 2)
    ensures Visits(guest, v, l, n, q) <==> q - q % LvlPages(l) + v % LvlPages(l) < v + n
  {
    hide LvlPages, NBlocks, Block;
    var p := LvlPages(l);
    var u := q - q % p + v % p;
    SameOffsets(v, q, p);
    var i: nat := (u - v) / p;
    assert v + Span(i, l) == u by { Distribute(p, i, 0); }
    SameBlockOf(guest, u, q, l);
    if u < v + n {
      assert VisitAt(guest, v, l, i, q);
    }
    if Visits(guest, v, l, n, q) {
      var j: nat :| VisitAt(guest, v, l, j, q) && Span(j, l) < n;
      OnlyVisit(guest, v, n, l, q, j, u);
    }
  }

  // The page of q's block at the offset of v comes a whole number of blocks after v.
  lemma SameOffsets(v: nat, q: nat, p: nat)
    requires p > 0 && v <= q
    ensures var u := q - q % p + v % p; u >= v && (u - v) % p == 0 && u / p == q / p && u - v == p * ((u - v) / p)
  {
    var a, b := v / p, q / p;
    DivMono(v, q, p);
    Distribute(p, b, -a);
    var u := q - q % p + v % p;
    assert u == p * b + v % p && u - v == p * (b - a);
    MulLe(0, b - a, p);
    DivUnique(u, p, b, v % p);
    DivUnique(u - v, p, b - a, 0);
  }

  lemma DivMono(x: nat, y: nat, p: nat)
    requires p > 0 && x <= y
    ensures x / p <= y / p
  {
    Distribute(p, y / p, 1);
    if x / p > y / p { MulLe(y / p + 1, x / p, p); }
  }

  lemma SameBlockOf(guest: bool, u: nat, q: nat, l: nat)
    requires u / LvlPages(l) == q / LvlPages(l)
    ensures Block(guest, u, l) == Block(guest, q, l)
  {
  }

  // In less than the whole space no other visited page lies in the block of q.
  lemma OnlyVisit(guest: bool, v: nat, n: nat, l: nat, q: nat, j: nat, u: nat)
    requires v <= q < v + n && l < LEVELS && n + LvlPages(l) <= NBlocks(guest, 2)
    requires VisitAt(guest, v, l, j, q) && Span(j, l) < n && u == q - q % LvlPages(l) + v % LvlPages(l)
    ensures u == v + Span(j, l)
  {
    var p, w := LvlPages(l), v + Span(j, l);
    VisitOffset(v, j, l);
    SpaceBlocks(guest, l);
    if w / p < q / p { FarBlocks(w, q, p, NBlocks(guest, l)); }
    if q / p < w / p { FarBlocks(q, w, p, NBlocks(guest, l)); }
    DivLe(q, p);
    assert q - q % p == p * (q / p) && w - w % p == p * (w / p);
  }

  lemma VisitOffset(v: nat, j: nat, l: nat)
    ensures (v + Span(j, l)) % LvlPages(l) == v % LvlPages(l)
  {
    var p := LvlPages(l);
    Distribute(p, v / p, j);
    DivUnique(v + Span(j, l), p, v / p + j, v % p);
  }

  lemma SpaceBlocks(guest: bool, l: nat)
    requires l < LEVELS
    ensures NBlocks(guest, l) * LvlPages(l) == NBlocks(guest, 2)
  {
  }

  // Different blocks of one number are a whole turn of the space apart.
  lemma FarBlocks(x: nat, y: nat, p: nat, n: nat)
    requires p > 0 && n > 0 && x / p < y / p && (x / p) % n == (y / p) % n
    ensures y - x > n * p - p
  {
    SameRest(x / p, y / p, n);
    MulLe(x / p + n, y / p, p);
    Distribute(p, x / p, n);
  }

  // ---------------------------------------------------------------- one pass

  // Every page is kept, up to the flags of superpages that were split.
  ghost predicate AllKept(was: PT, pt: PT, flags: bv8)
  {
    forall q: nat :: Kept(Look(was, q), Look(pt, q), flags)
  }

  lemma DeepenStart(pt: PT, v: nat, l: nat, flags: bv8)
    ensures Deepened(pt, pt, v, l, 0) && AllKept(pt, pt, flags)
  {
    hide EndLevel, Look;
  }

  // One more entry is expanded.
  lemma DeepenStep(was: PT, mid: PT, pt: PT, pt': PT, v: nat, l: nat, j: nat, u: nat, flags: bv8)
    requires Deepened(mid, pt, v, l, Span(j, l)) && AllKept(was, pt, flags) && l < 2
    requires u == v + Span(j, l) && forall q: nat :: SplitsAt(pt, pt', u, l, flags, q)
    ensures Deepened(mid, pt', v, l, Span(j + 1, l)) && AllKept(was, pt', flags)
  {
    hide EndLevel, Look, Block, Deepened, Span, Kept;
    assert SplitsAt(pt, pt', u, l, flags, u);
    DeepenedAt(mid, pt, v, l, Span(j, l), u);
    forall q: nat
      ensures EndLevel(pt', q) == Deeper(mid, v, l, Span(j + 1, l), q) && Kept(Look(was, q), Look(pt', q), flags)
    {
      assert SplitsAt(pt, pt', u, l, flags, q);
      DeepenOne(mid, pt, pt', v, l, j, flags, q);
      KeptTwice(was, pt, pt', u, l, flags, q);
    }
    DeepenedIs(mid, pt', v, l, Span(j + 1, l));
  }

  lemma DeepenedIs(was: PT, pt: PT, v: nat, l: nat, lim: nat)
    requires pt.guest == was.guest && forall q: nat :: EndLevel(pt, q) == Deeper(was, v, l, lim, q)
    ensures Deepened(was, pt, v, l, lim)
  {
    hide EndLevel;
  }

  lemma DeepenedAt(was: PT, pt: PT, v: nat, l: nat, lim: nat, q: nat)
    requires Deepened(was, pt, v, l, lim)
    ensures pt.guest == was.guest && EndLevel(pt, q) == Deeper(was, v, l, lim, q)
  {
    hide EndLevel;
  }

  lemma KeptTwice(was: PT, pt: PT, pt': PT, u: nat, l: nat, flags: bv8, q: nat)
    requires AllKept(was, pt, flags) && SplitsAt(pt, pt', u, l, flags, q)
    ensures Kept(Look(was, q), Look(pt', q), flags)
  {
    hide EndLevel, Look, Block;
    assert Kept(Look(was, q), Look(pt, q), flags);
  }

  lemma DeepenOne(mid: PT, pt: PT, pt': PT, v: nat, l: nat, j: nat, flags: bv8, q: nat)
    requires Deepened(mid, pt, v, l, Span(j, l)) && l < 2
    requires SplitsAt(pt, pt', v + Span(j, l), l, flags, q)
    ensures EndLevel(pt', q) == Deeper(mid, v, l, Span(j + 1, l), q)
  {
    hide EndLevel, Look, Block, Deepened;
    var u := v + Span(j, l);
    DeepenedAt(mid, pt, v, l, Span(j, l), q);
    VisitsNext(mid.guest, v, l, j, q);
    if Block(pt.guest, q, l) == Block(pt.guest, u, l) {
      SameEnd(pt, q, u, l);
    }
  }

  // Walks of one block end at its level together.
  lemma SameEnd(pt: PT, p: nat, q: nat, l: nat)
    requires l < 2 && Block(pt.guest, p, l) == Block(pt.guest, q, l)
    ensures EndLevel(pt, p) == l <==> EndLevel(pt, q) == l
  {
    SharedWalk(pt, l, p, q);
    if l == 1 {
      SameBlockUp(pt.guest, p, q, 1);
      SharedWalk(pt, 0, p, q);
    }
  }

  lemma VisitsNext(guest: bool, v: nat, l: nat, j: nat, q: nat)
    ensures Visits(guest, v, l, Span(j + 1, l), q) <==> Visits(guest, v, l, Span(j, l), q) || VisitAt(guest, v, l, j, q)
  {
    hide Block;
    forall i: nat ensures (Span(i, l) < Span(j, l) <==> i < j) && (Span(i, l) < Span(j + 1, l) <==> i < j + 1) {
      SpanOrder(i, j, l);
      SpanOrder(i, j + 1, l);
    }
    if VisitAt(guest, v, l, j, q) { assert Span(j, l) < Span(j + 1, l); }
    hide Span, VisitAt;
  }

  lemma SpanOrder(i: nat, j: nat, l: nat)
    ensures Span(i, l) < Span(j, l) <==> i < j
  {
    if i < j { MulLe(i + 1, j, LvlPages(l)); Distribute(LvlPages(l), i, 1); } else { MulLe(j, i, LvlPages(l)); }
  }

  // A pass that ends j steps from v has visited what it visits in n pages.
  lemma DeepenEnd(was: PT, pt: PT, v: nat, l: nat, j: nat, n: nat)
    requires Deepened(was, pt, v, l, Span(j, l)) && n <= Span(j, l) && (j > 0 ==> Span(j - 1, l) < n)
    ensures Deepened(was, pt, v, l, n)
  {
    hide EndLevel, Block;
    forall q: nat ensures Visits(was.guest, v, l, n, q) <==> Visits(was.guest, v, l, Span(j, l), q) {
      forall i: nat ensures Span(i, l) < n <==> Span(i, l) < Span(j, l) {
        SpanOrder(i, j, l);
        if j > 0 { SpanOrder(j - 1, i, l); }
      }
      hide Span, VisitAt;
    }
  }

  // ---------------------------------------------------------------- both passes

  // No root superpage of the range is left unsplit by the first pass.
  ghost predicate RootsVisited(was: PT, v: nat, n: nat)
  {
    forall p: nat | v <= p < v + n ::
      EndLevel(was, p) >= 1 || Look(was, p).Unmapped? || Visits(was.guest, v, 0, n, p)
  }

  lemma PassWalks(was: PT, mid: PT, pt: PT, v: nat, n: nat, l: nat, j: nat, flags: bv8)
    requires Deepened(mid, pt, v, l, Span(j, l)) && AllKept(was, pt, flags) && l < 2 && Span(j, l) < n
    requires l == 1 ==> Deepened(was, mid, v, 0, n) && RootsVisited(was, v, n)
    ensures Walkable(pt, l, v + Span(j, l))
  {
    hide EndLevel, Look, Visits, Deepened;
    var u := v + Span(j, l);
    DeepenedAt(mid, pt, v, l, Span(j, l), u);
    if l == 1 {
      DeepenedAt(was, mid, v, 0, n, u);
      assert Kept(Look(was, u), Look(pt, u), flags);
    }
  }

  // The levels after both passes.
  ghost predicate InflatedAll(was: PT, pt: PT, v: nat, n: nat)
  {
    forall q: nat :: EndLevel(pt, q) == InflatedLevel(was, v, n, q)
  }

  lemma BothPasses(was: PT, mid: PT, pt: PT, v: nat, n: nat)
    requires Deepened(was, mid, v, 0, n) && Deepened(mid, pt, v, 1, n)
    ensures InflatedAll(was, pt, v, n)
  {
    hide EndLevel, Visits;
  }

  // In an empty space the 512 pages from page 1 on are not all given a table: page 512 begins a block of its own,
  // which the step from page 1 misses.
  lemma InflateMisses(was: PT)
    requires !was.guest && forall q: nat :: EndLevel(was, q) == 0
    ensures InflatedLevel(was, 1, 512, 512) == 1
  {
    hide EndLevel;
    VisitsIff(false, 1, 512, 0, 512);
    VisitsIff(false, 1, 512, 1, 512);
  }

  // ---------------------------------------------------------------- leaves at the last level

  ghost predicate SameEnds(a: PT, b: PT)
  {
    forall q: nat :: EndLevel(a, q) == EndLevel(b, q)
  }

  lemma EndsItself(pt: PT)
    ensures SameEnds(pt, pt)
  {
    hide EndLevel;
  }

  lemma LeafEnds(pt: PT, home: map<nat, Home>, u: nat, t: nat, e: Pte)
    requires WF(pt, home) && Node(pt, 2, u) == Some(t) && !e.kind.Next?
    ensures t in pt.tables && Index(pt.guest, u, 2) < |pt.tables[t]|
    ensures SameEnds(pt, Put(pt, t, Index(pt.guest, u, 2), e))
  {
    hide WF, Node, EntryAt, Index, Look, EndLevel, Hits, Block;
    NodeHome(pt, home, 2, u);
    ReachedEnds(pt, home, 2, u);
    var pt' := Put(pt, t, Index(pt.guest, u, 2), e);
    forall q: nat ensures EndLevel(pt, q) == EndLevel(pt', q) {
      BlockMeaning(pt, home, u, 2, t, e, q);
      if Hits(pt.guest, q, u, 1) {
        BlockHits(pt.guest, q, u, 2);
        SharedWalk(pt, 2, q, u);
        ReachedEnds(pt, home, 2, q);
      }
    }
  }

  // A leaf for one more page of the range.
  lemma MapLast(mid: PT, pt: PT, home: map<nat, Home>, v: nat, frames: seq<nat>, t: nat, pa: nat, flags: bv8)
    requires WF(pt, home) && Node(pt, 2, v + |frames|) == Some(t) && pa < FRAMES && |frames| < NBlocks(pt.guest, 2)
    requires Framed(mid, pt, v, |frames|) && MapsTo(pt, v, frames, flags) && SameEnds(mid, pt)
    ensures t in pt.tables && Index(pt.guest, v + |frames|, 2) < |pt.tables[t]|
    ensures var pt' := Put(pt, t, Index(pt.guest, v + |frames|, 2), Pte(Final, pa, flags, 0));
            && WF(pt', home) && Framed(mid, pt', v, |frames| + 1) && MapsTo(pt', v, frames + [pa], flags)
            && SameEnds(mid, pt')
  {
    hide WF, Node, EntryAt, Index, Look, EndLevel, Framed, MapsTo, NBlocks;
    MapBlock(mid, pt, home, v, frames, 2, t, pa, flags);
    LeafEnds(pt, home, v + |frames|, t, Pte(Final, pa, flags, 0));
    assert Run(pa, 1) == [pa];
  }

  // The range kept by the passes, and then mapped.
  lemma KeptFramed(was: PT, mid: PT, pt: PT, v: nat, n: nat, flags: bv8)
    requires AllKept(was, mid, flags) && Framed(mid, pt, v, n)
    ensures forall p: nat | !Hits(pt.guest, p, v, n) :: Kept(Look(was, p), Look(pt, p), flags)
  {
    hide Look, Hits;
  }

  // A page of the range that got no last-level table is still unmapped.
  lemma MissedFree(was: PT, mid: PT, pt: PT, v: nat, n: nat, c: nat, u: nat, flags: bv8)
    requires AllKept(was, mid, flags) && InflatedAll(was, mid, v, n) && Framed(mid, pt, v, c) && SameEnds(mid, pt)
    requires c < n <= NBlocks(pt.guest, 2) && u == v + c
    requires forall p: nat | v <= p < v + n :: InflatedLevel(was, v, n, p) == 2 || Look(was, p).Unmapped?
    ensures Walkable(pt, 2, u) && EndLevel(pt, u) == InflatedLevel(was, v, n, u)
  {
    hide Look, EndLevel, InflatedLevel, NBlocks;
    FramedAhead(mid, pt, v, c, u);
    assert Kept(Look(was, u), Look(mid, u), flags);
  }

  lemma RootsReached(was: PT, v: nat, n: nat)
    requires forall p: nat | v <= p < v + n :: InflatedLevel(was, v, n, p) == 2 || Look(was, p).Unmapped?
    ensures RootsVisited(was, v, n)
  {
    hide Look, EndLevel, Visits, InflatedLevel;
    forall p: nat | v <= p < v + n
      ensures EndLevel(was, p) >= 1 || Look(was, p).Unmapped? || Visits(was.guest, v, 0, n, p)
    {
      InflatedFully(was, v, n, p);
    }
  }
}
