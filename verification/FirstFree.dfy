/**
 Where the search of mem_alloc_vpage (src/core/mmu/mem.c) comes out, on values. It steps by whole blocks, so it meets
 every free run from its first page on unless that page lies inside an occupied block.
 */
module FirstFree {
  import opened Arith
  import opened PageTable
  import opened PageRange
  import opened VpageStep

  // Some of the n pages from q on is mapped or reserved.
  ghost predicate Taken(pt: PT, q: nat, n: nat)
  {
    exists p: nat :: q <= p < q + n && Occupied(Look(pt, p))
  }

  // No n free pages begin in [s, e).
  ghost predicate NoneFree(pt: PT, s: nat, e: nat, n: nat)
  {
    forall q: nat | s <= q < e :: Taken(pt, q, n)
  }

  // Page a is free, or begins the block at which its walk ends.
  ghost predicate Snug(pt: PT, a: nat)
  {
    !Occupied(Look(pt, a)) || Aligned(a, EndLevel(pt, a))
  }

  // State of a search from page s: `count` pages before addr are free, and no n free pages begin before those.
  ghost predicate Searched(was: PT, pt: PT, s: nat, addr: nat, count: nat, n: nat)
  {
    s + count <= addr && NoneFree(was, s, addr - count, n) && Snug(pt, addr)
  }

  lemma SearchStart(pt: PT, s: nat, n: nat)
    requires Snug(pt, s)
    ensures Searched(pt, pt, s, s, 0, n)
  {
    hide Look, EndLevel, Occupied;
  }

  // After a block that is free or begins at a, the search is at the beginning of a block again.
  lemma SnugNext(pt: PT, home: map<nat, Home>, a: nat, l: nat)
    requires WF(pt, home) && EndLevel(pt, a) == l && Aligned(a, l)
    ensures Snug(pt, a + LvlPages(l))
  {
    hide WF, Look, Occupied;
    var b := a + LvlPages(l);
    var k := EndLevel(pt, b);
    if k >= l {
      AlignedBelow(a, l, k);
    } else if !Aligned(b, k) {
      SameCoarse(pt.guest, a, l, k);
      EndsTogether(pt, home, a, b, k);
    }
  }

  lemma AlignedBelow(a: nat, l: nat, k: nat)
    requires l <= k < LEVELS && Aligned(a, l)
    ensures Aligned(a + LvlPages(l), k)
  {
    var m := LvlPages(l) / LvlPages(k);
    assert LvlPages(l) == m * LvlPages(k);
    var q := a / LvlPages(l) + 1;
    assert a + LvlPages(l) == LvlPages(l) * q;
    assert a + LvlPages(l) == LvlPages(k) * (m * q);
    DivUnique(a + LvlPages(l), LvlPages(k), m * q, 0);
  }

  // Two neighbouring blocks with no larger one beginning in between lie in one larger block.
  lemma SameCoarse(guest: bool, a: nat, l: nat, k: nat)
    requires k < l < LEVELS && Aligned(a, l) && !Aligned(a + LvlPages(l), k)
    ensures Block(guest, a + LvlPages(l), k) == Block(guest, a, k)
  {
    assert (a + LvlPages(l)) / LvlPages(k) == a / LvlPages(k);
  }

  lemma EndsTogether(pt: PT, home: map<nat, Home>, a: nat, b: nat, k: nat)
    requires WF(pt, home) && EndLevel(pt, b) == k && Block(pt.guest, b, k) == Block(pt.guest, a, k)
    ensures EndLevel(pt, a) == k
  {
    hide WF, Block, Index;
    EndReached(pt, home, b);
    SharedWalk(pt, k, a, b);
    ReachedEnds(pt, home, k, a);
  }

  // An occupied block is passed.
  lemma PassOccupied(was: PT, pt: PT, home: map<nat, Home>, s: nat, addr: nat, count: nat, n: nat, l: nat)
    requires Searched(was, pt, s, addr, count, n) && WF(pt, home) && count < n
    requires EndLevel(pt, addr) == l && Occupied(Look(pt, addr)) && forall q: nat :: Look(pt, q) == Look(was, q)
    ensures Searched(was, pt, s, addr + LvlPages(l), 0, n)
  {
    hide WF, Look, EndLevel, Occupied, LvlPages, Aligned;
    SnugNext(pt, home, addr, l);
    forall q: nat | s <= q < addr + LvlPages(l) ensures Taken(was, q, n) {
      if q >= addr - count {
        var p := if q <= addr then addr else q;
        OccupiedBlock(pt, home, addr, p, l);
        assert Occupied(Look(was, p));
      }
    }
  }

  lemma OccupiedBlock(pt: PT, home: map<nat, Home>, a: nat, p: nat, l: nat)
    requires WF(pt, home) && EndLevel(pt, a) == l && Aligned(a, l) && a <= p < a + LvlPages(l)
    ensures Occupied(Look(pt, p)) == Occupied(Look(pt, a))
  {
    InBlock(pt.guest, a, p - a, l);
    hide WF, Block, LvlPages, Aligned;
    EndsTogether(pt, home, p, a, l);
    SharedWalk(pt, l, p, a);
  }

  // A free block is counted.
  lemma CountFree(was: PT, pt: PT, home: map<nat, Home>, s: nat, addr: nat, count: nat, n: nat, l: nat)
    requires Searched(was, pt, s, addr, count, n) && WF(pt, home)
    requires EndLevel(pt, addr) == l && (l == LEVELS - 1 || Aligned(addr, l))
    ensures Searched(was, pt, s, addr + LvlPages(l), count + LvlPages(l), n)
  {
    hide WF, Look, EndLevel, Occupied;
    SnugNext(pt, home, addr, l);
  }

  // A free entry gets a table.
  lemma StillSearched(was: PT, pt: PT, pt': PT, s: nat, addr: nat, count: nat, n: nat)
    requires Searched(was, pt, s, addr, count, n) && Look(pt', addr) == Look(pt, addr) && !Occupied(Look(pt, addr))
    ensures Searched(was, pt', s, addr, count, n)
  {
    hide Look, EndLevel, Occupied;
  }

  // With less than n pages left up to `top`, no n free pages begin that end n - 2 pages before it or earlier.
  lemma SearchedOut(was: PT, pt: PT, s: nat, addr: nat, count: nat, n: nat, top: nat)
    requires Searched(was, pt, s, addr, count, n) && count < n && addr + n > top + 1
    ensures forall q: nat | s <= q && q + 2 * n <= top + 2 :: Taken(was, q, n)
  {
    hide Look, EndLevel, Occupied;
  }

  lemma SearchedBefore(was: PT, pt: PT, s: nat, addr: nat, count: nat, n: nat)
    requires Searched(was, pt, s, addr, count, n)
    ensures NoneFree(was, s, addr - count, n)
  {
  }

  lemma SearchedAll(was: PT, pt: PT, s: nat, addr: nat, count: nat, n: nat, end: nat)
    requires Searched(was, pt, s, addr, count, n) && count < n && addr >= end
    ensures forall q: nat | s <= q && q + n <= end :: Taken(was, q, n)
  {
    hide Look, EndLevel, Occupied;
  }
}
