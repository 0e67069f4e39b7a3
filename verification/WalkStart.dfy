/**
 Where the loops of mem_map and mem_alloc_vpage (src/core/mmu/mem.c) start a walk from the root, on values. Between two
 such places both stay in one table: mem_map fills its entries without looking at them, mem_alloc_vpage counts them
 without looking at the room left in the section.
 */
module WalkStart {
  import opened Arith
  import opened Platform
  import opened PageTable
  import opened TableUpdate
  import opened PageRange
  import opened MapStep

  // A block of level l can begin at page u of a range that ends at `end`, its frames being `off` away from its pages.
  predicate FitsAt(u: nat, l: nat, end: nat, off: int)
  {
    u + LvlPages(l) <= end && Aligned(u, l) && (u + off) % LvlPages(l) == 0
  }

  // The first level from l on with such a block.
  function FirstFit(l: nat, u: nat, end: nat, off: int): (m: nat)
    requires l < LEVELS
    ensures l <= m < LEVELS
    decreases LEVELS - l
  {
    if l == LEVELS - 1 || FitsAt(u, l, end, off) then l else FirstFit(l + 1, u, end, off)
  }

  // The level of the entry that is used for page u.
  ghost function Level(pt: PT, u: nat, end: nat, off: int): (l: nat)
    ensures EndLevel(pt, u) <= l < LEVELS
  {
    FirstFit(EndLevel(pt, u), u, end, off)
  }

  // ---------------------------------------------------------------- tables made on the way

  // The walk of q is longer than it was only where the levels gained have no fitting block for it.
  ghost predicate Behind(was: PT, pt: PT, end: nat, off: int, q: nat)
  {
    && EndLevel(was, q) <= EndLevel(pt, q)
    && forall m: nat | EndLevel(was, q) <= m < EndLevel(pt, q) :: !FitsAt(q, m, end, off)
  }

  lemma {:induction false} SkipUnfit(l: nat, l': nat, u: nat, end: nat, off: int)
    requires l <= l' < LEVELS && forall m: nat | l <= m < l' :: !FitsAt(u, m, end, off)
    ensures FirstFit(l, u, end, off) == FirstFit(l', u, end, off)
    decreases l' - l
  {
    if l < l' { SkipUnfit(l + 1, l', u, end, off); }
  }

  lemma SameLevel(was: PT, pt: PT, end: nat, off: int, q: nat)
    requires Behind(was, pt, end, off, q)
    ensures Level(was, q, end, off) == Level(pt, q, end, off)
  {
    hide EndLevel, FitsAt;
    SkipUnfit(EndLevel(was, q), EndLevel(pt, q), q, end, off);
  }

  lemma BehindTwice(was: PT, mid: PT, pt: PT, end: nat, off: int, q: nat)
    requires Behind(was, mid, end, off, q) && Behind(mid, pt, end, off, q)
    ensures Behind(was, pt, end, off, q)
  {
    hide EndLevel, FitsAt;
  }

  // A later page of a block is not where the block begins, and in the next turn of the space the block does not fit.
  lemma NotAgain(guest: bool, u: nat, q: nat, end: nat, l: nat)
    requires l < 2 && u < q < end <= u + NBlocks(guest, 2) && Block(guest, q, l) == Block(guest, u, l)
    ensures !(Aligned(q, l) && LvlPages(l) <= end - q)
  {
    var p, n := LvlPages(l), NBlocks(guest, l);
    var a, b := u / p, q / p;
    assert n * p == NBlocks(guest, 2);
    assert b >= a;
    if b == a {
      assert Aligned(q, l) ==> q == p * b;
    } else {
      SameRest(a, b, n);
      MulLe(a + n, b, p);
      Distribute(p, a, n);
    }
  }

  lemma SameRest(a: nat, b: nat, n: nat)
    requires n > 0 && a < b && a % n == b % n
    ensures b >= a + n
  {
    var d := b / n - a / n;
    Distribute(n, a / n, d);
    assert b - a == n * d;
    assert d <= 0 ==> n * d <= 0;
    assert d >= 1 ==> n * d >= n;
  }

  // A table under the entry of page u, which has no fitting block, leaves every later page behind.
  lemma BehindTable(was: PT, pt: PT, u: nat, l: nat, end: nat, off: int, q: nat)
    requires u <= q < end <= u + NBlocks(was.guest, 2) && l < 2 && !FitsAt(u, l, end, off)
    requires if Block(was.guest, q, l) == Block(was.guest, u, l) then EndLevel(was, q) == l && EndLevel(pt, q) == l + 1
             else EndLevel(pt, q) == EndLevel(was, q)
    ensures Behind(was, pt, end, off, q)
  {
    hide EndLevel, Block;
    if q > u && Block(was.guest, q, l) == Block(was.guest, u, l) { NotAgain(was.guest, u, q, end, l); }
  }

  // No page of [lo, end) has a walk that differs in what fits.
  ghost predicate Ahead(was: PT, pt: PT, lo: nat, end: nat, off: int)
  {
    forall q: nat | lo <= q < end :: Behind(was, pt, end, off, q)
  }

  lemma AheadStart(pt: PT, lo: nat, end: nat, off: int)
    ensures Ahead(pt, pt, lo, end, off)
  {
  }

  lemma AheadTwice(was: PT, mid: PT, pt: PT, lo: nat, end: nat, off: int)
    requires Ahead(was, mid, lo, end, off) && Ahead(mid, pt, lo, end, off)
    ensures Ahead(was, pt, lo, end, off)
  {
    hide Behind;
    forall q: nat | lo <= q < end ensures Behind(was, pt, end, off, q) { BehindTwice(was, mid, pt, end, off, q); }
  }

  lemma LevelAhead(was: PT, pt: PT, u: nat, end: nat, off: int)
    requires Ahead(was, pt, u, end, off) && u < end
    ensures Level(was, u, end, off) == Level(pt, u, end, off)
  {
    hide Behind;
    SameLevel(was, pt, end, off, u);
  }

  lemma AheadTable(was: PT, mid: PT, pt: PT, u: nat, l: nat, end: nat, off: int)
    requires Ahead(was, mid, u, end, off) && u < end <= u + NBlocks(was.guest, 2) && l < 2 && mid.guest == was.guest
    requires !FitsAt(u, l, end, off)
    requires forall q: nat | Block(was.guest, q, l) == Block(was.guest, u, l) :: EndLevel(mid, q) == l
    requires forall q: nat :: (
               EndLevel(pt, q) == if Block(was.guest, q, l) == Block(was.guest, u, l) then l + 1 else EndLevel(mid, q))
    ensures Ahead(was, pt, u, end, off)
  {
    hide EndLevel, Block, FitsAt, Behind;
    forall q: nat | u <= q < end ensures Behind(was, pt, end, off, q) {
      BehindTable(mid, pt, u, l, end, off, q);
      BehindTwice(was, mid, pt, end, off, q);
    }
  }

  // The walk ended at a level with a fitting block: that is the level used.
  lemma LevelKept(was: PT, pt: PT, u: nat, end: nat, off: int)
    requires Ahead(was, pt, u, end, off) && u < end && FitsAt(u, EndLevel(pt, u), end, off)
    ensures Level(was, u, end, off) == EndLevel(pt, u)
  {
    hide Behind, EndLevel, FitsAt;
    SameLevel(was, pt, end, off, u);
  }

  lemma AheadLater(was: PT, pt: PT, lo: nat, lo': nat, end: nat, off: int)
    requires Ahead(was, pt, lo, end, off) && lo <= lo'
    ensures Ahead(was, pt, lo', end, off)
  {
    hide Behind;
  }

  // Whether the entry that ends the walk of page u is the one used.
  lemma ScanLevel(was: PT, pt: PT, u: nat, end: nat)
    requires Ahead(was, pt, u, end, 0) && u < end
    ensures Level(was, u, end, 0) >= EndLevel(pt, u)
    ensures Level(was, u, end, 0) == EndLevel(pt, u) <==> FitsAt(u, EndLevel(pt, u), end, 0)
  {
    hide Behind, EndLevel, FitsAt;
    LevelAhead(was, pt, u, end, 0);
    LevelFits(was, u, end, 0);
  }

  lemma ScanFits(u: nat, l: nat, left: nat, end: nat)
    requires l < LEVELS && 0 < left && end == u + left
    ensures FitsAt(u, l, end, 0) <==> l == LEVELS - 1 || (LvlPages(l) <= left && Aligned(u, l))
  {
  }

  // A leaf written for page u changes no walk of the pages after its block.
  lemma AheadLeaf(was: PT, pt: PT, home: map<nat, Home>, u: nat, end: nat, off: int, l: nat, t: nat, e: Pte)
    requires WF(pt, home) && l < LEVELS && Node(pt, l, u) == Some(t) && Aligned(u, l) && !e.kind.Next?
    requires t in pt.tables && Index(pt.guest, u, l) < |pt.tables[t]|
    requires end <= u + NBlocks(pt.guest, 2) && Ahead(was, pt, u, end, off)
    ensures Ahead(was, Put(pt, t, Index(pt.guest, u, l), e), u + LvlPages(l), end, off)
  {
    hide WF, Node, Index, Block, Look, EndLevel, LvlPages, NBlocks, FitsAt;
    var pt', k := Put(pt, t, Index(pt.guest, u, l), e), LvlPages(l);
    forall q: nat | u + k <= q < end ensures Behind(was, pt', end, off, q) {
      forall p: nat | u <= p < u + k ensures !SamePage(pt.guest, q, p) { NoAlias(pt.guest, p, q); }
      BlockMeaning(pt, home, u, l, t, e, q);
      assert Behind(was, pt, end, off, q);
    }
  }

  // ---------------------------------------------------------------- mem_map

  // Pages filled from one walk at page u: to the end of the table, or as many whole blocks as are left.
  ghost function Stretch(pt: PT, u: nat, end: nat, off: int): (k: nat)
    requires u < end
    ensures 0 < k <= end - u
  {
    LevelFits(pt, u, end, off);
    var l := Level(pt, u, end, off);
    StretchOf(NEntries(pt.guest, l) - Index(pt.guest, u, l), end - u, LvlPages(l))
  }

  function StretchOf(slots: nat, left: nat, p: nat): (k: nat)
    requires slots > 0 && 0 < p <= left
    ensures 0 < k <= left
  {
    Filled(slots, left, p);
    (if slots <= left / p then slots else left / p) * p
  }

  // Filling stops at the end of the table or when less than a block is left.
  lemma StretchIs(slots: nat, left: nat, p: nat, k: nat)
    requires 0 < slots && 0 < p <= left && k <= slots && k * p <= left && (k == slots || left - k * p < p)
    ensures k * p == StretchOf(slots, left, p)
  {
    if k < slots {
      DivUnique(left, p, k, left - k * p);
    } else {
      DivLe(left, p);
      Distribute(p, left / p, 1);
      MulLt(k, left / p + 1, p);
    }
  }

  // Pages of k blocks.
  function Span(k: nat, l: nat): nat
  {
    k * LvlPages(l)
  }

  lemma SpanNext(k: nat, l: nat)
    ensures Span(0, l) == 0 && Span(k + 1, l) == Span(k, l) + LvlPages(l)
  {
    Distribute(LvlPages(l), k, 1);
  }

  lemma SpanEnds(slots: nat, left: nat, l: nat, k: nat)
    requires 0 < slots && LvlPages(l) <= left && k <= slots && Span(k, l) <= left
    requires k == slots || left - Span(k, l) < LvlPages(l)
    ensures Span(k, l) == StretchOf(slots, left, LvlPages(l))
  {
    StretchIs(slots, left, LvlPages(l), k);
  }

  lemma LevelFits(pt: PT, u: nat, end: nat, off: int)
    requires u < end
    ensures FitsAt(u, Level(pt, u, end, off), end, off)
  {
  }

  lemma Filled(slots: nat, left: nat, p: nat)
    requires slots > 0 && 0 < p <= left
    ensures left / p > 0 && 0 < (if slots <= left / p then slots else left / p) * p <= left
  {
    DivLe(left, p);
    var d := left / p;
    Distribute(p, d, 1);
    MulLt(1, d + 1, p);
    var k := if slots <= d then slots else d;
    MulLe(k, d, p);
    MulLe(1, k, p);
  }

  // Some walk of mem_map, from page v + c on, starts at a page that is mapped.
  ghost predicate Meets(pt: PT, v: nat, page: nat, n: nat, c: nat)
    decreases n - c
  {
    c < n && (Look(pt, v + c).Mapped? || Meets(pt, v, page, n, c + Stretch(pt, v + c, v + n, page - v)))
  }

  lemma MeetsHere(pt: PT, v: nat, page: nat, n: nat, c: nat)
    ensures c < n && Look(pt, v + c).Mapped? ==> Meets(pt, v, page, n, c)
    ensures c >= n ==> !Meets(pt, v, page, n, c)
  {
    hide Look;
  }

  lemma MeetsLater(pt: PT, v: nat, page: nat, n: nat, c: nat, l: nat, i: nat, c': nat)
    requires c < n && !Look(pt, v + c).Mapped? && l == Level(pt, v + c, v + n, page - v)
        && i == Index(pt.guest, v + c, l)
    requires LvlPages(l) <= n - c && c' == c + StretchOf(NEntries(pt.guest, l) - i, n - c, LvlPages(l))
    ensures Meets(pt, v, page, n, c) <==> Meets(pt, v, page, n, c')
  {
    hide Look, Level, StretchOf, LvlPages, Index;
  }

  lemma {:induction false} MeetsMapped(pt: PT, v: nat, page: nat, n: nat, c: nat)
    requires Meets(pt, v, page, n, c)
    ensures exists q: nat :: v + c <= q < v + n && Look(pt, q).Mapped?
    decreases n - c
  {
    hide Look;
    if !Look(pt, v + c).Mapped? { MeetsMapped(pt, v, page, n, c + Stretch(pt, v + c, v + n, page - v)); }
  }

  // ---------------------------------------------------------------- mem_alloc_vpage

  // The entry used for page u is the last of its table.
  ghost predicate TableEnd(pt: PT, u: nat, l: nat)
  {
    Index(pt.guest, u, l) + 1 == NEntries(pt.guest, l)
  }

  // With c of n pages from s counted, some walk of mem_alloc_vpage to come starts with less than n pages left up to
  // `top`. `prev` is the level of the entry counted last if the walk goes on in its table.
  ghost predicate Refuses(pt: PT, s: nat, n: nat, top: nat, c: nat, prev: Option<nat>)
    decreases n - c
  {
    c < n &&
    (var l := Level(pt, s + c, s + n, 0);
     || (prev != Some(l) && s + c + n > top + 1)
     || Refuses(pt, s, n, top, c + LvlPages(l), if TableEnd(pt, s + c, l) then None else Some(l)))
  }

  // The walk has just started, with enough pages left.
  lemma RefusesHead(pt: PT, s: nat, n: nat, top: nat, c: nat, prev: Option<nat>)
    requires s + c + n <= top + 1
    ensures Refuses(pt, s, n, top, c, None) <==> Refuses(pt, s, n, top, c, prev)
  {
    hide Level, TableEnd, LvlPages;
  }

  // A block is counted.
  lemma RefusesNext(pt: PT, s: nat, n: nat, top: nat, c: nat, l: nat)
    requires c < n && l == Level(pt, s + c, s + n, 0)
    ensures Refuses(pt, s, n, top, c, Some(l)) <==>
            Refuses(pt, s, n, top, c + LvlPages(l), if TableEnd(pt, s + c, l) then None else Some(l))
  {
    hide Level, TableEnd, LvlPages;
  }

  // The walk starts again, for an entry at another level.
  lemma RefusesTurn(pt: PT, s: nat, n: nat, top: nat, c: nat, l: nat)
    requires c < n ==> l != Level(pt, s + c, s + n, 0)
    ensures Refuses(pt, s, n, top, c, Some(l)) <==> Refuses(pt, s, n, top, c, None)
  {
    hide Level, TableEnd, LvlPages;
  }

  lemma RefusesDone(pt: PT, s: nat, n: nat, top: nat, c: nat)
    ensures c >= n ==> forall prev: Option<nat> :: !Refuses(pt, s, n, top, c, prev)
    ensures c < n && s + c + n > top + 1 ==> Refuses(pt, s, n, top, c, None)
  {
    hide Level, TableEnd, LvlPages;
  }

  // Only a run that ends less than n pages before the end of the section is refused though it is free.
  lemma {:induction false} RefusesNear(pt: PT, s: nat, n: nat, top: nat, c: nat, prev: Option<nat>)
    requires Refuses(pt, s, n, top, c, prev)
    ensures s + 2 * n > top + 2
    decreases n - c
  {
    hide Level, TableEnd;
    var l := Level(pt, s + c, s + n, 0);
    if !(prev != Some(l) && s + c + n > top + 1) {
      RefusesNear(pt, s, n, top, c + LvlPages(l), if TableEnd(pt, s + c, l) then None else Some(l));
    }
  }

  // ---------------------------------------------------------------- witnesses

  // A page already mapped right behind a page that has a last-level table is not met: mem_map overrides it.
  lemma OverlapMissed(pt: PT, v: nat, page: nat)
    requires EndLevel(pt, v) == LEVELS - 1 && !Look(pt, v).Mapped? && !TableEnd(pt, v, LEVELS - 1)
    ensures !Meets(pt, v, page, 2, 0)
  {
    hide Look, EndLevel;
    assert Level(pt, v, v + 2, page - v) == LEVELS - 1;
    assert Stretch(pt, v, v + 2, page - v) == 2;
    MeetsHere(pt, v, page, 2, 2);
  }

  // Such tables exist: page 1 is mapped, page 0 is not, and mapping both reports nothing.
  lemma MissedExample() returns (pt: PT, home: map<nat, Home>)
    ensures WF(pt, home) && Look(pt, 1).Mapped? && !Meets(pt, 0, 9, 2, 0)
  {
    var none := seq(512, _ => Pte(Empty, 0, 0, 0));
    pt := PT(false, 1, map[1 := none[0 := Pte(Next, 2, 0, 0)], 2 := none[0 := Pte(Next, 3, 0, 0)],
                           3 := none[1 := Pte(Final, 7, 0x0F, 0)]]);
    home := map[1 := Home(0, 0), 2 := Home(1, 0), 3 := Home(2, 0)];
    assert EntryAt(pt, 0, 0) == EntryAt(pt, 0, 1) == pt.tables[1][0];
    assert EntryAt(pt, 1, 0) == EntryAt(pt, 1, 1) == pt.tables[2][0];
    assert EntryAt(pt, 2, 0) == pt.tables[3][0] && EntryAt(pt, 2, 1) == pt.tables[3][1];
    OverlapMissed(pt, 0, 9);
  }

  // In an empty space the 513 pages from page 510 on are refused in a section that ends with page 1023: the walk that
  // starts at page 512 finds 512 pages left and compares them with all 513.
  lemma FreeRunRefused(pt: PT)
    requires forall q: nat :: EndLevel(pt, q) == 0
    ensures Refuses(pt, 510, 513, 1023, 0, None) && 510 + 513 <= 1024
  {
    hide EndLevel;
    assert Level(pt, 510, 1023, 0) == 2 && Level(pt, 511, 1023, 0) == 2 && Level(pt, 512, 1023, 0) == 2;
    RefusesDone(pt, 510, 513, 1023, 2);
    RefusesNext(pt, 510, 513, 1023, 1, 2);
    RefusesNext(pt, 510, 513, 1023, 0, 2);
    RefusesHead(pt, 510, 513, 1023, 0, Some(2));
  }
}
