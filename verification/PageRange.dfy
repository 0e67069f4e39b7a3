/**
 Ranges of virtual pages. The format reads only the low bits of a page number, so pages that agree
 modulo the size of the space are one page; `Hits` is membership in a range up to that.
 */
module PageRange {
  import opened Arith
  import opened PageTable

  predicate SamePage(guest: bool, p: nat, q: nat)
  {
    Block(guest, p, 2) == Block(guest, q, 2)
  }

  ghost predicate Hits(guest: bool, p: nat, v: nat, n: nat)
  {
    exists q: nat :: v <= q < v + n && SamePage(guest, p, q)
  }

  lemma SameBlocks(guest: bool, p: nat, q: nat)
    requires SamePage(guest, p, q)
    ensures forall l: nat | l < LEVELS :: Block(guest, p, l) == Block(guest, q, l)
    ensures forall l: nat | l < LEVELS :: p % LvlPages(l) == q % LvlPages(l)
  {
    SameBlockUp(guest, p, q, 2);
    SameBlockUp(guest, p, q, 1);
    OffsetOfBlock(guest, p);
    OffsetOfBlock(guest, q);
  }

  lemma OffsetOfBlock(guest: bool, p: nat)
    ensures forall l: nat | l < LEVELS :: p % LvlPages(l) == Block(guest, p, 2) % LvlPages(l)
  {
    if guest { ModMod(p, 2048, 262144); ModMod(p, 1048576, 512); }
    else { ModMod(p, 512, 262144); ModMod(p, 262144, 512); }
  }

  // Pages that are one page mean the same.
  lemma SameLook(pt: PT, p: nat, q: nat)
    requires SamePage(pt.guest, p, q)
    ensures EndLevel(pt, p) == EndLevel(pt, q) && Look(pt, p) == Look(pt, q)
  {
    SameBlocks(pt.guest, p, q);
    hide Block, LvlPages;
    SharedWalk(pt, 0, p, q); SharedWalk(pt, 1, p, q); SharedWalk(pt, 2, p, q);
  }

  // Two pages less than the whole space apart are different pages.
  lemma NoAlias(guest: bool, p: nat, q: nat)
    requires p < q < p + NBlocks(guest, 2)
    ensures !SamePage(guest, p, q)
  {
    var s := NBlocks(guest, 2);
    var d := q / s - p / s;
    assert q % s == p % s ==> q - p == s * d;
    assert d >= 1 ==> s * d >= s;
    assert d <= 0 ==> s * d <= 0;
  }

  lemma InBlock(guest: bool, u: nat, k: nat, l: nat)
    requires l < LEVELS && Aligned(u, l) && k < LvlPages(l)
    ensures Block(guest, u + k, l) == Block(guest, u, l) && (u + k) % LvlPages(l) == k
  {
    assert (u + k) / LvlPages(l) == u / LvlPages(l);
  }

  // An aligned block is the range of its pages.
  lemma BlockHits(guest: bool, p: nat, u: nat, l: nat)
    requires l < LEVELS && Aligned(u, l)
    ensures Block(guest, p, l) == Block(guest, u, l) <==> Hits(guest, p, u, LvlPages(l))
  {
    if Hits(guest, p, u, LvlPages(l)) {
      var q: nat :| u <= q < u + LvlPages(l) && SamePage(guest, p, q);
      SameBlocks(guest, p, q);
      InBlock(guest, u, q - u, l);
    }
    if Block(guest, p, l) == Block(guest, u, l) {
      var k := p % LvlPages(l);
      InBlock(guest, u, k, l);
      SameOffset(guest, p, u + k, l);
    }
  }

  // Offsets inside a block fix the indices below it.
  lemma IndexBelow(guest: bool, p: nat, l: nat)
    requires l < 2
    ensures Index(guest, p, l + 1) == (p % LvlPages(l)) / LvlPages(l + 1)
    ensures p % LvlPages(l + 1) == (p % LvlPages(l)) % LvlPages(l + 1)
  {
    SplitBlock(p, 512);
  }

  lemma SameOffset(guest: bool, p: nat, q: nat, l: nat)
    requires l < LEVELS && Block(guest, p, l) == Block(guest, q, l) && p % LvlPages(l) == q % LvlPages(l)
    ensures SamePage(guest, p, q)
    decreases 2 - l
  {
    if l < 2 {
      IndexBelow(guest, p, l);
      IndexBelow(guest, q, l);
      BlockStep(guest, p, l + 1);
      BlockStep(guest, q, l + 1);
      hide Block, Index, LvlPages;
      SameOffset(guest, p, q, l + 1);
    }
  }

  lemma HitsSplit(guest: bool, p: nat, v: nat, a: nat, b: nat)
    ensures Hits(guest, p, v, a + b) <==> Hits(guest, p, v, a) || Hits(guest, p, v + a, b)
  {
    hide Block;
  }

  // The next entry of the same table.
  lemma NextSlot(pt: PT, u: nat, l: nat)
    requires l < LEVELS && Index(pt.guest, u, l) + 1 < NEntries(pt.guest, l)
    ensures var u' := u + LvlPages(l);
            && Index(pt.guest, u', l) == Index(pt.guest, u, l) + 1 && Node(pt, l, u') == Node(pt, l, u)
            && (Aligned(u, l) ==> Aligned(u', l))
  {
    var u' := u + LvlPages(l);
    NextIndex(u / LvlPages(l), NEntries(pt.guest, l));
    assert u' / LvlPages(l) == u / LvlPages(l) + 1;
    if l > 0 {
      SameParent(pt.guest, u, l);
      hide Block, Index, LvlPages;
      SharedWalk(pt, l - 1, u, u');
    }
  }

  lemma SameParent(guest: bool, u: nat, l: nat)
    requires 0 < l < LEVELS && Index(guest, u, l) + 1 < 512
    ensures Block(guest, u + LvlPages(l), l - 1) == Block(guest, u, l - 1)
  {
    if l == 1 { ParentOne(u); } else { ParentTwo(u); }
  }

  lemma ParentOne(u: nat)
    requires (u / 512) % 512 + 1 < 512
    ensures (u + 512) / 262144 == u / 262144
  {
    SplitBlock(u, 512);
    assert u % 262144 + 512 < 262144;
  }

  lemma ParentTwo(u: nat)
    requires u % 512 + 1 < 512
    ensures (u + 1) / 512 == u / 512
  {
  }

  lemma NextIndex(x: nat, n: nat)
    requires n > 0 && x % n + 1 < n
    ensures (x + 1) % n == x % n + 1
  {
    DivUnique(x + 1, n, x / n, x % n + 1);
  }
}
