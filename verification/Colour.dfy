/**
 Page colouring (src/core/mmu/mem.c): pp_next_clr and the three loops built on it, which mark, map and free the pages
 of a coloured block. Addresses are page numbers; a colour map is the set of its bits.
 */
module Colour {
  import opened Arith
  import opened Bitmap

  // COLOR_NUM and COLOR_SIZE.
  datatype Geometry = Geometry(num: nat, size: nat)

  predicate Usable(g: Geometry, colors: set<nat>)
  {
    g.num > 0 && g.size > 0 && exists c: nat :: c in colors && c < g.num
  }

  function ColourOf(g: Geometry, page: nat): nat
    requires g.num > 0 && g.size > 0
  {
    page / g.size % g.num
  }

  // Colours come round in stretches of `size` pages: a page has colour c exactly if it lies in the stretch of c of some
  // round.
  lemma ColourIff(g: Geometry, page: nat, c: nat)
    requires g.num > 0 && g.size > 0
    ensures ColourOf(g, page) == c <==> c < g.num && exists k: nat :: InStretch(g, page, c, k)
  {
    hide ColourOf, InStretch;
    if ColourOf(g, page) == c { StretchOf(g, page, c); }
    if c < g.num && exists k: nat :: InStretch(g, page, c, k) {
      var k: nat :| InStretch(g, page, c, k);
      StretchHas(g, page, c, k);
    }
  }

  lemma StretchOf(g: Geometry, page: nat, c: nat)
    requires g.num > 0 && g.size > 0 && ColourOf(g, page) == c
    ensures c < g.num && exists k: nat :: InStretch(g, page, c, k)
  {
    var q := page / g.size;
    Digits(q, g.num);
    DivMul(page, g.size);
    assert InStretch(g, page, c, q / g.num);
  }

  lemma Digits(q: nat, n: nat)
    requires n > 0
    ensures q == q / n * n + q % n
  {
  }

  lemma DivMul(x: nat, n: nat)
    requires n > 0
    ensures x / n * n <= x < (x / n + 1) * n
  {
    Distribute(n, x / n, 1);
  }

  lemma StretchHas(g: Geometry, page: nat, c: nat, k: nat)
    requires g.num > 0 && g.size > 0 && c < g.num && InStretch(g, page, c, k)
    ensures ColourOf(g, page) == c
  {
    var q := k * g.num + c;
    Distribute(g.size, q, 1);
    DivUnique(page, g.size, q, page - q * g.size);
    DivUnique(q, g.num, k, c);
  }

  predicate InStretch(g: Geometry, page: nat, c: nat, k: nat)
  {
    (k * g.num + c) * g.size <= page < (k * g.num + c + 1) * g.size
  }

  // ---------------------------------------------------------------- the next coloured page

  // Pages from `page` to the next that begins colour c.
  function Wait(g: Geometry, c: nat, page: nat): nat
    requires g.num > 0 && g.size > 0 && c < g.num
  {
    Period(g); Starts(g, c);
    var r := page % (g.num * g.size);
    if r <= c * g.size then c * g.size - r else g.num * g.size + c * g.size - r
  }

  lemma Period(g: Geometry)
    requires g.num > 0 && g.size > 0
    ensures g.num * g.size > 0
  {
    MulLe(1, g.num, g.size);
  }

  lemma WaitOver(g: Geometry, c: nat, page: nat)
    requires g.num > 0 && g.size > 0 && c < g.num && Wait(g, c, page) == 0
    ensures ColourOf(g, page) == c
  {
    Period(g);
    var m := g.num * g.size;
    var q := page / m;
    Starts(g, c);
    assert page == m * q + c * g.size;
    Distribute(g.size, g.num * q, c);
    assert m * q == g.size * (g.num * q);
    DivUnique(page, g.size, g.num * q + c, 0);
    DivUnique(g.num * q + c, g.num, q, c);
  }

  lemma Starts(g: Geometry, c: nat)
    requires g.num > 0 && g.size > 0 && c < g.num
    ensures 0 <= c * g.size < g.num * g.size
  {
    MulLe(0, c, g.size);
    MulLe(c + 1, g.num, g.size);
    Distribute(g.size, c, 1);
  }

  lemma WaitLess(g: Geometry, c: nat, page: nat)
    requires g.num > 0 && g.size > 0 && c < g.num && Wait(g, c, page) > 0
    ensures Wait(g, c, page + 1) == Wait(g, c, page) - 1
  {
    Period(g);
    Starts(g, c);
    NextMod(page, g.num * g.size);
  }

  // The offset that pp_next_clr adds takes the place of the base.
  lemma OffsetColour(g: Geometry, base: nat, index: nat)
    requires g.num > 0 && g.size > 0
    ensures g.num * g.size > 0 && ColourOf(g, index + base % (g.num * g.size)) == ColourOf(g, base + index)
  {
    Period(g);
    var m := g.num * g.size;
    var q, x := base / m, index + base % m;
    var y := x / g.size;
    assert base + index == g.size * (g.num * q + y) + x % g.size by {
      Distribute(g.size, g.num * q, y);
      assert m * q == g.size * (g.num * q);
    }
    DivUnique(base + index, g.size, g.num * q + y, x % g.size);
    Distribute(g.num, q, y / g.num);
    DivUnique(g.num * q + y, g.num, q + y / g.num, y % g.num);
  }

  // `next` is the least page of these colours not before `page`.
  ghost predicate IsNext(g: Geometry, colors: set<nat>, page: nat, next: nat)
    requires g.num > 0 && g.size > 0
  {
    page <= next && ColourOf(g, next) in colors && forall p: nat | page <= p < next :: ColourOf(g, p) !in colors
  }

  // pp_next_clr.
  method NextClr(g: Geometry, base: nat, from: nat, colors: set<nat>) returns (index: nat)
    requires Usable(g, colors)
    ensures IsNext(g, colors, base + from, base + index)
  {
    hide ColourOf, Wait;
    Period(g);
    ghost var c: nat :| c in colors && c < g.num;
    var clrOffset := base % (g.num * g.size);
    index := from;
    OffsetColour(g, base, index);
    while ColourOf(g, index + clrOffset) !in colors
      invariant from <= index && ColourOf(g, index + clrOffset) == ColourOf(g, base + index)
      invariant forall p: nat | base + from <= p < base + index :: ColourOf(g, p) !in colors
      decreases Wait(g, c, base + index)
    {
      if Wait(g, c, base + index) == 0 { WaitOver(g, c, base + index); }
      WaitLess(g, c, base + index);
      index := index + 1;
      OffsetColour(g, base, index);
    }
  }

  // ---------------------------------------------------------------- coloured blocks

  ghost function Next(g: Geometry, colors: set<nat>, page: nat): (next: nat)
    requires Usable(g, colors)
    ensures IsNext(g, colors, page, next)
    decreases Wait(g, SomeColour(g, colors), page)
  {
    hide Wait;
    var c := SomeColour(g, colors);
    if Wait(g, c, page) == 0 then WaitOver(g, c, page); page
    else if ColourOf(g, page) in colors then page
    else WaitLess(g, c, page); Next(g, colors, page + 1)
  }

  ghost function SomeColour(g: Geometry, colors: set<nat>): (c: nat)
    requires Usable(g, colors)
    ensures c in colors && c < g.num
  {
    var c: nat :| c in colors && c < g.num;
    c
  }

  // The first n pages of these colours from `start` on, in order.
  ghost function Block(g: Geometry, colors: set<nat>, start: nat, n: nat): (pages: seq<nat>)
    requires Usable(g, colors)
    ensures |pages| == n
  {
    if n == 0 then []
    else
      var before := Block(g, colors, start, n - 1);
      before + [Next(g, colors, After(before, start))]
  }

  // Where the search goes on after some pages of a block.
  ghost function After(pages: seq<nat>, start: nat): nat
  {
    if pages == [] then start else pages[|pages| - 1] + 1
  }

  lemma BlockStart(g: Geometry, colors: set<nat>, start: nat)
    requires Usable(g, colors)
    ensures Block(g, colors, start, 0) == [] && After([], start) == start
  {
  }

  // A block is increasing, and up to its last page it holds exactly the pages of its colours.
  lemma {:induction false} BlockExact(g: Geometry, colors: set<nat>, start: nat, n: nat)
    requires Usable(g, colors)
    ensures var pages := Block(g, colors, start, n);
            && (forall i: nat, j: nat | i < j < n :: pages[i] < pages[j])
            && forall p: nat :: p in pages <==> start <= p < After(pages, start) && ColourOf(g, p) in colors
  {
    hide Next, ColourOf;
    if n > 0 { BlockExact(g, colors, start, n - 1); }
  }

  lemma NextOnly(g: Geometry, colors: set<nat>, page: nat, next: nat)
    requires Usable(g, colors) && IsNext(g, colors, page, next)
    ensures next == Next(g, colors, page)
  {
    hide ColourOf;
    var n := Next(g, colors, page);
    assert !(n < next) && !(next < n);
  }

  // ---------------------------------------------------------------- the three loops

  // The bits of a pool based at `base` before and after its pages of the block are marked or freed.
  ghost predicate Marked(s: seq<bv32>, t: seq<bv32>, base: nat, block: seq<nat>)
  {
    |t| == |s| && forall i: nat | i < GRANULE * |s| :: Bit(t, i) == (base + i in block || Bit(s, i))
  }

  ghost predicate Freed(s: seq<bv32>, t: seq<bv32>, base: nat, block: seq<nat>)
  {
    |t| == |s| && forall i: nat | i < GRANULE * |s| :: Bit(t, i) == (base + i !in block && Bit(s, i))
  }

  predicate Below(pages: seq<nat>, top: nat)
  {
    forall i: nat | i < |pages| :: pages[i] < top
  }

  lemma MarkOne(s: seq<bv32>, t: seq<bv32>, u: seq<bv32>, base: nat, block: seq<nat>, k: nat)
    requires Marked(s, t, base, block) && |u| == |t|
    requires forall i: nat | i < GRANULE * |u| :: Bit(u, i) == (i == k || Bit(t, i))
    ensures Marked(s, u, base, block + [base + k])
  {
    hide Bit;
  }

  lemma FreeOne(s: seq<bv32>, t: seq<bv32>, u: seq<bv32>, base: nat, block: seq<nat>, k: nat)
    requires Freed(s, t, base, block) && |u| == |t|
    requires forall i: nat | i < GRANULE * |u| :: Bit(u, i) == (i != k && Bit(t, i))
    ensures Freed(s, u, base, block + [base + k])
  {
    hide Bit;
  }

  // The final loop of pp_alloc_clr.
  method Mark(g: Geometry, bm: array<bv32>, base: nat, first: nat, n: nat, colors: set<nat>)
    requires Usable(g, colors)
    requires Below(Block(g, colors, base + first, n), base + GRANULE * bm.Length)
    modifies bm
    ensures Marked(old(bm[..]), bm[..], base, Block(g, colors, base + first, n))
  {
    hide Bit, IsNext, ColourOf, Usable;
    ghost var was := bm[..];
    var firstIndex := first;
    for i: nat := 0 to n
      invariant base + firstIndex == After(Block(g, colors, base + first, i), base + first)
      invariant Marked(was, bm[..], base, Block(g, colors, base + first, i))
    {
      firstIndex := NextClr(g, base, firstIndex, colors);
      NextOnly(g, colors, After(Block(g, colors, base + first, i), base + first), base + firstIndex);
      BlockGrows(g, colors, base + first, i, n);
      ghost var before := bm[..];
      Set(bm, firstIndex);
      MarkOne(was, before, bm[..], base, Block(g, colors, base + first, i), firstIndex);
      firstIndex := firstIndex + 1;
    }
  }

  lemma {:induction false} BlockGrows(g: Geometry, colors: set<nat>, start: nat, i: nat, n: nat)
    requires Usable(g, colors) && i < n
    ensures Block(g, colors, start, i + 1) == Block(g, colors, start, n)[..i + 1]
    ensures Block(g, colors, start, i + 1)[i] == Block(g, colors, start, n)[i]
  {
    hide Next, Usable;
    if i + 1 < n { BlockGrows(g, colors, start, i, n - 1); }
  }

  // One turn of the coloured loop of mem_map: the next page of the block, `from` being where the last turn left off.
  method NextPage(g: Geometry, base: nat, from: nat, colors: set<nat>, ghost i: nat, ghost n: nat, ghost top: nat)
    returns (index: nat)
    requires Usable(g, colors) && i < n && Below(Block(g, colors, base, n), top)
    requires base + from == After(Block(g, colors, base, i), base)
    ensures Block(g, colors, base, i + 1) == Block(g, colors, base, i) + [base + index] && base + index < top
    ensures base + index + 1 == After(Block(g, colors, base, i + 1), base)
  {
    hide IsNext, ColourOf, Usable;
    index := NextClr(g, base, from, colors);
    NextOnly(g, colors, After(Block(g, colors, base, i), base), base + index);
    BlockGrows(g, colors, base, i, n);
  }

  // The coloured loop of mem_free_ppages on one pool.
  method Free(g: Geometry, bm: array<bv32>, pool: nat, base: nat, n: nat, colors: set<nat>)
    requires Usable(g, colors) && pool <= base
    requires Below(Block(g, colors, base, n), pool + GRANULE * bm.Length)
    modifies bm
    ensures Freed(old(bm[..]), bm[..], pool, Block(g, colors, base, n))
  {
    hide Bit, IsNext, ColourOf, Usable;
    ghost var was := bm[..];
    var index: nat := base - pool;
    for i: nat := 0 to n
      invariant pool + index == After(Block(g, colors, base, i), base)
      invariant Freed(was, bm[..], pool, Block(g, colors, base, i))
    {
      index := NextClr(g, pool, index, colors);
      NextOnly(g, colors, After(Block(g, colors, base, i), base), pool + index);
      BlockGrows(g, colors, base, i, n);
      ghost var before := bm[..];
      Clear(bm, index);
      FreeOne(was, before, bm[..], pool, Block(g, colors, base, i), index);
      index := index + 1;
    }
  }

  // A pool of pages: `size` of them from `base` on.
  datatype Pool = Pool(base: nat, size: nat, bitmap: array<bv32>)

  // The range test of mem_free_ppages: also the page one past the pool passes it.
  predicate Reaches(p: Pool, page: nat)
  {
    p.base <= page <= p.base + p.size
  }

  // mem_free_ppages for n pages of a set of colours from `base` on: every pool that the test admits is visited.
  method FreePpages(g: Geometry, pools: seq<Pool>, base: nat, n: nat, colors: set<nat>)
    requires Usable(g, colors)
    requires forall i: nat, j: nat | i < j < |pools| :: pools[i].bitmap != pools[j].bitmap
    requires forall i: nat | i < |pools| && pools[i].base <= base <= pools[i].base + pools[i].size ::
               Below(Block(g, colors, base, n), pools[i].base + GRANULE * pools[i].bitmap.Length)
    modifies set p | p in pools :: p.bitmap
    ensures forall i: nat | i < |pools| && pools[i].base <= base <= pools[i].base + pools[i].size ::
              Freed(old(pools[i].bitmap[..]), pools[i].bitmap[..], pools[i].base, Block(g, colors, base, n))
    ensures forall i: nat | i < |pools| && !(pools[i].base <= base <= pools[i].base + pools[i].size) ::
              pools[i].bitmap[..] == old(pools[i].bitmap[..])
  {
    hide Bit, Usable, Below, Block, Freed;
    for k := 0 to |pools|
      invariant forall i: nat | i < k && Reaches(pools[i], base) ::
                  Freed(old(pools[i].bitmap[..]), pools[i].bitmap[..], pools[i].base, Block(g, colors, base, n))
      invariant forall i: nat | i < k && !Reaches(pools[i], base) :: pools[i].bitmap[..] == old(pools[i].bitmap[..])
      invariant forall i: nat | k <= i < |pools| :: pools[i].bitmap[..] == old(pools[i].bitmap[..])
    {
      if Reaches(pools[k], base) { Free(g, pools[k].bitmap, pools[k].base, base, n, colors); }
    }
  }

  // Freeing what was marked gives back the pool as it was, if the pages were free.
  lemma FreeUndoesMark(s: seq<bv32>, t: seq<bv32>, u: seq<bv32>, base: nat, block: seq<nat>)
    requires Marked(s, t, base, block) && Freed(t, u, base, block)
    ensures (forall i: nat | i < GRANULE * |s| :: Bit(u, i) == Bit(s, i)) <==>
            (forall i: nat | i < GRANULE * |s| && base + i in block :: !Bit(s, i))
  {
    hide Bit;
    assert forall i: nat | i < GRANULE * |s| :: Bit(u, i) == (base + i !in block && Bit(s, i));
  }
}
