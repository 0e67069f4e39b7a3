/**
 Physical page pools (src/core/mem.c).

 Addresses are page numbers: pool bases are page aligned, so `paddr / PAGE_SIZE` loses nothing.
 `taken` is the set of pages whose bit is set; it is what the contracts speak of.
 */
module PagePool {
  import Bitmap
  import opened Arith
  import opened Platform

  const SIZE_T: nat := 0x1_0000_0000_0000_0000

  datatype Ppages = Ppages(base: nat, numPages: nat)

  // The pages of [base, base + n).
  ghost function Range(base: nat, n: nat): (r: set<nat>)
    ensures forall p: nat :: p in r <==> base <= p < base + n
    ensures |r| == n
  {
    if n == 0 then {} else Range(base, n - 1) + {base + n - 1}
  }

  lemma OnePage(base: nat)
    ensures Range(base, 1) == {base}
  {
  }

  function Mod(x: nat, n: nat): (r: nat)
    requires n > 0
    ensures r < n
  {
    x % n
  }

  // Subtraction in the width of size_t.
  function Minus(x: nat, n: nat): (r: nat)
    requires x < SIZE_T
    ensures r < SIZE_T && (n <= x ==> r == x - n)
  {
    (x - n) % SIZE_T
  }

  // (bit + start) % n with start = base % n is the alignment of the page itself.
  lemma AlignedSum(bit: nat, base: nat, n: nat)
    requires n > 0
    ensures Mod(bit + Mod(base, n), n) == Mod(bit + base, n)
  {
    var q, r := base / n, base % n;
    var u, t := (bit + r) / n, (bit + r) % n;
    Distribute(n, q, u);
    DivUnique(bit + base, n, q + u, t);
  }

  // ---------------------------------------------------------------- jumps of an aligned search

  function Twos(k: nat): nat
  {
    if k == 0 then 1 else 2 * Twos(k - 1)
  }

  // A search for n aligned pages that may begin at `curr` is not past q, or is j jumps past it and k - j from an
  // alignment. Each jump doubles what is missing to one, so k of them are enough where n divides the k-th power of two.
  ghost predicate Tracks(curr: nat, start: nat, q: nat, k: nat, n: nat)
    requires n > 0
  {
    curr <= q || exists j: nat :: Jumped(curr, start, q, k, n, j)
  }

  predicate Jumped(curr: nat, start: nat, q: nat, k: nat, n: nat, j: nat)
    requires n > 0
  {
    j <= k && curr < q + (j + 1) * n && Mod((curr + start) * Twos(k - j), n) == 0
  }

  // Times a multiple of n is a multiple of n.
  lemma ModTimes(x: nat, y: nat, n: nat)
    requires n > 0 && Mod(y, n) == 0
    ensures Mod(x * y, n) == 0
  {
    var q := y / n;
    assert y == n * q;
    assert x * y == n * (x * q) by { assert x * (n * q) == n * (x * q); }
    DivUnique(x * y, n, x * q, 0);
  }

  // A jump doubles the remainder.
  lemma JumpDoubles(x: nat, t: nat, n: nat)
    requires n > 0 && Mod(x * (2 * t), n) == 0
    ensures Mod((x + Mod(x, n)) * t, n) == 0
  {
    var a, r := x / n, x % n;
    var b := (x * (2 * t)) / n;
    assert x == n * a + r && x * (2 * t) == n * b;
    TwiceLess(x, n * a, r, t);
    assert n * a * t == n * (a * t);
    Distribute(n, b, -(a * t));
    DivUnique((x + r) * t, n, b - a * t, 0);
  }

  lemma TwiceLess(x: int, y: int, r: int, t: int)
    requires x == y + r
    ensures (x + r) * t == x * (2 * t) - y * t
  {
    assert x + r == 2 * x - y;
  }

  // The search jumps from an unaligned run at `bit`, the first from `curr` on.
  lemma TracksJump(curr: nat, bit: nat, start: nat, q: nat, k: nat, n: nat)
    requires n > 0 && Tracks(curr, start, q, k, n) && Mod(Twos(k), n) == 0 && Mod(bit + start, n) != 0
    requires if curr <= q then bit <= q else bit == curr
    ensures Tracks(bit + Mod(bit + start, n), start, q, k, n)
  {
    hide Mod, Twos;
    var next := bit + Mod(bit + start, n);
    if curr <= q {
      ModTimes(next + start, Twos(k), n);
      assert next > q ==> Jumped(next, start, q, k, n, 0);
    } else {
      var j: nat :| Jumped(curr, start, q, k, n, j);
      TwosStep(k - j);
      if j < k {
        JumpDoubles(curr + start, Twos(k - j - 1), n);
        Distribute(n, j + 1, 1);
        assert Jumped(next, start, q, k, n, j + 1);
      }
    }
  }

  lemma TwosStep(k: nat)
    ensures Twos(0) == 1 && (k > 0 ==> Twos(k) == 2 * Twos(k - 1))
  {
  }

  // There is still room for n pages.
  lemma TracksRoom(curr: nat, start: nat, q: nat, k: nat, n: nat)
    requires n > 0 && Tracks(curr, start, q, k, n) && curr > q
    ensures curr + n <= q + (k + 2) * n
  {
    hide Mod, Twos;
    var j: nat :| Jumped(curr, start, q, k, n, j);
    MulLe(j + 2, k + 2, n);
    Distribute(n, j + 1, 1);
  }

  class PagePool {
    const base: nat
    const size: nat
    var free: nat
    var last: nat
    const bitmap: array<bv32>
    ghost var taken: set<nat>

    // The backing words carry a guard: bit `size` is set and some later bit is clear, so the
    // word-at-a-time searches of the bitmap stop there.
    ghost predicate Valid()
      reads this, bitmap
    {
      && size < Bitmap.GRANULE * bitmap.Length < 0x7FFF_FFFF_FFFF_FFFF
      && free < SIZE_T && base + size <= FRAMES
      && Bitmap.Bit(bitmap[..], size)
      && (exists h: nat :: size < h < Bitmap.GRANULE * bitmap.Length && !Bitmap.Bit(bitmap[..], h))
      && (forall p: nat :: p in taken <==> base <= p < base + size && Bitmap.Bit(bitmap[..], p - base))
    }

    ghost function Pages(): set<nat>
    {
      Range(base, size)
    }

    // pp_init: every page is free. The guard is what the model adds: pp_init leaves zeros after the bits of the pool.
    constructor (base: nat, size: nat)
      requires base + size <= FRAMES
      ensures Valid() && FreeExact() && taken == {} && this.base == base && this.size == size && fresh(bitmap)
      ensures free == size && last == 0
    {
      this.base, this.size := base, size;
      free, last, taken := size, 0, {};
      bitmap := new bv32[size / Bitmap.GRANULE + 2];
      new;
      hide Bitmap.Bit;
      Bitmap.ClearConsecutive(bitmap, 0, Bitmap.GRANULE * bitmap.Length);
      Bitmap.Set(bitmap, size);
      assert !Bitmap.Bit(bitmap[..], size + 1);
    }

    // `free` is the number of clear bits.
    ghost predicate FreeExact()
      reads this
    {
      free + |taken| == size
    }

    // Sets n bits and takes them off the free count.
    method Mark(bit: nat, n: nat)
      requires Valid() && n > 0 && bit + n <= size
      modifies this, bitmap
      ensures Valid() && taken == old(taken) + Range(base + bit, n)
      ensures free == Minus(old(free), n) && last == old(last)
      ensures old(FreeExact()) && Range(base + bit, n) !! old(taken) ==> FreeExact()
    {
      hide Bitmap.Bit, Minus, Range;
      ghost var before := taken;
      ghost var s := bitmap[..];
      ghost var h: nat :| size < h < Bitmap.GRANULE * bitmap.Length && !Bitmap.Bit(s, h);
      Bitmap.SetConsecutive(bitmap, bit, n);
      free := Minus(free, n);
      taken := taken + Range(base + bit, n);
      assert Valid() by { assert !Bitmap.Bit(bitmap[..], h); }
      if Range(base + bit, n) !! before { MarkedCount(before, taken, Range(base + bit, n), Pages()); }
    }

    // The success branch of pp_alloc.
    method Take(bit: nat, n: nat)
      requires Valid() && n > 0 && bit + n <= size
      modifies this, bitmap
      ensures Valid() && taken == old(taken) + Range(base + bit, n) && last == bit + n
      ensures old(FreeExact()) && Range(base + bit, n) !! old(taken) ==> FreeExact()
    {
      hide Bitmap.Bit, Range;
      Mark(bit, n);
      last := bit + n;
    }

    // Marking free pages of the pool takes exactly n off the count of free ones.
    static lemma MarkedCount(before: set<nat>, after: set<nat>, run: set<nat>, pool: set<nat>)
      requires run !! before && after == before + run && after <= pool
      ensures |after| == |before| + |run| <= |pool|
    {
      TakenFits(after, pool);
    }

    // A run of clear bits starting inside the pool ends inside it, at the guard.
    lemma RunInPool(bit: nat, n: nat)
      requires Valid() && bit < size && Bitmap.RunAt(bitmap[..], bit, n, false)
      ensures bit + n <= size
      ensures Range(base + bit, n) !! taken
    {
      hide Bitmap.Bit, Range;
      var guard := Bitmap.Bit(bitmap[..], size);
      forall p: nat | p in Range(base + bit, n) ensures p !in taken {
        assert !Bitmap.Bit(bitmap[..], p - base);
      }
    }

    // The guard is what the bitmap search needs to stop.
    lemma SearchStops()
      requires Valid()
      ensures size < Bitmap.GRANULE * bitmap.Length < 0x7FFF_FFFF_FFFF_FFFF
      ensures Bitmap.Fenced(bitmap[..], size, false)
    {
      hide Bitmap.Bit, Range;
    }

    lemma NoRunFromSearch(n: nat)
      requires Valid() && n > 0
      requires forall j: nat | j < size :: !Bitmap.RunAt(bitmap[..], j, n, false)
      ensures NoRun(n)
    {
      hide Bitmap.Bit, Range;
      forall b: nat | base <= b && b + n <= base + size ensures !(Range(b, n) !! taken) {
        var s := bitmap[..];
        assert !Bitmap.RunAt(s, b - base, n, false);
        var i: nat :| b - base <= i < b - base + n && Bitmap.Bit(s, i);
        assert base + i in Range(b, n) && base + i in taken;
      }
    }

    lemma NoRunWhenFull(n: nat)
      requires Valid() && n > 0 && FreeExact() && free == 0
      ensures NoRun(n)
    {
      hide Bitmap.Bit, Range;
      SubsetSameSize(taken, Pages());
      forall b: nat | base <= b && b + n <= base + size ensures !(Range(b, n) !! taken) {
        assert b in Range(b, n) && b in taken;
      }
    }

    static lemma SubsetSameSize(a: set<nat>, b: set<nat>)
      requires a <= b && |a| == |b|
      ensures a == b
    {
      if x :| x in b && x !in a { TakenFits(a, b - {x}); }
    }

    static lemma {:induction false} TakenFits(a: set<nat>, b: set<nat>)
      requires a <= b
      ensures |a| <= |b|
    {
      if x :| x in a { TakenFits(a - {x}, b - {x}); }
    }

    // The n pages given out lie in the pool, were free, and are now the only newly taken ones.
    ghost predicate Allocated(before: set<nat>, after: set<nat>, pages: Ppages, n: nat, aligned: bool)
    {
      && n > 0 && pages.numPages == n
      && base <= pages.base && pages.base + n <= base + size
      && Range(pages.base, n) !! before && after == before + Range(pages.base, n)
      && (aligned ==> Mod(pages.base, n) == 0)
    }

    // No n consecutive pages of the pool are free.
    ghost predicate NoRun(n: nat)
      reads this
    {
      NoRunIn(taken, n)
    }

    // No n consecutive pages of the pool are outside `used`.
    ghost predicate NoRunIn(used: set<nat>, n: nat)
    {
      forall b: nat | base <= b && b + n <= base + size :: !(Range(b, n) !! used)
    }

    // What a refusal of n aligned pages says of the pages outside `used`: the first aligned place of the pool is not
    // among them, and no run of k + 3 times n pages is if n divides the k-th power of two.
    ghost predicate NoAlignedIn(used: set<nat>, n: nat)
      requires n > 0
    {
      && (forall a: nat | base <= a < base + n && Mod(a, n) == 0 && a + n <= base + size :: !(Range(a, n) !! used))
      && forall k: nat | Mod(Twos(k), n) == 0 :: NoRunIn(used, (k + 3) * n)
    }

    // The first aligned index of the pool is where the second pass begins.
    lemma FirstAligned(n: nat)
      requires n > 0
      ensures var f := Mod(n - Mod(base, n), n);
              && f < n && Mod(base + f, n) == 0
              && forall a: nat | base <= a < base + n && Mod(a, n) == 0 :: a == base + f
    {
      var r := base % n;
      var f := (n - r) % n;
      var q := base / n;
      Distribute(n, q, 1);
      if r == 0 {
        DivUnique(n, n, 1, 0);
        DivUnique(base, n, q, 0);
      } else {
        DivUnique(n - r, n, 0, n - r);
        DivUnique(base + f, n, q + 1, 0);
      }
      forall a: nat | base <= a < base + n && Mod(a, n) == 0 ensures a == base + f {
        var b := a / n;
        assert a == n * b;
        if r == 0 { OnlyMultiple(n, b, q); } else { OnlyMultiple(n, b, q + 1); }
      }
    }

    // Multiples of n less than n apart are equal.
    static lemma OnlyMultiple(n: nat, b: int, c: int)
      requires -(n as int) < n * b - n * c < n
      ensures b == c
    {
      Distribute(n, b, -c);
      if b > c { MulLe(1, b - c, n); }
      if b < c { MulLe(b - c, -1, n); }
    }

    lemma AlignedRefusal(n: nat)
      requires Valid() && n > 0 && AlignedNone(Mod(n - Mod(base, n), n), n)
      ensures NoAlignedIn(taken, n)
    {
      hide Mod, Twos, Valid;
      FirstAligned(n);
      var f := Mod(n - Mod(base, n), n);
      forall k: nat | Mod(Twos(k), n) == 0 ensures NoRunIn(taken, (k + 3) * n) {
        var m := (k + 3) * n;
        forall b: nat | base <= b && b + m <= base + size ensures !(Range(b, m) !! taken) {
          var q: nat := if b - base < f then f else b - base;
          Distribute(n, k + 2, 1);
          assert !Roomy(q, k, n);
          assert Range(base + q, (k + 2) * n) <= Range(b, m);
        }
      }
    }

    // No n free pages begin at an index in [lo, hi).
    ghost predicate NoneIn(used: set<nat>, lo: nat, hi: nat, n: nat)
    {
      forall b: nat | base + lo <= b < base + hi && b + n <= base + size :: !(Range(b, n) !! used)
    }

    // An unaligned search takes the first free run from `curr` on, or else the first of the pool.
    ghost predicate NextFit(used: set<nat>, curr: nat, bit: nat, n: nat)
    {
      if bit >= curr then NoneIn(used, curr, bit, n) else NoneIn(used, 0, bit, n) && NoneIn(used, curr, size, n)
    }

    lemma FitIs(used: set<nat>, curr: nat, bit: nat, n: nat, second: bool)
      requires bit <= size
      requires if second then NoneIn(used, 0, bit, n) && NoneIn(used, curr, size, n)
               else curr <= bit && NoneIn(used, curr, bit, n)
      ensures NextFit(used, curr, bit, n)
    {
      hide Range;
    }

    method PpAlloc(n: nat, aligned: bool) returns (ok: bool, pages: Ppages)
      requires Valid()
      modifies this, bitmap
      ensures Valid()
      ensures n == 0 ==> ok && pages.numPages == 0 && taken == old(taken) && free == old(free)
      ensures ok && n > 0 ==> Allocated(old(taken), taken, pages, n, aligned)
      ensures !ok ==> pages.numPages == 0 && taken == old(taken) && free == old(free) && last == old(last)
      ensures !ok && (!aligned || n == 1) && old(FreeExact()) ==> NoRun(n)
      ensures !ok && n > 0 && aligned && old(FreeExact()) ==> NoAlignedIn(taken, n)
      ensures ok && n > 0 && !aligned ==>
                NextFit(old(taken), old(last) + old(last) % n, pages.base - base, n) && last == pages.base - base + n
      ensures old(FreeExact()) ==> FreeExact()
    {
      hide Valid, FreeExact, NoRun, AlignedNone, NoAlignedIn, Allocated, Minus, Range, NoneIn;
      ghost var before := taken;
      ghost var exact := FreeExact();
      ok := false;
      pages := Ppages(0, 0);
      if n == 0 { return true, pages; }
      var start := if aligned then Mod(base, n) else 0;
      var curr: nat := last + Mod(last + start, n);
      var i := 0;
      while i < 2 && !ok
        invariant i <= 2 && Valid()
        invariant !ok ==> taken == before && free == old(free) && last == old(last) && pages.numPages == 0
        invariant !ok && i >= 1 && (!aligned || n == 1) ==> curr == 0
        invariant !ok && i == 2 && (!aligned || n == 1) && exact ==> NoRun(n)
        invariant !ok && i >= 1 && aligned ==> curr == Mod(n - Mod(base, n), n)
        invariant !ok && i == 2 && aligned && exact ==> AlignedNone(curr, n)
        invariant ok ==> pages.numPages == n && Allocated(before, taken, pages, n, aligned)
        invariant exact ==> FreeExact()
        invariant i == 0 ==> curr == old(last) + Mod(old(last) + start, n)
        invariant !ok && i == 1 && !aligned && free > 0 ==> NoneIn(before, old(last) + Mod(old(last), n), size, n)
        invariant ok && !aligned ==> base <= pages.base && last == pages.base - base + n
        invariant ok && !aligned ==> NextFit(before, old(last) + Mod(old(last), n), pages.base - base, n)
      {
        ghost var second := i == 1;
        ok, pages := Pass(n, aligned, start, curr);
        if ok && !aligned {
          FitIs(before, old(last) + Mod(old(last), n), pages.base - base, n, second);
        }
        if !ok {
          var nextAligned := Mod(n - Mod(base, n), n);
          curr := if aligned then nextAligned else 0;
        }
        i := i + 1;
      }
      if !ok && aligned && exact { AlignedRefusal(n); }
    }

    // One of the two passes: search, and mark what was found.
    method Pass(n: nat, aligned: bool, start: nat, from: nat) returns (ok: bool, pages: Ppages)
      requires Valid() && n > 0 && (aligned ==> start == Mod(base, n))
      modifies this, bitmap
      ensures Valid()
      ensures ok ==> pages.numPages == n && Allocated(old(taken), taken, pages, n, aligned)
      ensures !ok ==> taken == old(taken) && free == old(free) && last == old(last) && pages.numPages == 0
      ensures !ok && from == 0 && (!aligned || n == 1) && FreeExact() ==> NoRun(n)
      ensures !ok && aligned && FreeExact() ==> AlignedNone(from, n)
      ensures !ok && !aligned && free > 0 ==> NoneIn(taken, from, size, n)
      ensures ok && !aligned ==> base + from <= pages.base && NoneIn(old(taken), from, pages.base - base, n)
      ensures ok ==> old(free) > 0 && base <= pages.base <= base + size && last == pages.base - base + n
      ensures old(FreeExact()) ==> FreeExact()
    {
      hide Valid, FreeExact, NoRun, AlignedNone, NoneIn, Mod, Minus, Range, Pages;
      var bit := Search(n, aligned, start, from);
      if bit < 0 { return false, Ppages(0, 0); }
      Take(bit, n);
      return true, Ppages(base + bit, n);
    }

    lemma NoneInBits(lo: nat, hi: nat, n: nat)
      requires Valid() && n > 0 && hi <= size
      requires forall j: nat | lo <= j < hi :: !Bitmap.RunAt(bitmap[..], j, n, false)
      ensures NoneIn(taken, lo, hi, n)
    {
      hide Bitmap.RunAt, Range, Valid;
      forall b: nat | base + lo <= b < base + hi && b + n <= base + size ensures !(Range(b, n) !! taken) {
        if Range(b, n) !! taken { RunIsTaken(b - base, n); }
      }
    }

    // Free pages from index q on, k + 2 times n of them.
    ghost predicate Roomy(q: nat, k: nat, n: nat)
      reads this
    {
      q + (k + 2) * n <= size && Range(base + q, (k + 2) * n) !! taken
    }

    // The pages at `from` are no aligned free run.
    ghost predicate Missed(from: nat, n: nat)
      requires n > 0
      reads this
    {
      Mod(base + from, n) == 0 && from + n <= size ==> !(Range(base + from, n) !! taken)
    }

    // A search from `from` passes by no aligned run that begins there, and no room of k + 2 times n pages if n divides
    // the k-th power of two.
    ghost predicate AlignedNone(from: nat, n: nat)
      requires n > 0
      reads this
    {
      && Missed(from, n)
      && forall q: nat, k: nat | from <= q && Mod(Twos(k), n) == 0 :: !Roomy(q, k, n)
    }

    // While pages are free, a search that can come to q finds a run, there at the latest.
    lemma RoomIsFound(q: nat, k: nat, n: nat, curr: nat, start: nat)
      requires Valid() && n > 0 && Roomy(q, k, n) && Tracks(curr, start, q, k, n)
      ensures var b := if curr <= q then q else curr;
              b < size && Bitmap.RunAt(bitmap[..], b, n, false)
    {
      hide Bitmap.Bit, Range, Mod, Twos;
      var b := if curr <= q then q else curr;
      Distribute(n, k, 2);
      MulLe(0, k, n);
      if curr > q { TracksRoom(curr, start, q, k, n); }
      assert b + n <= q + (k + 2) * n;
      forall i: nat | b <= i < b + n ensures !Bitmap.Bit(bitmap[..], i) {
        assert base + i in Range(base + q, (k + 2) * n);
      }
    }

    lemma RunIsTaken(from: nat, n: nat)
      requires Valid() && n > 0 && from + n <= size && Range(base + from, n) !! taken
      ensures Bitmap.RunAt(bitmap[..], from, n, false)
    {
      hide Bitmap.Bit, Range;
      forall i: nat | from <= i < from + n ensures !Bitmap.Bit(bitmap[..], i) {
        assert base + i in Range(base + from, n);
      }
    }

    // One pass of the search: the inner loop of pp_alloc, from `from` to the end of the pool.
    method Search(n: nat, aligned: bool, start: nat, from: nat) returns (bit: int)
      requires Valid() && n > 0 && (aligned ==> start == Mod(base, n))
      ensures bit < 0 && from == 0 && (!aligned || n == 1) && FreeExact() ==> NoRun(n)
      ensures bit < 0 && aligned && FreeExact() ==> AlignedNone(from, n)
      ensures bit < 0 && !aligned && free > 0 ==> NoneIn(taken, from, size, n)
      ensures bit >= 0 ==> free > 0 && (!aligned ==> from <= bit && NoneIn(taken, from, bit, n))
      ensures bit >= 0 ==> bit + n <= size && Range(base + bit, n) !! taken
      ensures bit >= 0 && aligned ==> Mod(bit + base, n) == 0
    {
      hide Bitmap.Bit, Bitmap.RunAt, Bitmap.Fenced, Bitmap.Contained, Mod, Valid, NoRun, FreeExact, Range, Roomy,
           Tracks, NoneIn;
      SearchStops();
      var curr: nat := from;
      if aligned { TracksStart(from, start, n); }
      while free != 0
        invariant !aligned || n == 1 ==> curr == from
        invariant aligned ==> Tracked(from, curr, start, n) && (curr == from || Missed(from, n))
        decreases if curr < size then size - curr else 0
      {
        Bitmap.FencedContains(bitmap[..], size, curr, n, false);
        bit := Bitmap.FindConsec(bitmap, size, curr, n, false);
        if bit < 0 {
          if from == 0 && (!aligned || n == 1) { NoRunFromSearch(n); }
          if aligned { NoneTracked(from, curr, start, n); } else { NoneInBits(from, size, n); }
          return -1;
        }
        var off := Mod(bit + start, n);
        if aligned && off != 0 {
          JumpTracked(from, curr, bit, start, n);
          curr := bit + off;
        } else {
          RunInPool(bit, n);
          AlignedSum(bit, base, n);
          if !aligned { NoneInBits(from, bit, n); }
          return bit;
        }
      }
      if FreeExact() {
        NoRunWhenFull(n);
        if aligned { NoneWhenFull(from, n); }
      }
      return -1;
    }

    ghost predicate Tracked(from: nat, curr: nat, start: nat, n: nat)
      requires n > 0
      reads this
    {
      forall q: nat, k: nat | from <= q && Mod(Twos(k), n) == 0 && Roomy(q, k, n) :: Tracks(curr, start, q, k, n)
    }

    lemma TracksStart(from: nat, start: nat, n: nat)
      requires n > 0
      ensures Tracked(from, from, start, n)
    {
      hide Mod, Twos, Roomy;
    }

    lemma NoneTracked(from: nat, curr: nat, start: nat, n: nat)
      requires Valid() && n > 0 && Tracked(from, curr, start, n) && (curr == from || Missed(from, n))
      requires forall j: nat | curr <= j < size :: !Bitmap.RunAt(bitmap[..], j, n, false)
      ensures AlignedNone(from, n)
    {
      hide Mod, Twos, Roomy, Tracks, Valid, Bitmap.RunAt, Range;
      if from + n <= size && Range(base + from, n) !! taken && curr == from { RunIsTaken(from, n); }
      forall q: nat, k: nat | from <= q && Mod(Twos(k), n) == 0 ensures !Roomy(q, k, n) {
        if Roomy(q, k, n) { RoomIsFound(q, k, n, curr, start); }
      }
    }

    lemma JumpTracked(from: nat, curr: nat, bit: nat, start: nat, n: nat)
      requires Valid() && n > 0 && start == Mod(base, n) && Tracked(from, curr, start, n)
      requires curr <= bit < size && Bitmap.RunAt(bitmap[..], bit, n, false) && Mod(bit + start, n) != 0
      requires forall j: nat | curr <= j < bit :: !Bitmap.RunAt(bitmap[..], j, n, false)
      requires curr == from || Missed(from, n)
      ensures Tracked(from, bit + Mod(bit + start, n), start, n) && Missed(from, n)
    {
      hide Mod, Twos, Roomy, Tracks, Valid, Bitmap.RunAt, Range;
      AlignedSum(bit, base, n);
      if from + n <= size && Range(base + from, n) !! taken { RunIsTaken(from, n); }
      forall q: nat, k: nat | from <= q && Mod(Twos(k), n) == 0 && Roomy(q, k, n)
        ensures Tracks(bit + Mod(bit + start, n), start, q, k, n)
      {
        RoomIsFound(q, k, n, curr, start);
        TracksJump(curr, bit, start, q, k, n);
      }
    }

    lemma NoneWhenFull(from: nat, n: nat)
      requires Valid() && n > 0 && NoRun(n)
      ensures AlignedNone(from, n)
    {
      hide Mod, Twos, Valid;
      forall q: nat, k: nat ensures !Roomy(q, k, n) {
        Distribute(n, k, 2);
        MulLe(0, k, n);
        assert Range(base + q, n) <= Range(base + q, (k + 2) * n);
      }
    }

    predicate InPool(pages: Ppages)
    {
      base <= pages.base && pages.base + pages.numPages <= base + size
    }

    // mem_are_ppages_reserved_in_pool: some page of the run is taken.
    method AreReserved(pages: Ppages) returns (reserved: bool)
      requires Valid() && pages.numPages > 0
      ensures reserved <==> InPool(pages) && !(Range(pages.base, pages.numPages) !! taken)
    {
      hide Bitmap.Bit, Range;
      reserved := false;
      if InPool(pages) {
        var off := pages.base - base;
        ghost var h: nat :| size < h < Bitmap.GRANULE * bitmap.Length && !Bitmap.Bit(bitmap[..], h);
        Bitmap.FencedStops(bitmap[..], off, size, h, pages.numPages);
        var alloced := Bitmap.Get(bitmap, off);
        var avail := Bitmap.CountConsecutive(bitmap, off, pages.numPages);
        reserved := alloced || avail < pages.numPages;
        WhichTaken(pages, if avail < pages.numPages then avail else pages.numPages);
      }
    }

    // A run found equal over its first `m` pages, then different or at its end.
    lemma WhichTaken(pages: Ppages, m: nat)
      requires Valid() && InPool(pages) && 0 < m <= pages.numPages
      requires var off := pages.base - base; var v := Bitmap.Bit(bitmap[..], off);
               && Bitmap.AllBits(bitmap[..], off, off + m, v)
               && (m < pages.numPages ==> Bitmap.Bit(bitmap[..], off + m) != v)
      ensures (Bitmap.Bit(bitmap[..], pages.base - base) || m < pages.numPages)
         <==> !(Range(pages.base, pages.numPages) !! taken)
    {
      hide Bitmap.Bit, Range;
      if Bitmap.Bit(bitmap[..], pages.base - base) {
        assert pages.base in Range(pages.base, pages.numPages) && pages.base in taken;
      } else if m < pages.numPages {
        assert pages.base + m in Range(pages.base, pages.numPages) && pages.base + m in taken;
      } else {
        forall p: nat | p in Range(pages.base, pages.numPages) ensures p !in taken {
          assert !Bitmap.Bit(bitmap[..], p - base);
        }
      }
    }

    // mem_reserve_ppool_ppages. Pages outside the pool are none of its business.
    method Reserve(pages: Ppages) returns (ok: bool)
      requires Valid() && pages.numPages > 0
      modifies this, bitmap
      ensures Valid() && last == old(last)
      ensures ok <==> (InPool(pages) ==> Range(pages.base, pages.numPages) !! old(taken))
      ensures taken == old(taken) + if InPool(pages) then Range(pages.base, pages.numPages) else {}
      ensures old(FreeExact()) && ok ==> FreeExact()
    {
      hide Valid, FreeExact, Minus, Range;
      if !InPool(pages) { return true; }
      var reserved := AreReserved(pages);
      Mark(pages.base - base, pages.numPages);
      ok := !reserved;
    }

    // in_range: it admits the page one past the end.
    predicate Reaches(pages: Ppages)
    {
      base <= pages.base <= base + size
    }

    // The turn of mem_free_ppages for this pool, for pages without colours. `free` is not updated. Pages past the end
    // of the pool cost it its guard.
    method Free(pages: Ppages)
      requires Valid() && Reaches(pages) && pages.base - base + pages.numPages <= Bitmap.GRANULE * bitmap.Length
      modifies this, bitmap
      ensures free == old(free) && last == old(last) && taken == old(taken) - Range(pages.base, pages.numPages)
      ensures Valid() <==> pages.numPages == 0 || InPool(pages)
    {
      hide Bitmap.Bit, Range;
      ghost var s := bitmap[..];
      ghost var h: nat :| size < h < Bitmap.GRANULE * bitmap.Length && !Bitmap.Bit(s, h);
      Bitmap.ClearConsecutive(bitmap, pages.base - base, pages.numPages);
      taken := taken - Range(pages.base, pages.numPages);
      assert !Bitmap.Bit(bitmap[..], h);
    }
  }

  // The list of pools of the system: disjoint regions of physical memory.
  class PageAllocator {
    const pools: seq<PagePool>
    ghost const Repr: set<object>
    // Whether nothing is ever freed: then the pools' free counts are exact.
    ghost const exact: bool
    ghost var taken: set<nat>

    ghost predicate Separate()
      reads this
    {
      && this !in Repr
      && (forall i: nat | i < |pools| :: pools[i] in Repr && pools[i].bitmap in Repr)
      && (forall i: nat, j: nat | i < j < |pools| ::
            pools[i] != pools[j] && pools[i].bitmap != pools[j].bitmap && pools[i].Pages() !! pools[j].Pages())
    }

    ghost predicate Valid()
      reads this, Repr
    {
      && Separate()
      && (forall i: nat | i < |pools| :: pools[i].Valid() && pools[i].taken == taken * pools[i].Pages())
      && (exact ==> forall i: nat | i < |pools| :: pools[i].FreeExact())
    }

    // No pool has a free page left.
    ghost predicate Full()
      reads this
    {
      forall i: nat | i < |pools| :: pools[i].Pages() <= taken
    }

    // What an allocation of one page that fails tells.
    ghost predicate Exhausted()
      reads this
    {
      exact ==> Full()
    }

    // The pages taken from any of the pools.
    static ghost function AllTaken(pools: seq<PagePool>): (t: set<nat>)
      reads pools
      ensures forall p: nat :: p in t <==> exists i: nat :: i < |pools| && p in pools[i].taken
    {
      set i: nat, p: nat | i < |pools| && p in pools[i].taken :: p
    }

    static ghost function Parts(pools: seq<PagePool>): (r: set<object>)
      ensures forall i: nat | i < |pools| :: pools[i] in r && pools[i].bitmap in r
      ensures forall o: object | o in r :: o is PagePool || o is array<bv32>
    {
      (set i: nat | i < |pools| :: pools[i] as object) + set i: nat | i < |pools| :: pools[i].bitmap as object
    }

    // The list of pools as it is set up.
    constructor (pools: seq<PagePool>, ghost exact: bool)
      requires forall i: nat, j: nat | i < j < |pools| ::
                 pools[i] != pools[j] && pools[i].bitmap != pools[j].bitmap && pools[i].Pages() !! pools[j].Pages()
      requires forall i: nat | i < |pools| :: pools[i].Valid() && (exact ==> pools[i].FreeExact())
      ensures Valid() && this.pools == pools && this.exact == exact && taken == AllTaken(pools)
    {
      this.pools := pools;
      this.exact := exact;
      taken := AllTaken(pools);
      Repr := Parts(pools);
      new;
      hide PagePool.Valid, PagePool.FreeExact, PagePool.Pages, AllTaken, Parts;
      forall i: nat | i < |pools| ensures pools[i].taken == taken * pools[i].Pages() { TakenHere(pools, i); }
    }

    static lemma TakenHere(pools: seq<PagePool>, i: nat)
      requires i < |pools| && forall j: nat | j < |pools| :: pools[j].Valid()
      requires forall j: nat, k: nat | j < k < |pools| :: pools[j].Pages() !! pools[k].Pages()
      ensures pools[i].taken == AllTaken(pools) * pools[i].Pages()
    {
      hide Bitmap.Bit, Range;
      forall j: nat | j < |pools| ensures pools[j].taken <= pools[j].Pages() { TakenInside(pools[j]); }
      forall p: nat | p in AllTaken(pools) && p in pools[i].Pages() ensures p in pools[i].taken {
        var j: nat :| j < |pools| && p in pools[j].taken;
        assert p in pools[j].Pages();
      }
    }

    static lemma TakenInside(pool: PagePool)
      requires pool.Valid()
      ensures pool.taken <= pool.Pages()
    {
    }

    // All pages some pool manages.
    ghost predicate Managed(run: set<nat>)
    {
      exists i: nat :: i < |pools| && run <= pools[i].Pages()
    }

    // What a refusal tells of every pool.
    ghost predicate NoRoomFor(n: nat, aligned: bool)
      requires n > 0
      reads this
    {
      exact ==> forall i: nat | i < |pools| ::
        && (!aligned || n == 1 ==> pools[i].NoRunIn(taken * pools[i].Pages(), n))
        && (aligned ==> pools[i].NoAlignedIn(taken * pools[i].Pages(), n))
    }

    // mem_alloc_ppages for a colour set that selects every colour.
    method AllocPpages(n: nat, aligned: bool) returns (pages: Ppages)
      requires Valid() && n > 0
      modifies this, Repr
      ensures Valid()
      ensures pages.numPages == n || pages.numPages == 0
      ensures pages.numPages == n ==> Range(pages.base, n) !! old(taken) && taken == old(taken) + Range(pages.base, n)
      ensures pages.numPages == n ==> Managed(Range(pages.base, n)) && (aligned ==> Mod(pages.base, n) == 0)
      ensures pages.numPages == n ==> pages.base + n <= FRAMES
      ensures pages.numPages == 0 ==> taken == old(taken)
      ensures pages.numPages == 0 && exact && (!aligned || n == 1) ==>
                forall i: nat | i < |pools| :: pools[i].NoRunIn(taken * pools[i].Pages(), n)
      ensures pages.numPages == 0 && n == 1 ==> Exhausted()
      ensures pages.numPages == 0 ==> NoRoomFor(n, aligned)
    {
      hide Mod, PagePool.NoRunIn, PagePool.NoAlignedIn, PagePool.Pages, PagePool.Valid, PagePool.FreeExact;
      pages := Ppages(0, 0);
      for i := 0 to |pools|
        invariant Valid() && taken == old(taken) && pages.numPages == 0
        invariant exact && (!aligned || n == 1) ==>
            forall j: nat | j < i :: pools[j].NoRunIn(taken * pools[j].Pages(), n)
        invariant exact && aligned ==> forall j: nat | j < i :: pools[j].NoAlignedIn(taken * pools[j].Pages(), n)
      {
        var ok;
        ok, pages := TryPool(i, n, aligned);
        if ok { return; }
      }
      if exact && n == 1 {
        forall i: nat | i < |pools| ensures pools[i].Pages() <= taken {
          NoPageLeft(pools[i], taken);
        }
      }
    }

    static lemma NoPageLeft(pool: PagePool, taken: set<nat>)
      requires pool.NoRunIn(taken * pool.Pages(), 1)
      ensures pool.Pages() <= taken
    {
      forall p: nat | p in pool.Pages() ensures p in taken {
        OnePage(p);
        assert !(Range(p, 1) !! taken * pool.Pages());
      }
    }

    method TryPool(i: nat, n: nat, aligned: bool) returns (ok: bool, pages: Ppages)
      requires Valid() && n > 0 && i < |pools|
      modifies this, Repr
      ensures Valid()
      ensures ok ==> pages.numPages == n && Range(pages.base, n) !! old(taken)
      ensures ok ==> taken == old(taken) + Range(pages.base, n)
      ensures ok ==> Managed(Range(pages.base, n)) && (aligned ==> Mod(pages.base, n) == 0) && pages.base + n <= FRAMES
      ensures !ok ==> taken == old(taken) && pages.numPages == 0
      ensures !ok && exact && (!aligned || n == 1) ==> pools[i].NoRunIn(taken * pools[i].Pages(), n)
      ensures !ok && exact && aligned ==> pools[i].NoAlignedIn(taken * pools[i].Pages(), n)
    {
      hide Mod, PagePool.Valid, PagePool.FreeExact, PagePool.NoRunIn, PagePool.NoAlignedIn, PagePool.Pages, Range;
      ghost var before := taken;
      ok, pages := pools[i].PpAlloc(n, aligned);
      if ok {
        ghost var run := Range(pages.base, n);
        taken := taken + run;
        RunInside(pools[i], pages);
        PoolBound(pools[i]);
        NewRun(before, run, pools[i].Pages());
        forall j: nat | j < |pools| && j != i ensures pools[j].taken == taken * pools[j].Pages() {
          OtherPool(before, run, pools[i].Pages(), pools[j].Pages());
        }
      }
    }

    static lemma PoolBound(pool: PagePool)
      requires pool.Valid()
      ensures pool.base + pool.size <= FRAMES
    {
    }

    static lemma RunInside(pool: PagePool, pages: Ppages)
      requires pool.InPool(pages)
      ensures Range(pages.base, pages.numPages) <= pool.Pages()
    {
    }

    static lemma NewRun(before: set<nat>, run: set<nat>, own: set<nat>)
      requires run <= own && run !! (before * own)
      ensures run !! before && (before * own) + run == (before + run) * own
    {
    }

    static lemma OtherPool(before: set<nat>, run: set<nat>, own: set<nat>, other: set<nat>)
      requires run <= own && own !! other
      ensures before * other == (before + run) * other
    {
    }

    // mem_free_ppages, for pages without colours: every pool whose range test admits the first page is visited. The
    // pages are one pool's; a pool that ends where they begin is visited too, clears what comes after its own bits,
    // and so loses its guard. What it clears is taken to lie in the backing words.
    method FreePpages(pages: Ppages)
      requires Valid() && !exact && Managed(Range(pages.base, pages.numPages))
      requires forall i: nat | i < |pools| && pools[i].Reaches(pages) ::
                 pages.base - pools[i].base + pages.numPages <= Bitmap.GRANULE * pools[i].bitmap.Length
      modifies this, Repr
      ensures taken == old(taken) - Range(pages.base, pages.numPages)
      ensures forall i: nat | i < |pools| :: pools[i].taken == taken * pools[i].Pages()
      ensures Valid() <==>
              pages.numPages == 0 || forall i: nat | i < |pools| :: pages.base != pools[i].base + pools[i].size
    {
      hide PagePool.Valid, PagePool.FreeExact, PagePool.Pages, Range, Managed, PagePool.InPool;
      ghost var run := Range(pages.base, pages.numPages);
      ghost var was := taken;
      taken := taken - run;
      for i: nat := 0 to |pools|
        invariant taken == was - run && Separate()
        invariant forall j: nat | j < i :: pools[j].taken == taken * pools[j].Pages()
        invariant forall j: nat | j < i ::
                    pools[j].Valid() <==> (pools[j].Reaches(pages) ==> pages.numPages == 0 || pools[j].InPool(pages))
        invariant forall j: nat | i <= j < |pools| :: pools[j].Valid() && pools[j].taken == was * pools[j].Pages()
      {
        ghost var own := pools[i].Pages();
        if pools[i].Reaches(pages) {
          pools[i].Free(pages);
          FreedHere(was, run, own);
        } else {
          NotReached(i, pages);
          FreedElsewhere(was, run, own);
        }
      }
      forall i: nat | i < |pools| && pages.numPages > 0
        ensures pools[i].Valid() <==> pages.base != pools[i].base + pools[i].size
      {
        OwnOrEnd(i, pages);
      }
    }

    // A pool that is not visited holds none of the pages.
    lemma NotReached(i: nat, pages: Ppages)
      requires Separate() && i < |pools| && Managed(Range(pages.base, pages.numPages)) && !pools[i].Reaches(pages)
      ensures Range(pages.base, pages.numPages) !! pools[i].Pages()
    {
      var k: nat :| k < |pools| && Range(pages.base, pages.numPages) <= pools[k].Pages();
      if pages.numPages > 0 { HeldBy(k, pages); }
      if k != i {
        PoolsApart(i, k);
        Smaller(Range(pages.base, pages.numPages), pools[k].Pages(), pools[i].Pages());
      }
    }

    lemma PoolsApart(i: nat, k: nat)
      requires Separate() && i < |pools| && k < |pools| && i != k
      ensures pools[i].Pages() !! pools[k].Pages()
    {
      hide Range;
      if i < k { assert pools[i] != pools[k]; } else { assert pools[k] != pools[i]; }
    }

    static lemma Smaller(a: set<nat>, b: set<nat>, c: set<nat>)
      requires a <= b && b !! c
      ensures a !! c
    {
    }

    lemma HeldBy(k: nat, pages: Ppages)
      requires k < |pools| && Range(pages.base, pages.numPages) <= pools[k].Pages() && pages.numPages > 0
      ensures pools[k].Reaches(pages) && pools[k].InPool(pages) && pages.base < pools[k].base + pools[k].size
    {
      var n := pages.numPages;
      assert pages.base in Range(pages.base, n) && pages.base + n - 1 in Range(pages.base, n);
      assert pages.base in pools[k].Pages() && pages.base + n - 1 in pools[k].Pages();
    }

    // A pool that is visited holds all of the pages or ends where they begin.
    lemma OwnOrEnd(i: nat, pages: Ppages)
      requires Separate() && i < |pools| && Managed(Range(pages.base, pages.numPages)) && pages.numPages > 0
      ensures (pools[i].Reaches(pages) ==> pools[i].InPool(pages)) <==> pages.base != pools[i].base + pools[i].size
    {
      var k: nat :| k < |pools| && Range(pages.base, pages.numPages) <= pools[k].Pages();
      HeldBy(k, pages);
      var own, first := pools[k].Pages(), pages.base;
      assert first in own;
      if k != i { PoolsApart(i, k); }
      assert k != i ==> first !in pools[i].Pages();
    }

    static lemma FreedHere(was: set<nat>, run: set<nat>, own: set<nat>)
      ensures was * own - run == (was - run) * own
    {
    }

    static lemma FreedElsewhere(was: set<nat>, run: set<nat>, own: set<nat>)
      requires run !! own
      ensures was * own == (was - run) * own
    {
    }
  }
}
