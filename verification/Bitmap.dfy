/**
 Bit arithmetic on one 32-bit granule. Shift amounts are bit vectors here, so that every fact
 is a plain bit-vector identity.
 */
module WordBits {

  predicate On(w: bv32, k: bv6)
    requires k < 32
  {
    w & (1 << k) != 0
  }

  function Ones(o: bv6, l: bv6): bv32
    requires o < 32 && 0 < l <= 32
  {
    (((1 << (l - 1)) << 1) - 1) << o
  }

  lemma MaskOn(o: bv6, l: bv6, k: bv6)
    requires o < 32 && 0 < l <= 32 && o + l <= 32 && k < 32
    ensures On(Ones(o, l), k) <==> o <= k < o + l
  {
  }

  lemma OrOn(a: bv32, b: bv32, c: bv32, k: bv6)
    requires k < 32 && c == a | b
    ensures On(c, k) <==> On(a, k) || On(b, k)
  {
    hide On;
    var na, nb := !a, !b;
    var nn := na & nb;
    assert c == !nn;
    NotOn(a, k); NotOn(b, k); AndOn(na, nb, k); NotOn(nn, k);
  }

  lemma AndOn(a: bv32, b: bv32, k: bv6)
    requires k < 32
    ensures On(a & b, k) <==> On(a, k) && On(b, k)
  {
  }

  lemma XorOn(a: bv32, b: bv32, k: bv6)
    requires k < 32
    ensures On(a ^ b, k) <==> On(a, k) != On(b, k)
  {
  }

  lemma NotOn(a: bv32, k: bv6)
    requires k < 32
    ensures On(!a, k) <==> !On(a, k)
  {
  }
}

/**
 Bitmaps kept as arrays of 32-bit granules (src/lib/bitmap.c, src/lib/inc/bitmap.h).

 The code works a word at a time; the contracts speak of single bits, through `Bit`.
 */
module Bitmap {

  import WordBits

  const GRANULE: nat := 32

  predicate WordBit(w: bv32, i: nat)
    requires i < GRANULE
  {
    w & (1 << i) != 0
  }

  // BIT32_MASK: `len` ones starting at bit `off`. The double shift is the source's own.
  function Mask(off: nat, len: nat): bv32
    requires off < GRANULE && 0 < len && off + len <= GRANULE
  {
    ((((1 as bv32) << (len - 1)) << 1) - 1) << off
  }

  predicate Bit(s: seq<bv32>, i: nat)
    requires i < GRANULE * |s|
  {
    WordBit(s[i / GRANULE], i % GRANULE)
  }

  // Bits [lo, hi) all equal `v`.
  ghost predicate AllBits(s: seq<bv32>, lo: nat, hi: nat, v: bool)
    requires hi <= GRANULE * |s|
  {
    forall i: nat | lo <= i < hi :: Bit(s, i) == v
  }

  // Number of bits in [lo, hi) that equal `v`.
  ghost function CountBits(s: seq<bv32>, lo: nat, hi: nat, v: bool): (c: nat)
    requires lo <= hi <= GRANULE * |s|
    ensures c <= hi - lo
  {
    if lo == hi then 0 else CountBits(s, lo, hi - 1, v) + if Bit(s, hi - 1) == v then 1 else 0
  }

  // A scan for `v` that runs past `size` still ends inside the backing words:
  // some bit at or after `size` differs from `v`, and a later one equals it.
  ghost predicate Fenced(s: seq<bv32>, size: nat, v: bool)
  {
    exists g: nat, h: nat :: size <= g < h < GRANULE * |s| && Bit(s, g) != v && Bit(s, h) == v
  }

  // ---------------------------------------------------------------- word lemmas

  lemma ShiftAmount(i: nat)
    requires i <= 32
    ensures (i as bv6) as int == i
  {
  }

  lemma AmountOrder(a: bv6, b: bv6)
    ensures a < b <==> (a as int) < (b as int)
    ensures a == b <==> (a as int) == (b as int)
  {
  }

  lemma AmountAdd(a: bv6, b: bv6)
    requires (a as int) + (b as int) < 64
    ensures (a + b) as int == (a as int) + (b as int)
  {
  }

  lemma ToBits(w: bv32, i: nat)
    requires i < GRANULE
    ensures (i as bv6) < 32 && WordBit(w, i) == WordBits.On(w, i as bv6)
  {
    ShiftAmount(i); AmountOrder(i as bv6, 32);
  }

  lemma MaskAmounts(off: nat, len: nat)
    requires off < GRANULE && 0 < len && off + len <= GRANULE
    ensures (off as bv6) < 32 && 0 < (len as bv6) <= 32 && (off as bv6) + (len as bv6) <= 32
    ensures (len - 1) as bv6 == (len as bv6) - 1
  {
    var o, l, p := off as bv6, len as bv6, (len - 1) as bv6;
    ShiftAmount(off); ShiftAmount(len); ShiftAmount(len - 1);
    AmountAdd(o, l); AmountAdd(p, 1);
    AmountOrder(o, 32); AmountOrder(0, l); AmountOrder(32, l); AmountOrder(32, o + l); AmountOrder(p + 1, l);
  }

  lemma MaskShape(off: nat, len: nat)
    requires off < GRANULE && 0 < len && off + len <= GRANULE
    requires (off as bv6) < 32 && 0 < (len as bv6) <= 32 && (len - 1) as bv6 == (len as bv6) - 1
    ensures Mask(off, len) == WordBits.Ones(off as bv6, len as bv6)
  {
  }

  lemma MaskBit(off: nat, len: nat, i: nat)
    requires off < GRANULE && 0 < len && off + len <= GRANULE && i < GRANULE
    ensures WordBit(Mask(off, len), i) <==> off <= i < off + len
  {
    hide WordBit, Mask, WordBits.On, WordBits.Ones;
    var o, l, k := off as bv6, len as bv6, i as bv6;
    MaskAmounts(off, len);
    MaskShape(off, len);
    ToBits(Mask(off, len), i);
    WordBits.MaskOn(o, l, k);
    ShiftAmount(off); ShiftAmount(len); ShiftAmount(i);
    AmountAdd(o, l); AmountOrder(k, o); AmountOrder(k, o + l);
  }

  // ---------------------------------------------------------------- word operations

  function Single(i: nat): bv32
    requires i < GRANULE
  {
    1 << i
  }

  function Or(a: bv32, b: bv32): bv32 { a | b }

  function AndNot(a: bv32, b: bv32): bv32 { a & !b }

  function Negate(a: bv32): bv32 { !a }

  // The word and the pattern differ somewhere under the mask.
  predicate Differ(w: bv32, pattern: bv32, mask: bv32) { Difference(w, pattern, mask) != 0 }

  function Difference(w: bv32, pattern: bv32, mask: bv32): bv32 { (w ^ pattern) & mask }

  lemma SingleBit(j: nat, i: nat)
    requires i < GRANULE && j < GRANULE
    ensures WordBit(Single(j), i) <==> i == j
  {
    MaskBit(j, 1, i);
  }

  lemma OrBit(a: bv32, b: bv32, i: nat)
    requires i < GRANULE
    ensures WordBit(Or(a, b), i) <==> WordBit(a, i) || WordBit(b, i)
  {
    hide WordBit, WordBits.On;
    var c := Or(a, b);
    ToBits(a, i); ToBits(b, i); ToBits(c, i);
    WordBits.OrOn(a, b, c, i as bv6);
  }

  lemma AndBit(a: bv32, b: bv32, c: bv32, i: nat)
    requires i < GRANULE && c == a & b
    ensures WordBit(c, i) <==> WordBit(a, i) && WordBit(b, i)
  {
    hide WordBit, WordBits.On;
    ToBits(a, i); ToBits(b, i); ToBits(c, i);
    WordBits.AndOn(a, b, i as bv6);
  }

  lemma XorBit(a: bv32, b: bv32, c: bv32, i: nat)
    requires i < GRANULE && c == a ^ b
    ensures WordBit(c, i) <==> WordBit(a, i) != WordBit(b, i)
  {
    hide WordBit, WordBits.On;
    ToBits(a, i); ToBits(b, i); ToBits(c, i);
    WordBits.XorOn(a, b, i as bv6);
  }

  lemma NegateBit(a: bv32, i: nat)
    requires i < GRANULE
    ensures WordBit(Negate(a), i) <==> !WordBit(a, i)
  {
    hide WordBit, WordBits.On;
    var c := Negate(a);
    ToBits(a, i); ToBits(c, i);
    WordBits.NotOn(a, i as bv6);
  }

  lemma AndNotBit(a: bv32, b: bv32, i: nat)
    requires i < GRANULE
    ensures WordBit(AndNot(a, b), i) <==> WordBit(a, i) && !WordBit(b, i)
  {
    hide WordBit;
    AndBit(a, Negate(b), AndNot(a, b), i);
    NegateBit(b, i);
  }

  lemma ZeroWord(w: bv32)
    ensures w == 0 <==> forall i: nat | i < GRANULE :: !WordBit(w, i)
  {
    assert (!WordBit(w, 0) && !WordBit(w, 1) && !WordBit(w, 2) && !WordBit(w, 3) && !WordBit(w, 4) && !WordBit(w, 5)
        && !WordBit(w, 6) && !WordBit(w, 7) && !WordBit(w, 8) && !WordBit(w, 9) && !WordBit(w, 10) && !WordBit(w, 11)
        && !WordBit(w, 12) && !WordBit(w, 13) && !WordBit(w, 14) && !WordBit(w, 15) && !WordBit(w, 16)
        && !WordBit(w, 17) && !WordBit(w, 18) && !WordBit(w, 19) && !WordBit(w, 20) && !WordBit(w, 21)
        && !WordBit(w, 22) && !WordBit(w, 23) && !WordBit(w, 24) && !WordBit(w, 25) && !WordBit(w, 26)
        && !WordBit(w, 27) && !WordBit(w, 28) && !WordBit(w, 29) && !WordBit(w, 30) && !WordBit(w, 31))
        ==> w == 0;
  }

  lemma DifferenceBit(w: bv32, pattern: bv32, mask: bv32, i: nat)
    requires i < GRANULE
    ensures WordBit(Difference(w, pattern, mask), i)
       <==> WordBit(mask, i) && WordBit(w, i) != WordBit(pattern, i)
  {
    var x := w ^ pattern;
    var y := Difference(w, pattern, mask);
    assert y == x & mask;
    hide WordBit, Difference;
    XorBit(w, pattern, x, i);
    AndBit(x, mask, y, i);
  }

  lemma DifferBits(w: bv32, pattern: bv32, mask: bv32)
    ensures Differ(w, pattern, mask)
       <==> exists i: nat :: i < GRANULE && WordBit(mask, i) && WordBit(w, i) != WordBit(pattern, i)
  {
    hide WordBit, Difference;
    ZeroWord(Difference(w, pattern, mask));
    forall i: nat | i < GRANULE
      ensures WordBit(Difference(w, pattern, mask), i)
         <==> WordBit(mask, i) && WordBit(w, i) != WordBit(pattern, i)
    {
      DifferenceBit(w, pattern, mask, i);
    }
  }

  // The masked comparison the code makes on a word: no difference exactly when the bits
  // under the mask all equal `v`.
  lemma MaskedCompare(w: bv32, off: nat, len: nat, v: bool)
    requires off < GRANULE && 0 < len && off + len <= GRANULE
    ensures !Differ(w, if v then Mask(off, len) else Negate(Mask(off, len)), Mask(off, len))
       <==> forall i: nat | off <= i < off + len :: WordBit(w, i) == v
  {
    hide WordBit, Mask, Differ, Negate;
    var m := Mask(off, len);
    DifferBits(w, if v then m else Negate(m), m);
    forall i: nat | i < GRANULE
      ensures WordBit(m, i) <==> off <= i < off + len
      ensures WordBit(Negate(m), i) <==> !WordBit(m, i)
    {
      MaskBit(off, len, i); NegateBit(m, i);
    }
  }

  lemma FullMask()
    ensures Mask(0, 32) == 0xFFFF_FFFF && Negate(0xFFFF_FFFF) == 0
  {
  }

  lemma WholeWordCompare(w: bv32, v: bool)
    ensures !Differ(w, if v then 0xFFFF_FFFF else 0, 0xFFFF_FFFF)
       <==> forall i: nat | i < GRANULE :: WordBit(w, i) == v
  {
    hide WordBit, Mask, Differ, Negate;
    MaskedCompare(w, 0, 32, v);
    FullMask();
  }

  // Bits [lo, hi) inside one granule, read through the word that holds them.
  lemma WordRange(s: seq<bv32>, lo: nat, hi: nat, v: bool)
    requires lo < hi <= GRANULE * |s| && lo % GRANULE + (hi - lo) <= GRANULE
    ensures AllBits(s, lo, hi, v) <==>
            forall i: nat | lo % GRANULE <= i < lo % GRANULE + (hi - lo) :: WordBit(s[lo / GRANULE], i) == v
  {
    var base := lo - lo % GRANULE;
    forall i: nat | lo <= i < hi ensures i / GRANULE == lo / GRANULE && i % GRANULE == i - base {}
    if AllBits(s, lo, hi, v) {
      forall i: nat | lo % GRANULE <= i < lo % GRANULE + (hi - lo) ensures WordBit(s[lo / GRANULE], i) == v {
        assert Bit(s, base + i) == v;
      }
    }
  }

  // What the two word tests of the run counter say about the bitmap.
  lemma FirstWord(s: seq<bv32>, start: nat, len: nat, v: bool)
    requires 0 < len && start % GRANULE + len <= GRANULE && start + len <= GRANULE * |s|
    ensures var m := Mask(start % GRANULE, len);
            !Differ(s[start / GRANULE], if v then m else Negate(m), m) <==> AllBits(s, start, start + len, v)
  {
    hide WordBit, Mask, Differ, Negate;
    MaskedCompare(s[start / GRANULE], start % GRANULE, len, v);
    WordRange(s, start, start + len, v);
  }

  lemma WholeWord(s: seq<bv32>, pos: nat, v: bool)
    requires pos < GRANULE * |s|
    ensures !Differ(s[pos / GRANULE], if v then 0xFFFF_FFFF else 0, 0xFFFF_FFFF)
       <==> AllBits(s, pos - pos % GRANULE, pos - pos % GRANULE + GRANULE, v)
  {
    hide WordBit, Mask, Differ, Negate;
    WholeWordCompare(s[pos / GRANULE], v);
    WordRange(s, pos - pos % GRANULE, pos - pos % GRANULE + GRANULE, v);
  }

  lemma {:induction false} CountZero(s: seq<bv32>, lo: nat, hi: nat, v: bool)
    requires lo <= hi <= GRANULE * |s| && CountBits(s, lo, hi, v) == 0
    ensures AllBits(s, lo, hi, !v)
  {
    if lo < hi { CountZero(s, lo, hi - 1, v); }
  }

  // ---------------------------------------------------------------- operations

  method Get(bm: array<bv32>, bit: nat) returns (r: bool)
    requires bit < GRANULE * bm.Length
    ensures r == Bit(bm[..], bit)
  {
    r := WordBit(bm[bit / GRANULE], bit % GRANULE);
  }

  // Replacing one word changes only the bits of that word.
  lemma WordUpdate(s: seq<bv32>, k: nat, w: bv32, i: nat)
    requires k < |s| && i < GRANULE * |s|
    ensures Bit(s[k := w], i) == if i / GRANULE == k then WordBit(w, i % GRANULE) else Bit(s, i)
  {
  }

  method Set(bm: array<bv32>, bit: nat)
    requires bit < GRANULE * bm.Length
    modifies bm
    ensures forall i: nat | i < GRANULE * bm.Length :: Bit(bm[..], i) == (i == bit || Bit(old(bm[..]), i))
  {
    hide WordBit, Single, Or;
    ghost var was := bm[..];
    var w := Or(bm[bit / GRANULE], Single(bit % GRANULE));
    bm[bit / GRANULE] := w;
    assert bm[..] == was[bit / GRANULE := w];
    forall i: nat | i < GRANULE * bm.Length ensures Bit(bm[..], i) == (i == bit || Bit(was, i)) {
      WordUpdate(was, bit / GRANULE, w, i);
      OrBit(was[bit / GRANULE], Single(bit % GRANULE), i % GRANULE);
      SingleBit(bit % GRANULE, i % GRANULE);
    }
  }

  method Clear(bm: array<bv32>, bit: nat)
    requires bit < GRANULE * bm.Length
    modifies bm
    ensures forall i: nat | i < GRANULE * bm.Length :: Bit(bm[..], i) == (i != bit && Bit(old(bm[..]), i))
  {
    hide WordBit, Single, AndNot;
    ghost var was := bm[..];
    var w := AndNot(bm[bit / GRANULE], Single(bit % GRANULE));
    bm[bit / GRANULE] := w;
    assert bm[..] == was[bit / GRANULE := w];
    forall i: nat | i < GRANULE * bm.Length ensures Bit(bm[..], i) == (i != bit && Bit(was, i)) {
      WordUpdate(was, bit / GRANULE, w, i);
      AndNotBit(was[bit / GRANULE], Single(bit % GRANULE), i % GRANULE);
      SingleBit(bit % GRANULE, i % GRANULE);
    }
  }

  method ClearConsecutive(bm: array<bv32>, start: nat, n: nat)
    requires start + n <= GRANULE * bm.Length
    modifies bm
    ensures forall i: nat | i < GRANULE * bm.Length ::
              Bit(bm[..], i) == (!(start <= i < start + n) && Bit(old(bm[..]), i))
  {
    for k := 0 to n
      invariant forall i: nat | i < GRANULE * bm.Length ::
                  Bit(bm[..], i) == (!(start <= i < start + k) && Bit(old(bm[..]), i))
    {
      Clear(bm, start + k);
    }
  }

  // The position of the nth bit equal to `val` in [start, size), or -1.
  method FindNth(bm: array<bv32>, size: nat, nth: nat, start: nat, val: bool) returns (r: int)
    requires size <= GRANULE * bm.Length
    ensures r >= 0 ==> (nth > 0 && start <= r < size && Bit(bm[..], r) == val
                        && CountBits(bm[..], start, r, val) == nth - 1)
    ensures r < 0 ==> r == -1 && (nth == 0 || start >= size || CountBits(bm[..], start, size, val) < nth)
  {
    if size <= 0 || nth <= 0 { return -1; }
    var count := 0;
    var i := start;
    while i < size
      invariant start <= i && (start <= size ==> i <= size) && (start > size ==> i == start)
      invariant start <= size ==> count < nth && count == CountBits(bm[..], start, i, val)
    {
      var b := Get(bm, i);
      if b == val {
        count := count + 1;
        if count == nth { return i; }
      }
      i := i + 1;
    }
    return -1;
  }

  method Count(bm: array<bv32>, start: nat, n: nat, val: bool) returns (count: nat)
    requires n <= GRANULE * bm.Length
    ensures count == if start <= n then CountBits(bm[..], start, n, val) else 0
  {
    count := 0;
    var i := start;
    while i < n
      invariant start <= i && (start <= n ==> i <= n) && (start > n ==> i == start && count == 0)
      invariant start <= n ==> count == CountBits(bm[..], start, i, val)
    {
      var b := Get(bm, i);
      if b == val { count := count + 1; }
      i := i + 1;
    }
  }

  lemma Join(s: seq<bv32>, lo: nat, mid: nat, hi: nat, v: bool)
    requires lo <= mid <= hi <= GRANULE * |s| && AllBits(s, lo, mid, v) && AllBits(s, mid, hi, v)
    ensures AllBits(s, lo, hi, v)
  {
  }

  lemma SubRange(s: seq<bv32>, lo: nat, hi: nat, from: nat, to: nat, v: bool)
    requires lo <= from <= to <= hi <= GRANULE * |s| && AllBits(s, lo, hi, v)
    ensures AllBits(s, from, to, v)
  {
  }

  lemma OneBit(s: seq<bv32>, i: nat)
    requires i < GRANULE * |s|
    ensures AllBits(s, i, i, true) && AllBits(s, i, i, false) && AllBits(s, i, i + 1, Bit(s, i))
  {
  }

  // Both loops of bitmap_count_consecutive end by position j: the bit there differs, or n bits end before it, the
  // granules that hold them being whole.
  ghost predicate Stops(s: seq<bv32>, start: nat, n: nat, j: nat)
  {
    && start < j < GRANULE * |s|
    && (Bit(s, j) != Bit(s, start) || (start + n <= j && (j % GRANULE == 0 || start % GRANULE + n <= GRANULE)))
  }

  ghost predicate CountStops(s: seq<bv32>, start: nat, n: nat)
  {
    exists j: nat :: Stops(s, start, n, j)
  }

  // A range of equal bits before position j is followed by no more than the loops count.
  lemma StopsAt(s: seq<bv32>, start: nat, n: nat, j: nat, pos: nat)
    requires Stops(s, start, n, j) && start < pos <= GRANULE * |s| && AllBits(s, start, pos, Bit(s, start))
    ensures pos <= j || start + n <= j
  {
  }

  // The first loop of bitmap_count_consecutive: word by word, from `found` bits already found equal. It is entered at a
  // word boundary, with enough bits, or at a word that it leaves because the `first` bits are not all equal.
  method CountWordwise(bm: array<bv32>, start: nat, n: nat, found: nat, first: nat, ghost j: nat) returns (count: nat)
    requires Stops(bm[..], start, n, j) && (start % GRANULE + n <= GRANULE ==> found == n || found == 0)
    requires start + found <= j && found <= n && AllBits(bm[..], start, start + found, Bit(bm[..], start))
    requires start % GRANULE + first <= GRANULE && start + first <= GRANULE * bm.Length
    requires if found == 0 then !AllBits(bm[..], start, start + first, Bit(bm[..], start))
             else (start + found) % GRANULE == 0 || found == n
    ensures found <= count < n + GRANULE && start + count <= j
    ensures AllBits(bm[..], start, start + count, Bit(bm[..], start))
  {
    hide WordBit, Bit, Differ, AllBits;
    ghost var s := bm[..];
    var val := Get(bm, start);
    count := found;
    var pos := start + count;
    var pattern := if val then 0xFFFF_FFFF else 0;
    while !Differ(bm[pos / GRANULE], pattern, 0xFFFF_FFFF) && count < n
      invariant pos == start + count <= j && found <= count < n + GRANULE && AllBits(s, start, pos, val)
      invariant if pos == start then !AllBits(s, start, start + first, val) else pos % GRANULE == 0 || count >= n
      invariant start % GRANULE + n <= GRANULE && pos > start ==> count >= n
      decreases j - pos
    {
      WholeWord(s, pos, val);
      if pos == start {
        SubRange(s, pos - pos % GRANULE, pos - pos % GRANULE + GRANULE, start, start + first, val);
      }
      count := count + GRANULE;
      pos := pos + GRANULE;
      Join(s, start, pos - GRANULE, pos, val);
      StopsAt(s, start, n, j, pos);
    }
  }

  // The last loop of bitmap_count_consecutive: bit by bit, from `count` bits already found equal.
  method CountBitwise(bm: array<bv32>, start: nat, n: nat, found: nat, ghost j: nat) returns (count: nat)
    requires Stops(bm[..], start, n, j)
    requires start + found <= j && AllBits(bm[..], start, start + found, Bit(bm[..], start))
    ensures found <= count <= (if found < n then n else found) && start + count <= j
    ensures AllBits(bm[..], start, start + count, Bit(bm[..], start))
    ensures count < n ==> Bit(bm[..], start + count) != Bit(bm[..], start)
  {
    hide Bit, AllBits;
    ghost var s := bm[..];
    var val := Get(bm, start);
    count := found;
    var pos := start + count;
    var more := Get(bm, pos);
    while more == val && count < n
      invariant pos == start + count <= j && more == Bit(s, pos)
      invariant found <= count <= (if found < n then n else found) && AllBits(s, start, pos, val)
      decreases j - pos
    {
      OneBit(s, pos);
      count := count + 1;
      pos := pos + 1;
      Join(s, start, pos - 1, pos, val);
      StopsAt(s, start, n, j, pos);
      more := Get(bm, pos);
    }
  }

  // Length of the run of equal bits that begins at `start`, capped near n: the result may pass n
  // by less than one granule, because whole words are counted at once.
  method CountConsecutive(bm: array<bv32>, start: nat, n: nat) returns (count: nat)
    requires start < GRANULE * bm.Length && (n > 1 ==> CountStops(bm[..], start, n))
    ensures count < n + GRANULE && (n <= 1 ==> count == n)
    ensures var m := if count < n then count else n;
            && (n > 0 ==> 1 <= m) && start + m <= GRANULE * bm.Length
            && AllBits(bm[..], start, start + m, Bit(bm[..], start))
            && (m < n ==> start + m < GRANULE * bm.Length && Bit(bm[..], start + m) != Bit(bm[..], start))
  {
    hide WordBit, Bit, Mask, Negate, Differ, CountBits, AllBits;
    ghost var s := bm[..];
    var pos := start;
    count := 0;
    OneBit(s, start);
    var startOffset := start % GRANULE;
    var firstWordBits := if GRANULE - startOffset < n then GRANULE - startOffset else n;
    var val := Get(bm, start);
    if n <= 1 { return n; }
    var initMask := Mask(startOffset, firstWordBits);
    ghost var j: nat :| Stops(s, start, n, j);

    var pattern := if val then initMask else Negate(initMask);
    FirstWord(s, start, firstWordBits, val);
    if !Differ(bm[pos / GRANULE], pattern, initMask) {
      count := count + firstWordBits;
      pos := pos + firstWordBits;
      StopsAt(s, start, n, j, pos);
    }

    count := CountWordwise(bm, start, n, count, firstWordBits, j);
    count := CountBitwise(bm, start, n, count, j);
    SubRange(s, start, start + count, start, start + if count < n then count else n, val);
  }

  // Bits [i, i+n) all equal `v`, wherever the backing words end.
  ghost predicate RunAt(s: seq<bv32>, i: nat, n: nat, v: bool)
  {
    i + n <= GRANULE * |s| && AllBits(s, i, i + n, v)
  }

  // No run of n starts before the end of a shorter run.
  lemma ShortRun(s: seq<bv32>, i: nat, count: nat, n: nat, v: bool)
    requires count < n && i + count < GRANULE * |s| && Bit(s, i + count) != v
    ensures forall j: nat | i <= j <= i + count :: !RunAt(s, j, n, v)
  {
  }

  ghost predicate NoRun(s: seq<bv32>, lo: nat, hi: nat, n: nat, v: bool)
  {
    forall j: nat | lo <= j < hi :: !RunAt(s, j, n, v)
  }

  // After bit i there is one that differs from `v`, and after that one that equals it.
  ghost predicate GapAfter(s: seq<bv32>, i: nat, v: bool)
  {
    exists g: nat, h: nat :: i < g < h < GRANULE * |s| && Bit(s, g) != v && Bit(s, h) == v
  }

  // The scans of bitmap_find_consec stay inside the backing words: they find the end of each shorter run and of the gap
  // after it, and the count on the run found stops.
  ghost predicate Contained(s: seq<bv32>, size: nat, start: nat, n: nat, v: bool)
    requires size <= GRANULE * |s|
  {
    && (forall i: nat | start <= i < size && Bit(s, i) == v && NoRun(s, start, i + 1, n, v) :: GapAfter(s, i, v))
    && forall i: nat | start <= i < size && RunAt(s, i, n, v) && NoRun(s, start, i, n, v) :: CountStops(s, i, n)
  }

  // The least i in [start, size) that begins n equal bits of the backing words, or -1. Asking for none is asking for
  // one.
  method FindConsec(bm: array<bv32>, size: nat, start: nat, n: nat, val: bool) returns (r: int)
    requires size <= GRANULE * bm.Length < 0x7FFF_FFFF_FFFF_FFFF
    requires n > 1 ==> Contained(bm[..], size, start, n, val)
    ensures r == -1 || (start <= r < size && RunAt(bm[..], r, if n == 0 then 1 else n, val))
    ensures NoRun(bm[..], start, if r < 0 then size else r, if n == 0 then 1 else n, val)
  {
    hide WordBit, Bit, CountBits, GapAfter, CountStops, Contained;
    ghost var s := bm[..];
    ghost var k := if n == 0 then 1 else n;
    var i := FindNth(bm, size, 1, start, val);
    NoRunBefore(s, start, if i < 0 then size else i, k, val);
    if i < 0 { return -1; }
    while i < size
      invariant start <= i && (i < size ==> Bit(s, i) == val)
      invariant NoRun(s, start, if i < size then i else size, k, val)
      decreases size - i
    {
      assert bm[..] == s;
      if n > 1 { ScanStops(s, size, start, i, n, val); }
      var count := CountConsecutive(bm, i, n);
      if count < n {
        ShortRun(s, i, count, n, val);
        i := i + count;
        GapStops(s, size, start, i - count, count, n, val, i);
        var gap := CountConsecutive(bm, i, 0xFFFF_FFFF_FFFF_FFFF);
        NoRunIn(s, i, i + gap, n, val);
        i := i + gap;
      } else {
        break;
      }
    }
    if i >= size { i := -1; }
    return i;
  }

  // Both inner scans of the search stop.
  lemma ScanStops(s: seq<bv32>, size: nat, start: nat, i: nat, n: nat, v: bool)
    requires n > 1 && start <= i < size <= GRANULE * |s| && Contained(s, size, start, n, v)
    requires Bit(s, i) == v && NoRun(s, start, i, n, v)
    ensures CountStops(s, i, n)
  {
    hide Bit;
    if !RunAt(s, i, n, v) {
      assert NoRun(s, start, i + 1, n, v);
      var g: nat, h: nat :| i < g < h < GRANULE * |s| && Bit(s, g) != v && Bit(s, h) == v;
      assert Stops(s, i, n, g);
    }
  }

  lemma GapStops(s: seq<bv32>, size: nat, start: nat, i: nat, count: nat, n: nat, v: bool, end: nat)
    requires start <= i < size <= GRANULE * |s| && Contained(s, size, start, n, v) && count < n
    requires Bit(s, i) == v && NoRun(s, start, i, n, v) && !RunAt(s, i, n, v)
    requires end == i + count < GRANULE * |s| && AllBits(s, i, end, v) && Bit(s, end) != v
    ensures forall m: nat :: CountStops(s, end, m)
  {
    hide Bit;
    assert NoRun(s, start, i + 1, n, v);
    var g: nat, h: nat :| i < g < h < GRANULE * |s| && Bit(s, g) != v && Bit(s, h) == v;
    assert g >= end;
    forall m: nat ensures CountStops(s, end, m) { assert Stops(s, end, m, h); }
  }

  // Runs that begin before `size` also end there exactly if the last bit or the one behind it differs.
  lemma EndsInside(s: seq<bv32>, size: nat, v: bool)
    requires size < GRANULE * |s|
    ensures (forall r: nat, n: nat | r < size && RunAt(s, r, n, v) :: r + n <= size) <==>
              size == 0 || Bit(s, size - 1) != v || Bit(s, size) != v
  {
    hide Bit;
    if size > 0 && Bit(s, size - 1) == v && Bit(s, size) == v {
      var r: nat := size - 1;
      assert RunAt(s, r, 2, v);
    }
  }

  // A map of ten bits on two clear words: eleven clear bits are found from bit 0 on.
  lemma RunPastEnd(s: seq<bv32>)
    requires s == [0, 0]
    ensures RunAt(s, 0, 11, false) && !Bit(s, 9) && !Bit(s, 10)
  {
    hide Bit;
    forall i: nat | i < GRANULE * |s| ensures !Bit(s, i) { ClearWord(s, i); }
  }

  lemma ClearWord(s: seq<bv32>, i: nat)
    requires i < GRANULE * |s| && s[i / GRANULE] == 0
    ensures !Bit(s, i)
  {
    assert 0 & (1 << (i % GRANULE)) == 0 as bv32;
  }

  // Guard bits behind `size` keep every search inside.
  lemma FencedContains(s: seq<bv32>, size: nat, start: nat, n: nat, v: bool)
    requires Fenced(s, size, v) && size <= GRANULE * |s|
    ensures Contained(s, size, start, n, v)
  {
    hide Bit, RunAt;
    var g: nat, h: nat :| size <= g < h < GRANULE * |s| && Bit(s, g) != v && Bit(s, h) == v;
    forall i: nat | i < size && Bit(s, i) == v ensures GapAfter(s, i, v) && Stops(s, i, n, g) {}
    forall i: nat | start <= i < size && RunAt(s, i, n, v) ensures CountStops(s, i, n) {
      FencedStops(s, i, g, h, n);
    }
  }

  // Whatever bit a count begins at, one of the guard bits differs.
  lemma FencedStops(s: seq<bv32>, i: nat, g: nat, h: nat, n: nat)
    requires i < g < h < GRANULE * |s| && Bit(s, g) != Bit(s, h)
    ensures Stops(s, i, n, g) || Stops(s, i, n, h)
  {
  }

  lemma NoRunBefore(s: seq<bv32>, lo: nat, hi: nat, n: nat, v: bool)
    requires n > 0 && hi <= GRANULE * |s|
    requires lo < hi ==> CountBits(s, lo, hi, v) == 0
    ensures forall j: nat | lo <= j < hi :: !RunAt(s, j, n, v)
  {
    NoneCounted(s, lo, hi, v);
    NoRunIn(s, lo, hi, n, v);
  }

  lemma NoRunIn(s: seq<bv32>, lo: nat, hi: nat, n: nat, v: bool)
    requires n > 0 && hi <= GRANULE * |s|
    requires forall j: nat | lo <= j < hi :: Bit(s, j) != v
    ensures forall j: nat | lo <= j < hi :: !RunAt(s, j, n, v)
  {
    forall j: nat | lo <= j < hi ensures !RunAt(s, j, n, v) { assert Bit(s, j) != v; }
  }

  lemma {:induction false} NoneCounted(s: seq<bv32>, lo: nat, hi: nat, v: bool)
    requires hi <= GRANULE * |s|
    requires lo < hi ==> CountBits(s, lo, hi, v) == 0
    ensures forall j: nat | lo <= j < hi :: Bit(s, j) != v
  {
    if lo < hi - 1 { NoneCounted(s, lo, hi - 1, v); }
  }

  // Or-ing a mask into word k sets exactly the bits under the mask.
  method OrMask(bm: array<bv32>, lo: nat, len: nat)
    requires 0 < len && lo % GRANULE + len <= GRANULE && lo + len <= GRANULE * bm.Length
    modifies bm
    ensures forall i: nat | i < GRANULE * bm.Length ::
              Bit(bm[..], i) == (lo <= i < lo + len || Bit(old(bm[..]), i))
  {
    hide WordBit, Mask, Or;
    ghost var was := bm[..];
    var k := lo / GRANULE;
    var m := Mask(lo % GRANULE, len);
    bm[k] := Or(bm[k], m);
    assert bm[..] == was[k := Or(was[k], m)];
    forall i: nat | i < GRANULE * bm.Length ensures Bit(bm[..], i) == (lo <= i < lo + len || Bit(was, i)) {
      WordUpdate(was, k, Or(was[k], m), i);
      OrBit(was[k], m, i % GRANULE);
      MaskBit(lo % GRANULE, len, i % GRANULE);
    }
  }

  method SetConsecutive(bm: array<bv32>, start: nat, n: nat)
    requires n > 0 && start + n <= GRANULE * bm.Length
    modifies bm
    ensures forall i: nat | i < GRANULE * bm.Length ::
              Bit(bm[..], i) == (start <= i < start + n || Bit(old(bm[..]), i))
  {
    hide WordBit, Bit, CountBits;
    ghost var was := bm[..];
    var pos := start;
    var count := n;
    var startOffset := start % GRANULE;
    var firstWordBits := if GRANULE - startOffset < count then GRANULE - startOffset else count;
    OrMask(bm, pos, firstWordBits);
    pos := pos + firstWordBits;
    count := count - firstWordBits;
    while count >= GRANULE
      invariant 0 <= count && pos + count == start + n && start <= pos && (count > 0 ==> pos % GRANULE == 0)
      invariant forall i: nat | i < GRANULE * bm.Length :: Bit(bm[..], i) == (start <= i < pos || Bit(was, i))
    {
      OrMask(bm, pos, GRANULE);
      pos := pos + GRANULE;
      count := count - GRANULE;
    }
    if count > 0 {
      OrMask(bm, pos, count);
    }
  }
}
