/**
 The 64-bit words of page-table entries (src/arch/riscv/inc/arch/page_table.h), and their agreement with the
 decoded entries of module PageTable. Layout: RISC-V Privileged Architecture 20211203, section 4.4, figure of the
 Sv39 page table entry: V R W X U G A D in bits 0 to 7, RSW in bits 8 and 9, PPN from bit 10.
 */
module PteWord {
  import opened PageTable
  import opened Platform
  import AddrSpace

  const ADDR_MSK: bv64 := 0x00FF_FFFF_FFFF_F000
  const FLAGS_MSK: bv64 := 0xFF
  const RSW_MSK: bv64 := 0x300
  const PTE_TABLE: bv64 := 0x1
  const PTE_PAGE: bv64 := 0xF
  const PTE_RSW_RSRV: bv64 := 0x300

  function PteSet(addr: bv64, typ: bv64, flags: bv64): bv64
  {
    ((addr & ADDR_MSK) >> 2) | ((if typ == PTE_TABLE then typ else typ | flags) & FLAGS_MSK)
  }

  function PteAddr(w: bv64): bv64
  {
    (w << 2) & ADDR_MSK
  }

  predicate PteValid(w: bv64)
  {
    w & 1 != 0
  }

  predicate PteIsTable(w: bv64)
  {
    w & 0xF == 1
  }

  function PteSetRsw(w: bv64, flag: bv64): bv64
  {
    (w & !RSW_MSK) | (flag & RSW_MSK)
  }

  predicate PteCheckRsw(w: bv64, flag: bv64)
  {
    w & RSW_MSK == flag & RSW_MSK
  }

  function RswOf(w: bv64): nat
  {
    var b := w & RSW_MSK;
    if b == 0 then 0 else if b == 0x100 then 1 else if b == 0x200 then 2 else 3
  }

  // Bits k to k + 7 of an address.
  function Digit(addr: bv64, k: bv6): bv8
  {
    ((addr >> k) & 0xFF) as bv8
  }

  function Nibble(d: bv4): nat
  {
    d as nat
  }

  function Value(d: bv8): nat
  {
    Nibble((d & 0xF) as bv4) + 16 * Nibble((d >> 4) as bv4)
  }

  // The page of an address: the number in bits 12 to 55, read in digits of 8 bits.
  function PageOf(addr: bv64): nat
  {
    Number(Digit(addr, 12), Digit(addr, 20), Digit(addr, 28), Digit(addr, 36), Digit(addr, 44), Digit(addr, 52) & 0xF)
  }

  function Number(d0: bv8, d1: bv8, d2: bv8, d3: bv8, d4: bv8, d5: bv8): nat
  {
    Value(d0) + 256 * (Value(d1) + 256 * (Value(d2) + 256 * (Value(d3) + 256 * (Value(d4) + 256 * Value(d5)))))
  }

  // The entry a word stands for. Only a leaf has flags of interest.
  function Decode(w: bv64): Pte
  {
    var kind := if w & 1 == 0 then Empty else if w & 0xF == 1 then Next else Final;
    Pte(kind, PageOf(PteAddr(w)), if kind.Final? then (w & FLAGS_MSK) as bv8 else 0, RswOf(w))
  }

  // pte_addr undoes pte_set, exactly for addresses within the mask: page aligned and below 2^56.
  lemma AddrRoundTrip(addr: bv64, typ: bv64, flags: bv64)
    ensures PteAddr(PteSet(addr, typ, flags)) == addr & ADDR_MSK
    ensures PteAddr(PteSet(addr, typ, flags)) == addr <==> addr & !ADDR_MSK == 0
  {
    SetAddr(addr, if typ == PTE_TABLE then typ else typ | flags);
    MaskedAddr(addr);
  }

  lemma SetAddr(addr: bv64, low: bv64)
    ensures ((((addr & ADDR_MSK) >> 2) | (low & FLAGS_MSK)) << 2) & ADDR_MSK == addr & ADDR_MSK
  {
  }

  lemma MaskedAddr(addr: bv64)
    ensures addr & ADDR_MSK == addr <==> addr & !ADDR_MSK == 0
  {
  }

  // pte_set writes the leaf and table entries the model writes, with clear software bits.
  lemma LeafWord(addr: bv64, flags: bv64)
    ensures Decode(PteSet(addr, PTE_PAGE, flags))
         == Pte(Final, PageOf(addr & ADDR_MSK), LowByte(flags), 0)
  {
    AddrRoundTrip(addr, PTE_PAGE, flags);
    LowBits(addr, PTE_PAGE | flags);
    KeptKind(PTE_PAGE | flags);
  }

  lemma TableWord(addr: bv64, flags: bv64)
    ensures Decode(PteSet(addr, PTE_TABLE, flags)) == Pte(Next, PageOf(addr & ADDR_MSK), 0, 0)
  {
    AddrRoundTrip(addr, PTE_TABLE, flags);
    LowBits(addr, PTE_TABLE);
  }

  lemma LowBits(addr: bv64, low: bv64)
    ensures var w := ((addr & ADDR_MSK) >> 2) | (low & FLAGS_MSK);
            w & FLAGS_MSK == low & FLAGS_MSK && w & RSW_MSK == 0 && w & 1 == low & 1 && w & 0xF == low & 0xF
  {
  }

  lemma KeptKind(low: bv64)
    requires low & PTE_PAGE == PTE_PAGE
    ensures low & 1 != 0 && low & 0xF != 1
  {
  }

  // pte_set_rsw changes the software bits and nothing else.
  lemma RswWord(w: bv64, flag: bv64)
    ensures Decode(PteSetRsw(w, flag)) == Decode(w).(rsw := RswOf(flag))
  {
    hide PteSetRsw, PteAddr;
    var w' := PteSetRsw(w, flag);
    RswKeeps(w, flag);
    SameFields(w', w, flag);
  }

  lemma SameFields(w': bv64, w: bv64, flag: bv64)
    requires w' & 1 == w & 1 && w' & 0xF == w & 0xF && w' & FLAGS_MSK == w & FLAGS_MSK
    requires PteAddr(w') == PteAddr(w) && w' & RSW_MSK == flag & RSW_MSK
    ensures Decode(w') == Decode(w).(rsw := RswOf(flag))
  {
    hide PteAddr;
  }

  lemma RswKeeps(w: bv64, flag: bv64)
    ensures var w' := PteSetRsw(w, flag);
            w' & 1 == w & 1 && w' & 0xF == w & 0xF && w' & FLAGS_MSK == w & FLAGS_MSK
            && PteAddr(w') == PteAddr(w) && w' & RSW_MSK == flag & RSW_MSK
  {
  }

  // The default entry of a new table: PTE_INVALID with the parent's software bits.
  function DefaultOf(w: bv64): bv64
  {
    0 | (w & RSW_MSK)
  }

  lemma DefaultWord(w: bv64)
    ensures Decode(DefaultOf(w)) == Pte(Empty, 0, 0, RswOf(w))
  {
    var d := DefaultOf(w);
    assert d & 1 == 0 && PteAddr(d) == 0 && d & RSW_MSK == w & RSW_MSK;
  }

  // The tests the code makes on words are the tests the model makes on entries.
  lemma WordTests(w: bv64)
    ensures PteValid(w) <==> !Decode(w).kind.Empty?
    ensures PteIsTable(w) <==> Decode(w).kind.Next?
    ensures PteCheckRsw(w, PTE_RSW_RSRV) <==> Decode(w).rsw == RSRV
  {
    TableIsValid(w);
    RswCases(w);
  }

  lemma TableIsValid(w: bv64)
    ensures w & 0xF == 1 ==> w & 1 != 0
  {
  }

  // RswOf reads bits 8 and 9 as a number.
  lemma RswNumber(w: bv64)
    ensures RswOf(w) < 4 && RswOf(w) as bv64 == (w >> 8) & 3
  {
    RswCases(w);
    RswShift(w);
  }

  lemma RswShift(w: bv64)
    ensures w & RSW_MSK == 0 ==> (w >> 8) & 3 == 0
    ensures w & RSW_MSK == 0x100 ==> (w >> 8) & 3 == 1
    ensures w & RSW_MSK == 0x200 ==> (w >> 8) & 3 == 2
    ensures w & RSW_MSK == 0x300 ==> (w >> 8) & 3 == 3
  {
  }

  lemma RswCases(w: bv64)
    ensures var b := w & RSW_MSK; b == 0 || b == 0x100 || b == 0x200 || b == 0x300
  {
  }

  // ---------------------------------------------------------------- the writes of module AddrSpace

  // Address of a physical page.
  function PageAddr(page: nat): bv64
    requires page < FRAMES
  {
    var p2, p4 := page / 256 / 256, page / 256 / 256 / 256 / 256;
    FromDigits(DigitOf(page), DigitOf(page / 256), DigitOf(p2), DigitOf(p2 / 256), DigitOf(p4), DigitOf(p4 / 256))
  }

  function DigitOf(x: nat): bv8
  {
    TwoNibbles(NibbleOf(x), NibbleOf(x / 16))
  }

  function TwoNibbles(lo: bv4, hi: bv4): bv8
  {
    (lo as bv8) | ((hi as bv8) << 4)
  }

  function FromDigits(d0: bv8, d1: bv8, d2: bv8, d3: bv8, d4: bv8, d5: bv8): bv64
  {
    ((d0 as bv64) << 12) | ((d1 as bv64) << 20) | ((d2 as bv64) << 28)
    | ((d3 as bv64) << 36) | ((d4 as bv64) << 44) | (((d5 & 0xF) as bv64) << 52)
  }

  lemma DigitsBack(d0: bv8, d1: bv8, d2: bv8, d3: bv8, d4: bv8, d5: bv8)
    ensures var a := FromDigits(d0, d1, d2, d3, d4, d5);
            && a & ADDR_MSK == a && Digit(a, 12) == d0 && Digit(a, 20) == d1 && Digit(a, 28) == d2 && Digit(a, 36) == d3
            && Digit(a, 44) == d4 && Digit(a, 52) & 0xF == d5 & 0xF
  {
  }

  lemma DigitValue(x: nat)
    ensures Value(DigitOf(x)) == x % 256
  {
    hide Nibble, TwoNibbles, Value, NibbleOf;
    var lo, hi := NibbleOf(x), NibbleOf(x / 16);
    NibbleValue(x); NibbleValue(x / 16);
    NibblesValue(lo, hi);
    Mod256(x);
  }

  lemma Mod256(x: nat)
    ensures x % 256 == x % 16 + 16 * (x / 16 % 16)
  {
  }

  function NibbleOf(x: nat): bv4
  {
    (x % 16) as bv4
  }

  lemma NibbleValue(x: nat)
    ensures Nibble(NibbleOf(x)) == x % 16
  {
    SmallNibble(x % 16);
  }

  lemma SmallNibble(y: nat)
    requires y < 16
    ensures Nibble(y as bv4) == y
  {
  }

  lemma NibblesValue(lo: bv4, hi: bv4)
    ensures Value(TwoNibbles(lo, hi)) == Nibble(lo) + 16 * Nibble(hi)
  {
    hide Nibble, TwoNibbles;
    NibblesBack(lo, hi);
  }

  lemma NibblesBack(lo: bv4, hi: bv4)
    ensures (TwoNibbles(lo, hi) & 0xF) as bv4 == lo && (TwoNibbles(lo, hi) >> 4) as bv4 == hi
  {
  }

  lemma SmallDigit(d: bv8)
    requires Value(d) < 16
    ensures d & 0xF == d
  {
  }

  lemma SixDigits(p0: nat, p1: nat, p2: nat, p3: nat, p4: nat, p5: nat)
    requires p0 < FRAMES && p1 == p0 / 256 && p2 == p1 / 256 && p3 == p2 / 256 && p4 == p3 / 256 && p5 == p4 / 256
    ensures p5 < 16 && p5 % 256 == p5
    ensures p0 == p0 % 256 + 256 * (p1 % 256 + 256 * (p2 % 256 + 256 * (p3 % 256 + 256 * (p4 % 256 + 256 * p5))))
  {
  }

  lemma PageBack(page: nat)
    requires page < FRAMES
    ensures PageOf(PageAddr(page)) == page && PageAddr(page) & ADDR_MSK == PageAddr(page)
  {
    hide Digit, DigitOf, FromDigits, Value, Nibble, NibbleOf;
    var p1, p2 := page / 256, page / 256 / 256;
    var p3, p4 := p2 / 256, p2 / 256 / 256;
    var p5 := p4 / 256;
    SixDigits(page, p1, p2, p3, p4, p5);
    DigitsBack(DigitOf(page), DigitOf(p1), DigitOf(p2), DigitOf(p3), DigitOf(p4), DigitOf(p5));
    DigitValue(page); DigitValue(p1); DigitValue(p2); DigitValue(p3); DigitValue(p4); DigitValue(p5);
    SmallDigit(DigitOf(p5));
  }

  // The low byte of a leaf.
  function LowByte(flags: bv64): bv8
  {
    ((PTE_PAGE | flags) & FLAGS_MSK) as bv8
  }

  lemma LeafLow(flags: bv8)
    ensures LowByte(flags as bv64) == AddrSpace.LeafFlags(flags)
  {
  }

  // Page numbers within the physical address lose nothing: each entry the page-table manager writes is the decoded form
  // of the word the source writes.
  lemma ModelLeaf(page: nat, flags: bv8)
    requires page < FRAMES
    ensures Decode(PteSet(PageAddr(page), PTE_PAGE, flags as bv64)) == Pte(Final, page, AddrSpace.LeafFlags(flags), 0)
  {
    hide PteSet, PageOf, PageAddr, Decode, LowByte, AddrSpace.LeafFlags;
    PageBack(page);
    LeafLow(flags);
    LeafWord(PageAddr(page), flags as bv64);
  }

  lemma ModelTable(page: nat)
    requires page < FRAMES
    ensures Decode(PteSet(PageAddr(page), PTE_TABLE, 0)) == Pte(Next, page, 0, 0)
  {
    hide PteSet, PageOf, PageAddr, Decode;
    PageBack(page);
    TableWord(PageAddr(page), 0);
  }

  lemma ModelReserve(w: bv64)
    ensures Decode(PteSetRsw(w, PTE_RSW_RSRV)) == Decode(w).(rsw := RSRV)
  {
    hide PteSetRsw, Decode;
    RswWord(w, PTE_RSW_RSRV);
  }

  lemma ModelDefault(w: bv64)
    ensures Decode(DefaultOf(w)) == Pte(Empty, 0, 0, Decode(w).rsw) && Decode(0) == Pte(Empty, 0, 0, 0)
  {
    hide DefaultOf;
    DefaultWord(w);
    DefaultWord(0);
    assert DefaultOf(0) == 0 by { ZeroDefault(); }
  }

  lemma ZeroDefault()
    ensures DefaultOf(0) == 0
  {
  }

  // The tables as they lie in memory: words that decode to the entries of the model.
  ghost predicate Stores(words: map<nat, seq<bv64>>, pt: PT)
  {
    && words.Keys == pt.tables.Keys
    && forall t: nat | t in words :: |words[t]| == |pt.tables[t]|
                                     && forall i: nat | i < |words[t]| :: Decode(words[t][i]) == pt.tables[t][i]
  }

  // A word written to memory is an entry written to the model.
  lemma StoreWord(words: map<nat, seq<bv64>>, pt: PT, t: nat, i: nat, w: bv64)
    requires Stores(words, pt) && t in words && i < |words[t]|
    ensures Stores(words[t := words[t][i := w]], pt.(tables := pt.tables[t := pt.tables[t][i := Decode(w)]]))
  {
    hide Decode;
  }
}
