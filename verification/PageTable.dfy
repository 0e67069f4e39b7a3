/**
 Multi-level page tables as values: the tables, the walk, and what a page means
 (src/arch/riscv/page_table.c, src/core/inc/page_table.h).

 The format is Sv39 for the hypervisor and Sv39x4 for guests: three levels, 512 entries a table,
 2048 in a guest root (RISC-V Privileged Architecture 20211203, sections 4.4 and 8.5). Virtual and physical
 addresses are page numbers; a page-table entry is addressed by (table, index), a table by its page.
 The decoded entries used here are tied to the 64-bit words in module PteWord.
 */
module PageTable {
  import opened Arith
  import opened Platform

  const LEVELS: nat := 3

  datatype Kind = Empty | Next | Final

  // Empty: V clear. Next: V set and R, W, X clear. Final: V set and one of R, W, X set.
  datatype Pte = Pte(kind: Kind, addr: nat, flags: bv8, rsw: nat)

  const RSRV: nat := 3

  // `home` of a table: its level and the number of the block of addresses it covers.
  datatype Home = Home(lvl: nat, block: nat)

  datatype PT = PT(guest: bool, root: nat, tables: map<nat, seq<Pte>>)

  // What one virtual page is: mapped to a physical page, or unmapped with software bits.
  datatype Cell = Mapped(page: nat, flags: bv8) | Unmapped(rsw: nat)

  // ---------------------------------------------------------------- geometry

  // pt_lvlsize, in pages.
  function LvlPages(l: nat): (p: nat)
    ensures p > 0
  {
    if l == 0 then 262144 else if l == 1 then 512 else 1
  }

  predicate Aligned(x: nat, l: nat)
  {
    x % LvlPages(l) == 0
  }

  // pt_nentries.
  function NEntries(guest: bool, l: nat): nat
  {
    if l == 0 && guest then 2048 else 512
  }

  // pt_getpteindex_by_va.
  function Index(guest: bool, v: nat, l: nat): (i: nat)
    ensures i < NEntries(guest, l)
  {
    (v / LvlPages(l)) % NEntries(guest, l)
  }

  // The fields of a byte address: pages of 4 KiB, blocks of 2 MiB and of 1 GiB.
  lemma AddressFields(guest: bool, a: nat)
    ensures var v := a / 0x1000;
            && Index(guest, v, 2) == (a / 0x1000) % 512
            && Index(guest, v, 1) == (a / 0x20_0000) % 512
            && Index(guest, v, 0) == (a / 0x4000_0000) % (if guest then 2048 else 512)
  {
    assert (a / 0x1000) / 512 == a / 0x20_0000 && (a / 0x1000) / 262144 == a / 0x4000_0000;
  }

  // Number of level-l blocks in the space.
  function NBlocks(guest: bool, l: nat): (n: nat)
    ensures n > 0
  {
    if guest then (if l == 0 then 2048 else if l == 1 then 1048576 else 536870912)
    else (if l == 0 then 512 else if l == 1 then 262144 else 134217728)
  }

  // Number of the level-l block that holds page v.
  function Block(guest: bool, v: nat, l: nat): nat
  {
    (v / LvlPages(l)) % NBlocks(guest, l)
  }

  // The block covered by the table that holds the level-l entry of v.
  function Above(guest: bool, v: nat, l: nat): nat
  {
    if l == 0 then 0 else Block(guest, v, l - 1)
  }

  lemma SplitBlock(x: nat, n: nat)
    requires n > 0
    ensures x % (n * 512) == ((x / 512) % n) * 512 + x % 512
  {
    var y, z := x / 512, x % 512;
    var w, u := y / n, y % n;
    assert x == (n * 512) * w + (u * 512 + z) by { assert y == n * w + u; }
    assert u * 512 + z < n * 512;
    DivUnique(x, n * 512, w, u * 512 + z);
  }

  lemma BlockStep(guest: bool, v: nat, l: nat)
    requires l < LEVELS
    ensures Block(guest, v, l) == Above(guest, v, l) * 512 + Index(guest, v, l)
  {
    if l > 0 {
      SplitBlock(v / LvlPages(l), NBlocks(guest, l - 1));
      assert NBlocks(guest, l) == NBlocks(guest, l - 1) * 512;
      assert (v / LvlPages(l)) / 512 == v / LvlPages(l - 1);
    }
  }

  lemma SameBlockUp(guest: bool, p: nat, q: nat, l: nat)
    requires 0 < l < LEVELS && Block(guest, p, l) == Block(guest, q, l)
    ensures Block(guest, p, l - 1) == Block(guest, q, l - 1)
  {
    BlockStep(guest, p, l); BlockStep(guest, q, l);
  }

  // ---------------------------------------------------------------- well-formedness

  ghost predicate GoodEntry(pt: PT, home: map<nat, Home>, t: nat, i: nat)
    requires t in pt.tables && t in home && i < |pt.tables[t]|
  {
    var e := pt.tables[t][i];
    && (e.kind.Next? ==> home[t].lvl < 2 && e.addr in pt.tables && e.addr in home)
    && (e.kind.Next? ==> home[e.addr] == Home(home[t].lvl + 1, home[t].block * 512 + i))
    && (e.kind.Final? ==> Aligned(e.addr, home[t].lvl))
    && (!e.kind.Empty? ==> e.rsw == 0 && e.addr < FRAMES)
  }

  ghost predicate WF(pt: PT, home: map<nat, Home>)
  {
    && home.Keys == pt.tables.Keys
    && pt.root in pt.tables && home[pt.root] == Home(0, 0)
    && (forall t: nat | t in pt.tables ::
          home[t].lvl < LEVELS && |pt.tables[t]| == NEntries(pt.guest, home[t].lvl))
    && (forall t: nat, i: nat | t in pt.tables && i < |pt.tables[t]| :: GoodEntry(pt, home, t, i))
  }

  // ---------------------------------------------------------------- walk and meaning

  datatype Option<+T> = None | Some(value: T)

  // The table that holds the level-l entry of v, if the walk gets that far.
  ghost function Node(pt: PT, l: nat, v: nat): Option<nat>
  {
    if l == 0 then Some(pt.root)
    else match Node(pt, l - 1, v)
      case None => None
      case Some(t) =>
        var i := Index(pt.guest, v, l - 1);
        if t in pt.tables && i < |pt.tables[t]| && pt.tables[t][i].kind.Next?
        then Some(pt.tables[t][i].addr) else None
  }

  ghost function EntryAt(pt: PT, l: nat, v: nat): Pte
  {
    match Node(pt, l, v)
    case None => Pte(Empty, 0, 0, 0)
    case Some(t) =>
      var i := Index(pt.guest, v, l);
      if t in pt.tables && i < |pt.tables[t]| then pt.tables[t][i] else Pte(Empty, 0, 0, 0)
  }

  // Level at which the walk for v ends.
  ghost function EndLevel(pt: PT, v: nat): (l: nat)
    ensures l < LEVELS
  {
    if !EntryAt(pt, 0, v).kind.Next? then 0
    else if !EntryAt(pt, 1, v).kind.Next? then 1
    else 2
  }

  ghost function CellOf(e: Pte, l: nat, v: nat): Cell
  {
    if e.kind.Final? then Mapped(e.addr + v % LvlPages(l), e.flags) else Unmapped(e.rsw)
  }

  ghost function Look(pt: PT, v: nat): Cell
  {
    CellOf(EntryAt(pt, EndLevel(pt, v), v), EndLevel(pt, v), v)
  }

  lemma {:induction false} NodeHome(pt: PT, home: map<nat, Home>, l: nat, v: nat)
    requires WF(pt, home) && l < LEVELS
    ensures Node(pt, l, v).Some? ==>
              var t := Node(pt, l, v).value;
              && t in pt.tables && home[t] == Home(l, Above(pt.guest, v, l))
              && Index(pt.guest, v, l) < |pt.tables[t]|
              && GoodEntry(pt, home, t, Index(pt.guest, v, l))
              && EntryAt(pt, l, v) == pt.tables[t][Index(pt.guest, v, l)]
  {
    if l > 0 {
      NodeHome(pt, home, l - 1, v);
      BlockStep(pt.guest, v, l - 1);
    }
  }

  // The walk reaches EndLevel, and the entry there ends it.
  lemma EndReached(pt: PT, home: map<nat, Home>, v: nat)
    requires WF(pt, home)
    ensures Node(pt, EndLevel(pt, v), v).Some? && !EntryAt(pt, EndLevel(pt, v), v).kind.Next?
    ensures forall l: nat | l < EndLevel(pt, v) :: Node(pt, l, v).Some? && EntryAt(pt, l, v).kind.Next?
  {
    NodeHome(pt, home, 0, v);
    NodeHome(pt, home, 1, v);
    NodeHome(pt, home, 2, v);
  }

  // A level reached by the walk is above EndLevel, or is it.
  lemma {:induction false} ReachedEnds(pt: PT, home: map<nat, Home>, l: nat, v: nat)
    requires WF(pt, home) && l < LEVELS && Node(pt, l, v).Some?
    ensures l <= EndLevel(pt, v)
    ensures EndLevel(pt, v) == l <==> !EntryAt(pt, l, v).kind.Next?
  {
    NodeHome(pt, home, 0, v);
    NodeHome(pt, home, 1, v);
    NodeHome(pt, home, 2, v);
  }

  // Pages of one block share the walk down to that block's entry.
  lemma {:induction false} SharedWalk(pt: PT, l: nat, p: nat, q: nat)
    requires l < LEVELS && Block(pt.guest, p, l) == Block(pt.guest, q, l)
    ensures Node(pt, l, p) == Node(pt, l, q) && Index(pt.guest, p, l) == Index(pt.guest, q, l)
    ensures EntryAt(pt, l, p) == EntryAt(pt, l, q)
  {
    BlockStep(pt.guest, p, l); BlockStep(pt.guest, q, l);
    if l > 0 {
      SameBlockUp(pt.guest, p, q, l);
      SharedWalk(pt, l - 1, p, q);
    }
  }
}
