/**
 What one write to a page table does to the meaning of every page, and the arithmetic of page ranges.
 */
module TableUpdate {
  import opened PageTable
  import opened Platform

  function Put(pt: PT, t: nat, i: nat, e: Pte): PT
    requires t in pt.tables && i < |pt.tables[t]|
  {
    pt.(tables := pt.tables[t := pt.tables[t][i := e]])
  }

  // Entry e fits the level-l slot on the walk of v.
  ghost predicate Fits(pt: PT, home: map<nat, Home>, l: nat, v: nat, e: Pte)
  {
    && (e.kind.Next? ==> l < 2 && e.addr in pt.tables && e.addr in home)
    && (e.kind.Next? ==> home[e.addr] == Home(l + 1, Block(pt.guest, v, l)))
    && (e.kind.Final? ==> Aligned(e.addr, l))
    && (!e.kind.Empty? ==> e.rsw == 0 && e.addr < FRAMES)
  }

  lemma SlotHome(pt: PT, home: map<nat, Home>, l: nat, v: nat, t: nat)
    requires WF(pt, home) && l < LEVELS && Node(pt, l, v) == Some(t)
    ensures t in pt.tables && t in home && Index(pt.guest, v, l) < |pt.tables[t]| && home[t].lvl == l
    ensures Block(pt.guest, v, l) == home[t].block * 512 + Index(pt.guest, v, l)
  {
    hide GoodEntry, Index, Block, EntryAt;
    NodeHome(pt, home, l, v);
    BlockStep(pt.guest, v, l);
  }

  lemma PutWF(pt: PT, home: map<nat, Home>, l: nat, v: nat, t: nat, e: Pte)
    requires WF(pt, home) && l < LEVELS && Node(pt, l, v) == Some(t) && Fits(pt, home, l, v, e)
    ensures t in pt.tables && Index(pt.guest, v, l) < |pt.tables[t]|
    ensures WF(Put(pt, t, Index(pt.guest, v, l), e), home)
  {
    hide Node, EntryAt, Index, Block, Aligned, NEntries, GoodEntry;
    SlotHome(pt, home, l, v, t);
    var i := Index(pt.guest, v, l);
    var pt' := Put(pt, t, i, e);
    forall s: nat, j: nat | s in pt'.tables && j < |pt'.tables[s]| ensures GoodEntry(pt', home, s, j) {
      assert GoodEntry(pt, home, s, j);
      PutGood(pt, home, l, v, t, i, e, s, j);
    }
  }

  lemma PutGood(pt: PT, home: map<nat, Home>, l: nat, v: nat, t: nat, i: nat, e: Pte, s: nat, j: nat)
    requires t in pt.tables && t in home && i < |pt.tables[t]| && s in pt.tables && s in home && j < |pt.tables[s]|
    requires Fits(pt, home, l, v, e) && home[t].lvl == l && Block(pt.guest, v, l) == home[t].block * 512 + i
    requires GoodEntry(pt, home, s, j)
    ensures GoodEntry(Put(pt, t, i, e), home, s, j)
  {
  }

  // The walk of q is untouched above the written slot, and everywhere off its block.
  lemma {:induction false} PutNode(pt: PT, home: map<nat, Home>, l: nat, v: nat, t: nat, e: Pte, m: nat, q: nat)
    requires WF(pt, home) && l < LEVELS && m < LEVELS && Node(pt, l, v) == Some(t)
    requires t in pt.tables && Index(pt.guest, v, l) < |pt.tables[t]|
    requires m <= l || Block(pt.guest, q, l) != Block(pt.guest, v, l)
    ensures Node(Put(pt, t, Index(pt.guest, v, l), e), m, q) == Node(pt, m, q)
  {
    hide Index, Block, LvlPages;
    if m > 0 {
      PutNode(pt, home, l, v, t, e, m - 1, q);
      NodeHome(pt, home, l, v);
      NodeHome(pt, home, m - 1, q);
      BlockStep(pt.guest, v, l);
      BlockStep(pt.guest, q, m - 1);
    }
  }

  lemma PutEntry(pt: PT, home: map<nat, Home>, l: nat, v: nat, t: nat, e: Pte, m: nat, q: nat)
    requires WF(pt, home) && l < LEVELS && m < LEVELS && Node(pt, l, v) == Some(t)
    requires t in pt.tables && Index(pt.guest, v, l) < |pt.tables[t]|
    ensures m < l || Block(pt.guest, q, l) != Block(pt.guest, v, l) ==>
              EntryAt(Put(pt, t, Index(pt.guest, v, l), e), m, q) == EntryAt(pt, m, q)
    ensures m == l && Block(pt.guest, q, l) == Block(pt.guest, v, l) ==>
              EntryAt(Put(pt, t, Index(pt.guest, v, l), e), m, q) == e
  {
    hide Index, Block, LvlPages;
    if m <= l || Block(pt.guest, q, l) != Block(pt.guest, v, l) {
      PutNode(pt, home, l, v, t, e, m, q);
      NodeHome(pt, home, l, v);
      NodeHome(pt, home, m, q);
      BlockStep(pt.guest, v, l);
      BlockStep(pt.guest, q, m);
      if Block(pt.guest, q, l) == Block(pt.guest, v, l) { SharedWalk(pt, l, q, v); }
    }
  }

  // Writing an entry that ends the walk gives its block the meaning of the entry, and nothing else changes.
  lemma PutLook(pt: PT, home: map<nat, Home>, l: nat, v: nat, t: nat, e: Pte, q: nat)
    requires WF(pt, home) && l < LEVELS && Node(pt, l, v) == Some(t) && !e.kind.Next?
    requires t in pt.tables && Index(pt.guest, v, l) < |pt.tables[t]|
    ensures var pt' := Put(pt, t, Index(pt.guest, v, l), e);
            if Block(pt.guest, q, l) == Block(pt.guest, v, l)
            then EndLevel(pt', q) == l && Look(pt', q) == CellOf(e, l, q)
            else EndLevel(pt', q) == EndLevel(pt, q) && Look(pt', q) == Look(pt, q)
  {
    hide Index, Block, LvlPages;
    PutEntry(pt, home, l, v, t, e, 0, q);
    PutEntry(pt, home, l, v, t, e, 1, q);
    PutEntry(pt, home, l, v, t, e, 2, q);
    if Block(pt.guest, q, l) == Block(pt.guest, v, l) {
      SharedWalk(pt, l, q, v);
      ReachedEnds(pt, home, l, q);
      EndReached(pt, home, q);
    }
  }

  // ---------------------------------------------------------------- installing a table

  // A page that no entry points to becomes a table; entry (t, Index(v, l)) then points to it.
  function Install(pt: PT, t: nat, i: nat, t': nat, entries: seq<Pte>): PT
    requires t in pt.tables && i < |pt.tables[t]| && t' !in pt.tables
  {
    Put(pt.(tables := pt.tables[t' := entries]), t, i, Pte(Next, t', 0, 0))
  }

  // Writing entry j of the installed table.
  lemma InstallSet(pt: PT, t: nat, i: nat, t': nat, entries: seq<Pte>, j: nat, e: Pte)
    requires t in pt.tables && i < |pt.tables[t]| && t' !in pt.tables && j < |entries|
    ensures var q := Install(pt, t, i, t', entries);
            && t' in q.tables && q.tables[t'] == entries
            && q.(tables := q.tables[t' := entries[j := e]]) == Install(pt, t, i, t', entries[j := e])
  {
  }

  lemma InstallEdge(pt: PT, t: nat, i: nat, t': nat, entries: seq<Pte>)
    requires t in pt.tables && i < |pt.tables[t]| && t' !in pt.tables
    ensures var q := Install(pt, t, i, t', entries);
            && t in q.tables && i < |q.tables[t]| && q.tables[t][i].addr == t'
            && q.guest == pt.guest && q.root == pt.root && q.tables.Keys == pt.tables.Keys + {t'}
  {
  }

  // The entries of a new level-l table all end the walk.
  ghost predicate EndEntries(entries: seq<Pte>, l: nat)
  {
    && |entries| == 512
    && (forall j: nat | j < 512 :: !entries[j].kind.Next?)
    && (forall j: nat | j < 512 && entries[j].kind.Final? ::
          entries[j].rsw == 0 && Aligned(entries[j].addr, l) && entries[j].addr < FRAMES)
  }

  lemma {:induction false} ExtendNode(pt: PT, home: map<nat, Home>, t': nat, entries: seq<Pte>, m: nat, q: nat)
    requires WF(pt, home) && m < LEVELS && t' !in pt.tables
    ensures Node(pt.(tables := pt.tables[t' := entries]), m, q) == Node(pt, m, q)
    ensures EntryAt(pt.(tables := pt.tables[t' := entries]), m, q) == EntryAt(pt, m, q)
  {
    NodeHome(pt, home, m, q);
    if m > 0 {
      ExtendNode(pt, home, t', entries, m - 1, q);
      NodeHome(pt, home, m - 1, q);
    }
  }

  lemma ExtendWF(pt: PT, home: map<nat, Home>, t': nat, entries: seq<Pte>, l: nat, b: nat)
    requires WF(pt, home) && l < 2 && t' !in pt.tables && EndEntries(entries, l + 1)
    ensures WF(pt.(tables := pt.tables[t' := entries]), home[t' := Home(l + 1, b)])
  {
    var pt' := pt.(tables := pt.tables[t' := entries]);
    var home' := home[t' := Home(l + 1, b)];
    forall s: nat, j: nat | s in pt'.tables && j < |pt'.tables[s]| ensures GoodEntry(pt', home', s, j) {
      if s != t' { assert GoodEntry(pt, home, s, j); }
    }
  }

  lemma InstallWF(pt: PT, home: map<nat, Home>, l: nat, v: nat, t: nat, t': nat, entries: seq<Pte>)
    requires WF(pt, home) && l < 2 && Node(pt, l, v) == Some(t)
    requires t' !in pt.tables && t' < FRAMES && EndEntries(entries, l + 1)
    ensures t in pt.tables && Index(pt.guest, v, l) < |pt.tables[t]|
    ensures WF(Install(pt, t, Index(pt.guest, v, l), t', entries), home[t' := Home(l + 1, Block(pt.guest, v, l))])
  {
    NodeHome(pt, home, l, v);
    var pt1 := pt.(tables := pt.tables[t' := entries]);
    var home' := home[t' := Home(l + 1, Block(pt.guest, v, l))];
    ExtendWF(pt, home, t', entries, l, Block(pt.guest, v, l));
    ExtendNode(pt, home, t', entries, l, v);
    hide Node, EntryAt, Index, Block;
    PutWF(pt1, home', l, v, t, Pte(Next, t', 0, 0));
  }

  // Under the installed table a page means what its new entry says; elsewhere nothing changes.
  lemma InstallLook(pt: PT, home: map<nat, Home>, l: nat, v: nat, t: nat, t': nat, entries: seq<Pte>, q: nat)
    requires WF(pt, home) && l < 2 && Node(pt, l, v) == Some(t)
    requires t' !in pt.tables && t' < FRAMES && EndEntries(entries, l + 1)
    requires t in pt.tables && Index(pt.guest, v, l) < |pt.tables[t]|
    ensures var pt' := Install(pt, t, Index(pt.guest, v, l), t', entries);
            if Block(pt.guest, q, l) == Block(pt.guest, v, l)
            then EndLevel(pt', q) == l + 1 && Look(pt', q) == CellOf(entries[Index(pt.guest, q, l + 1)], l + 1, q)
            else EndLevel(pt', q) == EndLevel(pt, q) && Look(pt', q) == Look(pt, q)
    ensures Node(Install(pt, t, Index(pt.guest, v, l), t', entries), l + 1, v) == Some(t')
  {
    hide Index, Block, LvlPages;
    var pt1 := pt.(tables := pt.tables[t' := entries]);
    var home' := home[t' := Home(l + 1, Block(pt.guest, v, l))];
    var e := Pte(Next, t', 0, 0);
    var pt' := Install(pt, t, Index(pt.guest, v, l), t', entries);
    ExtendWF(pt, home, t', entries, l, Block(pt.guest, v, l));
    InstallWF(pt, home, l, v, t, t', entries);
    ExtendNode(pt, home, t', entries, l, v);
    NodeHome(pt, home, l, v);
    forall m: nat | m < LEVELS
      ensures m < l || Block(pt.guest, q, l) != Block(pt.guest, v, l) ==> EntryAt(pt', m, q) == EntryAt(pt, m, q)
    {
      ExtendNode(pt, home, t', entries, m, q);
      PutEntry(pt1, home', l, v, t, e, m, q);
    }
    InstallEntry(pt, home, l, v, t, t', entries, v);
    if Block(pt.guest, q, l) == Block(pt.guest, v, l) {
      InstallEntry(pt, home, l, v, t, t', entries, q);
      EndReached(pt', home', q);
    }
  }

  lemma InstallEntry(pt: PT, home: map<nat, Home>, l: nat, v: nat, t: nat, t': nat, entries: seq<Pte>, q: nat)
    requires WF(pt, home) && l < 2 && Node(pt, l, v) == Some(t)
    requires t' !in pt.tables && t' < FRAMES && EndEntries(entries, l + 1)
    requires t in pt.tables && Index(pt.guest, v, l) < |pt.tables[t]| && Block(pt.guest, q, l) == Block(pt.guest, v, l)
    ensures var pt' := Install(pt, t, Index(pt.guest, v, l), t', entries);
            && EntryAt(pt', l, q).kind.Next? && Node(pt', l + 1, q) == Some(t')
            && EntryAt(pt', l + 1, q) == entries[Index(pt.guest, q, l + 1)]
            && EndLevel(pt', q) == l + 1
  {
    hide Index, Block, LvlPages;
    var pt1 := pt.(tables := pt.tables[t' := entries]);
    var home' := home[t' := Home(l + 1, Block(pt.guest, v, l))];
    var e := Pte(Next, t', 0, 0);
    var pt' := Install(pt, t, Index(pt.guest, v, l), t', entries);
    ExtendWF(pt, home, t', entries, l, Block(pt.guest, v, l));
    InstallWF(pt, home, l, v, t, t', entries);
    ExtendNode(pt, home, t', entries, l, v);
    NodeHome(pt, home, l, v);
    PutEntry(pt1, home', l, v, t, e, l, q);
    SharedWalk(pt, l, q, v);
    ExtendNode(pt, home, t', entries, l, q);
    PutNode(pt1, home', l, v, t, e, l, q);
    NodeHome(pt', home', l, q);
    NodeHome(pt', home', l + 1, q);
    ReachedEnds(pt', home', l + 1, q);
  }
}
