/**
 The steps the page-table manager is made of, on values: mapping a block, splitting an entry.
 */
module MapStep {
  import opened Arith
  import opened Platform
  import opened PageTable
  import opened TableUpdate
  import opened PageRange
  import PagePool

  // Off the range [v, v + n) every page means what it did.
  ghost predicate Framed(was: PT, pt: PT, v: nat, n: nat)
  {
    && pt.guest == was.guest
    && (forall p: nat | !Hits(pt.guest, p, v, n) :: Look(pt, p) == Look(was, p))
  }

  // The pages from v on are mapped to `frames`, in order.
  ghost predicate MapsTo(pt: PT, v: nat, frames: seq<nat>, flags: bv8)
  {
    forall q: nat | v <= q < v + |frames| :: Look(pt, q) == Mapped(frames[q - v], flags)
  }

  function Run(base: nat, n: nat): (s: seq<nat>)
    ensures |s| == n && forall k: nat | k < n :: s[k] == base + k
  {
    seq(n, k requires 0 <= k => base + k)
  }

  // Where a byte address is sent: the meaning of mem_translate.
  ghost function Translate(pt: PT, va: nat): Option<nat>
  {
    match Look(pt, va / 4096)
    case Mapped(page, _) => Some(page * 4096 + va % 4096)
    case Unmapped(_) => None
  }

  // After a range is mapped to consecutive pages, every byte of it is sent to the same offset from the first page, and
  // every byte address that does not alias the range is sent where it was.
  lemma FlatMap(was: PT, pt: PT, v: nat, page: nat, n: nat, flags: bv8, va: nat)
    requires Framed(was, pt, v, n) && MapsTo(pt, v, Run(page, n), flags)
    ensures v * 4096 <= va < (v + n) * 4096 ==> Translate(pt, va) == Some(page * 4096 + (va - v * 4096))
    ensures !Hits(pt.guest, va / 4096, v, n) ==> Translate(pt, va) == Translate(was, va)
  {
    hide Look, Hits;
  }

  lemma BlockMeaning(pt: PT, home: map<nat, Home>, u: nat, l: nat, t: nat, e: Pte, q: nat)
    requires WF(pt, home) && l < LEVELS && Node(pt, l, u) == Some(t) && !e.kind.Next?
    requires t in pt.tables && Index(pt.guest, u, l) < |pt.tables[t]|
    requires Aligned(u, l)
    ensures var pt' := Put(pt, t, Index(pt.guest, u, l), e);
            && (Hits(pt.guest, q, u, LvlPages(l)) ==> EndLevel(pt', q) == l && Look(pt', q) == CellOf(e, l, q))
            && (!Hits(pt.guest, q, u, LvlPages(l)) ==>
                EndLevel(pt', q) == EndLevel(pt, q) && Look(pt', q) == Look(pt, q))
  {
    hide *;
    PutLook(pt, home, l, u, t, e, q);
    BlockHits(pt.guest, q, u, l);
  }

  // One turn of the inner loop of mem_map: a leaf for the block at v + |frames|.
  lemma MapBlock(was: PT, pt: PT, home: map<nat, Home>, v: nat, frames: seq<nat>, l: nat, t: nat, pa: nat, flags: bv8)
    requires WF(pt, home) && l < LEVELS && Node(pt, l, v + |frames|) == Some(t)
    requires Aligned(v + |frames|, l) && Aligned(pa, l) && pa < FRAMES
    requires |frames| + LvlPages(l) <= NBlocks(pt.guest, 2)
    requires Framed(was, pt, v, |frames|) && MapsTo(pt, v, frames, flags)
    ensures t in pt.tables && Index(pt.guest, v + |frames|, l) < |pt.tables[t]|
    ensures var pt' := Put(pt, t, Index(pt.guest, v + |frames|, l), Pte(Final, pa, flags, 0));
            && WF(pt', home) && Framed(was, pt', v, |frames| + LvlPages(l))
            && MapsTo(pt', v, frames + Run(pa, LvlPages(l)), flags)
  {
    hide Node, EntryAt, Index, Block, Look, EndLevel, Hits, WF, LvlPages, NBlocks;
    var c, n := |frames|, LvlPages(l);
    var u, e := v + c, Pte(Final, pa, flags, 0);
    PutWF(pt, home, l, u, t, e);
    var pt' := Put(pt, t, Index(pt.guest, u, l), e);
    forall p: nat | !Hits(pt.guest, p, v, c + n) ensures Look(pt', p) == Look(was, p) {
      HitsSplit(pt.guest, p, v, c, n);
      BlockMeaning(pt, home, u, l, t, e, p);
    }
    var frames' := frames + Run(pa, n);
    forall q: nat | v <= q < v + |frames'| ensures Look(pt', q) == Mapped(frames'[q - v], flags) {
      BlockMeaning(pt, home, u, l, t, e, q);
      if q < u {
        NotHit(pt.guest, q, u, n);
      } else {
        OwnHit(pt.guest, q, u, n);
        InBlock(pt.guest, u, q - u, l);
      }
    }
  }

  lemma SameLooks(was: PT, pt1: PT, pt2: PT, v: nat, frames: seq<nat>, flags: bv8)
    requires Framed(was, pt1, v, |frames|) && MapsTo(pt1, v, frames, flags)
    requires pt2.guest == pt1.guest && forall q: nat :: Look(pt2, q) == Look(pt1, q)
    ensures Framed(was, pt2, v, |frames|) && MapsTo(pt2, v, frames, flags)
  {
    hide Look, Hits;
  }

  lemma StartMap(pt: PT, v: nat, flags: bv8, n: nat, taken: set<nat>)
    ensures Framed(pt, pt, v, 0) && MapsTo(pt, v, [], flags) && Framed(pt, pt, v, n)
    ensures Grew(taken, taken, pt.tables.Keys, pt.tables.Keys, [], true)
    ensures Grew(taken, taken, pt.tables.Keys, pt.tables.Keys, [], false)
  {
  }

  // Pages of the range not reached yet still mean what they did.
  lemma FramedAhead(was: PT, pt: PT, v: nat, c: nat, q: nat)
    requires Framed(was, pt, v, c) && v + c <= q < v + NBlocks(pt.guest, 2)
    ensures Look(pt, q) == Look(was, q)
  {
    forall p: nat | v <= p < v + c ensures !SamePage(pt.guest, q, p) { NoAlias(pt.guest, p, q); }
  }

  lemma NotHit(guest: bool, q: nat, u: nat, n: nat)
    requires q < u && u + n <= q + NBlocks(guest, 2)
    ensures !Hits(guest, q, u, n)
  {
    hide Block, NBlocks;
    forall p: nat | u <= p < u + n ensures !SamePage(guest, q, p) { NoAlias(guest, q, p); }
  }

  lemma OwnHit(guest: bool, q: nat, u: nat, n: nat)
    requires u <= q < u + n
    ensures Hits(guest, q, u, n)
  {
    assert SamePage(guest, q, q);
  }

  // ---------------------------------------------------------------- splitting

  // What the new table of mem_expand_pte holds, for the entry e it replaces.
  function SplitEntry(e: Pte, l: nat, j: nat, flags: bv8): Pte
  {
    if e.kind.Final? then Pte(Final, e.addr + j * LvlPages(l + 1), flags, 0) else Pte(Empty, 0, 0, e.rsw)
  }

  function SplitTable(e: Pte, l: nat, flags: bv8): (s: seq<Pte>)
    ensures |s| == 512 && forall j: nat | j < 512 :: s[j] == SplitEntry(e, l, j, flags)
  {
    seq(512, j requires 0 <= j => SplitEntry(e, l, j, flags))
  }

  lemma SplitEnds(e: Pte, l: nat, flags: bv8)
    requires l < 2 && (e.kind.Final? ==> Aligned(e.addr, l) && e.addr < FRAMES)
    ensures EndEntries(SplitTable(e, l, flags), l + 1)
  {
    if e.kind.Final? {
      forall j: nat | j < 512
        ensures Aligned(SplitTable(e, l, flags)[j].addr, l + 1) && SplitTable(e, l, flags)[j].addr < FRAMES
      {
        PieceAligned(e.addr, j, l);
      }
    }
  }

  lemma PieceAligned(addr: nat, j: nat, l: nat)
    requires l < 2 && Aligned(addr, l)
    ensures Aligned(addr + j * LvlPages(l + 1), l + 1)
    ensures addr < FRAMES && j < 512 ==> addr + j * LvlPages(l + 1) < FRAMES
  {
    DivUnique(addr + j * LvlPages(l + 1), LvlPages(l + 1), addr / LvlPages(l) * 512 + j, 0);
  }

  // The meaning of the page is kept, up to the flags of a split superpage.
  predicate SameMeaning(c: Cell, d: Cell)
  {
    if c.Mapped? then d.Mapped? && c.page == d.page else c == d
  }

  // The level-l entry on the walk of v is split.
  lemma SplitLook(pt: PT, home: map<nat, Home>, l: nat, v: nat, t: nat, t': nat, flags: bv8, q: nat)
    requires WF(pt, home) && l < 2 && Node(pt, l, v) == Some(t) && t' !in pt.tables && t' < FRAMES
    requires !EntryAt(pt, l, v).kind.Next?
    ensures t in pt.tables && Index(pt.guest, v, l) < |pt.tables[t]|
    ensures var e := EntryAt(pt, l, v);
            var pt' := Install(pt, t, Index(pt.guest, v, l), t', SplitTable(e, l, flags));
            var inside := Block(pt.guest, q, l) == Block(pt.guest, v, l);
            && WF(pt', home[t' := Home(l + 1, Block(pt.guest, v, l))])
            && Node(pt', l + 1, v) == Some(t')
            && SameMeaning(Look(pt, q), Look(pt', q))
            && (inside && e.kind.Final? ==> Look(pt, q).Mapped? && Look(pt', q) == Mapped(Look(pt, q).page, flags))
            && (!(inside && e.kind.Final?) ==> Look(pt', q) == Look(pt, q))
            && (inside ==> EndLevel(pt', q) == l + 1)
            && (!inside ==> EndLevel(pt', q) == EndLevel(pt, q))
  {
    var e := EntryAt(pt, l, v);
    NodeHome(pt, home, l, v);
    SplitEnds(e, l, flags);
    InstallWF(pt, home, l, v, t, t', SplitTable(e, l, flags));
    InstallLook(pt, home, l, v, t, t', SplitTable(e, l, flags), q);
    if Block(pt.guest, q, l) == Block(pt.guest, v, l) {
      SharedWalk(pt, l, q, v);
      ReachedEnds(pt, home, l, q);
      IndexBelow(pt.guest, q, l);
    }
  }

  // What splitting the level-l entry of v does to page q: it keeps its meaning, and its flags too unless it lies
  // in a superpage that was split; the walk grows by a level inside the block and nowhere else.
  ghost predicate SplitsAt(was: PT, pt: PT, v: nat, l: nat, flags: bv8, q: nat)
  {
    var inside := Block(was.guest, q, l) == Block(was.guest, v, l) && EndLevel(was, v) == l && l < 2;
    && pt.guest == was.guest
    && SameMeaning(Look(was, q), Look(pt, q))
    && (inside && Look(was, v).Mapped? ==> Look(was, q).Mapped? && Look(pt, q) == Mapped(Look(was, q).page, flags))
    && (!(inside && Look(was, v).Mapped?) ==> Look(pt, q) == Look(was, q))
    && EndLevel(pt, q) == if inside then l + 1 else EndLevel(was, q)
  }

  // A table of entries that carry only software bits.
  function Defaults(rsw: nat): (s: seq<Pte>)
    ensures |s| == 512 && forall j: nat | j < 512 :: s[j] == Pte(Empty, 0, 0, rsw)
  {
    seq(512, j requires 0 <= j => Pte(Empty, 0, 0, rsw))
  }

  // SplitLook, in the words of SplitsAt.
  lemma SplitMeans(pt: PT, home: map<nat, Home>, l: nat, v: nat, t: nat, t': nat, flags: bv8, q: nat)
    requires WF(pt, home) && l < 2 && Node(pt, l, v) == Some(t) && t' !in pt.tables && t' < FRAMES
    requires !EntryAt(pt, l, v).kind.Next?
    requires t in pt.tables && Index(pt.guest, v, l) < |pt.tables[t]|
    ensures var pt' := Install(pt, t, Index(pt.guest, v, l), t', SplitTable(EntryAt(pt, l, v), l, flags));
            SplitsAt(pt, pt', v, l, flags, q)
  {
    SplitLook(pt, home, l, v, t, t', flags, q);
    hide Node, EntryAt, EndLevel, Look, Index, Block, WF, SplitTable;
    ReachedEnds(pt, home, l, v);
    WalkableMeans(pt, home, l, v);
  }

  lemma NoSplit(pt: PT, v: nat, l: nat, flags: bv8)
    requires l >= 2 || EndLevel(pt, v) != l
    ensures forall q: nat :: SplitsAt(pt, pt, v, l, flags, q)
  {
  }

  lemma DefaultsSplit(e: Pte, l: nat, flags: bv8)
    requires e.kind.Empty?
    ensures Defaults(e.rsw) == SplitTable(e, l, flags)
  {
  }

  lemma {:induction false} NoNode(pt: PT, m: nat, l: nat, v: nat)
    requires m <= l && Node(pt, m, v).None?
    ensures Node(pt, l, v).None?
  {
    if m < l { NoNode(pt, m, l - 1, v); }
  }

  // A level the walk of v reaches, or would reach if its end were a table: no leaf is in the way.
  ghost predicate Walkable(pt: PT, l: nat, v: nat)
  {
    l <= EndLevel(pt, v) || Look(pt, v).Unmapped?
  }

  lemma WalkableMeans(pt: PT, home: map<nat, Home>, l: nat, v: nat)
    requires WF(pt, home) && l < LEVELS && Walkable(pt, l, v)
    ensures forall m: nat | m < l :: !EntryAt(pt, m, v).kind.Final?
    ensures Node(pt, l, v).Some? <==> l <= EndLevel(pt, v)
    ensures l < EndLevel(pt, v) ==> EntryAt(pt, l, v).kind.Next?
    ensures l == EndLevel(pt, v) ==> !EntryAt(pt, l, v).kind.Next? && Look(pt, v) == CellOf(EntryAt(pt, l, v), l, v)
  {
    EndReached(pt, home, v);
    NodeHome(pt, home, 0, v); NodeHome(pt, home, 1, v); NodeHome(pt, home, 2, v);
    if l <= EndLevel(pt, v) { ReachedIfEnd(pt, home, l, v); }
    if EndLevel(pt, v) < l { NoNode(pt, EndLevel(pt, v) + 1, l, v); }
  }

  lemma {:induction false} ReachedIfEnd(pt: PT, home: map<nat, Home>, l: nat, v: nat)
    requires WF(pt, home) && l <= EndLevel(pt, v)
    ensures Node(pt, l, v).Some?
  {
    EndReached(pt, home, v);
  }

  // ---------------------------------------------------------------- pages handed out

  ghost function Elems(s: seq<nat>): (e: set<nat>)
    ensures forall f: nat :: f in e <==> f in s
  {
    set f | f in s
  }

  ghost predicate Distinct(s: seq<nat>)
  {
    forall j: nat, k: nat | j < k < |s| :: s[j] != s[k]
  }

  // What an operation took from the allocator: new tables, and frames when it allocates them itself.
  ghost predicate Grew(taken0: set<nat>, taken: set<nat>, keys0: set<nat>, keys: set<nat>, frames: seq<nat>, own: bool)
  {
    && keys0 <= keys && (keys - keys0) !! taken0
    && taken == taken0 + (keys - keys0) + (if own then Elems(frames) else {})
    && (own ==> Elems(frames) !! taken0 && Elems(frames) !! keys && Distinct(frames))
  }

  lemma GrewTwice(taken0: set<nat>, taken1: set<nat>, taken: set<nat>, keys0: set<nat>, keys1: set<nat>, keys: set<nat>,
                  frames: seq<nat>, own: bool)
    requires Grew(taken0, taken1, keys0, keys1, frames, own) && Grew(taken1, taken, keys1, keys, [], false)
    requires keys0 <= taken0 && keys1 <= taken1
    ensures Grew(taken0, taken, keys0, keys, frames, own)
  {
    hide Elems, Distinct;
  }

  lemma GrewThen(taken0: set<nat>, taken1: set<nat>, taken: set<nat>, keys0: set<nat>, keys1: set<nat>, keys: set<nat>,
                 frames: seq<nat>, own: bool)
    requires Grew(taken0, taken1, keys0, keys1, [], false) && Grew(taken1, taken, keys1, keys, frames, own)
    requires keys0 <= taken0 && keys1 <= taken1
    ensures Grew(taken0, taken, keys0, keys, frames, own)
  {
  }

  lemma GrewNotOwn(taken0: set<nat>, taken: set<nat>, keys0: set<nat>, keys: set<nat>, s: seq<nat>, s': seq<nat>)
    requires Grew(taken0, taken, keys0, keys, s, false)
    ensures Grew(taken0, taken, keys0, keys, s', false)
  {
  }

  lemma GrewRun(taken0: set<nat>, taken: set<nat>, keys0: set<nat>, keys: set<nat>, frames: seq<nat>, pa: nat, n: nat)
    requires Grew(taken0, taken, keys0, keys, frames, true) && PagePool.Range(pa, n) !! taken && keys0 <= taken0
    ensures Grew(taken0, taken + PagePool.Range(pa, n), keys0, keys, frames + Run(pa, n), true)
  {
    hide PagePool.Range, Run, Distinct, Elems;
    var run := PagePool.Range(pa, n);
    FrameSet(frames, pa, n);
    RunTaken(taken0, taken, keys0, keys, Elems(frames), run);
    RunDistinct(frames, pa, n, taken);
  }

  lemma RunTaken(taken0: set<nat>, taken: set<nat>, keys0: set<nat>, keys: set<nat>, own: set<nat>, run: set<nat>)
    requires taken == taken0 + (keys - keys0) + own && run !! taken && keys0 <= taken0
    requires own !! taken0 && own !! keys
    ensures taken + run == taken0 + (keys - keys0) + (own + run) && (own + run) !! taken0 && (own + run) !! keys
  {
  }

  lemma RunDistinct(frames: seq<nat>, pa: nat, n: nat, taken: set<nat>)
    requires Distinct(frames) && PagePool.Range(pa, n) !! taken && forall f | f in frames :: f in taken
    ensures Distinct(frames + Run(pa, n))
  {
    hide PagePool.Range, Run;
    var frames' := frames + Run(pa, n);
    forall j: nat, k: nat | j < k < |frames'| ensures frames'[j] != frames'[k] {
      if j < |frames| <= k {
        assert frames[j] in frames && frames'[k] in PagePool.Range(pa, n);
      }
    }
  }

  lemma FrameSet(frames: seq<nat>, pa: nat, n: nat)
    ensures Elems(frames + Run(pa, n)) == Elems(frames) + PagePool.Range(pa, n)
  {
    hide PagePool.Range, Run;
    var frames' := frames + Run(pa, n);
    forall f: nat | f in PagePool.Range(pa, n) ensures f in frames' { assert frames'[|frames| + (f - pa)] == f; }
  }

  // ---------------------------------------------------------------- unmapping

  // The same meaning, the flags being either the old ones or those of a split superpage.
  predicate Kept(c: Cell, d: Cell, flags: bv8)
  {
    d == c || (c.Mapped? && d == Mapped(c.page, flags))
  }

  // The first c pages from v are unmapped; every other page is kept.
  ghost predicate Cleared(was: PT, pt: PT, v: nat, c: nat, flags: bv8)
  {
    && pt.guest == was.guest
    && (forall q: nat | v <= q < v + c :: Look(pt, q) == Unmapped(0))
    && (forall p: nat | !Hits(pt.guest, p, v, c) :: Kept(Look(was, p), Look(pt, p), flags))
  }

  // After a range is unmapped exactly its bytes, and those aliasing it, are sent nowhere.
  lemma FlatUnmap(was: PT, pt: PT, v: nat, n: nat, flags: bv8, va: nat)
    requires Cleared(was, pt, v, n, flags)
    ensures v * 4096 <= va < (v + n) * 4096 ==> Translate(pt, va) == None
    ensures !Hits(pt.guest, va / 4096, v, n) ==> Translate(pt, va) == Translate(was, va)
  {
    hide Look, Hits;
    assert v * 4096 <= va < (v + n) * 4096 ==> v <= va / 4096 < v + n;
    assert !Hits(pt.guest, va / 4096, v, n) ==> Kept(Look(was, va / 4096), Look(pt, va / 4096), flags);
  }

  // All pages of [v, v + n) have a second-level table.
  ghost predicate Below(pt: PT, v: nat, n: nat)
  {
    forall q: nat | v <= q < v + n :: EndLevel(pt, q) >= 1
  }

  lemma ClearBlock(was: PT, pt: PT, home: map<nat, Home>, v: nat, c: nat, n: nat, l: nat, t: nat, flags: bv8)
    requires WF(pt, home) && l < LEVELS && Node(pt, l, v + c) == Some(t) && Aligned(v + c, l)
    requires c + LvlPages(l) <= n <= NBlocks(pt.guest, 2) && Cleared(was, pt, v, c, flags)
    ensures t in pt.tables && Index(pt.guest, v + c, l) < |pt.tables[t]|
    ensures var pt' := Put(pt, t, Index(pt.guest, v + c, l), Pte(Empty, 0, 0, 0));
            && WF(pt', home) && Cleared(was, pt', v, c + LvlPages(l), flags)
            && (l >= 1 && Below(pt, v, n) ==> Below(pt', v, n))
            && (Index(pt.guest, v + c, l) + 1 < NEntries(pt.guest, l) ==> Node(pt', l, v + c) == Some(t))
  {
    hide Node, EntryAt, Index, Block, Look, EndLevel, Hits, WF, LvlPages, NBlocks, Aligned, Kept;
    var u, k, e := v + c, LvlPages(l), Pte(Empty, 0, 0, 0);
    PutWF(pt, home, l, u, t, e);
    PutNode(pt, home, l, u, t, e, l, u);
    var pt' := Put(pt, t, Index(pt.guest, u, l), e);
    forall p: nat | !Hits(pt.guest, p, v, c + k) ensures Kept(Look(was, p), Look(pt', p), flags) {
      HitsSplit(pt.guest, p, v, c, k);
      BlockMeaning(pt, home, u, l, t, e, p);
    }
    forall q: nat | v <= q < u + k ensures Look(pt', q) == Unmapped(0) {
      BlockMeaning(pt, home, u, l, t, e, q);
      if q < u { NotHit(pt.guest, q, u, k); } else { OwnHit(pt.guest, q, u, k); }
    }
    if l >= 1 && Below(pt, v, n) {
      forall q: nat | v <= q < v + n ensures EndLevel(pt', q) >= 1 { BlockMeaning(pt, home, u, l, t, e, q); }
    }
  }

  lemma ClearStart(pt: PT, v: nat, flags: bv8)
    ensures Cleared(pt, pt, v, 0, flags)
  {
  }

  // Pages not reached yet are still mapped.
  lemma StillMapped(was: PT, pt: PT, v: nat, c: nat, flags: bv8, q: nat)
    requires Cleared(was, pt, v, c, flags) && v + c <= q < v + NBlocks(pt.guest, 2) && Look(was, q).Mapped?
    ensures Look(pt, q).Mapped?
  {
    forall p: nat | v <= p < v + c ensures !SamePage(pt.guest, q, p) { NoAlias(pt.guest, p, q); }
  }

  // Splitting keeps what has been done.
  lemma ClearedSplit(was: PT, pt: PT, pt': PT, v: nat, c: nat, n: nat, u: nat, l: nat, flags: bv8)
    requires Cleared(was, pt, v, c, flags) && forall q: nat :: SplitsAt(pt, pt', u, l, flags, q)
    ensures Cleared(was, pt', v, c, flags)
    ensures Below(pt, v, n) ==> Below(pt', v, n)
    ensures EndLevel(pt, u) == l < 2 ==> EndLevel(pt', u) == l + 1
  {
    hide Look, EndLevel, Hits, Block;
    assert SplitsAt(pt, pt', u, l, flags, u);
    forall q: nat | v <= q < v + c ensures Look(pt', q) == Unmapped(0) { assert SplitsAt(pt, pt', u, l, flags, q); }
    forall p: nat | !Hits(pt.guest, p, v, c) ensures Kept(Look(was, p), Look(pt', p), flags) {
      assert SplitsAt(pt, pt', u, l, flags, p);
    }
    if Below(pt, v, n) {
      forall q: nat | v <= q < v + n ensures EndLevel(pt', q) >= 1 { assert SplitsAt(pt, pt', u, l, flags, q); }
    }
  }

  // Inside one root block: splitting the root entry puts every page below it.
  lemma RootSplit(pt: PT, pt': PT, v: nat, n: nat, u: nat, flags: bv8)
    requires OneRoot(v, n) && v <= u < v + n && EndLevel(pt, u) == 0
    requires forall q: nat :: SplitsAt(pt, pt', u, 0, flags, q)
    ensures Below(pt', v, n)
  {
    hide Look, EndLevel;
    forall q: nat | v <= q < v + n ensures EndLevel(pt', q) >= 1 {
      assert SplitsAt(pt, pt', u, 0, flags, q);
      assert q / LvlPages(0) == u / LvlPages(0);
    }
  }

  lemma RootTable(pt: PT, v: nat, n: nat, u: nat)
    requires OneRoot(v, n) && v <= u < v + n && EndLevel(pt, u) >= 1
    ensures Below(pt, v, n)
  {
    forall q: nat | v <= q < v + n ensures EndLevel(pt, q) >= 1 {
      assert q / LvlPages(0) == u / LvlPages(0);
      SharedWalk(pt, 0, q, u);
    }
  }

  // The n pages from v lie under one root entry.
  predicate OneRoot(v: nat, n: nat)
  {
    n > 0 ==> v / LvlPages(0) == (v + n - 1) / LvlPages(0)
  }

  lemma RootEnds(v: nat, n: nat, u: nat)
    requires OneRoot(v, n) && v < u <= v + n && Aligned(u, 0)
    ensures u == v + n
  {
  }

  // Past the last entry of a second-level table begins another root entry.
  lemma TableEnds(guest: bool, u: nat)
    requires Aligned(u, 1) && Index(guest, u, 1) == 511
    ensures Aligned(u + LvlPages(1), 0)
  {
  }

  lemma WholeRoot(v: nat, n: nat, u: nat)
    requires OneRoot(v, n) && v <= u && u + LvlPages(0) <= v + n && Aligned(u, 0)
    ensures u + LvlPages(0) == v + n
  {
    RootEnds(v, n, u + LvlPages(0));
  }
}
