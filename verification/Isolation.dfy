/**
 Spatial isolation over whole runs: what address spaces get through mem_alloc_map, without given frames and without
 colours, never shares a physical page with anything another space got, and is never a page that was taken before or
 that serves as a page table. The pages a space starts with, such as the identity map of the hypervisor, can be left
 out of account; with none left out, the spaces share no page at all.
 */
module Isolation {
  import opened PageTable
  import opened PageRange
  import opened MapStep
  import opened VpageStep
  import AS = AddrSpace
  import PagePool

  // Physical pages that hold page tables of the space.
  ghost function TablePages(pt: PT): set<nat>
  {
    pt.tables.Keys + PagePool.Range(pt.root, if pt.guest then 4 else 1)
  }

  predicate SameFrame(c: Cell, d: Cell)
  {
    c.Mapped? && d.Mapped? && c.page == d.page
  }

  // Page p is mapped and not left out of account.
  ghost predicate Counts(pt: PT, rest: iset<nat>, p: nat)
  {
    Look(pt, p).Mapped? && p !in rest
  }

  // The space's pages are all taken; it maps no page table of its own, and no frame at two pages.
  ghost predicate Owned(pt: PT, rest: iset<nat>, taken: set<nat>)
  {
    && TablePages(pt) <= taken
    && (forall p: nat | Counts(pt, rest, p) :: Look(pt, p).page in taken && Look(pt, p).page !in TablePages(pt))
    && (forall p: nat, q: nat | Counts(pt, rest, p) && Counts(pt, rest, q) ::
          SameFrame(Look(pt, p), Look(pt, q)) ==> SamePage(pt.guest, p, q))
  }

  // Two spaces share no page table and no frame, and neither maps a page table of the other.
  ghost predicate Apart(a: PT, restA: iset<nat>, b: PT, restB: iset<nat>)
  {
    && TablePages(a) !! TablePages(b)
    && (forall p: nat | Counts(a, restA, p) :: Look(a, p).page !in TablePages(b))
    && (forall q: nat | Counts(b, restB, q) :: Look(b, q).page !in TablePages(a))
    && (forall p: nat, q: nat | Counts(a, restA, p) && Counts(b, restB, q) :: !SameFrame(Look(a, p), Look(b, q)))
  }

  ghost predicate Isolated(pts: seq<PT>, rests: seq<iset<nat>>, taken: set<nat>)
  {
    && |rests| == |pts|
    && (forall i: nat | i < |pts| :: Owned(pts[i], rests[i], taken))
    && (forall i: nat, j: nat | i < |pts| && j < |pts| && i != j :: Apart(pts[i], rests[i], pts[j], rests[j]))
  }

  // A mapped page is mapped to one of the new frames, or is mapped as before.
  lemma Source(was: PT, pt: PT, v: nat, frames: seq<nat>, flags: bv8, p: nat)
    requires MapsFresh(was, pt, v, frames, flags) && Look(pt, p).Mapped?
    ensures if Hits(pt.guest, p, v, |frames|)
            then Look(pt, p).page in frames
            else Look(pt, p) == Look(was, p)
  {
    if Hits(pt.guest, p, v, |frames|) {
      var q: nat :| v <= q < v + |frames| && SamePage(pt.guest, p, q);
      SameLook(pt, p, q);
    }
  }

  lemma SameFresh(was: PT, pt: PT, v: nat, frames: seq<nat>, flags: bv8, p: nat, q: nat)
    requires MapsFresh(was, pt, v, frames, flags) && Distinct(frames) && SameFrame(Look(pt, p), Look(pt, q))
    requires Hits(pt.guest, p, v, |frames|) && Hits(pt.guest, q, v, |frames|)
    ensures SamePage(pt.guest, p, q)
  {
    var p': nat :| v <= p' < v + |frames| && SamePage(pt.guest, p, p');
    var q': nat :| v <= q' < v + |frames| && SamePage(pt.guest, q, q');
    SameLook(pt, p, p');
    SameLook(pt, q, q');
  }

  // What one mem_alloc_map does to the space it runs on.
  ghost predicate Step(was: PT, taken: set<nat>, pt: PT, taken': set<nat>, v: nat, frames: seq<nat>, flags: bv8)
  {
    && pt.root == was.root && MapsFresh(was, pt, v, frames, flags)
    && Grew(taken, taken', was.tables.Keys, pt.tables.Keys, frames, true)
  }

  lemma StepTables(was: PT, taken: set<nat>, pt: PT, taken': set<nat>, v: nat, frames: seq<nat>, flags: bv8)
    requires Step(was, taken, pt, taken', v, frames, flags) && TablePages(was) <= taken
    ensures taken <= taken' && TablePages(pt) <= taken'
    ensures TablePages(pt) * taken == TablePages(was)
    ensures forall f: nat | f in frames :: f in taken' && f !in taken && f !in TablePages(pt)
  {
    hide MapsFresh, PagePool.Range, Distinct, Elems;
    var own := Elems(frames);
    var rootPages := PagePool.Range(was.root, if was.guest then 4 else 1);
    SameGuest(was, pt, v, frames, flags);
    NewPages(was.tables.Keys, pt.tables.Keys, rootPages, taken, taken', own);
  }

  lemma NewPages(keys0: set<nat>, keys: set<nat>, rootPages: set<nat>, taken: set<nat>, taken': set<nat>, own: set<nat>)
    requires keys0 <= keys && (keys - keys0) !! taken && keys0 + rootPages <= taken
    requires taken' == taken + (keys - keys0) + own && own !! taken && own !! keys
    ensures taken <= taken' && keys + rootPages <= taken' && (keys + rootPages) * taken == keys0 + rootPages
    ensures own <= taken' && own !! keys + rootPages
  {
  }

  lemma StepOwned(was: PT, rest: iset<nat>, taken: set<nat>, pt: PT, taken': set<nat>, v: nat, frames: seq<nat>,
                  flags: bv8)
    requires Step(was, taken, pt, taken', v, frames, flags) && Owned(was, rest, taken)
    ensures Owned(pt, rest, taken')
  {
    hide Look, Hits, MapsFresh, TablePages, Distinct, SamePage;
    StepTables(was, taken, pt, taken', v, frames, flags);
    forall p: nat | Counts(pt, rest, p) ensures Look(pt, p).page in taken' && Look(pt, p).page !in TablePages(pt) {
      Source(was, pt, v, frames, flags, p);
      assert Look(pt, p) == Look(was, p) ==> Counts(was, rest, p);
    }
    forall p: nat, q: nat | Counts(pt, rest, p) && Counts(pt, rest, q)
      ensures SameFrame(Look(pt, p), Look(pt, q)) ==> SamePage(pt.guest, p, q)
    {
      Source(was, pt, v, frames, flags, p);
      Source(was, pt, v, frames, flags, q);
      assert Look(pt, p) == Look(was, p) ==> Counts(was, rest, p);
      assert Look(pt, q) == Look(was, q) ==> Counts(was, rest, q);
      if SameFrame(Look(pt, p), Look(pt, q)) {
        if Hits(pt.guest, p, v, |frames|) && Hits(pt.guest, q, v, |frames|) {
          SameFresh(was, pt, v, frames, flags, p, q);
        } else {
          assert SameFrame(Look(was, p), Look(was, q));
          SameGuest(was, pt, v, frames, flags);
        }
      }
    }
  }

  lemma SameGuest(was: PT, pt: PT, v: nat, frames: seq<nat>, flags: bv8)
    requires MapsFresh(was, pt, v, frames, flags)
    ensures pt.guest == was.guest
  {
  }

  lemma StepApart(was: PT, rest: iset<nat>, taken: set<nat>, pt: PT, taken': set<nat>, v: nat, frames: seq<nat>,
                  flags: bv8, b: PT, restB: iset<nat>)
    requires Step(was, taken, pt, taken', v, frames, flags) && Owned(was, rest, taken) && Owned(b, restB, taken)
    requires Apart(was, rest, b, restB)
    ensures Apart(pt, rest, b, restB) && Apart(b, restB, pt, rest)
  {
    hide Look, Hits, MapsFresh, TablePages, Distinct, SamePage;
    StepTables(was, taken, pt, taken', v, frames, flags);
    forall p: nat | Counts(pt, rest, p) ensures Look(pt, p).page !in TablePages(b) {
      Source(was, pt, v, frames, flags, p);
      assert Look(pt, p) == Look(was, p) ==> Counts(was, rest, p);
    }
    forall q: nat | Counts(b, restB, q) ensures Look(b, q).page !in TablePages(pt) {
      assert Look(b, q).page in taken;
    }
    forall p: nat, q: nat | Counts(pt, rest, p) && Counts(b, restB, q) ensures !SameFrame(Look(pt, p), Look(b, q)) {
      var before := SameFrame(Look(was, p), Look(b, q));
      Source(was, pt, v, frames, flags, p);
      assert Look(pt, p) == Look(was, p) ==> Counts(was, rest, p);
    }
  }

  lemma OwnedLater(b: PT, rest: iset<nat>, taken: set<nat>, taken': set<nat>)
    requires Owned(b, rest, taken) && taken <= taken'
    ensures Owned(b, rest, taken')
  {
  }

  // One mem_alloc_map on space k keeps all spaces isolated.
  lemma IsolatedStep(pts: seq<PT>, rests: seq<iset<nat>>, taken: set<nat>, k: nat, pt: PT, taken': set<nat>, v: nat,
                     frames: seq<nat>, flags: bv8)
    requires Isolated(pts, rests, taken) && k < |pts| && Step(pts[k], taken, pt, taken', v, frames, flags)
    ensures Isolated(pts[k := pt], rests, taken') && taken <= taken'
  {
    hide Step, Owned, Apart;
    var pts' := pts[k := pt];
    OwnedTables(pts[k], rests[k], taken);
    StepTables(pts[k], taken, pt, taken', v, frames, flags);
    StepOwned(pts[k], rests[k], taken, pt, taken', v, frames, flags);
    forall i: nat | i < |pts'| ensures Owned(pts'[i], rests[i], taken') {
      if i != k { OwnedLater(pts[i], rests[i], taken, taken'); }
    }
    forall i: nat, j: nat | i < |pts'| && j < |pts'| && i != j ensures Apart(pts'[i], rests[i], pts'[j], rests[j]) {
      if i == k { StepApart(pts[k], rests[k], taken, pt, taken', v, frames, flags, pts[j], rests[j]); }
      if j == k { StepApart(pts[k], rests[k], taken, pt, taken', v, frames, flags, pts[i], rests[i]); }
    }
  }

  lemma OwnedTables(pt: PT, rest: iset<nat>, taken: set<nat>)
    requires Owned(pt, rest, taken)
    ensures TablePages(pt) <= taken
  {
  }

  // What is mapped now and was not is mapped to pages that were free.
  ghost predicate FromFree(was: PT, taken: set<nat>, pt: PT)
  {
    forall p: nat | Look(pt, p).Mapped? :: Look(pt, p) == Look(was, p) || Look(pt, p).page !in taken
  }

  lemma StepFromFree(was: PT, taken: set<nat>, pt: PT, taken': set<nat>, v: nat, frames: seq<nat>, flags: bv8)
    requires Step(was, taken, pt, taken', v, frames, flags) && TablePages(was) <= taken
    ensures FromFree(was, taken, pt)
  {
    hide Look, Hits, MapsFresh, TablePages, Distinct;
    StepTables(was, taken, pt, taken', v, frames, flags);
    forall p: nat | Look(pt, p).Mapped? ensures Look(pt, p) == Look(was, p) || Look(pt, p).page !in taken {
      Source(was, pt, v, frames, flags, p);
    }
  }

  lemma FromFreeTwice(a: PT, taken: set<nat>, b: PT, taken': set<nat>, c: PT)
    requires FromFree(a, taken, b) && FromFree(b, taken', c) && taken <= taken'
    ensures FromFree(a, taken, c)
  {
    hide Look;
  }

  // A call that found no virtual pages changed no mapping.
  lemma StepNothing(was: PT, taken: set<nat>, pt: PT, taken': set<nat>, frames: seq<nat>, flags: bv8)
    requires pt.root == was.root && pt.guest == was.guest && frames == []
    requires Grew(taken, taken', was.tables.Keys, pt.tables.Keys, frames, true)
    requires forall p: nat :: Look(pt, p) == Look(was, p)
    ensures Step(was, taken, pt, taken', 0, frames, flags)
  {
  }

  // Spaces on disjoint page tables are isolated, all they map to begin with left out of account.
  lemma IsolatedStart(pts: seq<PT>, rests: seq<iset<nat>>, taken: set<nat>)
    requires |rests| == |pts| && forall i: nat | i < |pts| :: TablePages(pts[i]) <= taken
    requires forall i: nat, j: nat | i < |pts| && j < |pts| && i != j :: TablePages(pts[i]) !! TablePages(pts[j])
    requires forall i: nat, p: nat | i < |pts| && Look(pts[i], p).Mapped? :: p in rests[i]
    ensures Isolated(pts, rests, taken)
  {
    hide Look, TablePages;
  }

  // ---------------------------------------------------------------- runs

  // One call: on which space, in which of its sections, at which address, how many pages.
  datatype Request = Request(space: nat, section: nat, at: Option<nat>, n: nat, flags: bv8)

  predicate GoodRequest(spaces: seq<AS.AddrSpace>, r: Request)
  {
    && r.space < |spaces|
    && var s := spaces[r.space];
       && r.section < |s.sections| && r.n <= NBlocks(s.guest, 2)
       && s.sections[r.section].beg <= s.sections[r.section].end < AS.MAX_PAGE
       && (r.at.Some? ==> r.at.value / 4096 < AS.MAX_PAGE)
  }

  ghost function Tables(spaces: seq<AS.AddrSpace>): (pts: seq<PT>)
    reads spaces
    ensures |pts| == |spaces| && forall i: nat | i < |spaces| :: pts[i] == spaces[i].Pt()
  {
    if spaces == [] then [] else Tables(spaces[..|spaces| - 1]) + [spaces[|spaces| - 1].Pt()]
  }

  ghost predicate Valid(spaces: seq<AS.AddrSpace>, mem: PagePool.PageAllocator, rests: seq<iset<nat>>)
    reads spaces, mem, mem.Repr
  {
    && (forall i: nat | i < |spaces| :: spaces[i].mem == mem && spaces[i].Valid())
    && (forall i: nat, j: nat | i < j < |spaces| :: spaces[i] != spaces[j])
    && Isolated(Tables(spaces), rests, mem.taken)
  }

  // What a call gave: the pages from `page` of a space, mapped to `frames` in order.
  datatype Grant = Grant(space: nat, page: nat, frames: seq<nat>, flags: bv8)

  ghost predicate Held(spaces: seq<AS.AddrSpace>, g: Grant)
    reads spaces
  {
    g.space < |spaces| && MapsTo(spaces[g.space].Pt(), g.page, g.frames, g.flags)
  }

  // The call gave all it was asked for, or refused.
  predicate Answers(g: Grant, r: Request)
  {
    g.space == r.space && g.flags == AS.LeafFlags(r.flags) && (|g.frames| == r.n || g.frames == [])
  }

  lemma FromFreeItself(pt: PT, taken: set<nat>)
    ensures FromFree(pt, taken, pt)
  {
    hide Look;
  }

  lemma KeepsMapped(was: PT, pt: PT, v: nat, frames: seq<nat>, flags: bv8)
    requires MapsTo(was, v, frames, flags) && Keeps(was, pt)
    ensures MapsTo(pt, v, frames, flags)
  {
    hide Look;
  }

  // Any sequence of calls, ended only by one that halts the system or whose search leaves the address space: all
  // spaces stay isolated, every call made gave all it was asked for or nothing unless it ended the run, and what it
  // gave is still mapped at the end, as is all that was before. Nothing new is mapped to a page that was taken at the
  // start.
  method Run(spaces: seq<AS.AddrSpace>, mem: PagePool.PageAllocator, ghost rests: seq<iset<nat>>,
             requests: seq<Request>)
    returns (served: nat, halted: bool, ghost grants: seq<Grant>)
    requires Valid(spaces, mem, rests) && forall k: nat | k < |requests| :: GoodRequest(spaces, requests[k])
    modifies spaces, mem, mem.Repr
    ensures Valid(spaces, mem, rests) && old(mem.taken) <= mem.taken
    ensures |grants| == served <= |requests| && (served < |requests| ==> halted)
    ensures forall k: nat | k < served :: Held(spaces, grants[k])
    ensures forall k: nat | k < served && (k + 1 < served || !halted) :: Answers(grants[k], requests[k])
    ensures forall i: nat | i < |spaces| :: Keeps(old(spaces[i].Pt()), spaces[i].Pt())
    ensures forall i: nat | i < |spaces| :: FromFree(old(spaces[i].Pt()), old(mem.taken), spaces[i].Pt())
  {
    hide Keeps, FromFree, MapsTo, Valid, GoodRequest, Answers, Tables;
    served, halted, grants := 0, false, [];
    ghost var start := Tables(spaces);
    forall i: nat | i < |spaces|
      ensures Keeps(start[i], spaces[i].Pt()) && FromFree(start[i], old(mem.taken), spaces[i].Pt())
    {
      KeepsItself(start[i]);
      FromFreeItself(start[i], old(mem.taken));
    }
    while served < |requests|
      invariant |grants| == served <= |requests| && Valid(spaces, mem, rests) && old(mem.taken) <= mem.taken && !halted
      invariant forall k: nat | k < served :: Held(spaces, grants[k]) && Answers(grants[k], requests[k])
      invariant forall i: nat | i < |spaces| :: Keeps(start[i], spaces[i].Pt())
      invariant forall i: nat | i < |spaces| :: FromFree(start[i], old(mem.taken), spaces[i].Pt())
    {
      ghost var pts, taken := Tables(spaces), mem.taken;
      ghost var g;
      halted, g := Serve(spaces, mem, rests, requests[served]);
      forall i: nat | i < |spaces|
        ensures Keeps(start[i], spaces[i].Pt()) && FromFree(start[i], old(mem.taken), spaces[i].Pt())
      {
        KeepsTwice(start[i], pts[i], spaces[i].Pt());
        FromFreeTwice(start[i], old(mem.taken), pts[i], taken, spaces[i].Pt());
      }
      forall k: nat | k < served ensures Held(spaces, grants[k]) {
        var h := grants[k];
        KeepsMapped(pts[h.space], spaces[h.space].Pt(), h.page, h.frames, h.flags);
      }
      grants := grants + [g];
      served := served + 1;
      if halted { return; }
    }
  }

  lemma StepIs(was: PT, taken: set<nat>, pt: PT, taken': set<nat>, v: nat, frames: seq<nat>, flags: bv8)
    ensures Step(was, taken, pt, taken', v, frames, flags) <==>
              pt.root == was.root && MapsFresh(was, pt, v, frames, flags)
              && Grew(taken, taken', was.tables.Keys, pt.tables.Keys, frames, true)
  {
    hide MapsFresh, Grew;
  }

  lemma IsolatedTables(pts: seq<PT>, rests: seq<iset<nat>>, taken: set<nat>, k: nat)
    requires Isolated(pts, rests, taken) && k < |pts|
    ensures TablePages(pts[k]) <= taken
  {
    hide TablePages, Apart, Look;
  }

  // The call on the space it is for.
  method Give(s: AS.AddrSpace, r: Request) returns (halted: bool, ghost g: Grant)
    requires s.Valid() && r.section < |s.sections| && r.n <= NBlocks(s.guest, 2)
    requires s.sections[r.section].beg <= s.sections[r.section].end < AS.MAX_PAGE
    requires r.at.Some? ==> r.at.value / 4096 < AS.MAX_PAGE
    modifies s, s.mem, s.mem.Repr
    ensures s.Valid() && Keeps(old(s.Pt()), s.Pt())
    ensures Step(old(s.Pt()), old(s.mem.taken), s.Pt(), s.mem.taken, g.page, g.frames, g.flags)
    ensures g.space == r.space && g.flags == AS.LeafFlags(r.flags) && MapsTo(s.Pt(), g.page, g.frames, g.flags)
    ensures !halted ==> Answers(g, r)
    ensures halted ==> s.mem.Exhausted() || r.at.None?
    ensures !halted && r.n > 0 ==> s.Answered(old(s.Pt()), r.section, r.at, r.n, g.page, g.frames)
  {
    hide AS.AddrSpace.Answered, AS.AddrSpace.Refused, AS.AddrSpace.FoundFirst, AS.AddrSpace.SecOf, AS.AddrSpace.Valid,
         Look, Keeps, Step, MapsTo, Grew, Occupied, Hits, PagePool.Range, PagePool.PageAllocator.Valid;
    ghost var was, taken := s.Pt(), s.mem.taken;
    var res, m;
    ghost var frames;
    res, m, frames := s.AllocMap(r.section, r.at, None, r.n, r.flags);
    ghost var pt, flags := s.Pt(), AS.LeafFlags(r.flags);
    if r.n > 0 && (res.Found? || res.Invalid?) && m != AS.NoTables && m != AS.NoFrames {
      s.AnsweredIs(was, r.section, r.at, r.n, res, m, frames);
    }
    if res.Found? {
      FreshKept(was, pt, res.page, r.n);
    } else {
      StepNothing(was, taken, pt, s.mem.taken, frames, flags);
      FreshKept(was, pt, 0, 0);
    }
    g := Grant(r.space, if res.Found? then res.page else 0, frames, flags);
    StepIs(was, taken, pt, s.mem.taken, g.page, frames, flags);
    return res.NoRoom? || res.RanOff? || m == AS.NoTables || m == AS.NoFrames, g;
  }

  // One call. It ends the run when page tables or frames run out, where the source halts, and when the search leaves
  // the address space, where the address of the source wraps to zero and the search goes on.
  method Serve(spaces: seq<AS.AddrSpace>, mem: PagePool.PageAllocator, ghost rests: seq<iset<nat>>, r: Request)
    returns (halted: bool, ghost g: Grant)
    requires Valid(spaces, mem, rests) && GoodRequest(spaces, r)
    modifies spaces, mem, mem.Repr
    ensures Valid(spaces, mem, rests) && old(mem.taken) <= mem.taken
    ensures Held(spaces, g) && (!halted ==> Answers(g, r))
    ensures forall i: nat | i < |spaces| :: Keeps(old(spaces[i].Pt()), spaces[i].Pt())
    ensures forall i: nat | i < |spaces| :: FromFree(old(spaces[i].Pt()), old(mem.taken), spaces[i].Pt())
    ensures forall i: nat | i < |spaces| && i != r.space :: spaces[i].Pt() == old(spaces[i].Pt())
    ensures halted ==> mem.Exhausted() || r.at.None?
    ensures !halted && r.n > 0 ==>
        spaces[r.space].Answered(old(spaces[r.space].Pt()), r.section, r.at, r.n, g.page, g.frames)
  {
    hide AS.AddrSpace.Answered, Isolated, Tables, Look, Keeps, FromFree, Step, TablePages, MapsTo, Answers,
         PagePool.PageAllocator.Valid;
    ghost var pts, taken := Tables(spaces), mem.taken;
    var s := spaces[r.space];
    halted, g := Give(s, r);
    ghost var pt := s.Pt();
    assert Tables(spaces) == pts[r.space := pt];
    IsolatedTables(pts, rests, taken, r.space);
    IsolatedStep(pts, rests, taken, r.space, pt, mem.taken, g.page, g.frames, g.flags);
    StepFromFree(pts[r.space], taken, pt, mem.taken, g.page, g.frames, g.flags);
    forall i: nat | i < |spaces| && i != r.space
      ensures Keeps(pts[i], spaces[i].Pt()) && FromFree(pts[i], taken, pts[i])
    {
      KeepsItself(pts[i]);
      FromFreeItself(pts[i], taken);
    }
  }
}
