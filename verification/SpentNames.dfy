/** A master that is published but never saved uses up its name: the next number and the next revision are counted from the
    session, and masters are never removed. */
module SpentNames {
  import opened Text
  import opened Pages
  import opened Manifest
  import opened ManifestReader
  import opened ManifestRoundTrip
  import opened SessionStore
  import opened SessionOps
  import opened SessionRuns
  import opened SessionLife
  import opened Render
  import opened Pgm
  import opened Witnesses

  /** The revision that page n has in a session; 0 for a page that is not there. */
  function Revision(s: Session, n: nat): nat {
    var found := IndexOfPage(s.pages, PageId(n));
    if found.None? then 0 else s.pages[found.value].revision
  }

  /** Revision r + 1 of page n has a free name and is within the limits. */
  predicate CanFollow(files: Files, n: nat, r: nat) {
    MasterName(PageId(n), r + 1) !in files && if r == 0 then n <= MAX_PAGES else r <= MAX_HISTORY
  }

  // ----------------------------------------------------- what one operation does

  lemma RevisionOfPage(w: World, i: nat, n: nat)
    requires Inv(w) && i < |w.Pages()| && w.Pages()[i].id == PageId(n)
    ensures Revision(w.session, n) == w.Pages()[i].revision >= 1
  {
    hide PageId, MasterName, HeaderValid, ValidPage;
    assert GoodPage(w.Pages()[i], w.files.Keys);
    IdsAreUnique(w.Pages());
  }

  lemma RevisionIsPositiveIff(w: World, n: nat)
    requires Inv(w) && n >= 1
    ensures Revision(w.session, n) > 0 <==> n <= |w.Pages()|
  {
    hide PageId, MasterName, HeaderValid, GoodPage;
    if n <= |w.Pages()| {
      assert NumberTaken(w.Pages(), n);
      var i :| 0 <= i < |w.Pages()| && w.Pages()[i].id == PageId(n);
      RevisionOfPage(w, i, n);
    } else {
      forall i | 0 <= i < |w.Pages()| ensures w.Pages()[i].id != PageId(n) {
        assert HasNumber(w.Pages()[i], |w.Pages()|);
        var m: nat :| 1 <= m <= |w.Pages()| && w.Pages()[i].id == PageId(m);
        if PageId(m) == PageId(n) {
          PageIdInjective(m, n);
        }
      }
    }
  }

  /** The masters of all revisions so far are there. */
  lemma RevisionsAreThere(w: World, n: nat, v: nat)
    requires Inv(w) && 1 <= v <= Revision(w.session, n)
    ensures MasterName(PageId(n), v) in w.files
  {
    hide PageId, MasterName, HeaderValid, SafeRelativePath;
    var page := w.Pages()[IndexOfPage(w.Pages(), PageId(n)).value];
    assert GoodPage(page, w.files.Keys);
    if v < page.revision {
      assert page.preservedMasters[v - 1] == MasterName(page.id, v);
    }
  }

  lemma IndexInLonger(pages: seq<Page>, page: Page, id: string)
    ensures IndexOfPage(pages + [page], id)
            == if IndexOfPage(pages, id).Some? then IndexOfPage(pages, id) else if page.id == id then Some(|pages|) else None
  {
    var longer, found := pages + [page], IndexOfPage(pages + [page], id);
    assert forall j :: 0 <= j < |pages| ==> longer[j] == pages[j];
    assert longer[|pages|] == page;
    var before := IndexOfPage(pages, id);
    if before.Some? && found.Some? {
      assert found.value == before.value;
    }
  }

  lemma AddedIs(w: World, frame: ScanFrame, io: PublishIo)
    ensures var (after, r) := Added(w, frame, io);
            var k := |w.Pages()| + 1;
            after.session == if r.Err? then w.session
                             else w.session.(pages := w.Pages() + [DefaultPage(PageId(k), MasterName(PageId(k), 1), frame)])
    ensures Added(w, frame, io).1.Ok? ==> CanFollow(w.files, |w.Pages()| + 1, 0)
  {
    hide PageId, MasterName, ValidateFrame, SafeRelativePath, InOriginals;
  }

  lemma AddedRevision(w: World, frame: ScanFrame, io: PublishIo, n: nat)
    requires Inv(w) && n >= 1
    ensures var (after, r) := Added(w, frame, io);
            Revision(after.session, n)
            == if r.Ok? && n == |w.Pages()| + 1 then 1 else Revision(w.session, n)
  {
    hide PageId, MasterName, Inv, Added;
    var k := |w.Pages()| + 1;
    var (after, r) := Added(w, frame, io);
    AddedIs(w, frame, io);
    RevisionIsPositiveIff(w, k);
    if r.Ok? {
      var page := DefaultPage(PageId(k), MasterName(PageId(k), 1), frame);
      IndexInLonger(w.Pages(), page, PageId(n));
      NoPage(w, k);
      if n != k && PageId(n) == PageId(k) {
        PageIdInjective(n, k);
      }
    }
  }

  lemma NoPage(w: World, n: nat)
    requires Inv(w) && n >= 1 && Revision(w.session, n) == 0
    ensures IndexOfPage(w.Pages(), PageId(n)).None?
  {
    hide PageId, HeaderValid, ValidPage, MasterName, IdsArePermutation;
    var found := IndexOfPage(w.Pages(), PageId(n));
    if found.Some? {
      RevisionOfPage(w, found.value, n);
    }
  }

  lemma RescannedRevision(w: World, m: nat, frame: ScanFrame, io: PublishIo, n: nat)
    requires Inv(w) && n >= 1 && m >= 1
    ensures var (after, r) := Rescanned(w, PageId(m), frame, io);
            Revision(after.session, n) == if r.Ok? && n == m then Revision(w.session, n) + 1 else Revision(w.session, n)
    ensures Rescanned(w, PageId(m), frame, io).1.Ok? ==>
              Revision(w.session, m) > 0 && CanFollow(w.files, m, Revision(w.session, m))
  {
    hide PageId, MasterName, HeaderValid, ValidPage, ValidateFrame, SafeRelativePath, InOriginals;
    var (after, r) := Rescanned(w, PageId(m), frame, io);
    if r.Ok? {
      var i := IndexOfPage(w.Pages(), PageId(m)).value;
      assert GoodPage(w.Pages()[i], w.files.Keys);
      assert forall j :: 0 <= j < |w.Pages()| ==> after.Pages()[j].id == w.Pages()[j].id;
      if n != m && PageId(n) == PageId(m) {
        PageIdInjective(n, m);
      }
    }
  }

  /** Pages that are replaced by pages of the same id and revision. */
  predicate SameRevisions(before: seq<Page>, after: seq<Page>) {
    |before| == |after| && forall i :: 0 <= i < |before| ==> before[i].id == after[i].id && before[i].revision == after[i].revision
  }

  lemma SameRevision(before: Session, after: Session, n: nat)
    requires SameRevisions(before.pages, after.pages)
    ensures Revision(before, n) == Revision(after, n)
  {
    hide PageId;
    var i, j := IndexOfPage(before.pages, PageId(n)), IndexOfPage(after.pages, PageId(n));
    if i.Some? && j.Some? {
      assert i.value == j.value;
    }
  }

  lemma EditedRevision(w: World, op: Op, n: nat)
    requires op.Rotate? || op.SetCrop? || op.ClearCrop? || op.SetTone? || op.SetIncluded?
    ensures Revision(Apply(w, op).0.session, n) == Revision(w.session, n)
  {
    hide PageId, Revision, CropInside;
    SameRevision(w.session, Apply(w, op).0.session, n);
  }

  lemma ReorderedRevision(w: World, ids: seq<string>, n: nat)
    requires Inv(w)
    ensures Revision(Apply(w, Reorder(ids)).0.session, n) == Revision(w.session, n)
  {
    hide PageId, HeaderValid, GoodPage, Reordered;
    IdsAreUnique(w.Pages());
    if Reordered(w.Pages(), ids).Ok? {
      var ordered, before := Reordered(w.Pages(), ids).value, w.Pages();
      ReorderIsRearrangement(before, ids);
      ReorderIsPermutation(before, ids);
      forall p ensures p in ordered <==> p in before {
        assert p in ordered <==> p in multiset(ordered);
        assert p in before <==> p in multiset(before);
      }
      SamePagesRevision(w.session, w.session.(pages := ordered), n);
    }
  }

  lemma SamePagesRevision(a: Session, b: Session, n: nat)
    requires UniqueIds(a.pages) && UniqueIds(b.pages) && forall p :: p in a.pages <==> p in b.pages
    ensures Revision(a, n) == Revision(b, n)
  {
    hide PageId;
    var i, j := IndexOfPage(a.pages, PageId(n)), IndexOfPage(b.pages, PageId(n));
    if i.Some? {
      assert a.pages[i.value] in b.pages;
    }
    if j.Some? {
      assert b.pages[j.value] in a.pages;
      var k :| 0 <= k < |a.pages| && a.pages[k] == b.pages[j.value];
      assert k == i.value;
    }
  }

  lemma UnknownIsRefused(w: World, id: string, frame: ScanFrame, io: PublishIo)
    requires Inv(w) && forall m: nat :: m >= 1 ==> id != PageId(m)
    ensures Rescanned(w, id, frame, io).0 == w && Rescanned(w, id, frame, io).1.Err?
  {
    hide PageId, HeaderValid, GoodPage, ValidateFrame;
    forall i | 0 <= i < |w.Pages()| ensures w.Pages()[i].id != id {
      assert HasNumber(w.Pages()[i], |w.Pages()|);
    }
  }

  /** An operation gives page n no revision, or the next one, and that one only if its name is free and within the limits. */
  lemma AppliedRevision(w: World, op: Op, n: nat)
    requires Inv(w) && n >= 1
    ensures var r, after := Revision(w.session, n), Revision(Apply(w, op).0.session, n);
            after == r || (after == r + 1 && CanFollow(w.files, n, r))
  {
    hide Inv, PageId, Revision, CanFollow, Added, Rescanned, Reordered, Edit;
    match op
    case AddPage(frame, io) =>
      AddedRevision(w, frame, io, n);
      AddedIs(w, frame, io);
      RevisionIsPositiveIff(w, n);
    case Rescan(id, frame, io) =>
      if m: nat :| m >= 1 && id == PageId(m) {
        RescannedRevision(w, m, frame, io, n);
      } else {
        UnknownIsRefused(w, id, frame, io);
      }
    case Reorder(ids) => ReorderedRevision(w, ids, n);
    case _ => EditedRevision(w, op, n);
  }

  // ------------------------------------------------------------------ whole lives

  lemma NextKeepsNames(l: Life, e: Event)
    requires Steady(l) && Possible(l, e)
    ensures KeepsNames(l.world.files, Next(l, e).world.files)
  {
    hide Inv, LoadManifest, Apply, SaveOutcome, SaveMayLeave, IsStageName, Load;
    match e
    case Work(op) => ApplyKeepsInv(l.world, op);
    case Save(io) =>
      OutcomeMayBeLeft(l.world.files, l.world.session, io);
      SaveKeepsNames(l.world.files, l.world.session, SaveOutcome(l.world.files, l.world.session, io).0);
    case Reopen =>
    case StopInWork(op, left) =>
      if left != l.world.files {
        var io :| left == Apply(l.world, WithIo(op, io)).0.files;
        ApplyKeepsInv(l.world, WithIo(op, io));
      }
    case StopInSave(left) => SaveKeepsNames(l.world.files, l.world.session, left);
  }

  /** The saved revision of page n stays or catches up, and the program's own stays, is followed, or falls back to the saved. */
  lemma NextRevisions(l: Life, e: Event, n: nat)
    requires Steady(l) && Possible(l, e) && n >= 1
    ensures var a, b := Revision(l.saved, n), Revision(l.world.session, n);
            var a', b' := Revision(Next(l, e).saved, n), Revision(Next(l, e).world.session, n);
            (a' == a || a' == b) && (b' == b || b' == a' || (b' == b + 1 && CanFollow(l.world.files, n, b)))
            && (a <= b ==> a' <= b')
  {
    hide Inv, LoadManifest, Apply, SaveOutcome, SaveMayLeave, WorkMayLeave, Load, Revision, CanFollow;
    NextKeepsSteady(l, e);
    if e.Work? {
      AppliedRevision(l.world, e.op, n);
    }
  }

  /** Page n has a revision between lo and r, and none of its own up to r can be followed. */
  predicate Stuck(l: Life, n: nat, lo: nat, r: nat) {
    Steady(l) && lo <= Revision(l.saved, n) <= r && lo <= Revision(l.world.session, n) <= r
    && forall v: nat :: v <= r ==> !CanFollow(l.world.files, n, v)
  }

  lemma CannotFollowLater(before: Files, after: Files, n: nat, r: nat)
    requires KeepsNames(before, after) && 1 <= n && (n <= MAX_PAGES || r == 0) && !CanFollow(before, n, r)
    ensures !CanFollow(after, n, r)
  {
    hide PageId, MasterName, IsStageName, SafeRelativePath, InOriginals, IsIdentifier;
    if n <= MAX_PAGES {
      PageIdIsIdentifier(n);
      MasterNameIsSafe(PageId(n), r + 1);
    }
  }

  lemma {:induction false} StuckStays(l: Life, events: seq<Event>, n: nat, lo: nat, r: nat)
    requires Stuck(l, n, lo, r) && IsLife(l, events) && 1 <= n && (n <= MAX_PAGES || r == 0)
    ensures Stuck(Lived(l, events), n, lo, r)
    decreases |events|
  {
    hide Steady, Next, Possible, CanFollow, Revision, KeepsNames;
    if events != [] {
      var next := Next(l, events[0]);
      NextKeepsSteady(l, events[0]);
      NextKeepsNames(l, events[0]);
      NextRevisions(l, events[0], n);
      forall v: nat | v <= r ensures !CanFollow(next.world.files, n, v) {
        CannotFollowLater(l.world.files, next.world.files, n, v);
      }
      StuckStays(next, events[1..], n, lo, r);
    }
  }

  /** No page of the saved session is ahead of the program's own. */
  ghost predicate Ahead(l: Life) {
    forall n: nat :: n >= 1 ==> Revision(l.saved, n) <= Revision(l.world.session, n)
  }

  lemma {:induction false} AheadStays(l: Life, events: seq<Event>)
    requires Steady(l) && Ahead(l) && IsLife(l, events)
    ensures Ahead(Lived(l, events))
    decreases |events|
  {
    hide Steady, Next, Possible, CanFollow, Revision;
    if events != [] {
      var next := Next(l, events[0]);
      NextKeepsSteady(l, events[0]);
      forall n: nat | n >= 1 ensures Revision(next.saved, n) <= Revision(next.world.session, n) {
        NextRevisions(l, events[0], n);
      }
      AheadStays(next, events[1..]);
    }
  }

  lemma StuckFromHere(l: Life, n: nat)
    requires Steady(l) && n >= 1 && Revision(l.saved, n) <= Revision(l.world.session, n)
    requires !CanFollow(l.world.files, n, Revision(l.world.session, n))
    ensures Stuck(l, n, Revision(l.saved, n), Revision(l.world.session, n))
  {
    hide Inv, LoadManifest, Revision, PageId, MasterName;
    var r := Revision(l.world.session, n);
    forall v: nat | v <= r ensures !CanFollow(l.world.files, n, v) {
      if v < r {
        RevisionsAreThere(l.world, n, v + 1);
      }
    }
  }

  // ------------------------------------------------------------- exactly when

  /** Whatever happens from here on, page n gets no further revision. */
  ghost predicate NoneFollows(l: Life, n: nat) {
    forall events | IsLife(l, events) :: Revision(Lived(l, events).world.session, n) <= Revision(l.world.session, n)
  }

  function TinyFrame(): ScanFrame {
    DerivativeFrame(OneRow(1, 0), PgmText(OneRow(1, 0)), "fixture", 300, Flatbed)
  }

  lemma PublishWorks(files: Files, n: nat, v: nat, bytes: string)
    requires 1 <= n <= MAX_PAGES && MasterName(PageId(n), v) !in files && 0 < |bytes| <= MAX_FIXTURE_BYTES
    ensures PublishMaster(files, MasterName(PageId(n), v), bytes, Moves).1.Ok?
  {
    hide PageId, MasterName, SafeRelativePath, InOriginals, IsIdentifier;
    PageIdIsIdentifier(n);
    MasterNameIsSafe(PageId(n), v);
  }

  /** Where the next revision can follow, one operation brings it. */
  lemma OneFollows(w: World, n: nat) returns (op: Op)
    requires Inv(w) && 1 <= n <= |w.Pages()| + 1 && CanFollow(w.files, n, Revision(w.session, n))
    ensures Revision(Apply(w, op).0.session, n) == Revision(w.session, n) + 1
  {
    hide Inv, Revision, PageId, MasterName, ValidateFrame, TinyFrame, Added, Rescanned, PublishMaster;
    TinyFrameIsValid(0);
    RevisionIsPositiveIff(w, n);
    if n == |w.Pages()| + 1 {
      op := AddPage(TinyFrame(), Moves);
      TinyIsAdded(w);
      AddedRevision(w, TinyFrame(), Moves, n);
    } else {
      op := Rescan(PageId(n), TinyFrame(), Moves);
      TinyIsRescanned(w, n);
      RescannedRevision(w, n, TinyFrame(), Moves, n);
    }
  }

  lemma TinyIsAdded(w: World)
    requires CanFollow(w.files, |w.Pages()| + 1, 0)
    ensures Added(w, TinyFrame(), Moves).1.Ok?
  {
    hide PageId, MasterName, ValidateFrame, PublishMaster, PgmText;
    TinyFrameIsValid(0);
    PublishWorks(w.files, |w.Pages()| + 1, 1, TinyFrame().bytes);
  }

  lemma TinyIsRescanned(w: World, n: nat)
    requires Inv(w) && 1 <= n <= |w.Pages()| && CanFollow(w.files, n, Revision(w.session, n))
    ensures Rescanned(w, PageId(n), TinyFrame(), Moves).1.Ok?
  {
    hide PageId, MasterName, ValidateFrame, PublishMaster, PgmText, ValidPage, HeaderValid, IdsArePermutation;
    TinyFrameIsValid(0);
    RevisionIsPositiveIff(w, n);
    var page := w.Pages()[IndexOfPage(w.Pages(), PageId(n)).value];
    assert GoodPage(page, w.files.Keys);
    PublishWorks(w.files, n, page.revision + 1, TinyFrame().bytes);
  }

  /** Page n of a session, or the page to be added next: it never gets a further revision if and only if that revision's
      master is there already or the limit is reached. */
  lemma NoneFollowsIff(l: Life, n: nat)
    requires Steady(l) && 1 <= n <= |l.world.Pages()| + 1 && Revision(l.saved, n) <= Revision(l.world.session, n)
    ensures NoneFollows(l, n) <==> !CanFollow(l.world.files, n, Revision(l.world.session, n))
  {
    hide Inv, LoadManifest, Revision, CanFollow, Apply, Lived, IsLife;
    if CanFollow(l.world.files, n, Revision(l.world.session, n)) {
      var op := OneFollows(l.world, n);
      LivedOnce(l, Work(op));
      assert IsLife(l, [Work(op)]);
    } else {
      StuckFromHere(l, n);
      RevisionIsPositiveIff(l.world, n);
      NoMorePages(l.world);
      forall events | IsLife(l, events)
        ensures Revision(Lived(l, events).world.session, n) <= Revision(l.world.session, n)
      {
        StuckStays(l, events, n, Revision(l.saved, n), Revision(l.world.session, n));
      }
    }
  }

  lemma NoMorePages(w: World)
    requires Inv(w)
    ensures |w.Pages()| <= MAX_PAGES
  {
  }

  lemma LivedOnce(l: Life, e: Event)
    requires Possible(l, e)
    ensures IsLife(l, [e]) && Lived(l, [e]) == Next(l, e)
  {
    assert [e][1..] == [];
    assert IsLife(Next(l, e), []) && Lived(Next(l, e), []) == Next(l, e);
  }

  // ------------------------------------------------- a stop before the next save

  /** Everything is saved, and the program stops after add_page or rescan has published its master. */
  function StopAfter(l: Life, op: Op): Event {
    StopInWork(op, Apply(l.world, op).0.files)
  }

  lemma LivedFirst(l: Life, e: Event, events: seq<Event>)
    requires IsLife(l, [e] + events)
    ensures Possible(l, e) && IsLife(Next(l, e), events) && Lived(l, [e] + events) == Lived(Next(l, e), events)
  {
    assert ([e] + events)[1..] == events;
  }

  lemma PublishedStays(l: Life, op: Op, n: nat, v: nat)
    requires Steady(l) && l.saved == l.world.session && WorkMayLeave(l.world, op, Apply(l.world, op).0.files)
    requires 1 <= n && Revision(l.world.session, n) == v
    requires !CanFollow(Apply(l.world, op).0.files, n, v)
    ensures var next := Next(l, StopAfter(l, op));
            Stuck(next, n, v, v) && next.saved == l.saved && next.world == World(l.saved, Apply(l.world, op).0.files)
  {
    hide Inv, LoadManifest, Apply, Load, Revision, CanFollow;
    var left := Apply(l.world, op).0.files;
    StoppedWorkKeepsSteady(l, op, left);
    StuckFromHere(Next(l, StopAfter(l, op)), n);
  }

  lemma StopIsPossible(l: Life, op: Op)
    requires op.AddPage? || op.Rescan?
    ensures WorkMayLeave(l.world, op, Apply(l.world, op).0.files) && Possible(l, StopAfter(l, op))
  {
    hide Apply;
    assert WithIo(op, op.io) == op;
  }

  /** Publishing a name that is there already fails, and that is the error. */
  lemma NameIsTaken(files: Files, n: nat, v: nat, bytes: string, io: PublishIo)
    requires 1 <= n <= MAX_PAGES && MasterName(PageId(n), v) in files && 0 < |bytes| <= MAX_FIXTURE_BYTES
    ensures PublishMaster(files, MasterName(PageId(n), v), bytes, io) == (files, Err("master revision already exists"))
  {
    hide PageId, MasterName, SafeRelativePath, InOriginals, IsIdentifier;
    PageIdIsIdentifier(n);
    MasterNameIsSafe(PageId(n), v);
  }

  lemma AddIsRefused(w: World, next: ScanFrame, io: PublishIo)
    requires |w.Pages()| < MAX_PAGES && MasterName(PageId(|w.Pages()| + 1), 1) in w.files
    ensures Added(w, next, io)
            == (w, Err(if ValidateFrame(next).Err? then ValidateFrame(next).error else "master revision already exists"))
  {
    hide PageId, MasterName, ValidateFrame, PublishMaster;
    if ValidateFrame(next).Ok? {
      ValidFrameFacts(next);
      NameIsTaken(w.files, |w.Pages()| + 1, 1, next.bytes, io);
    }
  }

  /** With everything saved, the program stops after add_page has published a master: however it goes on, the session keeps
      its number of pages for ever, since every later add_page fails. */
  lemma StoppedAddIsForGood(l: Life, frame: ScanFrame, events: seq<Event>, next: ScanFrame, io: PublishIo)
    requires Steady(l) && l.saved == l.world.session && Added(l.world, frame, Moves).1.Ok?
    requires IsLife(l, [StopAfter(l, AddPage(frame, Moves))] + events)
    ensures Possible(l, StopAfter(l, AddPage(frame, Moves)))
    ensures var end := Lived(l, [StopAfter(l, AddPage(frame, Moves))] + events).world;
            |end.Pages()| == |l.world.Pages()|
            && Added(end, next, io)
               == (end, Err(if ValidateFrame(next).Err? then ValidateFrame(next).error else "master revision already exists"))
  {
    hide Inv, LoadManifest, Revision, CanFollow, Lived, IsLife, Added, ValidateFrame, MasterName, PageId;
    var op, k := AddPage(frame, Moves), |l.world.Pages()|;
    StopIsPossible(l, op);
    LivedFirst(l, StopAfter(l, op), events);
    AddedIsPublished(l.world, frame);
    RevisionIsPositiveIff(l.world, k + 1);
    PublishedStays(l, op, k + 1, 0);
    var after := Next(l, StopAfter(l, op));
    var end := Lived(after, events);
    StuckStays(after, events, k + 1, 0, 0);
    RevisionIsPositiveIff(end.world, k + 1);
    if k >= 1 {
      LastPageStays(after, events, k);
    }
    StillTaken(end.world.files, k + 1, 0);
    AddIsRefused(end.world, next, io);
  }

  lemma StillTaken(files: Files, n: nat, r: nat)
    requires !CanFollow(files, n, r) && n <= MAX_PAGES && r <= MAX_HISTORY
    ensures MasterName(PageId(n), r + 1) in files
  {
  }

  lemma AddedIsPublished(w: World, frame: ScanFrame)
    requires Added(w, frame, Moves).1.Ok?
    ensures |w.Pages()| < MAX_PAGES && Apply(w, AddPage(frame, Moves)).0.files == Added(w, frame, Moves).0.files
    ensures !CanFollow(Added(w, frame, Moves).0.files, |w.Pages()| + 1, 0)
  {
    hide PageId, MasterName, ValidateFrame, SafeRelativePath, InOriginals;
  }

  /** Pages of a session that is saved do not get lost. */
  lemma {:induction false} LastPageStays(l: Life, events: seq<Event>, n: nat)
    requires Steady(l) && IsLife(l, events) && 1 <= n <= |l.saved.pages| && n <= |l.world.Pages()|
    ensures Steady(Lived(l, events)) && n <= |Lived(l, events).world.Pages()| && n <= |Lived(l, events).saved.pages|
    decreases |events|
  {
    hide Inv, LoadManifest, Next, Possible, CanFollow, Revision;
    if events != [] {
      var next := Next(l, events[0]);
      NextKeepsSteady(l, events[0]);
      NextRevisions(l, events[0], n);
      RevisionIsPositiveIff(l.world, n);
      RevisionIsPositiveIff(World(l.saved, l.world.files), n);
      RevisionIsPositiveIff(next.world, n);
      RevisionIsPositiveIff(World(next.saved, next.world.files), n);
      LastPageStays(next, events[1..], n);
    }
  }

  lemma RescanIsRefused(w: World, n: nat, r: nat, next: ScanFrame, io: PublishIo)
    requires Inv(w) && 1 <= n && r >= 1 && Revision(w.session, n) == r && r <= MAX_HISTORY
    requires MasterName(PageId(n), r + 1) in w.files
    ensures Rescanned(w, PageId(n), next, io)
            == (w, Err(if ValidateFrame(next).Err? then ValidateFrame(next).error else "master revision already exists"))
  {
    hide PageId, MasterName, ValidateFrame, PublishMaster, ValidPage, HeaderValid, IdsArePermutation;
    if ValidateFrame(next).Ok? {
      RevisionIsPositiveIff(w, n);
      var page := w.Pages()[IndexOfPage(w.Pages(), PageId(n)).value];
      assert GoodPage(page, w.files.Keys);
      ValidFrameFacts(next);
      NameIsTaken(w.files, n, r + 1, next.bytes, io);
    }
  }

  lemma RescannedIsPublished(w: World, n: nat, frame: ScanFrame)
    requires Inv(w) && n >= 1 && Rescanned(w, PageId(n), frame, Moves).1.Ok?
    ensures 1 <= Revision(w.session, n) <= MAX_HISTORY && n <= |w.Pages()| <= MAX_PAGES
    ensures Apply(w, Rescan(PageId(n), frame, Moves)).0.files == Rescanned(w, PageId(n), frame, Moves).0.files
    ensures !CanFollow(Rescanned(w, PageId(n), frame, Moves).0.files, n, Revision(w.session, n))
  {
    hide PageId, MasterName, ValidateFrame, SafeRelativePath, InOriginals, ValidPage, HeaderValid, IdsArePermutation;
    RescannedRevision(w, n, frame, Moves, n);
    RevisionIsPositiveIff(w, n);
    var page := w.Pages()[IndexOfPage(w.Pages(), PageId(n)).value];
    assert GoodPage(page, w.files.Keys);
  }

  /** With everything saved, the program stops after rescan has published a revision of page n: however it goes on, the page
      keeps its revision for ever, since every later rescan of it fails. */
  lemma StoppedRescanIsForGood(l: Life, n: nat, frame: ScanFrame, events: seq<Event>, next: ScanFrame, io: PublishIo)
    requires Steady(l) && l.saved == l.world.session && n >= 1 && Rescanned(l.world, PageId(n), frame, Moves).1.Ok?
    requires IsLife(l, [StopAfter(l, Rescan(PageId(n), frame, Moves))] + events)
    ensures Possible(l, StopAfter(l, Rescan(PageId(n), frame, Moves)))
    ensures var end := Lived(l, [StopAfter(l, Rescan(PageId(n), frame, Moves))] + events).world;
            Revision(end.session, n) == Revision(l.world.session, n)
            && Rescanned(end, PageId(n), next, io)
               == (end, Err(if ValidateFrame(next).Err? then ValidateFrame(next).error else "master revision already exists"))
  {
    hide Inv, LoadManifest, Revision, CanFollow, Lived, IsLife, Rescanned, ValidateFrame, MasterName, PageId;
    var op, r := Rescan(PageId(n), frame, Moves), Revision(l.world.session, n);
    StopIsPossible(l, op);
    LivedFirst(l, StopAfter(l, op), events);
    RescannedIsPublished(l.world, n, frame);
    PublishedStays(l, op, n, r);
    var after := Next(l, StopAfter(l, op));
    StuckStays(after, events, n, r, r);
    var end := Lived(after, events);
    StillTaken(end.world.files, n, r);
    RescanIsRefused(end.world, n, r, next, io);
  }
}
