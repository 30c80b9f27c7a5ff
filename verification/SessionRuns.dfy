/** What every run of session operations from a new session keeps. */
module SessionRuns {
  import opened Text
  import opened Pgm
  import opened Pages
  import opened Manifest
  import opened ManifestReader
  import opened ManifestRoundTrip
  import opened SessionStore
  import opened SessionOps

  // ---------------------------------------------------------------- invariant

  predicate HasNumber(page: Page, count: nat) {
    exists n: nat :: 1 <= n <= count && page.id == PageId(n)
  }

  predicate NumberTaken(pages: seq<Page>, n: nat) {
    exists i :: 0 <= i < |pages| && pages[i].id == PageId(n)
  }

  /** The page ids are page-0001 to page-N, each once. */
  predicate IdsArePermutation(pages: seq<Page>) {
    UniqueIds(pages)
    && (forall p :: p in pages ==> HasNumber(p, |pages|))
    && (forall n: nat :: 1 <= n <= |pages| ==> NumberTaken(pages, n))
  }

  /** Revisions are counted: revision k of a page lives under its own name, the last one is current. */
  predicate RevisionsAreNamed(page: Page) {
    page.revision == |page.preservedMasters| + 1
    && page.currentMaster == MasterName(page.id, page.revision)
    && forall k :: 0 <= k < |page.preservedMasters| ==> page.preservedMasters[k] == MasterName(page.id, k + 1)
  }

  predicate GoodPage(page: Page, files: set<string>) {
    ValidPage(page, files) && RevisionsAreNamed(page)
  }

  predicate Inv(w: World) {
    HeaderValid(w.session) && |w.Pages()| <= MAX_PAGES
    && IdsArePermutation(w.Pages())
    && forall p :: p in w.Pages() ==> GoodPage(p, w.files.Keys)
  }

  /** Files other than stage files stay and keep their bytes. */
  predicate KeepsFiles(before: Files, after: Files) {
    forall path :: path in before && !IsStageName(path) ==> path in after && after[path] == before[path]
  }

  lemma ValidFrameFacts(frame: ScanFrame)
    requires ValidateFrame(frame).Ok?
    ensures IsIdentifier(frame.fixtureId) && frame.bytes != "" && |frame.bytes| <= MAX_FIXTURE_BYTES
    ensures 0 < frame.width <= MAX_IMAGE_DIMENSION && 0 < frame.height <= MAX_IMAGE_DIMENSION
    ensures frame.dpi != 0 && frame.bitDepth == 8
  {
  }

  lemma PublishKeepsFiles(files: Files, path: string, bytes: string, io: PublishIo)
    ensures KeepsFiles(files, PublishMaster(files, path, bytes, io).0)
    ensures PublishMaster(files, path, bytes, io).1.Ok? && !IsStageName(path) ==>
              path in PublishMaster(files, path, bytes, io).0 && PublishMaster(files, path, bytes, io).0[path] == bytes
  {
    hide SafeRelativePath, InOriginals;
    var stage := StageName(path);
    assert stage[|stage| - 4..] == ".tmp";
  }

  /** Good pages own no stage files, so they stay good as files are kept. */
  lemma GoodPageStays(page: Page, before: Files, after: Files)
    requires GoodPage(page, before.Keys) && KeepsFiles(before, after)
    ensures GoodPage(page, after.Keys)
  {
    hide SafeRelativePath, MasterName, IsIdentifier;
    MasterNameIsSafe(page.id, page.revision);
    forall h | h in page.preservedMasters ensures h in after {
      var k :| 0 <= k < |page.preservedMasters| && page.preservedMasters[k] == h;
      MasterNameIsSafe(page.id, k + 1);
    }
  }

  lemma AllGoodPagesStay(pages: seq<Page>, before: Files, after: Files)
    requires (forall p :: p in pages ==> GoodPage(p, before.Keys)) && KeepsFiles(before, after)
    ensures forall p :: p in pages ==> GoodPage(p, after.Keys)
  {
    forall p | p in pages ensures GoodPage(p, after.Keys) {
      GoodPageStays(p, before, after);
    }
  }

  // ----------------------------------------------------------------- add page

  lemma AddedIdsArePermutation(pages: seq<Page>, page: Page)
    requires IdsArePermutation(pages) && page.id == PageId(|pages| + 1)
    ensures IdsArePermutation(pages + [page])
  {
    hide PageId;
    var all := pages + [page];
    forall p | p in pages ensures p.id != page.id && HasNumber(p, |all|) {
      var n: nat :| 1 <= n <= |pages| && p.id == PageId(n);
      if p.id == page.id {
        PageIdInjective(n, |pages| + 1);
      }
    }
    assert all[|pages|].id == page.id;
    forall n: nat | 1 <= n <= |all| ensures NumberTaken(all, n) {
      if n <= |pages| {
        assert NumberTaken(pages, n);
        var i :| 0 <= i < |pages| && pages[i].id == PageId(n);
        assert all[i].id == PageId(n);
      }
    }
    assert HasNumber(page, |all|);
  }

  lemma AddedPageIsGood(id: string, frame: ScanFrame, files: set<string>)
    requires ValidateFrame(frame).Ok? && IsIdentifier(id) && MasterName(id, 1) in files
    ensures GoodPage(DefaultPage(id, MasterName(id, 1), frame), files)
  {
    hide SafeRelativePath, MasterName, IsIdentifier;
    ValidFrameFacts(frame);
    MasterNameIsSafe(id, 1);
  }

  lemma AddKeepsInv(w: World, frame: ScanFrame, io: PublishIo)
    requires Inv(w)
    ensures Inv(Added(w, frame, io).0) && KeepsFiles(w.files, Added(w, frame, io).0.files)
  {
    hide ValidateFrame, PublishMaster, GoodPage, IsIdentifier, IsPlainText, IdsArePermutation, PageId, MasterName, KeepsFiles;
    NothingChanges(w.files);
    if ValidateFrame(frame).Ok? && |w.Pages()| < MAX_PAGES {
      var n := |w.Pages()| + 1;
      var id := PageId(n);
      var page := DefaultPage(id, MasterName(id, 1), frame);
      var (files, published) := PublishMaster(w.files, page.currentMaster, frame.bytes, io);
      PageIdIsIdentifier(n);
      MasterNameIsSafe(id, 1);
      PublishKeepsFiles(w.files, page.currentMaster, frame.bytes, io);
      AllGoodPagesStay(w.Pages(), w.files, files);
      if published.Ok? {
        AddedIdsArePermutation(w.Pages(), page);
        AddedPageIsGood(id, frame, files.Keys);
        assert forall p :: p in w.Pages() + [page] ==> p == page || p in w.Pages();
      }
    }
  }

  lemma NothingChanges(files: Files)
    ensures KeepsFiles(files, files)
  {
  }

  // -------------------------------------------------------------------- edits

  /** Replacing a page by one with the same id keeps the ids. */
  lemma EditedIdsArePermutation(pages: seq<Page>, i: nat, page: Page)
    requires IdsArePermutation(pages) && i < |pages| && page.id == pages[i].id
    ensures IdsArePermutation(pages[i := page])
  {
    hide PageId;
    var edited := pages[i := page];
    assert forall k :: 0 <= k < |pages| ==> edited[k].id == pages[k].id;
    forall p | p in edited ensures HasNumber(p, |edited|) {
      var k :| 0 <= k < |edited| && edited[k] == p;
      assert HasNumber(pages[k], |pages|);
    }
    forall n: nat | 1 <= n <= |edited| ensures NumberTaken(edited, n) {
      assert NumberTaken(pages, n);
      var k :| 0 <= k < |pages| && pages[k].id == PageId(n);
      assert edited[k].id == PageId(n);
    }
  }

  lemma ReplacedKeepsInv(w: World, i: nat, page: Page)
    requires Inv(w) && i < |w.Pages()| && page.id == w.Pages()[i].id && GoodPage(page, w.files.Keys)
    ensures Inv(w.WithPages(w.Pages()[i := page]))
  {
    hide GoodPage, IsIdentifier, IsPlainText, IdsArePermutation;
    EditedIdsArePermutation(w.Pages(), i, page);
    assert forall p :: p in w.Pages()[i := page] ==> p == page || p in w.Pages();
  }

  lemma EditKeepsInv(w: World, id: string, edit: Page -> Page)
    requires Inv(w)
    requires var found := IndexOfPage(w.Pages(), id);
             found.Some? ==> edit(w.Pages()[found.value]).id == id && GoodPage(edit(w.Pages()[found.value]), w.files.Keys)
    ensures Inv(Edit(w, id, edit).0) && Edit(w, id, edit).0.files == w.files
  {
    hide GoodPage, IsIdentifier, IsPlainText, IdsArePermutation;
    var found := IndexOfPage(w.Pages(), id);
    if found.Some? {
      ReplacedKeepsInv(w, found.value, edit(w.Pages()[found.value]));
    }
  }

  // ------------------------------------------------------------------- rescan

  lemma RescannedPageIsGood(page: Page, frame: ScanFrame, before: Files, after: Files)
    requires GoodPage(page, before.Keys) && KeepsFiles(before, after) && page.revision < U32_MAX
    requires ValidateFrame(frame).Ok? && MasterName(page.id, page.revision + 1) in after
    ensures GoodPage(RescannedPage(page, MasterName(page.id, page.revision + 1), frame), after.Keys)
  {
    hide SafeRelativePath, MasterName, IsIdentifier;
    ValidFrameFacts(frame);
    GoodPageStays(page, before, after);
    MasterNameIsSafe(page.id, page.revision + 1);
  }

  lemma RescanKeepsInv(w: World, id: string, frame: ScanFrame, io: PublishIo)
    requires Inv(w)
    ensures Inv(Rescanned(w, id, frame, io).0) && KeepsFiles(w.files, Rescanned(w, id, frame, io).0.files)
  {
    hide ValidateFrame, PublishMaster, GoodPage, IsIdentifier, IsPlainText, IdsArePermutation, MasterName, KeepsFiles;
    NothingChanges(w.files);
    var found := IndexOfPage(w.Pages(), id);
    if ValidateFrame(frame).Ok? && found.Some? {
      var page := w.Pages()[found.value];
      if page.revision < U32_MAX && |page.preservedMasters| < MAX_HISTORY {
        var master := MasterName(page.id, page.revision + 1);
        var (files, published) := PublishMaster(w.files, master, frame.bytes, io);
        GoodPageHasIdentifier(page, w.files.Keys);
        MasterNameIsSafe(page.id, page.revision + 1);
        PublishKeepsFiles(w.files, master, frame.bytes, io);
        AllGoodPagesStay(w.Pages(), w.files, files);
        if published.Ok? {
          RescannedPageIsGood(page, frame, w.files, files);
          ReplacedKeepsInv(w.(files := files), found.value, RescannedPage(page, master, frame));
        }
      }
    }
  }

  lemma GoodPageHasIdentifier(page: Page, files: set<string>)
    requires GoodPage(page, files)
    ensures IsIdentifier(page.id)
  {
  }

  // ------------------------------------------------------------------ reorder

  function IdsOf(pages: seq<Page>): (ids: seq<string>)
    ensures |ids| == |pages| && forall i :: 0 <= i < |pages| ==> ids[i] == pages[i].id
  {
    seq(|pages|, i requires 0 <= i < |pages| => pages[i].id)
  }

  lemma {:induction false} IdSetAtMostLength(ids: seq<string>)
    ensures |IdSet(ids)| <= |ids|
  {
    if ids != [] {
      IdSetAtMostLength(ids[1..]);
      assert IdSet(ids) == {ids[0]} + IdSet(ids[1..]);
    }
  }

  /** As many distinct ids as ids: no id twice. */
  lemma {:induction false} FullIdSetHasNoDuplicates(ids: seq<string>)
    requires |IdSet(ids)| == |ids|
    ensures forall i, j :: 0 <= i < j < |ids| ==> ids[i] != ids[j]
  {
    if ids != [] {
      var rest := ids[1..];
      IdSetAtMostLength(rest);
      assert IdSet(ids) == {ids[0]} + IdSet(rest);
      assert ids[0] in rest ==> IdSet(ids) == IdSet(rest);
      FullIdSetHasNoDuplicates(rest);
      forall i, j | 0 <= i < j < |ids| ensures ids[i] != ids[j] {
        assert ids[j] == rest[j - 1];
        if i > 0 {
          assert ids[i] == rest[i - 1];
        }
      }
    }
  }

  lemma SubsetOfSameSize(a: set<string>, b: set<string>)
    requires a <= b && |a| >= |b|
    ensures a == b
  {
    assert |b - a| == |b| - |a|;
  }

  lemma {:induction false} DistinctIdsCount(ids: seq<string>)
    requires forall i, j :: 0 <= i < j < |ids| ==> ids[i] != ids[j]
    ensures |IdSet(ids)| == |ids|
  {
    if ids != [] {
      var rest := ids[1..];
      DistinctIdsCount(rest);
      assert IdSet(ids) == {ids[0]} + IdSet(rest);
      assert forall k :: 0 <= k < |rest| ==> rest[k] == ids[k + 1] && rest[k] != ids[0];
    }
  }

  /** reorder accepts exactly as many ids as there are pages, if they are the ids of the pages. */
  lemma ReorderAcceptsIff(pages: seq<Page>, ids: seq<string>)
    requires UniqueIds(pages)
    ensures Reordered(pages, ids).Ok? <==> |ids| == |pages| && IdSet(ids) == IdSet(IdsOf(pages))
  {
    if Reordered(pages, ids).Ok? {
      ReorderIsRearrangement(pages, ids);
    }
    if |ids| == |pages| && IdSet(ids) == IdSet(IdsOf(pages)) {
      DistinctIdsCount(IdsOf(pages));
      forall id | id in ids ensures IndexOfPage(pages, id).Some? {
        assert id in IdSet(ids);
        var k :| 0 <= k < |pages| && IdsOf(pages)[k] == id;
        assert pages[k].id == id;
      }
    }
  }

  /** An accepted order puts the pages where its ids stand. */
  lemma ReorderIsRearrangement(pages: seq<Page>, ids: seq<string>)
    requires Reordered(pages, ids).Ok?
    ensures var ordered := Reordered(pages, ids).value;
            |ordered| == |pages| && UniqueIds(ordered) && IdSet(ids) == IdSet(IdsOf(pages))
            && forall i :: 0 <= i < |pages| ==> ordered[i].id == ids[i] && ordered[i] in pages
  {
    var ordered := Reordered(pages, ids).value;
    FullIdSetHasNoDuplicates(ids);
    forall id | id in IdSet(ids) ensures id in IdSet(IdsOf(pages)) {
      var k := IndexOfPage(pages, id).value;
      assert IdsOf(pages)[k] == id;
    }
    IdSetAtMostLength(IdsOf(pages));
    SubsetOfSameSize(IdSet(ids), IdSet(IdsOf(pages)));
  }

  lemma {:induction false} DistinctSeqCount(pages: seq<Page>, p: Page)
    requires UniqueIds(pages)
    ensures multiset(pages)[p] == if p in pages then 1 else 0
  {
    if pages != [] {
      var n := |pages| - 1;
      assert pages == pages[..n] + [pages[n]];
      DistinctSeqCount(pages[..n], p);
      assert p in pages[..n] ==> p.id != pages[n].id;
    }
  }

  /** The reordered session holds the same pages, each as often as before. */
  lemma ReorderIsPermutation(pages: seq<Page>, ids: seq<string>)
    requires UniqueIds(pages) && Reordered(pages, ids).Ok?
    ensures multiset(Reordered(pages, ids).value) == multiset(pages)
  {
    var ordered := Reordered(pages, ids).value;
    ReorderIsRearrangement(pages, ids);
    forall p ensures multiset(ordered)[p] == multiset(pages)[p] {
      DistinctSeqCount(ordered, p);
      DistinctSeqCount(pages, p);
      if p in pages {
        var k :| 0 <= k < |pages| && pages[k] == p;
        assert IdsOf(pages)[k] in IdSet(ids);
        var i :| 0 <= i < |ids| && ids[i] == p.id;
        assert ordered[i].id == p.id && ordered[i] in pages;
        assert ordered[i] == p;
      }
    }
  }

  lemma SamePagesSameIds(pages: seq<Page>, ordered: seq<Page>)
    requires IdsArePermutation(pages) && multiset(ordered) == multiset(pages) && UniqueIds(ordered)
    ensures IdsArePermutation(ordered)
  {
    hide PageId;
    assert |ordered| == |multiset(ordered)| == |multiset(pages)| == |pages|;
    assert forall p :: p in ordered <==> p in multiset(ordered);
    assert forall p :: p in pages <==> p in multiset(pages);
    forall n: nat | 1 <= n <= |ordered| ensures NumberTaken(ordered, n) {
      assert NumberTaken(pages, n);
      var k :| 0 <= k < |pages| && pages[k].id == PageId(n);
      assert pages[k] in ordered;
      var i :| 0 <= i < |ordered| && ordered[i] == pages[k];
    }
  }

  lemma IdsAreUnique(pages: seq<Page>)
    requires IdsArePermutation(pages)
    ensures UniqueIds(pages)
  {
  }

  lemma ReorderKeepsInv(w: World, ids: seq<string>)
    requires Inv(w)
    ensures Inv(Apply(w, Reorder(ids)).0) && Apply(w, Reorder(ids)).0.files == w.files
  {
    hide GoodPage, IsIdentifier, IsPlainText, IdsArePermutation, Reordered;
    var pages := w.Pages();
    IdsAreUnique(pages);
    if Reordered(pages, ids).Ok? {
      var ordered := Reordered(pages, ids).value;
      ReorderIsRearrangement(pages, ids);
      ReorderIsPermutation(pages, ids);
      SamePagesSameIds(pages, ordered);
      assert forall p :: p in ordered ==> p in multiset(ordered);
    }
  }

  // --------------------------------------------------------------------- runs

  lemma RotationKeepsGood(page: Page, degrees: U16, files: set<string>)
    requires GoodPage(page, files) && (degrees == 90 || degrees == 180 || degrees == 270)
    ensures GoodPage(page.(rotation := (page.rotation + degrees) % 360), files)
  {
    hide SafeRelativePath, MasterName, IsIdentifier;
  }

  lemma ToneKeepsGood(page: Page, brightness: I16, contrast: I16, files: set<string>)
    requires GoodPage(page, files) && -100 <= brightness <= 100 && -100 <= contrast <= 100
    ensures GoodPage(page.(brightness := brightness, contrast := contrast), files)
  {
    hide SafeRelativePath, MasterName, IsIdentifier;
  }

  lemma FlagKeepsGood(page: Page, included: bool, files: set<string>)
    requires GoodPage(page, files)
    ensures GoodPage(page.(included := included), files) && GoodPage(page.(crop := None), files)
  {
    hide SafeRelativePath, MasterName, IsIdentifier;
  }

  lemma CropKeepsGood(page: Page, crop: CropRect, files: set<string>)
    requires GoodPage(page, files) && CropInside(crop, page.width, page.height)
    ensures GoodPage(page.(crop := Some(crop)), files)
  {
    hide SafeRelativePath, MasterName, IsIdentifier;
  }

  lemma EditOpKeepsInv(w: World, op: Op)
    requires Inv(w) && (op.Rotate? || op.ClearCrop? || op.SetTone? || op.SetIncluded?)
    ensures Inv(Apply(w, op).0) && Apply(w, op).0.files == w.files
  {
    hide GoodPage, Inv, Edit;
    FoundPageIsGood(w, op.id);
    var found := IndexOfPage(w.Pages(), op.id);
    if found.Some? {
      var page := w.Pages()[found.value];
      match op
      case Rotate(id, degrees) =>
        if degrees == 90 || degrees == 180 || degrees == 270 {
          RotationKeepsGood(page, degrees, w.files.Keys);
        }
      case SetTone(id, brightness, contrast) =>
        if -100 <= brightness <= 100 && -100 <= contrast <= 100 {
          ToneKeepsGood(page, brightness, contrast, w.files.Keys);
        }
      case ClearCrop(id) => FlagKeepsGood(page, true, w.files.Keys);
      case SetIncluded(id, included) => FlagKeepsGood(page, included, w.files.Keys);
    }
    match op
    case Rotate(id, degrees) =>
      if degrees == 90 || degrees == 180 || degrees == 270 {
        EditKeepsInv(w, id, (page: Page) => page.(rotation := (page.rotation + degrees) % 360));
      }
    case SetTone(id, brightness, contrast) =>
      if -100 <= brightness <= 100 && -100 <= contrast <= 100 {
        EditKeepsInv(w, id, (page: Page) => page.(brightness := brightness, contrast := contrast));
      }
    case ClearCrop(id) => EditKeepsInv(w, id, (page: Page) => page.(crop := None));
    case SetIncluded(id, included) => EditKeepsInv(w, id, (page: Page) => page.(included := included));
  }

  lemma FoundPageIsGood(w: World, id: string)
    requires Inv(w)
    ensures var found := IndexOfPage(w.Pages(), id);
            found.Some? ==> GoodPage(w.Pages()[found.value], w.files.Keys)
  {
    hide GoodPage;
  }

  lemma CropOpKeepsInv(w: World, id: string, crop: CropRect)
    requires Inv(w)
    ensures Inv(Apply(w, SetCrop(id, crop)).0) && Apply(w, SetCrop(id, crop)).0.files == w.files
  {
    hide GoodPage, IsIdentifier, IsPlainText, IdsArePermutation, CropInside;
    var found := IndexOfPage(w.Pages(), id);
    if found.Some? {
      var page := w.Pages()[found.value];
      if CropInside(crop, page.width, page.height) {
        CropKeepsGood(page, crop, w.files.Keys);
        ReplacedKeepsInv(w, found.value, page.(crop := Some(crop)));
      }
    }
  }

  /** Each operation, accepted or refused, keeps the invariant and every file that is not a stage file. */
  lemma ApplyKeepsInv(w: World, op: Op)
    requires Inv(w)
    ensures Inv(Apply(w, op).0) && KeepsFiles(w.files, Apply(w, op).0.files)
  {
    hide Inv, Edit, Reordered, Added, Rescanned, KeepsFiles;
    NothingChanges(w.files);
    match op
    case AddPage(frame, io) => AddKeepsInv(w, frame, io);
    case Reorder(ids) => ReorderKeepsInv(w, ids);
    case SetCrop(id, crop) => CropOpKeepsInv(w, id, crop);
    case Rescan(id, frame, io) => RescanKeepsInv(w, id, frame, io);
    case _ => EditOpKeepsInv(w, op);
  }

  /** A refused operation leaves the session as it was. */
  lemma RefusedLeavesSession(w: World, op: Op)
    requires Apply(w, op).1.Err?
    ensures Apply(w, op).0.session == w.session
  {
    hide ValidateFrame, PublishMaster, PageId, MasterName;
  }

  lemma NewSessionHasInv(s: Session, files: Files)
    requires HeaderValid(s) && s.pages == []
    ensures Inv(World(s, files))
  {
    hide IsIdentifier, IsPlainText;
  }

  lemma {:induction false} RunKeepsInv(w: World, ops: seq<Op>)
    requires Inv(w)
    ensures Inv(RunAll(w, ops)) && KeepsFiles(w.files, RunAll(w, ops).files)
    decreases |ops|
  {
    hide Inv, Apply;
    if ops != [] {
      ApplyKeepsInv(w, ops[0]);
      RunKeepsInv(Apply(w, ops[0]).0, ops[1..]);
    }
  }

  function MasterOf(page: Page, revision: nat): string
    requires 1 <= revision <= |page.preservedMasters| + 1
  {
    if revision == |page.preservedMasters| + 1 then page.currentMaster else page.preservedMasters[revision - 1]
  }

  /** Whatever was done, no two revisions of any pages share a master file, and all masters exist. */
  lemma MastersAreDistinct(w: World, i: nat, r: nat, j: nat, q: nat)
    requires Inv(w) && i < |w.Pages()| && j < |w.Pages()|
    requires 1 <= r <= |w.Pages()[i].preservedMasters| + 1 && 1 <= q <= |w.Pages()[j].preservedMasters| + 1
    ensures MasterOf(w.Pages()[i], r) in w.files
    ensures MasterOf(w.Pages()[i], r) == MasterOf(w.Pages()[j], q) ==> i == j && r == q
  {
    hide PageId, MasterName, SafeRelativePath;
    var a, b := w.Pages()[i], w.Pages()[j];
    assert GoodPage(a, w.files.Keys) && GoodPage(b, w.files.Keys);
    assert MasterOf(a, r) == MasterName(a.id, r) && MasterOf(b, q) == MasterName(b.id, q);
    assert HasNumber(a, |w.Pages()|) && HasNumber(b, |w.Pages()|);
    var m: nat :| a.id == PageId(m);
    var n: nat :| b.id == PageId(n);
    if MasterName(a.id, r) == MasterName(b.id, q) {
      MasterNameInjective(m, n, r, q);
    }
  }

  /** Whatever was done to a new session, saving it works within the size limits,
      and loading then gives that very session. */
  lemma RunThenSaveThenLoad(s: Session, files: Files, ops: seq<Op>)
    requires HeaderValid(s) && s.pages == []
    ensures var w := RunAll(World(s, files), ops);
            HistoryCount(w.Pages()) <= MAX_HISTORY && |ManifestText(w.session)| <= MAX_MANIFEST_BYTES ==>
              SaveOutcome(w.files, w.session, Works) == (Published(w.files, w.session), Ok(()))
              && Load(Published(w.files, w.session)) == Ok((w.session, false))
  {
    hide ManifestText, RunAll, LoadManifest, CheckSession;
    NewSessionHasInv(s, files);
    RunKeepsInv(World(s, files), ops);
    var w := RunAll(World(s, files), ops);
    if HistoryCount(w.Pages()) <= MAX_HISTORY && |ManifestText(w.session)| <= MAX_MANIFEST_BYTES {
      InvIsSavable(w);
      SavedManifestLoads(w.files, Published(w.files, w.session), w.session);
    }
  }

  lemma InvIsSavable(w: World)
    requires Inv(w) && HistoryCount(w.Pages()) <= MAX_HISTORY
    ensures Savable(w.session, w.files.Keys) && UniqueIds(w.Pages()) && !NamesStage(w.session)
  {
    hide PageId, MasterName, SafeRelativePath;
    forall p | p in w.Pages() ensures ValidPage(p, w.files.Keys) && p.currentMaster != STAGE && STAGE !in p.preservedMasters {
      assert GoodPage(p, w.files.Keys);
      MasterNameIsSafe(p.id, p.revision);
      forall k | 0 <= k < |p.preservedMasters| ensures p.preservedMasters[k] != STAGE {
        MasterNameIsSafe(p.id, k + 1);
      }
    }
  }

  /** On a session loaded from a foreign manifest, add_page may reuse an id; it keeps ids unique
      exactly when the next number is free. */
  lemma AddedIdIsFreshIffNumberIsFree(w: World, frame: ScanFrame, io: PublishIo)
    requires UniqueIds(w.Pages()) && Added(w, frame, io).1.Ok?
    ensures UniqueIds(Added(w, frame, io).0.Pages()) <==> !NumberTaken(w.Pages(), |w.Pages()| + 1)
  {
    hide ValidateFrame, PublishMaster, PageId, MasterName;
    var before, after := w.Pages(), Added(w, frame, io).0.Pages();
    var id := PageId(|before| + 1);
    assert forall i :: 0 <= i < |before| ==> after[i] == before[i];
    assert after[|before|].id == id;
    if NumberTaken(before, |before| + 1) {
      var i :| 0 <= i < |before| && before[i].id == id;
      assert after[i].id == after[|before|].id;
    }
  }
}
