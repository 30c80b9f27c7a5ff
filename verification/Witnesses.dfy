/** Sessions and disks, loaded without complaint, on which the program does less than it seems to promise. */
module Witnesses {
  import opened Text
  import opened Pgm
  import opened Pages
  import opened Render
  import opened Manifest
  import opened ManifestReader
  import opened ManifestRoundTrip
  import opened SessionStore
  import opened SessionOps
  import opened SessionRuns

  // ------------------------------------------------------------------- lengths

  lemma {:induction false} EncodedLength(value: string)
    ensures |EncodeField(value)| <= 3 * |value|
  {
    if value != "" {
      EncodedLength(value[..|value| - 1]);
    }
  }

  const FIELD: nat := 400
  const LINE: nat := 20 * (FIELD + 1)

  lemma {:induction false} JoinLength(fields: seq<string>)
    requires fields != [] && forall f :: f in fields ==> |f| <= FIELD
    ensures |Join(fields, '\t')| <= |fields| * (FIELD + 1)
  {
    if |fields| > 1 {
      JoinLength(fields[1..]);
    }
  }

  lemma {:induction false} UnlinesLength(lines: seq<string>)
    requires forall l :: l in lines ==> |l| <= LINE
    ensures |Unlines(lines)| <= |lines| * (LINE + 1)
  {
    hide *;
    if lines != [] {
      var rest := lines[1..];
      assert forall i :: 0 <= i < |rest| ==> rest[i] == lines[i + 1];
      UnlinesLength(rest);
      UnlinesStep(lines);
      assert |lines| * (LINE + 1) == |rest| * (LINE + 1) + (LINE + 1);
    } else {
      assert |Unlines(lines)| == 0 by { NoLines(); }
    }
  }

  lemma UnlinesStep(lines: seq<string>)
    requires lines != []
    ensures |Unlines(lines)| == |lines[0]| + 1 + |Unlines(lines[1..])|
  {
  }

  lemma NoLines()
    ensures Unlines([]) == ""
  {
  }

  lemma DecIsShort(n: U32)
    ensures |Dec(n)| <= 10
  {
    DecLength(n, 10);
    assert Pow10(10) == 10_000_000_000;
  }

  predicate ShortPage(page: Page) {
    |page.id| <= 64 && |page.fixtureId| <= 64 && |page.currentMaster| <= 64 && page.preservedMasters == []
  }

  lemma PageLineLength(page: Page)
    requires ShortPage(page)
    ensures |Line(PageFields(page))| <= LINE
  {
    hide Dec, EncodeField, Join;
    EncodedLength(page.id);
    EncodedLength(page.fixtureId);
    EncodedLength(page.currentMaster);
    var crop := CropOrZero(page);
    DecIsShort(page.revision);
    DecIsShort(page.width);
    DecIsShort(page.height);
    DecIsShort(page.dpi);
    DecIsShort(page.bitDepth);
    DecIsShort(page.rotation);
    DecIsShort(crop.x);
    DecIsShort(crop.y);
    DecIsShort(crop.width);
    DecIsShort(crop.height);
    SignedIsShort(page.brightness);
    SignedIsShort(page.contrast);
    JoinLength(PageFields(page));
  }

  lemma SignedIsShort(n: I16)
    ensures |SignedDec(n)| <= 11
  {
    var m: int := n;
    DecIsShort(if m < 0 then -m else m);
  }

  lemma SessionLineLength(s: Session)
    requires HeaderValid(s)
    ensures |Line(SessionFields(s))| <= LINE
  {
    hide EncodeField, Join, IsIdentifierChar;
    EncodedLength(s.sessionId);
    EncodedLength(s.createdUtc);
    EncodedLength(s.providerId);
    EncodedLength(s.deviceId);
    JoinLength(SessionFields(s));
  }

  lemma {:induction false} PagesLinesLength(pages: seq<Page>)
    requires forall p :: p in pages ==> ShortPage(p)
    ensures |PagesLines(pages)| == |pages| && forall l :: l in PagesLines(pages) ==> |l| <= LINE
  {
    hide PageFields, Line;
    if pages != [] {
      PageLineLength(pages[0]);
      PagesLinesLength(pages[1..]);
      assert HistoryLines(pages[0].id, []) == [];
    }
  }

  /** Sessions of a few pages with short names have small manifests. */
  lemma ManifestIsSmall(s: Session)
    requires HeaderValid(s) && |s.pages| <= 100 && forall p :: p in s.pages ==> ShortPage(p)
    ensures |ManifestText(s)| <= MAX_MANIFEST_BYTES
  {
    hide PagesLines, SessionFields, Line, HeaderValid;
    SessionLineLength(s);
    PagesLinesLength(s.pages);
    UnlinesLength(ManifestLines(s));
  }

  lemma {:induction false} RowTextLength(row: seq<Pixel>)
    ensures |RowText(row)| <= 4 * |row|
  {
    if row != [] {
      var n := |row| - 1;
      RowTextLength(row[..n]);
      DecLength(row[n], 3);
      assert Pow10(3) == 1000;
    }
  }

  // ------------------------------------------------------- one row, one page

  /** A picture one pixel high. */
  function OneRow(width: nat, value: Pixel): (image: Image)
    ensures image.Valid() && image.width == width && image.height == 1
  {
    Image(width, 1, seq(width, i => value))
  }

  lemma OneRowIsPrinted(width: U32, value: Pixel)
    requires width <= 250_000
    ensures EncodePgm(OneRow(width, value)) == Ok(PgmText(OneRow(width, value)))
    ensures 0 < |PgmText(OneRow(width, value))| <= MAX_FIXTURE_BYTES
  {
    hide Dec, RowText;
    var image := OneRow(width, value);
    RowTextLength(Row(image, 0));
    assert RowsText(image, 0) == "";
    DecIsShort(width);
    DecIsShort(1);
  }

  /** A page record as a manifest may hold it. */
  function PlainPage(id: string, master: string, width: U32): Page {
    Page(id, "fixture", master, [], 1, width, 1, 300, Gray8, 8, Flatbed, 0, None, 0, 0, true)
  }

  function OnePage(header: Session, page: Page): Session {
    header.(pages := [page])
  }

  /** A disk with the manifest of a session and one master. */
  function DiskOf(s: Session, master: string, bytes: string): Files {
    map[master := bytes][CURRENT := ManifestText(s)]
  }

  predicate PlainName(name: string) {
    0 < |name| <= 64 && '/' !in name && name != "." && name != ".." && name != CURRENT && name != BACKUP
  }

  lemma PlainPageIsValid(id: string, master: string, width: U32, files: set<string>)
    requires IsIdentifier(id) && PlainName(master) && width > 0 && master in files
    ensures ValidPage(PlainPage(id, master, width), files) && ShortPage(PlainPage(id, master, width))
  {
    SplitOfPlain(master, '/');
    FixtureIsIdentifier();
  }

  lemma FixtureIsIdentifier()
    ensures IsIdentifier("fixture")
  {
  }

  /** Such a session loads from its disk, and can be saved. */
  lemma OnePageLoads(header: Session, id: string, master: string, width: U32, bytes: string)
    requires HeaderValid(header) && IsIdentifier(id) && PlainName(master) && width > 0
    ensures var s := OnePage(header, PlainPage(id, master, width));
            var files := DiskOf(s, master, bytes);
            Load(files) == Ok((s, false)) && LoadManifest(files, CURRENT) == Ok(s)
            && Savable(s, files.Keys) && |ManifestText(s)| <= MAX_MANIFEST_BYTES && UniqueIds(s.pages)
  {
    hide ParseManifest, ManifestText, HeaderValid, ValidPage, IsIdentifier, PlainName;
    var page := PlainPage(id, master, width);
    var s := OnePage(header, page);
    var files := DiskOf(s, master, bytes);
    HeaderMoves(header, s);
    NameIsNotManifest(master);
    PlainPageIsValid(id, master, width, files.Keys);
    ManifestIsSmall(s);
    ManifestIsNotEmpty(s);
    OneIsWithinLimits(s);
    ParseRoundTrip(s);
  }

  lemma OneIsWithinLimits(s: Session)
    requires HeaderValid(s) && |s.pages| == 1 && s.pages[0].preservedMasters == [] && ToneInRange(s.pages[0])
    ensures WithinLimits(s) && HistoryCount(s.pages) <= MAX_HISTORY && UniqueIds(s.pages)
  {
    hide HeaderValid;
    assert HistoryCount([]) == 0 && s.pages[1..] == [] && s.pages[..0] == [];
  }

  lemma HeaderMoves(header: Session, s: Session)
    requires HeaderValid(header) && s == header.(pages := s.pages)
    ensures HeaderValid(s)
  {
  }

  lemma NameIsNotManifest(name: string)
    requires PlainName(name)
    ensures name != CURRENT && name != BACKUP
  {
  }

  // ------------------------------------------------------------- the witnesses

  /** A page that keeps its master under the name of the stage file: the session loads and saves, and then no session
      loads any more. */
  lemma StageMasterIsLost(header: Session, id: string, width: U32, bytes: string)
    requires HeaderValid(header) && IsIdentifier(id) && width > 0
    ensures var s := OnePage(header, PlainPage(id, STAGE, width));
            var files := DiskOf(s, STAGE, bytes);
            Load(files) == Ok((s, false)) && NamesStage(s)
            && SaveOutcome(files, s, Works).1.Ok? && Load(SaveOutcome(files, s, Works).0).Err?
  {
    hide LoadManifest, ManifestText, HeaderValid, Savable, IsIdentifier;
    var page := PlainPage(id, STAGE, width);
    var s := OnePage(header, page);
    var files := DiskOf(s, STAGE, bytes);
    StageIsPlain();
    OnePageLoads(header, id, STAGE, width, bytes);
    assert page in s.pages;
    LoadAfterSave(files, s, s);
  }

  lemma StageIsPlain()
    ensures PlainName(STAGE)
  {
  }

  /** A page wider than a frame may be: it loads and renders, its derivative is printed, and that derivative is refused as
      a new frame. */
  lemma WideDerivativeIsRefused(header: Session, id: string, master: string, value: Pixel, dpi: U32, source: SourceType)
    requires HeaderValid(header) && IsIdentifier(id) && PlainName(master) && dpi != 0
    ensures var image := OneRow(200_001, value);
            var page := PlainPage(id, master, 200_001);
            var files := DiskOf(OnePage(header, page), master, PgmText(image));
            Load(files) == Ok((OnePage(header, page), false))
            && Renderable(page) && RenderedPage(files, page) == Ok(image) && EncodePgm(image) == Ok(PgmText(image))
            && ValidateFrame(DerivativeFrame(image, PgmText(image), "fixture", dpi, source)).Err?
  {
    hide LoadManifest, ManifestText, HeaderValid, Savable, IsIdentifier, PgmText, DecodePgm, Rotated, Toned, PlainName;
    var image := OneRow(200_001, value);
    var page := PlainPage(id, master, 200_001);
    var files := DiskOf(OnePage(header, page), master, PgmText(image));
    OnePageLoads(header, id, master, 200_001, PgmText(image));
    OneRowIsPrinted(200_001, value);
    NameIsNotManifest(master);
    PgmRoundTrip(image);
    RotatedByZero(image);
    NeutralToneKeepsImage(image);
    FixtureIsIdentifier();
    DerivativeCanBeReimported(files, page, "fixture", dpi, source, id, master);
  }

  /** A session from elsewhere whose one page is called page-0002: adding a page works and gives a second page of that
      name, saving works, and what loads then is the session without the new page. */
  lemma ReusedIdIsLost(header: Session, master: string, value: Pixel, bytes: string)
    requires HeaderValid(header) && PlainName(master)
    ensures var s := OnePage(header, PlainPage(PageId(2), master, 1));
            var files := DiskOf(s, master, bytes);
            var frame := DerivativeFrame(OneRow(1, value), PgmText(OneRow(1, value)), "fixture", 300, Flatbed);
            var (w, added) := Added(World(s, files), frame, Moves);
            Load(files) == Ok((s, false)) && NumberTaken(s.pages, 2)
            && added.Ok? && !UniqueIds(w.Pages())
            && (master != STAGE ==>
                  SaveOutcome(w.files, w.session, Works).1.Ok?
                  && Load(SaveOutcome(w.files, w.session, Works).0) == Ok((s, true)))
  {
    hide LoadManifest, ManifestText, HeaderValid, IsIdentifier, PgmText, ValidateFrame, PageId, MasterName, PlainName,
         PublishMaster, ValidPage, Load, CheckSession;
    var s := OnePage(header, PlainPage(PageId(2), master, 1));
    var files := DiskOf(s, master, bytes);
    var frame := DerivativeFrame(OneRow(1, value), PgmText(OneRow(1, value)), "fixture", 300, Flatbed);
    PageIdIsIdentifier(2);
    OnePageLoads(header, PageId(2), master, 1, bytes);
    assert s.pages[0].id == PageId(2);
    TinyFrameIsValid(value);
    NewMasterIsPublished(s, master, bytes, frame);
    AddedIdIsFreshIffNumberIsFree(World(s, files), frame, Moves);
    if master != STAGE {
      TwoPagesSave(header, master, bytes, frame);
    }
  }

  lemma TwoPagesSave(header: Session, master: string, bytes: string, frame: ScanFrame)
    requires HeaderValid(header) && PlainName(master) && master != STAGE
    requires ValidateFrame(frame).Ok? && frame.fixtureId == "fixture"
    ensures var s := OnePage(header, PlainPage(PageId(2), master, 1));
            var w := Added(World(s, DiskOf(s, master, bytes)), frame, Moves).0;
            !UniqueIds(w.Pages()) ==>
              SaveOutcome(w.files, w.session, Works).1.Ok?
              && Load(SaveOutcome(w.files, w.session, Works).0) == Ok((s, true))
  {
    hide LoadManifest, ManifestText, HeaderValid, IsIdentifier, ValidateFrame, PageId, MasterName, PlainName, ValidPage, Load,
         RevisionsAreNamed;
    var s := OnePage(header, PlainPage(PageId(2), master, 1));
    var files := DiskOf(s, master, bytes);
    var name := MasterName(PageId(2), 1);
    var w := Added(World(s, files), frame, Moves).0;
    PageIdIsIdentifier(2);
    OnePageLoads(header, PageId(2), master, 1, bytes);
    NewMasterIsPublished(s, master, bytes, frame);
    NamesNoStage(s, PageId(2), master);
    SameManifestLoads(files, w.files, CURRENT, CURRENT, s);
    AddedPageIsGood(PageId(2), frame, w.files.Keys);
    PlainPageIsValid(PageId(2), master, 1, w.files.Keys);
    HeaderMoves(header, w.session);
    PageIdIsShort();
    ManifestIsSmall(w.session);
    TwoAreSavable(w.session, w.files.Keys);
    PublishedLoads(w.files, s, w.session);
  }

  lemma NamesNoStage(s: Session, id: string, master: string)
    requires master != STAGE && s.pages == [PlainPage(id, master, 1)]
    ensures !NamesStage(s)
  {
  }

  lemma PageIdIsShort()
    ensures |PageId(2)| <= 64
  {
    hide Padded;
    PaddedIsShort(2);
  }

  lemma TwoAreSavable(s: Session, files: set<string>)
    requires HeaderValid(s) && |s.pages| == 2
    requires forall p :: p in s.pages ==> ValidPage(p, files) && p.preservedMasters == []
    ensures Savable(s, files)
  {
    hide HeaderValid, ValidPage;
    var pages := s.pages;
    assert pages[0] in pages && pages[1] in pages;
    assert pages == [pages[0]] + [pages[1]];
    HistoryCountAppend([pages[0]], pages[1]);
    assert HistoryCount([pages[0]]) == 0;
  }

  lemma TinyFrameIsValid(value: Pixel)
    ensures var frame := DerivativeFrame(OneRow(1, value), PgmText(OneRow(1, value)), "fixture", 300, Flatbed);
            ValidateFrame(frame).Ok? && 0 < |frame.bytes| <= MAX_FIXTURE_BYTES
  {
    hide PgmText, DecodePgm, IsIdentifier;
    OneRowIsPrinted(1, value);
    PgmRoundTrip(OneRow(1, value));
    FixtureIsIdentifier();
  }

  lemma NewMasterIsPublished(s: Session, master: string, bytes: string, frame: ScanFrame)
    requires PlainName(master) && ValidateFrame(frame).Ok? && |s.pages| == 1
    ensures var files := DiskOf(s, master, bytes);
            var name := MasterName(PageId(2), 1);
            Added(World(s, files), frame, Moves)
            == (World(s.(pages := s.pages + [DefaultPage(PageId(2), name, frame)]),
                      files[name := frame.bytes] - {StageName(name)}), Ok(PageId(2)))
            && name != StageName(name) && name != master && name != CURRENT && |name| <= 64
            && (forall f :: f in files && f != STAGE ==> f in files[name := frame.bytes] - {StageName(name)})
  {
    hide ManifestText, ValidateFrame, SafeRelativePath, IsIdentifier, PgmText, PageId, MasterName, StageName, InOriginals;
    ValidFrameFacts(frame);
    PageIdIsIdentifier(2);
    MasterNameIsSafe(PageId(2), 1);
    NewMasterName();
  }

  lemma NewMasterName()
    ensures var name := MasterName(PageId(2), 1);
            |name| <= 64 && '/' in name && '/' in StageName(name) && '/' !in CURRENT && |StageName(name)| == |name| + 4
  {
    hide Padded;
    var name := MasterName(PageId(2), 1);
    assert name[9] == '/' && StageName(name)[9] == '/';
    PaddedIsShort(2);
    PaddedIsShort(1);
  }

  lemma PaddedIsShort(n: nat)
    requires n < 10
    ensures |Padded(n, 4)| == 4
  {
    DecLength(n, 1);
    assert Pow10(1) == 10;
  }
}
