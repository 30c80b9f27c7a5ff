/** The operations of a scan session, and what every run of them keeps. */
module SessionOps {
  import opened Text
  import opened Pgm
  import opened Pages
  import opened Manifest
  import opened ManifestReader
  import opened ManifestRoundTrip
  import opened SessionStore

  /** How the file system treats the publication of a master; `torn` is what a failed write leaves. */
  datatype PublishIo = Moves | WriteFails(torn: string) | MoveFails

  datatype Op =
    | AddPage(frame: ScanFrame, io: PublishIo)
    | Reorder(ids: seq<string>)
    | Rotate(id: string, degrees: U16)
    | SetCrop(id: string, crop: CropRect)
    | ClearCrop(id: string)
    | SetTone(id: string, brightness: I16, contrast: I16)
    | SetIncluded(id: string, included: bool)
    | Rescan(id: string, frame: ScanFrame, io: PublishIo)

  /** A session and the files below its root. */
  datatype World = World(session: Session, files: Files) {
    function Pages(): seq<Page> {
      session.pages
    }

    function WithPages(pages: seq<Page>): World {
      this.(session := session.(pages := pages))
    }
  }

  // -------------------------------------------------------------------- names

  function PageId(n: nat): string {
    "page-" + Padded(n, 4)
  }

  function FileName(id: string, revision: nat): string {
    id + ("-r" + (Padded(revision, 4) + ".pgm"))
  }

  /** originals/<id>-r<revision>.pgm */
  function MasterName(id: string, revision: nat): string {
    "originals" + ['/'] + FileName(id, revision)
  }

  function StageName(path: string): string {
    path + ".tmp"
  }

  predicate IsStageName(path: string) {
    |path| >= 4 && path[|path| - 4..] == ".tmp"
  }

  /** parent_path() == "originals" */
  predicate InOriginals(path: string) {
    |path| > 10 && path[..10] == "originals/" && '/' !in path[10..]
  }

  // ---------------------------------------------------------------- publication

  function PublishMaster(files: Files, path: string, bytes: string, io: PublishIo): (Files, Result<()>) {
    if !SafeRelativePath(path) || !InOriginals(path) || bytes == "" || |bytes| > MAX_FIXTURE_BYTES then
      (files, Err("master publication is invalid"))
    else if path in files then (files, Err("master revision already exists"))
    else match io
      case WriteFails(torn) => (files[StageName(path) := torn], Err("master could not be staged"))
      case MoveFails => (files - {StageName(path)}, Err("master could not be published"))
      case Moves => (files[path := bytes] - {StageName(path)}, Ok(()))
  }

  // ----------------------------------------------------------------- operations

  function RescannedPage(page: Page, master: string, frame: ScanFrame): Page
    requires page.revision < U32_MAX
  {
    page.(preservedMasters := page.preservedMasters + [page.currentMaster], currentMaster := master,
          fixtureId := frame.fixtureId, revision := page.revision + 1, width := frame.width, height := frame.height,
          dpi := frame.dpi, color := frame.color, bitDepth := frame.bitDepth, source := frame.source,
          rotation := 0, crop := None, brightness := 0, contrast := 0)
  }

  /** Collects the pages in the order of the given ids. */
  function Collect(pages: seq<Page>, ids: seq<string>): (r: Result<seq<Page>>)
    ensures r.Ok? ==> |r.value| == |ids|
    ensures r.Ok? ==> forall i :: 0 <= i < |ids| ==> r.value[i].id == ids[i] && r.value[i] in pages
    ensures r.Ok? <==> forall id :: id in ids ==> IndexOfPage(pages, id).Some?
  {
    if ids == [] then Ok([])
    else
      var found := IndexOfPage(pages, ids[0]);
      if found.None? then
        assert ids[0] in ids;
        Err("page does not exist")
      else
        assert forall id :: id in ids <==> id == ids[0] || id in ids[1..];
        var rest :- Collect(pages, ids[1..]);
        Ok([pages[found.value]] + rest)
  }

  function IdSet(ids: seq<string>): set<string> {
    set id | id in ids
  }

  const BAD_ORDER := "page order must contain every page exactly once"

  function Reordered(pages: seq<Page>, ids: seq<string>): Result<seq<Page>> {
    if |ids| != |pages| || |IdSet(ids)| != |pages| then Err(BAD_ORDER) else Collect(pages, ids)
  }

  /** Edits the first page with an id. */
  function Edit(w: World, id: string, edit: Page -> Page): (World, Result<string>) {
    var found := IndexOfPage(w.Pages(), id);
    if found.None? then (w, Err("page does not exist"))
    else (w.WithPages(w.Pages()[found.value := edit(w.Pages()[found.value])]), Ok(""))
  }

  function Added(w: World, frame: ScanFrame, io: PublishIo): (World, Result<string>) {
    var check := ValidateFrame(frame);
    if check.Err? then (w, Err(check.error))
    else if |w.Pages()| >= MAX_PAGES then (w, Err("session page limit was reached"))
    else
      var id := PageId(|w.Pages()| + 1);
      var page := DefaultPage(id, MasterName(id, 1), frame);
      var (files, published) := PublishMaster(w.files, page.currentMaster, frame.bytes, io);
      if published.Err? then (w.(files := files), Err(published.error))
      else (w.WithPages(w.Pages() + [page]).(files := files), Ok(id))
  }

  function Rescanned(w: World, id: string, frame: ScanFrame, io: PublishIo): (World, Result<string>) {
    var check := ValidateFrame(frame);
    var found := IndexOfPage(w.Pages(), id);
    if check.Err? then (w, Err(check.error))
    else if found.None? then (w, Err("page does not exist"))
    else
      var page := w.Pages()[found.value];
      if page.revision == U32_MAX || |page.preservedMasters| >= MAX_HISTORY then (w, Err("page revision limit was reached"))
      else
        var master := MasterName(page.id, page.revision + 1);
        var (files, published) := PublishMaster(w.files, master, frame.bytes, io);
        if published.Err? then (w.(files := files), Err(published.error))
        else
          (w.WithPages(w.Pages()[found.value := RescannedPage(page, master, frame)]).(files := files), Ok(""))
  }

  /** The world after an operation, and its outcome; add_page yields the new id. */
  function Apply(w: World, op: Op): (World, Result<string>) {
    match op
    case AddPage(frame, io) => Added(w, frame, io)
    case Reorder(ids) =>
      (match Reordered(w.Pages(), ids)
       case Ok(pages) => (w.WithPages(pages), Ok(""))
       case Err(e) => (w, Err(e)))
    case Rotate(id, degrees) =>
      if degrees != 90 && degrees != 180 && degrees != 270 then (w, Err("rotation must be 90, 180, or 270 degrees"))
      else Edit(w, id, (page: Page) => page.(rotation := (page.rotation + degrees) % 360))
    case SetCrop(id, crop) =>
      var found := IndexOfPage(w.Pages(), id);
      if found.Some? && !CropInside(crop, w.Pages()[found.value].width, w.Pages()[found.value].height)
      then (w, Err("crop must remain inside the master image"))
      else Edit(w, id, (page: Page) => page.(crop := Some(crop)))
    case ClearCrop(id) => Edit(w, id, (page: Page) => page.(crop := None))
    case SetTone(id, brightness, contrast) =>
      if brightness < -100 || brightness > 100 || contrast < -100 || contrast > 100
      then (w, Err("brightness and contrast must be between -100 and 100"))
      else Edit(w, id, (page: Page) => page.(brightness := brightness, contrast := contrast))
    case SetIncluded(id, included) => Edit(w, id, (page: Page) => page.(included := included))
    case Rescan(id, frame, io) => Rescanned(w, id, frame, io)
  }

  function RunAll(w: World, ops: seq<Op>): World
    decreases |ops|
  {
    if ops == [] then w else RunAll(Apply(w, ops[0]).0, ops[1..])
  }

  // ---------------------------------------------------------------- name lemmas

  lemma PageIdInjective(m: nat, n: nat)
    requires PageId(m) == PageId(n)
    ensures m == n
  {
    assert PageId(m)[5..] == Padded(m, 4) && PageId(n)[5..] == Padded(n, 4);
    PaddedInjective(m, n, 4);
  }

  lemma PageIdIsIdentifier(n: nat)
    requires 1 <= n <= MAX_PAGES
    ensures IsIdentifier(PageId(n)) && '/' !in PageId(n)
  {
    var digits := Padded(n, 4);
    DecLength(n, 5);
    assert Pow10(5) == 10 * (10 * (10 * (10 * (10 * Pow10(0)))));
    var id := PageId(n);
    forall i | 0 <= i < |id| ensures IsIdentifierChar(id[i]) {
      if i >= 5 {
        assert id[i] == digits[i - 5] && IsDigit(digits[i - 5]);
      }
    }
  }

  lemma IdentifierHasNoSlash(id: string)
    requires IsIdentifier(id)
    ensures '/' !in id
  {
  }

  lemma FileNameIsPlain(id: string, revision: nat)
    requires IsIdentifier(id)
    ensures var file := FileName(id, revision);
            '/' !in file && |file| > 6 && file[|file| - 4..] == ".pgm"
  {
    var digits := Padded(revision, 4);
    IdentifierHasNoSlash(id);
    assert '/' !in digits by { assert forall i :: 0 <= i < |digits| ==> IsDigit(digits[i]); }
  }

  lemma MasterNameIsSafe(id: string, revision: nat)
    requires IsIdentifier(id)
    ensures SafeRelativePath(MasterName(id, revision)) && InOriginals(MasterName(id, revision))
    ensures !IsStageName(MasterName(id, revision)) && MasterName(id, revision) != STAGE
  {
    hide FileName, SafeRelativePath, IsIdentifier, Split;
    FileNameIsPlain(id, revision);
    PlainMasterIsSafe(FileName(id, revision));
  }

  lemma PlainMasterIsSafe(file: string)
    requires '/' !in file && |file| > 6 && file[|file| - 4..] == ".pgm"
    ensures var name := "originals" + ['/'] + file;
            SafeRelativePath(name) && InOriginals(name) && !IsStageName(name) && name != STAGE
  {
    hide Split;
    var name := "originals" + ['/'] + file;
    MasterNameParts(file);
    assert name[|name| - 4..] == file[|file| - 4..];
    assert name[|name| - 1] == file[|file| - 4..][3];
  }

  lemma MasterNameParts(file: string)
    requires '/' !in file && file != ""
    ensures var name := "originals" + ['/'] + file;
            Split(name, '/') == ["originals", file] && name[10..] == file && name[..10] == "originals/"
            && name[0] == 'o' && name != STAGE
  {
    SplitAppend("originals", '/', file);
    var name := "originals" + ['/'] + file;
    assert Split(name, '/') == ["originals"] + [file];
    assert name[0] == 'o' && STAGE[0] == 's';
  }

  /** Digits end where the dash starts, so id and revision can be told apart. */
  lemma MasterNameInjective(m: nat, n: nat, revision: nat, revision': nat)
    requires MasterName(PageId(m), revision) == MasterName(PageId(n), revision')
    ensures m == n && revision == revision'
  {
    var a, b := Padded(m, 4), Padded(n, 4);
    var c, d := Padded(revision, 4), Padded(revision', 4);
    var prefix := "originals" + ['/'];
    assert MasterName(PageId(m), revision)[|prefix|..] == FileName(PageId(m), revision);
    assert MasterName(PageId(n), revision')[|prefix|..] == FileName(PageId(n), revision');
    FileNameTail(m, revision);
    FileNameTail(n, revision');
    DigitsThenDash(a, c + ".pgm", b, d + ".pgm");
    assert (c + ".pgm")[..|c|] == c && (d + ".pgm")[..|d|] == d;
    PaddedInjective(m, n, 4);
    PaddedInjective(revision, revision', 4);
  }

  lemma FileNameTail(n: nat, revision: nat)
    ensures var name := FileName(PageId(n), revision);
            |name| >= 5 && name[5..] == Padded(n, 4) + ("-r" + (Padded(revision, 4) + ".pgm"))
  {
    hide Padded;
    var tail := "-r" + (Padded(revision, 4) + ".pgm");
    assert PageId(n) + tail == "page-" + (Padded(n, 4) + tail);
  }

  lemma DigitsThenDash(a: string, x: string, b: string, y: string)
    requires AllDigits(a) && AllDigits(b) && a + ("-r" + x) == b + ("-r" + y)
    ensures a == b && x == y
  {
    var s := a + ("-r" + x);
    DigitRunLength(a, "-r" + x, s);
    DigitRunLength(b, "-r" + y, s);
    assert a == s[..|a|] && b == s[..|b|];
    assert s[|a|..][2..] == x && s[|b|..][2..] == y;
  }
}
