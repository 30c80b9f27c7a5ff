/** Page records, scan frames and their validation.

    Paths are strings relative to the session root, with `/` between components;
    a set of such paths stands for the regular files below the root. */
module Pages {
  import opened Text
  import opened Pgm

  datatype SourceType = Flatbed | AdfSimplex | AdfDuplex
  datatype ColorMode = Gray8 | Rgb24
  datatype CropRect = CropRect(x: U32, y: U32, width: U32, height: U32)

  type U16 = x: int | 0 <= x <= 0xFFFF
  type I16 = x: int | -0x8000 <= x <= 0x7FFF

  datatype Page = Page(
    id: string, fixtureId: string, currentMaster: string, preservedMasters: seq<string>,
    revision: U32, width: U32, height: U32, dpi: U32, color: ColorMode, bitDepth: U32,
    source: SourceType, rotation: U16, crop: Option<CropRect>,
    brightness: I16, contrast: I16, included: bool)

  datatype ScanFrame = ScanFrame(
    fixtureId: string, extension: string, bytes: string, width: U32, height: U32, dpi: U32,
    color: ColorMode, bitDepth: U32, source: SourceType)

  const MAX_IMAGE_DIMENSION: nat := 200000
  const MAX_PAGES: nat := 10000
  const MAX_HISTORY: nat := 100000

  predicate IsIdentifierChar(c: char) {
    'a' <= c <= 'z' || 'A' <= c <= 'Z' || IsDigit(c) || c == '-' || c == '_' || c == '.'
  }

  predicate IsIdentifier(value: string) {
    0 < |value| <= 64 && forall i :: 0 <= i < |value| ==> IsIdentifierChar(value[i])
  }

  function RequireIdentifier(value: string, field: string): Result<()> {
    if IsIdentifier(value) then Ok(()) else Err(field + " is invalid")
  }

  predicate IsPlainText(value: string) {
    0 < |value| <= 128 && forall i :: 0 <= i < |value| ==> value[i] >= 0x20 as char && value[i] != 0x7f as char
  }

  function RequireText(value: string, field: string): Result<()> {
    if IsPlainText(value) then Ok(()) else Err(field + " is invalid")
  }

  /** A relative path without `.` or `..` components and without a trailing slash. */
  predicate SafeRelativePath(path: string) {
    path != "" && path[0] != '/' && path[|path| - 1] != '/'
    && forall part :: part in Split(path, '/') ==> part != "." && part != ".."
  }

  predicate CropInside(crop: CropRect, width: U32, height: U32) {
    crop.width != 0 && crop.height != 0 && crop.x <= width && crop.y <= height
    && crop.width <= width - crop.x && crop.height <= height - crop.y
  }

  function ValidateFrame(frame: ScanFrame): Result<()> {
    var _ :- RequireIdentifier(frame.fixtureId, "fixture id");
    if frame.extension != ".pgm" || frame.bytes == "" || |frame.bytes| > MAX_FIXTURE_BYTES
       || frame.width == 0 || frame.height == 0 || frame.width > MAX_IMAGE_DIMENSION
       || frame.height > MAX_IMAGE_DIMENSION || frame.dpi == 0 || frame.color != Gray8 || frame.bitDepth != 8
    then Err("scan frame is invalid")
    else var _ :- DecodePgm(frame.bytes, frame.width, frame.height); Ok(())
  }

  predicate RecordInRange(page: Page) {
    SafeRelativePath(page.currentMaster) && page.revision != 0 && page.width != 0 && page.height != 0
    && page.dpi != 0 && page.bitDepth == 8
    && (page.rotation == 0 || page.rotation == 90 || page.rotation == 180 || page.rotation == 270)
    && -100 <= page.brightness <= 100 && -100 <= page.contrast <= 100
  }

  function ValidateHistory(history: seq<string>, files: set<string>): (r: Result<()>)
    ensures r.Ok? <==> forall h :: h in history ==> SafeRelativePath(h) && h in files
  {
    if history == [] then Ok(())
    else if !SafeRelativePath(history[0]) || history[0] !in files then Err("page history is invalid")
    else ValidateHistory(history[1..], files)
  }

  function ValidatePage(page: Page, files: set<string>): (r: Result<()>)
    ensures r.Ok? <==> ValidPage(page, files)
  {
    var _ :- RequireIdentifier(page.id, "page id");
    var _ :- RequireIdentifier(page.fixtureId, "fixture id");
    if !RecordInRange(page) then Err("page record is invalid")
    else if page.currentMaster !in files then Err("page master is unavailable")
    else if page.crop.Some? && !CropInside(page.crop.value, page.width, page.height) then Err("page crop is invalid")
    else ValidateHistory(page.preservedMasters, files)
  }

  /** What validate_page accepts. */
  predicate ValidPage(page: Page, files: set<string>) {
    IsIdentifier(page.id) && IsIdentifier(page.fixtureId) && RecordInRange(page)
    && page.currentMaster in files
    && (page.crop.Some? ==> CropInside(page.crop.value, page.width, page.height))
    && forall h :: h in page.preservedMasters ==> SafeRelativePath(h) && h in files
  }

  /** Files below the session root, by relative path. */
  type Files = map<string, string>

  function ReadBoundedFile(files: Files, path: string, limit: nat, failure: string): Result<string> {
    if path !in files || files[path] == "" || |files[path]| > limit then Err(failure) else Ok(files[path])
  }

  /** The record add_page makes from a frame, apart from its id and its master's path. */
  function DefaultPage(id: string, master: string, frame: ScanFrame): Page {
    Page(id, frame.fixtureId, master, [], 1, frame.width, frame.height, frame.dpi, frame.color, frame.bitDepth,
         frame.source, 0, None, 0, 0, true)
  }
}
