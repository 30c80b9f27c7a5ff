/** The PDF writer: objects, recorded offsets, cross-reference table. */
module Pdf {
  import opened Text
  import opened Pgm
  import opened Pages
  import opened Render

  const TOO_LARGE := "PDF output exceeds the safe limit"
  const MAX_PDF_PAGES: nat := 1000

  /** A rendered page with its size in points, as pdf_number prints it. */
  datatype Sheet = Sheet(image: Image, width: string, height: string)

  /** pdf_number applied to pixels * 72 / dpi; only its length is known. */
  type Points = f: (nat, nat) -> string | forall pixels: nat, dpi: nat :: |f(pixels, dpi)| <= MAX_POINTS
    witness (pixels: nat, dpi: nat) => ""

  /** No double prints longer than this with four decimals. */
  const MAX_POINTS: nat := 320

  // ------------------------------------------------------------------ objects

  /** Words with one blank between them. */
  function Words(words: seq<string>): string
    requires words != []
  {
    Join(words, ' ')
  }

  function CatalogWords(): seq<string> {
    ["<<", "/Type", "/Catalog", "/Pages", "2", "0", "R", ">>"]
  }

  function Catalog(): string {
    Words(CatalogWords())
  }

  /** References to the first `count` page objects. */
  function Kids(count: nat): string {
    if count == 0 then "" else Kids(count - 1) + Dec(3 * count) + " 0 R "
  }

  function PageTree(count: nat): string {
    "<< /Type /Pages /Count " + Dec(count) + " /Kids [ " + Kids(count) + "] >>"
  }

  function TypeWords(): seq<string> {
    ["<<", "/Type", "/Page", "/Parent", "2", "0", "R", "/MediaBox", "[0", "0"]
  }

  function ResourceWords(number: nat): seq<string> {
    ["/Resources", "<<", "/XObject", "<<", "/Im0", Dec(number + 2), "0", "R", ">>", ">>"]
  }

  function ContentsWords(number: nat): seq<string> {
    ["/Contents", Dec(number + 1), "0", "R", ">>"]
  }

  function PageWords(sheet: Sheet, number: nat): (words: seq<string>)
    ensures |words| == 27
  {
    TypeWords() + [sheet.width, sheet.height + "]"] + ResourceWords(number) + ContentsWords(number)
  }

  function PageBody(sheet: Sheet, number: nat): string {
    Words(PageWords(sheet, number))
  }

  /** The end of a stream dictionary and the start of its data. */
  function StreamMark(): (s: string)
    ensures |s| == 10 && s[0] == '>'
  {
    ">>\nstream\n"
  }

  function Content(sheet: Sheet): string {
    "q\n" + sheet.width + " 0 0 " + sheet.height + " 0 0 cm\n/Im0 Do\nQ\n"
  }

  function ContentDict(length: nat): string {
    Words(["<<", "/Length", Dec(length), ""])
  }

  function ContentBody(sheet: Sheet): string {
    ContentDict(|Content(sheet)|) + (StreamMark() + (Content(sheet) + "endstream"))
  }

  function PixelBytes(image: Image): (s: string)
    ensures |s| == |image.pixels|
  {
    seq(|image.pixels|, i requires 0 <= i < |image.pixels| => image.pixels[i] as char)
  }

  function ImageDict(image: Image): string {
    Words(["<<", "/Type", "/XObject", "/Subtype", "/Image", "/Width", Dec(image.width), "/Height", Dec(image.height),
           "/ColorSpace", "/DeviceGray", "/BitsPerComponent", "8", "/Length", Dec(|image.pixels|), ""])
  }

  function ImageBody(image: Image): string {
    ImageDict(image) + (StreamMark() + (PixelBytes(image) + "\nendstream"))
  }

  /** The bodies of objects 3, 4, 5, ...: page, content and image for each sheet. */
  function SheetBodies(sheets: seq<Sheet>): (bodies: seq<string>)
    ensures |bodies| == 3 * |sheets|
  {
    if sheets == [] then []
    else
      var n := |sheets| - 1;
      SheetBodies(sheets[..n]) + [PageBody(sheets[n], 3 + 3 * n), ContentBody(sheets[n]), ImageBody(sheets[n].image)]
  }

  /** All bodies of a document that announces `count` pages. */
  function Bodies(sheets: seq<Sheet>, count: nat): (bodies: seq<string>)
    ensures |bodies| == 2 + 3 * |sheets|
  {
    [Catalog(), PageTree(count)] + SheetBodies(sheets)
  }

  // --------------------------------------------------------------------- file

  function FileHeader(): (s: string)
    ensures |s| == 15
  {
    "%PDF-1.4\n%\U{E2}\U{E3}\U{CF}\U{D3}\n"
  }

  function ObjectText(number: nat, body: string): string {
    Dec(number) + " 0 obj\n" + body + "\nendobj\n"
  }

  /** The file header and the objects with these bodies, numbered from 1. */
  function ObjectsText(bodies: seq<string>): string {
    if bodies == [] then FileHeader()
    else ObjectsText(bodies[..|bodies| - 1]) + ObjectText(|bodies|, bodies[|bodies| - 1])
  }

  function OffsetOf(bodies: seq<string>, number: nat): nat
    requires 1 <= number <= |bodies|
  {
    |ObjectsText(bodies[..number - 1])|
  }

  function Entry(offset: nat): string {
    Padded(offset, 10) + " 00000 n \n"
  }

  function Entries(bodies: seq<string>, count: nat): string
    requires count <= |bodies|
  {
    if count == 0 then "0000000000 65535 f \n" else Entries(bodies, count - 1) + Entry(OffsetOf(bodies, count))
  }

  function XrefHead(count: nat): string {
    "xref\n0 " + (Dec(count) + "\n")
  }

  function TrailerWords(count: nat): (words: seq<string>)
    ensures |words| == 8
  {
    ["<<", "/Size", Dec(count), "/Root", "1", "0", "R", ">>"]
  }

  function Trailer(count: nat, xrefOffset: nat): string {
    "trailer\n" + Words(TrailerWords(count)) + "\n" + ("startxref\n" + (Dec(xrefOffset) + "\n%%EOF\n"))
  }

  function PdfText(bodies: seq<string>): string {
    var objects := ObjectsText(bodies);
    objects + (XrefHead(|bodies| + 1) + (Entries(bodies, |bodies|) + Trailer(|bodies| + 1, |objects|)))
  }

  // ------------------------------------------------------------------- writer

  /** std::size_t subtraction. */
  function Sub64(a: nat, b: nat): nat {
    (a - b) % (U64_MAX + 1)
  }

  /** Every object finds room when it is appended. */
  predicate Fits(bodies: seq<string>) {
    forall k :: 0 <= k < |bodies| ==> RoomFor(bodies, k)
  }

  predicate RoomFor(bodies: seq<string>, k: nat)
    requires k < |bodies|
  {
    |ObjectsText(bodies[..k])| + |bodies[k]| + 64 <= MAX_EXPORT_BYTES
  }

  /** append_object: its size guard subtracts unsigned numbers, which is exact for any body up to the limit. */
  method AppendObject(pdf: string, offsets: array<nat>, number: nat, body: string) returns (r: Result<string>)
    requires |body| + 64 <= MAX_EXPORT_BYTES && 1 <= number < offsets.Length
    modifies offsets
    ensures r == if |pdf| + |body| + 64 <= MAX_EXPORT_BYTES then Ok(pdf + ObjectText(number, body)) else Err(TOO_LARGE)
    ensures r.Ok? ==> offsets[..] == old(offsets[..])[number := |pdf|]
    ensures r.Err? ==> offsets[..] == old(offsets[..])
  {
    if |pdf| > Sub64(Sub64(MAX_EXPORT_BYTES, |body|), 64) {
      return Err(TOO_LARGE);
    }
    offsets[number] := |pdf|;
    return Ok(pdf + ObjectText(number, body));
  }

  function Included(pages: seq<Page>): seq<Page> {
    if pages == [] then []
    else
      var n := |pages| - 1;
      Included(pages[..n]) + (if pages[n].included then [pages[n]] else [])
  }

  /** The rendered pages, or the first rendering error. */
  function Sheets(files: Files, pages: seq<Page>, points: Points): (r: Result<seq<Sheet>>)
    requires forall p :: p in pages ==> Renderable(p)
    ensures r.Ok? ==> |r.value| == |pages|
  {
    if pages == [] then Ok([])
    else
      var n := |pages| - 1;
      var before :- Sheets(files, pages[..n], points);
      var image :- RenderedPage(files, pages[n]);
      Ok(before + [SheetOf(image, pages[n], points)])
  }

  function SheetOf(image: Image, page: Page, points: Points): Sheet {
    Sheet(image, points(image.width, page.dpi), points(image.height, page.dpi))
  }

  // ------------------------------------------------------- sizes are bounded

  predicate SmallSheet(sheet: Sheet) {
    sheet.image.Valid() && |sheet.image.pixels| <= MAX_TOKENS && |sheet.width| <= MAX_POINTS && |sheet.height| <= MAX_POINTS
    && sheet.image.width <= U32_MAX && sheet.image.height <= U32_MAX
  }

  /** render_page bounds the pixels: each one was a token of the master. */
  lemma RenderedIsSmall(files: Files, page: Page, points: Points)
    requires Renderable(page) && RenderedPage(files, page).Ok?
    ensures SmallSheet(SheetOf(RenderedPage(files, page).value, page, points))
  {
    hide Rotated, Toned, Cropped, ToneValue;
    var master := files[page.currentMaster];
    var pixels := DecodePgm(master, page.width, page.height).value;
    assert |pixels| <= MAX_TOKENS by {
      hide Samples, Tokens;
      assert |PgmTokens(master).value| == page.width * page.height + 4;
    }
    var image := Image(page.width, page.height, pixels);
    var cropped := CroppedFor(image, page);
    if page.crop.Some? {
      var crop := page.crop.value;
      Arith.MulMonotone(crop.width, page.width, crop.height);
      Arith.MulMonotone(crop.height, page.height, page.width);
      assert |cropped.pixels| <= |pixels|;
    }
    var rotated := Rotated(cropped, page.rotation);
    assert cropped.width * cropped.height == cropped.height * cropped.width;
    assert |rotated.pixels| == |cropped.pixels|;
  }

  lemma {:induction false} WordsLength(words: seq<string>)
    requires words != [] && forall w :: w in words ==> |w| <= 20
    ensures |Words(words)| <= 21 * |words|
  {
    if |words| > 1 {
      WordsLength(words[1..]);
    }
  }

  lemma DecIsShort(n: U32)
    ensures |Dec(n)| <= 10
  {
    DecLength(n, 10);
    assert Pow10(10) == 100000 * Pow10(5);
  }

  lemma {:induction false} KidsLength(count: nat)
    requires count <= MAX_PDF_PAGES
    ensures |Kids(count)| <= 15 * count
  {
    if count > 0 {
      KidsLength(count - 1);
      DecIsShort(3 * count);
    }
  }

  const MAX_BODY: nat := MAX_FIXTURE_BYTES

  lemma SmallBodies(sheet: Sheet, number: nat)
    requires SmallSheet(sheet) && number + 2 <= U32_MAX
    ensures |PageBody(sheet, number)| <= MAX_BODY && |ContentBody(sheet)| <= MAX_BODY && |ImageBody(sheet.image)| <= MAX_BODY
  {
    hide Dec, Words, PixelBytes;
    SmallPage(sheet, number);
    assert |Content(sheet)| <= 1000;
    DecIsShort(|Content(sheet)|);
    WordsLength(["<<", "/Length", Dec(|Content(sheet)|), ""]);
    SmallImageDict(sheet.image);
  }

  lemma SmallPage(sheet: Sheet, number: nat)
    requires SmallSheet(sheet) && number + 2 <= U32_MAX
    ensures |PageBody(sheet, number)| <= 27 * 401
  {
    hide Dec, Words;
    DecIsShort(number + 1);
    DecIsShort(number + 2);
    var words := PageWords(sheet, number);
    assert forall k :: 0 <= k < 10 ==> |TypeWords()[k]| <= 400 && |ResourceWords(number)[k]| <= 400;
    assert forall k :: 0 <= k < 5 ==> |ContentsWords(number)[k]| <= 400;
    LongWordsLength(words);
  }

  lemma {:induction false} LongWordsLength(words: seq<string>)
    requires words != [] && forall w :: w in words ==> |w| <= 400
    ensures |Words(words)| <= 401 * |words|
  {
    if |words| > 1 {
      LongWordsLength(words[1..]);
    }
  }

  lemma SmallImageDict(image: Image)
    requires image.width <= U32_MAX && image.height <= U32_MAX && |image.pixels| <= MAX_TOKENS
    ensures |ImageDict(image)| <= 336
  {
    hide Dec, Words;
    DecIsShort(image.width);
    DecIsShort(image.height);
    DecIsShort(|image.pixels|);
    var words := ["<<", "/Type", "/XObject", "/Subtype", "/Image", "/Width", Dec(image.width), "/Height", Dec(image.height),
                  "/ColorSpace", "/DeviceGray", "/BitsPerComponent", "8", "/Length", Dec(|image.pixels|), ""];
    assert |words| == 16;
    assert forall k :: 0 <= k < 16 ==> |words[k]| <= 20;
    WordsLength(words);
  }

  lemma SmallPageTree(count: nat)
    requires count <= MAX_PDF_PAGES
    ensures |PageTree(count)| <= MAX_BODY
  {
    hide Dec, Kids;
    DecIsShort(count);
    KidsLength(count);
  }

  // ------------------------------------------------------------------- export

  ghost predicate Recorded(offsets: seq<nat>, bodies: seq<string>) {
    |offsets| > |bodies|
    && forall n :: 1 <= n <= |bodies| ==> offsets[n] == OffsetOf(bodies, n)
  }

  ghost predicate Written(pdf: string, offsets: seq<nat>, bodies: seq<string>) {
    pdf == ObjectsText(bodies) && Recorded(offsets, bodies) && Fits(bodies)
  }

  lemma WrittenOneMore(pdf: string, offsets: seq<nat>, bodies: seq<string>, body: string)
    requires Written(pdf, offsets, bodies) && |offsets| > |bodies| + 1
    requires |pdf| + |body| + 64 <= MAX_EXPORT_BYTES
    ensures Written(pdf + ObjectText(|bodies| + 1, body), offsets[|bodies| + 1 := |pdf|], bodies + [body])
  {
    hide ObjectText;
    var all := bodies + [body];
    assert all[..|bodies|] == bodies;
    forall n | 1 <= n <= |all| ensures offsets[|bodies| + 1 := |pdf|][n] == OffsetOf(all, n) {
      if n <= |bodies| {
        assert all[..n - 1] == bodies[..n - 1];
      }
    }
    forall k | 0 <= k < |all| ensures RoomFor(all, k) {
      if k < |bodies| {
        assert RoomFor(bodies, k);
        assert all[..k] == bodies[..k];
      }
    }
  }

  lemma NoRoom(bodies: seq<string>, body: string, rest: seq<string>)
    requires |ObjectsText(bodies)| + |body| + 64 > MAX_EXPORT_BYTES
    ensures !Fits(bodies + [body] + rest)
  {
    var all := bodies + [body] + rest;
    assert all[..|bodies|] == bodies && all[|bodies|] == body;
    assert !RoomFor(all, |bodies|);
  }

  lemma WrittenText(pdf: string, offsets: seq<nat>, bodies: seq<string>)
    requires Written(pdf, offsets, bodies)
    ensures pdf == ObjectsText(bodies) && Fits(bodies)
    ensures |offsets| > |bodies| && forall n :: 1 <= n <= |bodies| ==> offsets[n] == OffsetOf(bodies, n)
  {
  }

  lemma NothingWritten(offsets: seq<nat>)
    requires |offsets| > 0
    ensures Written(FileHeader(), offsets, [])
  {
  }

  /** Appends one body, with the bookkeeping of what is written. */
  method Append(pdf: string, offsets: array<nat>, number: nat, body: string, ghost bodies: seq<string>)
    returns (r: Result<string>)
    requires Written(pdf, offsets[..], bodies) && offsets.Length > number == |bodies| + 1 && |body| <= MAX_BODY
    modifies offsets
    ensures r.Ok? ==> Written(r.value, offsets[..], bodies + [body])
    ensures r.Err? ==> r.error == TOO_LARGE && |ObjectsText(bodies)| + |body| + 64 > MAX_EXPORT_BYTES
  {
    hide Written, ObjectText, ObjectsText;
    ghost var before := offsets[..];
    WrittenText(pdf, before, bodies);
    if |pdf| + |body| + 64 <= MAX_EXPORT_BYTES {
      WrittenOneMore(pdf, before, bodies, body);
    }
    r := AppendObject(pdf, offsets, number, body);
  }

  lemma SheetBodiesStep(sheets: seq<Sheet>, sheet: Sheet, count: nat)
    ensures Bodies(sheets + [sheet], count)
            == Bodies(sheets, count) + [PageBody(sheet, 3 + 3 * |sheets|), ContentBody(sheet), ImageBody(sheet.image)]
  {
    hide PageBody, ContentBody, ImageBody, Catalog, PageTree;
    assert (sheets + [sheet])[..|sheets|] == sheets;
  }

  /** The three objects of one page. */
  method AppendSheet(pdf: string, offsets: array<nat>, sheet: Sheet, index: nat, count: nat, ghost sheets: seq<Sheet>)
    returns (r: Result<string>)
    requires Written(pdf, offsets[..], Bodies(sheets, count)) && index == |sheets| < count <= MAX_PDF_PAGES
    requires offsets.Length == 3 + 3 * count && SmallSheet(sheet)
    modifies offsets
    ensures r.Ok? ==> Written(r.value, offsets[..], Bodies(sheets + [sheet], count))
    ensures r.Err? ==> r.error == TOO_LARGE
    ensures r.Err? ==> forall more: seq<string> :: !Fits(Bodies(sheets + [sheet], count) + more)
  {
    hide Written, ObjectText, ObjectsText, PageBody, ContentBody, ImageBody, Fits, Bodies;
    var number := 3 + 3 * index;
    SmallBodies(sheet, number);
    SheetBodiesStep(sheets, sheet, count);
    ghost var b0 := Bodies(sheets, count);
    ghost var b1 := b0 + [PageBody(sheet, number)];
    ghost var b2 := b1 + [ContentBody(sheet)];
    ghost var b3 := b2 + [ImageBody(sheet.image)];
    assert b3 == Bodies(sheets + [sheet], count);
    r := Append(pdf, offsets, number, PageBody(sheet, number), b0);
    if r.Err? {
      NeverFits(b0, PageBody(sheet, number), [ContentBody(sheet), ImageBody(sheet.image)], b3);
      return;
    }
    r := Append(r.value, offsets, number + 1, ContentBody(sheet), b1);
    if r.Err? {
      NeverFits(b1, ContentBody(sheet), [ImageBody(sheet.image)], b3);
      return;
    }
    r := Append(r.value, offsets, number + 2, ImageBody(sheet.image), b2);
    if r.Err? {
      NeverFits(b2, ImageBody(sheet.image), [], b3);
    }
  }

  lemma NeverFits(bodies: seq<string>, body: string, rest: seq<string>, all: seq<string>)
    requires |ObjectsText(bodies)| + |body| + 64 > MAX_EXPORT_BYTES
    requires all == bodies + [body] + rest
    ensures forall more: seq<string> :: !Fits(all + more)
  {
    hide Fits, ObjectsText;
    forall more: seq<string> ensures !Fits(all + more) {
      NoRoom(bodies, body, rest + more);
      assert all + more == bodies + [body] + (rest + more);
    }
  }

  /** The loop that gathers the included pages. */
  method FilterIncluded(pages: seq<Page>) returns (included: seq<Page>)
    ensures included == Included(pages)
  {
    included := [];
    for i := 0 to |pages|
      invariant included == Included(pages[..i])
    {
      assert pages[..i + 1][..i] == pages[..i];
      if pages[i].included {
        included := included + [pages[i]];
      }
    }
    assert pages[..|pages|] == pages;
  }

  lemma {:induction false} IncludedArePages(pages: seq<Page>)
    ensures forall p :: p in Included(pages) ==> p in pages && p.included
  {
    if pages != [] {
      IncludedArePages(pages[..|pages| - 1]);
    }
  }

  /** The sheets of a front part of the pages are a front part of the sheets. */
  lemma {:induction false} SheetsPrefix(files: Files, pages: seq<Page>, k: nat, points: Points)
    requires k <= |pages| && forall p :: p in pages ==> Renderable(p)
    ensures Sheets(files, pages, points).Ok? ==>
              Sheets(files, pages[..k], points) == Ok(Sheets(files, pages, points).value[..k])
  {
    hide RenderedPage;
    if k == |pages| {
      assert pages[..k] == pages;
      if Sheets(files, pages, points).Ok? {
        assert Sheets(files, pages, points).value[..k] == Sheets(files, pages, points).value;
      }
    } else {
      var n := |pages| - 1;
      SheetsPrefix(files, pages[..n], k, points);
      assert pages[..n][..k] == pages[..k];
      if Sheets(files, pages, points).Ok? {
        var before, all := Sheets(files, pages[..n], points).value, Sheets(files, pages, points).value;
        assert all[..n] == before && all[..k] == before[..k];
      }
    }
  }

  lemma {:induction false} BodiesPrefix(sheets: seq<Sheet>, k: nat, count: nat) returns (more: seq<string>)
    requires k <= |sheets|
    ensures Bodies(sheets, count) == Bodies(sheets[..k], count) + more
    decreases |sheets|
  {
    hide Bodies;
    if k == |sheets| {
      assert sheets[..k] == sheets;
      more := [];
    } else {
      var n := |sheets| - 1;
      var rest := BodiesPrefix(sheets[..n], k, count);
      assert sheets[..n][..k] == sheets[..k] && sheets == sheets[..n] + [sheets[n]];
      SheetBodiesStep(sheets[..n], sheets[n], count);
      more := rest + [PageBody(sheets[n], 3 + 3 * n), ContentBody(sheets[n]), ImageBody(sheets[n].image)];
    }
  }

  /** Once an object finds no room the whole document has none. */
  lemma SheetsGoOn(files: Files, pages: seq<Page>, k: nat, points: Points, prefix: seq<Sheet>, count: nat)
    requires k <= |pages| && forall p :: p in pages ==> Renderable(p)
    requires Sheets(files, pages[..k], points) == Ok(prefix)
    requires forall more: seq<string> :: !Fits(Bodies(prefix, count) + more)
    ensures Sheets(files, pages, points).Ok? ==> !Fits(Bodies(Sheets(files, pages, points).value, count))
  {
    hide Fits, Bodies, Sheets;
    SheetsPrefix(files, pages, k, points);
    if Sheets(files, pages, points).Ok? {
      var more := BodiesPrefix(Sheets(files, pages, points).value, k, count);
    }
  }

  /** The cross-reference table, the trailer and the pointer to the table. */
  method PrintTable(pdf: string, offsets: array<nat>, count: nat, ghost bodies: seq<string>) returns (text: string)
    requires Written(pdf, offsets[..], bodies) && count == |bodies|
    ensures text == PdfText(bodies)
  {
    hide Written, ObjectsText, Trailer, XrefHead, Entry;
    WrittenText(pdf, offsets[..], bodies);
    var xrefOffset := |pdf|;
    var table := "0000000000 65535 f \n";
    var number := 1;
    while number <= count
      invariant 1 <= number <= count + 1
      invariant table == Entries(bodies, number - 1)
    {
      assert offsets[..][number] == OffsetOf(bodies, number);
      table := table + Entry(offsets[number]);
      number := number + 1;
    }
    text := pdf + (XrefHead(count + 1) + (table + Trailer(count + 1, xrefOffset)));
  }

  /** The catalog and the page tree. */
  method StartDocument(offsets: array<nat>, count: nat) returns (r: Result<string>)
    requires 0 < count <= MAX_PDF_PAGES && offsets.Length == 3 + 3 * count
    modifies offsets
    ensures r.Ok? ==> Written(r.value, offsets[..], Bodies([], count))
    ensures r.Err? ==> r.error == TOO_LARGE
    ensures r.Err? ==> forall more: seq<string> :: !Fits(Bodies([], count) + more)
  {
    hide Written, ObjectsText, PageTree, Fits;
    var pdf := FileHeader();
    NothingWritten(offsets[..]);
    SmallPageTree(count);
    ghost var both := Bodies([], count);
    assert both == [Catalog()] + [PageTree(count)];
    r := Append(pdf, offsets, 1, Catalog(), []);
    if r.Err? {
      NeverFits([], Catalog(), [PageTree(count)], both);
      return;
    }
    assert [] + [Catalog()] == [Catalog()];
    r := Append(r.value, offsets, 2, PageTree(count), [Catalog()]);
    if r.Err? {
      NeverFits([Catalog()], PageTree(count), [], both);
    }
  }

  /** The page loop of the export. */
  method AppendPages(files: Files, included: seq<Page>, points: Points, offsets: array<nat>, start: string)
    returns (r: Result<string>, ghost sheets: seq<Sheet>)
    requires 0 < |included| <= MAX_PDF_PAGES && forall p :: p in included ==> Renderable(p)
    requires offsets.Length == 3 + 3 * |included| && Written(start, offsets[..], Bodies([], |included|))
    modifies offsets
    ensures r.Ok? ==> Sheets(files, included, points) == Ok(sheets) && Written(r.value, offsets[..], Bodies(sheets, |included|))
    ensures r.Err? ==> Sheets(files, included, points).Ok? ==>
              !Fits(Bodies(Sheets(files, included, points).value, |included|))
  {
    hide Written, Bodies, Fits, RenderedPage;
    var count := |included|;
    var pdf := start;
    sheets := [];
    assert included[..0] == [];
    var index := 0;
    while index < count
      invariant 0 <= index <= count && |sheets| == index
      invariant Sheets(files, included[..index], points) == Ok(sheets)
      invariant Written(pdf, offsets[..], Bodies(sheets, count))
    {
      var page := included[index];
      var rendered := RenderPage(files, page);
      assert included[..index + 1][..index] == included[..index];
      if rendered.Err? {
        SheetsPrefix(files, included, index + 1, points);
        return Err(rendered.error), sheets;
      }
      RenderedIsSmall(files, page, points);
      var sheet := SheetOf(rendered.value, page, points);
      var appended := AppendSheet(pdf, offsets, sheet, index, count, sheets);
      if appended.Err? {
        FitsWithNothing(sheets + [sheet], count);
        SheetsGoOn(files, included, index + 1, points, sheets + [sheet], count);
        return appended, sheets;
      }
      sheets := sheets + [sheet];
      pdf := appended.value;
      index := index + 1;
    }
    assert included[..index] == included;
    r := Ok(pdf);
  }

  lemma FitsWithNothing(sheets: seq<Sheet>, count: nat)
    ensures Bodies(sheets, count) + [] == Bodies(sheets, count)
  {
  }

  /** export_multipage_pdf up to the publication of the bytes: it succeeds exactly when all
      pages render and all objects fit, and then yields the specified text. */
  method ExportPdf(files: Files, pages: seq<Page>, points: Points) returns (r: Result<string>)
    requires forall p :: p in pages ==> Renderable(p)
    ensures var included := Included(pages);
            if included == [] || |included| > MAX_PDF_PAGES then r == Err("PDF page count is unsupported")
            else
              (forall p :: p in included ==> Renderable(p))
              && var sheets := Sheets(files, included, points);
                 (r.Ok? <==> sheets.Ok? && Fits(Bodies(sheets.value, |included|)))
                 && (r.Ok? ==> r.value == PdfText(Bodies(sheets.value, |included|)))
  {
    hide Written, Fits, Bodies, PdfText, Sheets;
    var included := FilterIncluded(pages);
    IncludedArePages(pages);
    if included == [] || |included| > MAX_PDF_PAGES {
      return Err("PDF page count is unsupported");
    }
    var count := |included|;
    var offsets := new nat[3 + 3 * count](_ => 0);
    var start := StartDocument(offsets, count);
    if start.Err? {
      NoSheets(files, included, points);
      SheetsGoOn(files, included, 0, points, [], count);
      return start;
    }
    var body, sheets := AppendPages(files, included, points, offsets, start.value);
    if body.Err? {
      return body;
    }
    WrittenText(body.value, offsets[..], Bodies(sheets, count));
    SheetsLength(files, included, points);
    var text := PrintTable(body.value, offsets, 2 + 3 * count, Bodies(sheets, count));
    r := Ok(text);
  }

  lemma NoSheets(files: Files, pages: seq<Page>, points: Points)
    ensures Sheets(files, pages[..0], points) == Ok([])
  {
  }

  lemma SheetsLength(files: Files, pages: seq<Page>, points: Points)
    requires forall p :: p in pages ==> Renderable(p)
    ensures Sheets(files, pages, points).Ok? ==> |Sheets(files, pages, points).value| == |pages|
  {
  }
}
