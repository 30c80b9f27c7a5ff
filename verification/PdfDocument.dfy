/** Reading a whole document: from the end of the file to the pixels of every page, with nothing but the bytes given.

    As the writer does, the reader takes each dictionary to stand on one line, with blanks between its words. */
module PdfDocument {
  import opened Text
  import opened Pages
  import opened Pgm
  import opened Render
  import opened Pdf
  import opened PdfReader

  // ------------------------------------------------------------------- reader

  /** A text up to its first line end. */
  function LineOf(text: string): string {
    if '\n' in text then text[..IndexOf(text, '\n')] else text
  }

  /** The object number in the reference behind a key: "/Key n 0 R". */
  function RefIn(words: seq<string>, key: string): Option<nat> {
    if |words| < 4 then None
    else if words[0] == key then
      if words[1] != "" && AllDigits(words[1]) && words[2] == "0" && words[3] == "R" then Some(Value(words[1])) else None
    else RefIn(words[1..], key)
  }

  function RefOf(text: string, key: string): Option<nat> {
    RefIn(Split(LineOf(text), ' '), key)
  }

  /** The file from the body of an object on: its table entry has to lead to "n 0 obj". */
  function BodyOn(pdf: string, number: nat): Option<string> {
    var mark := Dec(number) + " 0 obj\n";
    var at := FindObject(pdf, number);
    if at.None? || !OccursAt(pdf, mark, at.value) then None else Some(pdf[at.value + |mark|..])
  }

  /** The object behind a reference in another one. */
  function Follow(pdf: string, from: Option<string>, key: string): Option<string> {
    if from.None? || RefOf(from.value, key).None? then None else BodyOn(pdf, RefOf(from.value, key).value)
  }

  /** The file from the trailer dictionary on, right behind the table. */
  function TrailerOn(pdf: string): Option<string> {
    var start := StartXref(pdf);
    if start.None? || TableAt(pdf, start.value).None? then None
    else
      var (count, first) := TableAt(pdf, start.value).value;
      if !OccursAt(pdf, "trailer\n", first + 20 * count) then None else Some(pdf[first + 20 * count + 8..])
  }

  /** Content and image data of a page. */
  function ReadPage(pdf: string, number: nat): Option<(string, string)> {
    var page := BodyOn(pdf, number);
    var content, image := Follow(pdf, page, "/Contents"), Follow(pdf, page, "/Im0");
    if content.None? || image.None? || StreamData(content.value).None? || StreamData(image.value).None? then None
    else Some((StreamData(content.value).value, StreamData(image.value).value))
  }

  function ReadPages(pdf: string, numbers: seq<nat>): Option<seq<(string, string)>> {
    if numbers == [] then Some([])
    else
      var page, more := ReadPage(pdf, numbers[0]), ReadPages(pdf, numbers[1..]);
      if page.None? || more.None? then None else Some([page.value] + more.value)
  }

  /** The pages of a document, in the order of its page tree. */
  function ReadDocument(pdf: string): Option<seq<(string, string)>> {
    var tree := Follow(pdf, Follow(pdf, TrailerOn(pdf), "/Root"), "/Pages");
    if tree.None? then None
    else
      var kids := KidsOf(LineOf(tree.value));
      if kids.None? then None else ReadPages(pdf, kids.value)
  }

  // ------------------------------------------------------------ lines and words

  /** What a page size prints as: no blanks, slashes or line ends. */
  predicate PlainSize(s: string) {
    ' ' !in s && '/' !in s && '\n' !in s
  }

  predicate PlainSheet(sheet: Sheet) {
    PlainSize(sheet.width) && PlainSize(sheet.height)
  }

  lemma LineIs(line: string, rest: string)
    requires '\n' !in line
    ensures LineOf(line + "\n" + rest) == line
  {
    var text := line + "\n" + rest;
    assert text[|line|] == '\n' && text[..|line|] == line;
    IndexOfIs(text, '\n', |line|);
  }

  predicate NoBlanks(words: seq<string>) {
    words != [] && forall i :: 0 <= i < |words| ==> ' ' !in words[i] && '\n' !in words[i]
  }

  /** A dictionary on one line is read back as its words. */
  lemma WordsOfLine(words: seq<string>, rest: string)
    requires NoBlanks(words)
    ensures '\n' !in Words(words) && Split(LineOf(Words(words) + "\n" + rest), ' ') == words
  {
    assert forall w :: w in words ==> ' ' !in w && '\n' !in w;
    JoinAvoids(words, ' ', '\n');
    SplitJoin(words, ' ');
    LineIs(Words(words), rest);
  }

  lemma {:induction false} RefInIs(words: seq<string>, key: string, k: nat, n: nat)
    requires k + 3 < |words| && words[k] == key && (forall i :: 0 <= i < k ==> words[i] != key)
    requires words[k + 1] == Dec(n) && words[k + 2] == "0" && words[k + 3] == "R"
    ensures RefIn(words, key) == Some(n)
  {
    if k > 0 {
      RefInIs(words[1..], key, k - 1, n);
    } else {
      ValueOfDec(n);
    }
  }

  lemma DecHasNoBlanks(n: nat)
    ensures ' ' !in Dec(n) && '\n' !in Dec(n) && '/' !in Dec(n)
  {
    assert !IsDigit(' ') && !IsDigit('\n') && !IsDigit('/');
  }

  // ------------------------------------------------------- the writer's lines

  lemma CatalogWordsAreClean()
    ensures NoBlanks(CatalogWords())
  {
  }

  lemma TrailerWordsAreClean(count: nat)
    ensures NoBlanks(TrailerWords(count))
  {
    DecHasNoBlanks(count);
    hide Dec;
  }

  lemma TypeWordsAreClean()
    ensures NoBlanks(TypeWords()) && forall i :: 0 <= i < 10 ==> TypeWords()[i] != "/Im0" && TypeWords()[i] != "/Contents"
  {
  }

  lemma ResourceWordsAreClean(number: nat)
    ensures NoBlanks(ResourceWords(number))
    ensures forall i :: 0 <= i < 10 ==> ResourceWords(number)[i] != "/Contents" && (i < 4 ==> ResourceWords(number)[i] != "/Im0")
  {
    DecHasNoBlanks(number + 2);
    hide Dec;
  }

  lemma ContentsWordsAreClean(number: nat)
    ensures NoBlanks(ContentsWords(number))
  {
    DecHasNoBlanks(number + 1);
    hide Dec;
  }

  // ------------------------------------------------------------- references

  lemma CatalogRef(rest: string)
    ensures RefOf(Catalog() + "\n" + rest, "/Pages") == Some(2)
  {
    hide Words, Split, LineOf;
    CatalogWordsAreClean();
    WordsOfLine(CatalogWords(), rest);
    assert Dec(2) == "2";
    RefInIs(CatalogWords(), "/Pages", 3, 2);
  }

  lemma TrailerRef(count: nat, rest: string)
    ensures RefOf(Words(TrailerWords(count)) + "\n" + rest, "/Root") == Some(1)
  {
    hide Words, Split, LineOf;
    TrailerWordsAreClean(count);
    WordsOfLine(TrailerWords(count), rest);
    assert Dec(1) == "1";
    DecHasNoBlanks(count);
    assert "/Root"[0] == '/';
    RefInIs(TrailerWords(count), "/Root", 3, 1);
  }

  lemma PageWordsAre(sheet: Sheet, number: nat)
    requires PlainSheet(sheet)
    ensures var words := PageWords(sheet, number);
            NoBlanks(words)
            && words[16] == "/Im0" && words[17] == Dec(number + 2) && words[18] == "0" && words[19] == "R"
            && (forall i :: 0 <= i < 16 ==> words[i] != "/Im0")
            && words[22] == "/Contents" && words[23] == Dec(number + 1) && words[24] == "0" && words[25] == "R"
            && (forall i :: 0 <= i < 22 ==> words[i] != "/Contents")
  {
    TypeWordsAreClean();
    ResourceWordsAreClean(number);
    ContentsWordsAreClean(number);
    SizeWordsAreClean(sheet);
    PlacesOfWords(sheet, number);
    hide TypeWords, ResourceWords, ContentsWords, PageWords, Dec;
    var words := PageWords(sheet, number);
    forall i | 0 <= i < 27 ensures ' ' !in words[i] && '\n' !in words[i] {
      if 10 <= i < 12 {
        assert words[i] == [sheet.width, sheet.height + "]"][i - 10];
      }
    }
  }

  lemma SizeWordsAreClean(sheet: Sheet)
    requires PlainSheet(sheet)
    ensures NoBlanks([sheet.width, sheet.height + "]"])
    ensures sheet.width != "/Im0" && sheet.width != "/Contents" && sheet.height + "]" != "/Im0"
    ensures sheet.height + "]" != "/Contents"
  {
    assert '/' in "/Im0" && '/' in "/Contents";
  }

  /** The four groups of words of a page, by place. */
  lemma PlacesOfWords(sheet: Sheet, number: nat)
    ensures var words := PageWords(sheet, number);
            |TypeWords()| == 10 && |ResourceWords(number)| == 10 && |ContentsWords(number)| == 5
            && (forall i :: 0 <= i < 10 ==> words[i] == TypeWords()[i])
            && words[10] == sheet.width && words[11] == sheet.height + "]"
            && (forall i :: 12 <= i < 22 ==> words[i] == ResourceWords(number)[i - 12])
            && (forall i :: 22 <= i < 27 ==> words[i] == ContentsWords(number)[i - 22])
            && words[16] == "/Im0" && words[17] == Dec(number + 2) && words[18] == "0" && words[19] == "R"
            && words[22] == "/Contents" && words[23] == Dec(number + 1) && words[24] == "0" && words[25] == "R"
  {
    hide Dec;
  }

  lemma PageRefs(sheet: Sheet, number: nat, rest: string)
    requires PlainSheet(sheet)
    ensures RefOf(PageBody(sheet, number) + "\n" + rest, "/Im0") == Some(number + 2)
    ensures RefOf(PageBody(sheet, number) + "\n" + rest, "/Contents") == Some(number + 1)
  {
    hide Words, Split, LineOf, PageWords, NoBlanks, Dec, RefIn;
    var words := PageWords(sheet, number);
    PageWordsAre(sheet, number);
    WordsOfLine(words, rest);
    RefInIs(words, "/Im0", 16, number + 2);
    RefInIs(words, "/Contents", 22, number + 1);
  }

  lemma {:induction false} TreeIsOneLine(count: nat)
    ensures '\n' !in Kids(count) && '\n' !in PageTree(count)
  {
    DecHasNoBlanks(count);
    DecHasNoBlanks(3 * count);
    hide Dec;
    if count > 0 {
      TreeIsOneLine(count - 1);
    }
  }

  // --------------------------------------------------------------- the file

  /** What follows the body of an object in the file starts a new line. */
  lemma BodyOnIs(bodies: seq<string>, number: nat) returns (rest: string)
    requires Fits(bodies) && 1 <= number <= |bodies|
    ensures BodyOn(PdfText(bodies), number) == Some(bodies[number - 1] + "\n" + rest)
  {
    hide Fits, PdfText, FindObject, ObjectsText, OffsetOf, TableAt, Entries, XrefHead, Dec;
    var pdf, at, body := PdfText(bodies), OffsetOf(bodies, number), bodies[number - 1];
    XrefFindsEveryObject(bodies, number);
    var mark, entire := Dec(number) + " 0 obj\n", ObjectText(number, body);
    rest := "endobj\n" + pdf[at + |entire|..];
    ObjectSplits(pdf, at, mark, body, entire);
  }

  lemma ObjectSplits(pdf: string, at: nat, mark: string, body: string, entire: string)
    requires entire == mark + body + "\nendobj\n" && OccursAt(pdf, entire, at)
    ensures OccursAt(pdf, mark, at) && pdf[at + |mark|..] == body + "\n" + ("endobj\n" + pdf[at + |entire|..])
  {
    assert entire == mark + (body + "\nendobj\n");
    assert entire[..|mark|] == mark;
    assert pdf[at..at + |mark|] == pdf[at..at + |entire|][..|mark|];
    assert pdf[at + |mark|..at + |entire|] == pdf[at..at + |entire|][|mark|..] == body + "\nendobj\n";
    assert pdf[at + |mark|..] == pdf[at + |mark|..at + |entire|] + pdf[at + |entire|..];
    assert "\nendobj\n" == "\n" + "endobj\n";
  }

  lemma TrailerOnIs(bodies: seq<string>) returns (rest: string)
    requires Fits(bodies)
    ensures TrailerOn(PdfText(bodies)) == Some(Words(TrailerWords(|bodies| + 1)) + "\n" + rest)
  {
    hide Fits, Entry, Entries, ObjectsText, XrefHead, StartXref, TableAt, Words, TrailerWords, Dec;
    var n := |bodies|;
    var objects, head, entries := ObjectsText(bodies), XrefHead(n + 1), Entries(bodies, n);
    var line := Words(TrailerWords(n + 1));
    rest := "startxref\n" + (Dec(|objects|) + "\n%%EOF\n");
    var trailer := Trailer(n + 1, |objects|);
    assert trailer == "trailer\n" + (line + "\n" + rest);
    var pdf := PdfText(bodies);
    assert pdf == objects + head + entries + trailer;
    assert pdf == objects + (head + (entries + trailer));
    TrailerEnds(objects + head + entries, n + 1, |objects|);
    TableOf(objects, n + 1, entries + trailer);
    EntriesLength(bodies, n);
    TrailerPlace(objects + head + entries, line + "\n" + rest);
  }

  lemma TrailerPlace(front: string, rest: string)
    ensures OccursAt(front + ("trailer\n" + rest), "trailer\n", |front|)
    ensures (front + ("trailer\n" + rest))[|front| + 8..] == rest
  {
    OccursAfter(front, "trailer\n", rest);
    assert front + ("trailer\n" + rest) == front + "trailer\n" + rest;
    assert |front + "trailer\n"| == |front| + 8;
  }

  // ------------------------------------------------------------- the document

  /** What is to be read: content and pixels of each sheet, in order. */
  function PagesOf(sheets: seq<Sheet>): (pages: seq<(string, string)>)
    ensures |pages| == |sheets|
    ensures forall i :: 0 <= i < |sheets| ==> pages[i] == (Content(sheets[i]), PixelBytes(sheets[i].image))
  {
    seq(|sheets|, i requires 0 <= i < |sheets| => (Content(sheets[i]), PixelBytes(sheets[i].image)))
  }

  lemma ReadsPage(sheets: seq<Sheet>, i: nat)
    requires i < |sheets| && Fits(Bodies(sheets, |sheets|)) && PlainSheet(sheets[i])
    ensures ReadPage(PdfText(Bodies(sheets, |sheets|)), PageNumbers(|sheets|)[i]) == Some(PagesOf(sheets)[i])
  {
    hide Fits, PdfText, BodyOn, RefOf, PageBody, ContentBody, ImageBody, StreamData, Content, PixelBytes, KidsOf, PlainSheet,
         ReadPage, SheetBodies;
    var bodies, number, sheet := Bodies(sheets, |sheets|), PageNumbers(|sheets|)[i], sheets[i];
    KidsLeadToPages(sheets, i);
    var page := BodyOnIs(bodies, number);
    PageRefs(sheet, number, page);
    var content := BodyIs(bodies, number + 1, ContentBody(sheet));
    ContentStream(sheet, "\n" + content);
    var image := BodyIs(bodies, number + 2, ImageBody(sheet.image));
    ImageStream(sheet.image, "\n" + image);
    ReadPageIs(PdfText(bodies), number, PageBody(sheet, number) + "\n" + page, ContentBody(sheet) + ("\n" + content),
               ImageBody(sheet.image) + ("\n" + image));
  }

  lemma BodyIs(bodies: seq<string>, number: nat, body: string) returns (rest: string)
    requires Fits(bodies) && 1 <= number <= |bodies| && bodies[number - 1] == body
    ensures BodyOn(PdfText(bodies), number) == Some(body + ("\n" + rest))
  {
    hide Fits, PdfText, BodyOn;
    rest := BodyOnIs(bodies, number);
    assert body + "\n" + rest == body + ("\n" + rest);
  }

  lemma ReadPageIs(pdf: string, number: nat, page: string, content: string, image: string)
    requires BodyOn(pdf, number) == Some(page)
    requires RefOf(page, "/Contents") == Some(number + 1) && RefOf(page, "/Im0") == Some(number + 2)
    requires BodyOn(pdf, number + 1) == Some(content) && BodyOn(pdf, number + 2) == Some(image)
    requires StreamData(content).Some? && StreamData(image).Some?
    ensures ReadPage(pdf, number) == Some((StreamData(content).value, StreamData(image).value))
  {
    hide BodyOn, RefOf, StreamData;
  }

  lemma {:induction false} ReadsPagesFrom(sheets: seq<Sheet>, i: nat)
    requires i <= |sheets| && Fits(Bodies(sheets, |sheets|)) && forall s :: s in sheets ==> PlainSheet(s)
    ensures ReadPages(PdfText(Bodies(sheets, |sheets|)), PageNumbers(|sheets|)[i..]) == Some(PagesOf(sheets)[i..])
    decreases |sheets| - i
  {
    hide Fits, PdfText, Bodies, ReadPage, PlainSheet;
    var numbers, pages := PageNumbers(|sheets|), PagesOf(sheets);
    if i < |sheets| {
      ReadsPage(sheets, i);
      ReadsPagesFrom(sheets, i + 1);
      assert numbers[i..][1..] == numbers[i + 1..] && numbers[i..][0] == numbers[i];
      assert [pages[i]] + pages[i + 1..] == pages[i..];
      assert ReadPages(PdfText(Bodies(sheets, |sheets|)), numbers[i..]) == Some([pages[i]] + pages[i + 1..]);
    } else {
      assert numbers[i..] == [] && pages[i..] == [];
    }
  }

  lemma TreeIsFound(bodies: seq<string>, count: nat)
    requires Fits(bodies) && |bodies| >= 2 && bodies[0] == Catalog() && bodies[1] == PageTree(count)
    ensures var tree := Follow(PdfText(bodies), Follow(PdfText(bodies), TrailerOn(PdfText(bodies)), "/Root"), "/Pages");
            tree.Some? && LineOf(tree.value) == PageTree(count)
  {
    hide Fits, PdfText, BodyOn, RefOf, TrailerOn, Catalog, PageTree, Words, TrailerWords;
    var trailer := TrailerOnIs(bodies);
    TrailerRef(|bodies| + 1, trailer);
    var catalog := BodyOnIs(bodies, 1);
    CatalogRef(catalog);
    var tree := BodyOnIs(bodies, 2);
    TreeIsOneLine(count);
    LineIs(PageTree(count), tree);
  }

  /** A reader that is given the bytes of a written document alone gets the content and the very pixels of every page, in
      the order of the session. */
  lemma DocumentIsRead(sheets: seq<Sheet>)
    requires Fits(Bodies(sheets, |sheets|)) && forall s :: s in sheets ==> PlainSheet(s)
    ensures ReadDocument(PdfText(Bodies(sheets, |sheets|))) == Some(PagesOf(sheets))
  {
    hide Fits, PdfText, Follow, TrailerOn, Catalog, PageTree, ReadPages, KidsOf, PlainSheet, LineOf;
    var bodies := Bodies(sheets, |sheets|);
    TreeIsFound(bodies, |sheets|);
    KidsOfPageTree(|sheets|);
    ReadsPagesFrom(sheets, 0);
    assert PageNumbers(|sheets|)[0..] == PageNumbers(|sheets|) && PagesOf(sheets)[0..] == PagesOf(sheets);
  }

  lemma {:induction false} SheetAt(files: Files, pages: seq<Page>, points: Points, i: nat)
    requires (forall p :: p in pages ==> Renderable(p)) && Sheets(files, pages, points).Ok? && i < |pages|
    ensures RenderedPage(files, pages[i]).Ok?
    ensures Sheets(files, pages, points).value[i] == SheetOf(RenderedPage(files, pages[i]).value, pages[i], points)
  {
    hide RenderedPage;
    if i < |pages| - 1 {
      SheetAt(files, pages[..|pages| - 1], points, i);
    }
  }

  /** What an export writes is read back as the rendered images of the included pages, if sizes print without blanks,
      slashes and line ends. */
  lemma ExportIsRead(files: Files, included: seq<Page>, points: Points)
    requires (forall p :: p in included ==> Renderable(p)) && Sheets(files, included, points).Ok?
    requires Fits(Bodies(Sheets(files, included, points).value, |included|))
    requires forall pixels: nat, dpi: nat :: PlainSize(points(pixels, dpi))
    ensures var read := ReadDocument(PdfText(Bodies(Sheets(files, included, points).value, |included|)));
            read.Some? && |read.value| == |included|
            && forall i :: 0 <= i < |included| ==>
                 RenderedPage(files, included[i]).Ok?
                 && var pixels := RenderedPage(files, included[i]).value.pixels;
                    |read.value[i].1| == |pixels| && forall k :: 0 <= k < |pixels| ==> read.value[i].1[k] as int == pixels[k]
  {
    hide Sheets, Fits, PdfText, Bodies, ReadDocument, PixelBytes, RenderedPage, Content, PlainSize;
    var sheets := Sheets(files, included, points).value;
    forall i | 0 <= i < |included|
      ensures RenderedPage(files, included[i]).Ok? && PlainSheet(sheets[i])
              && sheets[i].image == RenderedPage(files, included[i]).value
    {
      SheetAt(files, included, points, i);
    }
    DocumentIsRead(sheets);
    forall i | 0 <= i < |included|
      ensures var pixels := RenderedPage(files, included[i]).value.pixels;
              |PixelBytes(sheets[i].image)| == |pixels|
              && forall k :: 0 <= k < |pixels| ==> PixelBytes(sheets[i].image)[k] as int == pixels[k]
    {
      BytesArePixels(sheets[i].image);
    }
  }

  lemma BytesArePixels(image: Image)
    ensures forall k :: 0 <= k < |image.pixels| ==> PixelBytes(image)[k] as int == image.pixels[k]
  {
  }
}
