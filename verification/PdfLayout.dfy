/** What a viewer takes from a written document: the kinds of its objects, the size of each page, the place of its picture and
    the size of that picture in pixels. */
module PdfLayout {
  import opened Text
  import opened Pages
  import opened Pgm
  import opened Render
  import opened Pdf
  import opened PdfReader
  import opened PdfDocument

  // ------------------------------------------------------------------- reader

  /** The page from corner to corner, the horizontal and vertical extent it is drawn to, and the size of the picture. */
  datatype Layout = Layout(boxWidth: string, boxHeight: string, drawnWidth: string, drawnHeight: string, columns: string,
                           rows: string)

  function WordsOn(text: string): seq<string> {
    Split(LineOf(text), ' ')
  }

  /** A dictionary on the first line says this of the key. */
  predicate Says(text: string, key: string, value: string) {
    WordAfter(WordsOn(text), key) == Some(value)
  }

  /** "/MediaBox [0 0 w h]". */
  function BoxIn(words: seq<string>): Option<(string, string)> {
    if |words| < 5 then None
    else if words[0] == "/MediaBox" then
      if words[1] == "[0" && words[2] == "0" && words[4] != "" && words[4][|words[4]| - 1] == ']'
      then Some((words[3], words[4][..|words[4]| - 1])) else None
    else BoxIn(words[1..])
  }

  /** The extent to which a page that shows one picture and nothing else draws it: "w 0 0 h 0 0 cm" between q and Q. */
  function DrawnIn(content: string): Option<(string, string)> {
    var lines := Split(content, '\n');
    if |lines| != 5 || lines[0] != "q" || lines[2] != "/Im0 Do" || lines[3] != "Q" || lines[4] != "" then None
    else
      var words := Split(lines[1], ' ');
      if |words| == 7 && words[1] == "0" && words[2] == "0" && words[4] == "0" && words[5] == "0" && words[6] == "cm"
      then Some((words[0], words[3])) else None
  }

  /** A gray picture of eight bits a pixel. */
  function SizeIn(image: string): Option<(string, string)> {
    var columns, rows := WordAfter(WordsOn(image), "/Width"), WordAfter(WordsOn(image), "/Height");
    if Says(image, "/Type", "/XObject") && Says(image, "/Subtype", "/Image") && Says(image, "/ColorSpace", "/DeviceGray")
       && Says(image, "/BitsPerComponent", "8") && columns.Some? && rows.Some?
    then Some((columns.value, rows.value)) else None
  }

  /** The words behind a key. */
  function Behind(words: seq<string>, key: string): seq<string> {
    if words == [] then [] else if words[0] == key then words[1..] else Behind(words[1..], key)
  }

  /** A page that belongs to the tree and has one picture called Im0 among its resources. */
  predicate IsPageOf(page: string, tree: Option<nat>) {
    Says(page, "/Type", "/Page") && tree.Some? && RefOf(page, "/Parent") == tree
    && var resources := Behind(WordsOn(page), "/Resources");
       |resources| >= 4 && resources[..4] == ["<<", "/XObject", "<<", "/Im0"]
  }

  /** The trailer announces as many objects as the table has entries, the first of them free. */
  predicate TableIsWhole(pdf: string) {
    StartXref(pdf).Some? && TableAt(pdf, StartXref(pdf).value).Some? && TrailerOn(pdf).Some?
    && var (count, first) := TableAt(pdf, StartXref(pdf).value).value;
       Says(TrailerOn(pdf).value, "/Size", Dec(count)) && OccursAt(pdf, "0000000000 65535 f \n", first)
  }

  function LayoutFrom(page: string, content: string, image: string): Option<Layout> {
    var box, drawn, size := BoxIn(WordsOn(page)), DrawnIn(content), SizeIn(image);
    if box.Some? && drawn.Some? && size.Some?
    then Some(Layout(box.value.0, box.value.1, drawn.value.0, drawn.value.1, size.value.0, size.value.1)) else None
  }

  function ReadLayout(pdf: string, tree: Option<nat>, number: nat): Option<Layout> {
    var page := BodyOn(pdf, number);
    var content, image := Follow(pdf, page, "/Contents"), Follow(pdf, page, "/Im0");
    if page.None? || content.None? || image.None? || StreamData(content.value).None? || !IsPageOf(page.value, tree) then None
    else LayoutFrom(page.value, StreamData(content.value).value, image.value)
  }

  /** The layout of page i of a document of version 1.4. */
  function LayoutOfPage(pdf: string, i: nat): Option<Layout> {
    var catalog := Follow(pdf, TrailerOn(pdf), "/Root");
    var tree := Follow(pdf, catalog, "/Pages");
    if !StartsWith(pdf, "%PDF-1.4\n") || !TableIsWhole(pdf) || catalog.None? || tree.None? || !Says(catalog.value, "/Type", "/Catalog")
       || !Says(tree.value, "/Type", "/Pages")
    then None
    else
      var kids := KidsOf(LineOf(tree.value));
      if kids.None? || i >= |kids.value| || !Says(tree.value, "/Count", Dec(|kids.value|)) then None
      else ReadLayout(pdf, RefOf(catalog.value, "/Pages"), kids.value[i])
  }

  // --------------------------------------------------------------- the objects

  lemma PageObjects(sheets: seq<Sheet>, i: nat) returns (page: string, content: string, image: string)
    requires i < |sheets| && Fits(Bodies(sheets, |sheets|)) && PlainSheet(sheets[i])
    ensures var pdf, number, sheet := PdfText(Bodies(sheets, |sheets|)), PageNumbers(|sheets|)[i], sheets[i];
            BodyOn(pdf, number) == Some(PageBody(sheet, number) + "\n" + page)
            && Follow(pdf, BodyOn(pdf, number), "/Contents") == Some(ContentBody(sheet) + ("\n" + content))
            && Follow(pdf, BodyOn(pdf, number), "/Im0") == Some(ImageBody(sheet.image) + ("\n" + image))
  {
    hide Fits, PdfText, BodyOn, RefOf, PageBody, ContentBody, ImageBody, Content, PixelBytes, KidsOf, PlainSheet, SheetBodies,
         Bodies;
    var bodies, number, sheet := Bodies(sheets, |sheets|), PageNumbers(|sheets|)[i], sheets[i];
    KidsLeadToPages(sheets, i);
    page := BodyOnIs(bodies, number);
    PageRefs(sheet, number, page);
    content := BodyIs(bodies, number + 1, ContentBody(sheet));
    image := BodyIs(bodies, number + 2, ImageBody(sheet.image));
  }

  // ---------------------------------------------------------------- the page

  lemma {:induction false} BoxInIs(words: seq<string>, k: nat, width: string, height: string)
    requires k + 5 <= |words| && words[k] == "/MediaBox" && (forall i :: 0 <= i < k ==> words[i] != "/MediaBox")
    requires words[k + 1] == "[0" && words[k + 2] == "0" && words[k + 3] == width && words[k + 4] == height + "]"
    ensures BoxIn(words) == Some((width, height))
  {
    if k > 0 {
      BoxInIs(words[1..], k - 1, width, height);
    }
  }

  lemma TypeWordsSay()
    ensures TypeWords()[1] == "/Type" && TypeWords()[2] == "/Page" && TypeWords()[0] != "/Type"
    ensures TypeWords()[7] == "/MediaBox" && TypeWords()[8] == "[0" && TypeWords()[9] == "0"
    ensures forall i :: 0 <= i < 7 ==> TypeWords()[i] != "/MediaBox"
  {
  }

  lemma ParentIsTree()
    ensures TypeWords()[3] == "/Parent" && TypeWords()[4] == "2" && TypeWords()[5] == "0" && TypeWords()[6] == "R"
    ensures forall i :: 0 <= i < 3 ==> TypeWords()[i] != "/Parent"
    ensures forall i :: 0 <= i < 10 ==> TypeWords()[i] != "/Resources"
  {
  }

  lemma ResourcesStart(number: nat)
    ensures ResourceWords(number)[0] == "/Resources" && ResourceWords(number)[1..5] == ["<<", "/XObject", "<<", "/Im0"]
  {
    hide Dec;
  }

  lemma {:induction false} BehindIs(words: seq<string>, k: nat, key: string)
    requires k < |words| && words[k] == key && forall i :: 0 <= i < k ==> words[i] != key
    ensures Behind(words, key) == words[k + 1..]
  {
    if k > 0 {
      BehindIs(words[1..], k - 1, key);
    }
  }

  lemma PageBelongs(sheet: Sheet, number: nat, rest: string)
    requires PlainSheet(sheet)
    ensures RefOf(PageBody(sheet, number) + "\n" + rest, "/Parent") == Some(2)
    ensures var behind := Behind(WordsOn(PageBody(sheet, number) + "\n" + rest), "/Resources");
            |behind| >= 4 && behind[..4] == ["<<", "/XObject", "<<", "/Im0"]
  {
    hide Words, Split, LineOf, PageWords, NoBlanks, Dec, TypeWords, ResourceWords, ContentsWords, RefIn, Behind;
    var words := PageWords(sheet, number);
    PageWordsAre(sheet, number);
    PlacesOfWords(sheet, number);
    WordsOfLine(words, rest);
    ParentIsTree();
    ResourcesStart(number);
    TwoIs();
    RefInIs(words, "/Parent", 3, 2);
    assert '/' in "/Resources";
    assert sheet.width != "/Resources" && sheet.height + "]" != "/Resources";
    BehindIs(words, 12, "/Resources");
    assert words[13..17] == ResourceWords(number)[1..5];
    assert words[13..][..4] == words[13..17];
  }

  lemma TwoIs()
    ensures Dec(2) == "2"
  {
  }

  lemma PageSays(sheet: Sheet, number: nat, rest: string)
    requires PlainSheet(sheet)
    ensures Says(PageBody(sheet, number) + "\n" + rest, "/Type", "/Page")
    ensures BoxIn(WordsOn(PageBody(sheet, number) + "\n" + rest)) == Some((sheet.width, sheet.height))
  {
    hide Words, Split, LineOf, PageWords, NoBlanks, Dec, TypeWords, ResourceWords, ContentsWords;
    var words := PageWords(sheet, number);
    PageWordsAre(sheet, number);
    PlacesOfWords(sheet, number);
    WordsOfLine(words, rest);
    TypeWordsSay();
    WordAfterIs(words, "/Type", 1);
    BoxInIs(words, 7, sheet.width, sheet.height);
  }

  // -------------------------------------------------------------- the content

  lemma ContentLines(sheet: Sheet)
    ensures var drawing := Words([sheet.width, "0", "0", sheet.height, "0", "0", "cm"]);
            Content(sheet) == Join(["q", drawing, "/Im0 Do", "Q", ""], '\n')
  {
    hide Words, Join;
    var drawing := Words([sheet.width, "0", "0", sheet.height, "0", "0", "cm"]);
    DrawingIs(sheet.width, sheet.height);
    FiveLines("q", drawing, "/Im0 Do", "Q", "");
    ContentAround(sheet, drawing);
  }

  lemma ContentAround(sheet: Sheet, drawing: string)
    requires drawing == sheet.width + " 0 0 " + sheet.height + " 0 0 cm"
    ensures Content(sheet) == "q" + "\n" + drawing + "\n" + "/Im0 Do" + "\n" + "Q" + "\n" + ""
  {
    var a, b := sheet.width, sheet.height;
    assert "q\n" + a + " 0 0 " + b + " 0 0 cm" == "q\n" + (a + " 0 0 " + b + " 0 0 cm");
    assert " 0 0 cm\n/Im0 Do\nQ\n" == " 0 0 cm" + "\n/Im0 Do\nQ\n";
  }

  lemma JoinStep(head: string, tail: seq<string>, c: char)
    requires tail != []
    ensures Join([head] + tail, c) == head + [c] + Join(tail, c)
  {
    assert ([head] + tail)[1..] == tail;
  }

  lemma FiveLines(a: string, b: string, c: string, d: string, e: string)
    ensures Join([a, b, c, d, e], '\n') == a + "\n" + b + "\n" + c + "\n" + d + "\n" + e
  {
    hide Join;
    JoinStep(d, [e], '\n');
    JoinStep(c, [d, e], '\n');
    JoinStep(b, [c, d, e], '\n');
    JoinStep(a, [b, c, d, e], '\n');
    LastAlone(e, '\n');
    assert [d] + [e] == [d, e] && [c] + [d, e] == [c, d, e] && [b] + [c, d, e] == [b, c, d, e]
        && [a] + [b, c, d, e] == [a, b, c, d, e];
    assert a + ['\n'] + (b + ['\n'] + (c + ['\n'] + (d + ['\n'] + e))) == a + "\n" + b + "\n" + c + "\n" + d + "\n" + e;
  }

  lemma LastAlone(s: string, c: char)
    ensures Join([s], c) == s
  {
  }

  lemma DrawingIs(width: string, height: string)
    ensures Words([width, "0", "0", height, "0", "0", "cm"]) == width + " 0 0 " + height + " 0 0 cm"
  {
    ThreeWords(height, "cm");
    ThreeWords(width, height + " 0 0 cm");
    hide Join;
    var tail := [height, "0", "0", "cm"];
    JoinStep("0", tail, ' ');
    JoinStep("0", ["0"] + tail, ' ');
    JoinStep(width, ["0"] + (["0"] + tail), ' ');
    assert [width] + (["0"] + (["0"] + tail)) == [width, "0", "0", height, "0", "0", "cm"];
    assert width + [' '] + ("0" + [' '] + ("0" + [' '] + (height + " 0 0 cm"))) == width + " 0 0 " + (height + " 0 0 cm");
    assert width + " 0 0 " + (height + " 0 0 cm") == width + " 0 0 " + height + " 0 0 cm";
  }

  lemma ThreeWords(first: string, last: string)
    ensures Join([first, "0", "0", last], ' ') == first + " 0 0 " + last
  {
    hide Join;
    LastAlone(last, ' ');
    JoinStep("0", [last], ' ');
    JoinStep("0", ["0", last], ' ');
    JoinStep(first, ["0", "0", last], ' ');
    assert ["0"] + [last] == ["0", last] && ["0"] + ["0", last] == ["0", "0", last]
        && [first] + ["0", "0", last] == [first, "0", "0", last];
    assert first + [' '] + ("0" + [' '] + ("0" + [' '] + last)) == first + " 0 0 " + last;
  }

  lemma ContentDraws(sheet: Sheet)
    requires PlainSheet(sheet)
    ensures DrawnIn(Content(sheet)) == Some((sheet.width, sheet.height))
  {
    hide Content, Words, Split, Join;
    var words := [sheet.width, "0", "0", sheet.height, "0", "0", "cm"];
    var lines := ["q", Words(words), "/Im0 Do", "Q", ""];
    ContentLines(sheet);
    assert forall w :: w in words ==> ' ' !in w && '\n' !in w;
    WordsAreOneLine(words);
    assert forall l :: l in lines ==> '\n' !in l;
    SplitJoin(lines, '\n');
  }

  lemma WordsAreOneLine(words: seq<string>)
    requires words != [] && forall w :: w in words ==> ' ' !in w && '\n' !in w
    ensures '\n' !in Words(words) && Split(Words(words), ' ') == words
  {
    JoinAvoids(words, ' ', '\n');
    SplitJoin(words, ' ');
  }

  // ---------------------------------------------------------------- the image

  lemma {:induction false} JoinLast(front: seq<string>, last: string, more: string)
    ensures Words(front + [last]) + more == Words(front + [last + more])
  {
    if front != [] {
      assert (front + [last])[1..] == front[1..] + [last] && (front + [last + more])[1..] == front[1..] + [last + more];
      JoinLast(front[1..], last, more);
    }
  }

  /** The dictionary of an image, as the one line it stands on. */
  function DictWords(image: Image): seq<string> {
    ["<<", "/Type", "/XObject", "/Subtype", "/Image", "/Width", Dec(image.width), "/Height", Dec(image.height),
     "/ColorSpace", "/DeviceGray", "/BitsPerComponent", "8", "/Length", Dec(|image.pixels|), ">>"]
  }

  lemma ImageLine(image: Image, rest: string) returns (more: string)
    ensures ImageBody(image) + ("\n" + rest) == Words(DictWords(image)) + "\n" + more
  {
    hide Words, Dec, PixelBytes;
    var front := DictWords(image)[..15];
    JoinLast(front, "", ">>");
    assert "" + ">>" == ">>";
    assert front + [""] == ImageWords(image) && front + [">>"] == DictWords(image);
    more := "stream\n" + (PixelBytes(image) + "\nendstream") + ("\n" + rest);
    assert StreamMark() == ">>" + ("\n" + "stream\n");
    assert ImageDict(image) + (StreamMark() + (PixelBytes(image) + "\nendstream")) + ("\n" + rest)
        == (ImageDict(image) + ">>") + "\n" + more;
  }

  lemma DictWordsAreClean(image: Image)
    ensures NoBlanks(DictWords(image))
  {
    hide Dec;
    DecHasNoBlanks(image.width);
    DecHasNoBlanks(image.height);
    DecHasNoBlanks(|image.pixels|);
  }

  lemma DecIsNoKey(n: nat)
    ensures Dec(n) != "/Type" && Dec(n) != "/Subtype" && Dec(n) != "/Width" && Dec(n) != "/Height" && Dec(n) != "/ColorSpace"
            && Dec(n) != "/BitsPerComponent"
  {
    DecIsWord(n);
  }

  lemma DictWordsSay(image: Image)
    ensures var words := DictWords(image);
            WordAfter(words, "/Type") == Some("/XObject") && WordAfter(words, "/Subtype") == Some("/Image")
            && WordAfter(words, "/Width") == Some(Dec(image.width)) && WordAfter(words, "/Height") == Some(Dec(image.height))
  {
    hide Dec, WordAfter;
    var words := DictWords(image);
    DecIsNoKey(image.width);
    WordAfterIs(words, "/Type", 1);
    WordAfterIs(words, "/Subtype", 3);
    WordAfterIs(words, "/Width", 5);
    WordAfterIs(words, "/Height", 7);
  }

  lemma FormatWordsSay(image: Image)
    ensures var words := DictWords(image);
            WordAfter(words, "/ColorSpace") == Some("/DeviceGray") && WordAfter(words, "/BitsPerComponent") == Some("8")
  {
    hide Dec, WordAfter;
    var words := DictWords(image);
    DecIsNoKey(image.width);
    DecIsNoKey(image.height);
    WordAfterIs(words, "/ColorSpace", 9);
    WordAfterIs(words, "/BitsPerComponent", 11);
  }

  lemma ImageSays(image: Image, rest: string)
    ensures SizeIn(ImageBody(image) + ("\n" + rest)) == Some((Dec(image.width), Dec(image.height)))
  {
    hide Dec, Words, Split, LineOf, ImageBody, DictWords, NoBlanks, WordAfter;
    var more := ImageLine(image, rest);
    DictWordsAreClean(image);
    WordsOfLine(DictWords(image), more);
    DictWordsSay(image);
    FormatWordsSay(image);
  }

  // ------------------------------------------------------------- the document

  /** Page i as a viewer lays it out. */
  function LayoutOf(sheet: Sheet): Layout {
    Layout(sheet.width, sheet.height, sheet.width, sheet.height, Dec(sheet.image.width), Dec(sheet.image.height))
  }

  lemma ReadsLayout(sheets: seq<Sheet>, i: nat)
    requires i < |sheets| && Fits(Bodies(sheets, |sheets|)) && PlainSheet(sheets[i])
    ensures ReadLayout(PdfText(Bodies(sheets, |sheets|)), Some(2), PageNumbers(|sheets|)[i]) == Some(LayoutOf(sheets[i]))
  {
    hide Behind, RefOf, Fits, PdfText, Bodies, BodyOn, Follow, PageBody, ContentBody, ImageBody, StreamData, Content, SizeIn, BoxIn, DrawnIn,
         Says, PlainSheet, Dec, WordsOn;
    var sheet, number := sheets[i], PageNumbers(|sheets|)[i];
    var page, content, image := PageObjects(sheets, i);
    PageSays(sheet, number, page);
    PageBelongs(sheet, number, page);
    ContentStream(sheet, "\n" + content);
    ContentDraws(sheet);
    ImageSays(sheet.image, image);
  }

  lemma TreeText(count: string, kids: string)
    ensures "<< /Type /Pages /Count " + count + " /Kids [ " + kids + "] >>"
            == "<<" + [' '] + ("/Type" + [' '] + ("/Pages" + [' '] + ("/Count" + [' '] + (count + [' '] + ("/Kids [ " + kids + "] >>")))))
  {
    var front := "<<" + [' '] + ("/Type" + [' '] + ("/Pages" + [' '] + ("/Count" + [' '] + "")));
    assert "<< /Type /Pages /Count " == front;
    assert " /Kids [ " == [' '] + "/Kids [ ";
    Rebracket("<<" + [' '], "/Type" + [' '], "/Pages" + [' '], "/Count" + [' '], count + [' '] + ("/Kids [ " + kids + "] >>"));
    assert count + ([' '] + "/Kids [ ") + kids + "] >>" == count + [' '] + ("/Kids [ " + kids + "] >>");
  }

  lemma Rebracket(a: string, b: string, c: string, d: string, e: string)
    ensures a + (b + (c + (d + ""))) + e == a + (b + (c + (d + e)))
  {
  }

  lemma TreeSays(count: nat, rest: string)
    ensures Says(PageTree(count) + "\n" + rest, "/Type", "/Pages") && Says(PageTree(count) + "\n" + rest, "/Count", Dec(count))
  {
    TreeIsOneLine(count);
    DecHasNoBlanks(count);
    hide Dec, Kids, Split, WordAfter, LineOf;
    var tail := "/Kids [ " + Kids(count) + "] >>";
    var t3 := Dec(count) + [' '] + tail;
    var t2 := "/Count" + [' '] + t3;
    var t1 := "/Pages" + [' '] + t2;
    var t0 := "/Type" + [' '] + t1;
    TreeText(Dec(count), Kids(count));
    LineIs(PageTree(count), rest);
    SplitFirst("<<", t0);
    SplitFirst("/Type", t1);
    SplitFirst("/Pages", t2);
    SplitFirst("/Count", t3);
    SplitFirst(Dec(count), tail);
    TreeWordsSay(Split(PageTree(count), ' '), Split(tail, ' '), Dec(count));
  }

  lemma SplitFirst(word: string, rest: string)
    requires ' ' !in word
    ensures Split(word + [' '] + rest, ' ') == [word] + Split(rest, ' ')
  {
    SplitAppend(word, ' ', rest);
  }

  lemma TreeWordsSay(words: seq<string>, rest: seq<string>, count: string)
    requires words == ["<<"] + (["/Type"] + (["/Pages"] + (["/Count"] + ([count] + rest))))
    ensures WordAfter(words, "/Type") == Some("/Pages") && WordAfter(words, "/Count") == Some(count)
  {
    hide WordAfter;
    WordAfterIs(words, "/Type", 1);
    WordAfterIs(words, "/Count", 3);
  }

  lemma CatalogSays(rest: string)
    ensures Says(Catalog() + "\n" + rest, "/Type", "/Catalog")
  {
    hide Words, Split, LineOf;
    CatalogWordsAreClean();
    WordsOfLine(CatalogWords(), rest);
    WordAfterIs(CatalogWords(), "/Type", 1);
  }

  lemma {:induction false} ObjectsStart(bodies: seq<string>)
    ensures StartsWith(ObjectsText(bodies), "%PDF-1.4\n")
  {
    if bodies != [] {
      ObjectsStart(bodies[..|bodies| - 1]);
    } else {
      assert FileHeader()[..9] == "%PDF-1.4\n";
    }
  }

  lemma PdfStarts(bodies: seq<string>)
    ensures StartsWith(PdfText(bodies), "%PDF-1.4\n")
  {
    hide ObjectsText, Entries, XrefHead, Trailer;
    ObjectsStart(bodies);
    assert PdfText(bodies)[..9] == ObjectsText(bodies)[..9];
  }

  lemma TreeOf(sheets: seq<Sheet>) returns (catalog: string, tree: string)
    requires Fits(Bodies(sheets, |sheets|))
    ensures var pdf := PdfText(Bodies(sheets, |sheets|));
            Follow(pdf, TrailerOn(pdf), "/Root") == Some(Catalog() + "\n" + catalog)
            && Follow(pdf, Follow(pdf, TrailerOn(pdf), "/Root"), "/Pages") == Some(PageTree(|sheets|) + "\n" + tree)
  {
    hide Fits, PdfText, BodyOn, RefOf, TrailerOn, Catalog, PageTree, Words, TrailerWords, SheetBodies;
    var bodies := Bodies(sheets, |sheets|);
    var trailer := TrailerOnIs(bodies);
    TrailerRef(|bodies| + 1, trailer);
    catalog := BodyOnIs(bodies, 1);
    CatalogRef(catalog);
    tree := BodyOnIs(bodies, 2);
  }

  lemma TrailerSays(count: nat, rest: string)
    ensures Says(Words(TrailerWords(count)) + "\n" + rest, "/Size", Dec(count))
  {
    hide Words, Split, LineOf, Dec;
    TrailerWordsAreClean(count);
    WordsOfLine(TrailerWords(count), rest);
    WordAfterIs(TrailerWords(count), "/Size", 1);
  }

  lemma {:induction false} EntriesStartFree(bodies: seq<string>, count: nat)
    requires count <= |bodies|
    ensures OccursAt(Entries(bodies, count), "0000000000 65535 f \n", 0)
  {
    hide Entry, OffsetOf, OccursAt;
    if count > 0 {
      EntriesStartFree(bodies, count - 1);
      var front, entry := Entries(bodies, count - 1), Entry(OffsetOf(bodies, count));
      OccursShifted("", front, entry, "0000000000 65535 f \n", 0);
      assert "" + (front + entry) == front + entry;
    } else {
      FreeEntry("0000000000 65535 f \n");
    }
  }

  lemma FreeEntry(entry: string)
    ensures OccursAt(entry, entry, 0)
  {
    assert entry[0..|entry|] == entry;
  }

  lemma WholeTable(bodies: seq<string>)
    requires Fits(bodies)
    ensures TableIsWhole(PdfText(bodies))
  {
    hide Fits, PdfText, StartXref, TableAt, TrailerOn, Says, Words, TrailerWords, Entries, OccursAt, ObjectsText, FirstEntry;
    TableIsFound(bodies);
    var rest := TrailerOnIs(bodies);
    TrailerSays(|bodies| + 1, rest);
    EntriesStartFree(bodies, |bodies|);
    Nested(PdfText(bodies), Entries(bodies, |bodies|), "0000000000 65535 f \n", FirstEntry(bodies));
  }

  lemma Nested(text: string, piece: string, inner: string, at: nat)
    requires OccursAt(text, piece, at) && OccursAt(piece, inner, 0)
    ensures OccursAt(text, inner, at)
  {
    assert text[at..at + |inner|] == text[at..at + |piece|][..|inner|];
  }

  lemma DocumentIsLaidOut(sheets: seq<Sheet>, i: nat)
    requires i < |sheets| && Fits(Bodies(sheets, |sheets|)) && PlainSheet(sheets[i])
    ensures LayoutOfPage(PdfText(Bodies(sheets, |sheets|)), i) == Some(LayoutOf(sheets[i]))
  {
    hide RefOf, TableIsWhole, Fits, PdfText, Bodies, Follow, TrailerOn, Catalog, PageTree, KidsOf, PlainSheet, LineOf, Says,
         ReadLayout, StartsWith, Dec;
    PdfStarts(Bodies(sheets, |sheets|));
    WholeTable(Bodies(sheets, |sheets|));
    var catalog, tree := TreeOf(sheets);
    CatalogSays(catalog);
    CatalogRef(catalog);
    TreeSays(|sheets|, tree);
    TreeIsOneLine(|sheets|);
    LineIs(PageTree(|sheets|), tree);
    KidsOfPageTree(|sheets|);
    ReadsLayout(sheets, i);
  }

  /** From the bytes of an export alone, a viewer finds for every included page: a gray picture with the columns and rows of the
      rendered page, on a page of that many points each way, drawn over the whole page. */
  lemma ExportIsLaidOut(files: Files, included: seq<Page>, points: Points, i: nat)
    requires (forall p :: p in included ==> Renderable(p)) && Sheets(files, included, points).Ok? && i < |included|
    requires Fits(Bodies(Sheets(files, included, points).value, |included|))
    requires forall pixels: nat, dpi: nat :: PlainSize(points(pixels, dpi))
    ensures RenderedPage(files, included[i]).Ok?
    ensures var pdf := PdfText(Bodies(Sheets(files, included, points).value, |included|));
            var image, dpi := RenderedPage(files, included[i]).value, included[i].dpi;
            LayoutOfPage(pdf, i)
            == Some(Layout(points(image.width, dpi), points(image.height, dpi),
                           points(image.width, dpi), points(image.height, dpi), Dec(image.width), Dec(image.height)))
  {
    hide Sheets, Fits, PdfText, Bodies, LayoutOfPage, RenderedPage, PlainSize, Dec;
    SheetAt(files, included, points, i);
    DocumentIsLaidOut(Sheets(files, included, points).value, i);
  }

  /** The pages that are exported: those with the flag, each once, in session order. */
  lemma {:induction false} IncludedInOrder(pages: seq<Page>) returns (at: seq<nat>)
    ensures |at| == |Included(pages)| && forall k :: 0 <= k < |at| ==> at[k] < |pages| && Included(pages)[k] == pages[at[k]]
    ensures forall j, k :: 0 <= j < k < |at| ==> at[j] < at[k]
    ensures forall i :: 0 <= i < |pages| ==> (pages[i].included <==> i in at)
  {
    at := [];
    if pages != [] {
      var n := |pages| - 1;
      var front := IncludedInOrder(pages[..n]);
      at := front + if pages[n].included then [n] else [];
      forall i | 0 <= i < |pages| ensures pages[i].included <==> i in at {
        if i < n {
          assert pages[..n][i] == pages[i];
          assert i in at <==> i in front;
        }
      }
    }
  }
}
