/** A reader of the written PDF that knows only the format: it follows startxref to the
    cross-reference table (20-byte entries, section 7.5.4 of ISO 32000-1), an entry to its object,
    a dictionary's /Length to the end of its stream. */
module PdfReader {
  import opened Text
  import opened Pgm
  import opened Pages
  import opened Render
  import opened Pdf

  predicate EndsWith(s: string, tail: string) {
    |tail| <= |s| && s[|s| - |tail|..] == tail
  }

  /** The number before the end-of-file marker. */
  function StartXref(pdf: string): Option<nat> {
    if !EndsWith(pdf, "\n%%EOF\n") then None
    else
      var front := pdf[..|pdf| - 7];
      var n := DigitTail(front);
      if n == 0 || !EndsWith(front[..|front| - n], "startxref\n") then None else Some(Value(front[|front| - n..]))
  }

  /** Number of entries and place of the first one of the table at an offset. */
  function TableAt(pdf: string, offset: nat): Option<(nat, nat)> {
    if !OccursAt(pdf, "xref\n0 ", offset) then None
    else
      var rest := pdf[offset + 7..];
      var n := DigitRun(rest);
      if n == 0 || n >= |rest| || rest[n] != '\n' then None else Some((Value(rest[..n]), offset + 7 + n + 1))
  }

  /** The offset in an in-use entry of 20 bytes. */
  function EntryValue(entry: string): Option<nat>
    requires |entry| == 20
  {
    if AllDigits(entry[..10]) && entry[10..] == " 00000 n \n" then Some(Value(entry[..10])) else None
  }

  function FindObject(pdf: string, number: nat): Option<nat> {
    match StartXref(pdf)
    case None => None
    case Some(offset) =>
      match TableAt(pdf, offset)
      case None => None
      case Some((count, first)) =>
        if number >= count || first + 20 * number + 20 > |pdf| then None
        else EntryValue(pdf[first + 20 * number..first + 20 * number + 20])
  }

  // -------------------------------------------------------- entries and objects

  lemma OffsetFits(bodies: seq<string>, number: nat)
    requires Fits(bodies) && 1 <= number <= |bodies|
    ensures OffsetOf(bodies, number) <= MAX_EXPORT_BYTES
    ensures |Padded(OffsetOf(bodies, number), 10)| == 10 && |Entry(OffsetOf(bodies, number))| == 20
    ensures EntryValue(Entry(OffsetOf(bodies, number))) == Some(OffsetOf(bodies, number))
  {
    hide ObjectsText, Padded;
    assert RoomFor(bodies, number - 1);
    var offset := OffsetOf(bodies, number);
    TenDigits(offset);
    ValueOfPadded(offset, 10);
    assert Entry(offset)[..10] == Padded(offset, 10) && Entry(offset)[10..] == " 00000 n \n";
  }

  lemma TenDigits(n: nat)
    requires n <= MAX_EXPORT_BYTES
    ensures |Padded(n, 10)| == 10
  {
    DecIsShort(n);
  }

  lemma {:induction false} EntriesLength(bodies: seq<string>, count: nat)
    requires Fits(bodies) && count <= |bodies|
    ensures |Entries(bodies, count)| == 20 * (count + 1)
  {
    hide Entry, ObjectsText, Fits;
    if count > 0 {
      EntriesLength(bodies, count - 1);
      OffsetFits(bodies, count);
    }
  }

  lemma {:induction false} EntryPlace(bodies: seq<string>, count: nat, number: nat)
    requires Fits(bodies) && 1 <= number <= count <= |bodies|
    ensures OccursAt(Entries(bodies, count), Entry(OffsetOf(bodies, number)), 20 * number)
  {
    hide Entry, ObjectsText, Fits;
    var front := Entries(bodies, count - 1);
    var entry := Entry(OffsetOf(bodies, number));
    EntriesLength(bodies, count - 1);
    EntriesLength(bodies, count);
    OffsetFits(bodies, number);
    if number == count {
      OccursAfter(front, entry, "");
      assert front + (entry + "") == Entries(bodies, count);
    } else {
      EntryPlace(bodies, count - 1, number);
      OccursShifted("", front, Entry(OffsetOf(bodies, count)), entry, 20 * number);
      assert "" + (front + Entry(OffsetOf(bodies, count))) == Entries(bodies, count);
    }
  }

  lemma {:induction false} ObjectPlace(bodies: seq<string>, number: nat)
    requires 1 <= number <= |bodies|
    ensures OccursAt(ObjectsText(bodies), ObjectText(number, bodies[number - 1]), OffsetOf(bodies, number))
    decreases |bodies|
  {
    hide ObjectText;
    var n := |bodies| - 1;
    var text := ObjectText(number, bodies[number - 1]);
    var front, last := ObjectsText(bodies[..n]), ObjectText(|bodies|, bodies[n]);
    assert bodies[..n][..number - 1] == bodies[..number - 1];
    if number == |bodies| {
      OccursAfter(front, text, "");
      assert front + (text + "") == ObjectsText(bodies);
    } else {
      ObjectPlace(bodies[..n], number);
      OccursShifted("", front, last, text, OffsetOf(bodies, number));
      assert "" + (front + last) == ObjectsText(bodies);
    }
  }

  // ---------------------------------------------------------------- the table

  lemma StartXrefOf(front: string, offset: nat)
    ensures StartXref(front + ("startxref\n" + (Dec(offset) + "\n%%EOF\n"))) == Some(offset)
  {
    hide Dec;
    var d, tail := Dec(offset), "\n%%EOF\n";
    var head := front + "startxref\n";
    var pdf := front + ("startxref\n" + (d + tail));
    assert pdf == head + d + tail;
    assert pdf[|pdf| - 7..] == tail && pdf[..|pdf| - 7] == head + d;
    assert head[|head| - 10..] == "startxref\n";
    assert head[|head| - 1] == head[|head| - 10..][9] == '\n';
    DigitTailLength(head, d, head + d);
    assert (head + d)[|head|..] == d && (head + d)[..|head|] == head;
    ValueOfDec(offset);
  }

  lemma TableOf(front: string, count: nat, rest: string)
    ensures TableAt(front + (XrefHead(count) + rest), |front|) == Some((count, |front| + |XrefHead(count)|))
  {
    hide Dec;
    var d, key := Dec(count), "xref\n0 ";
    var pdf := front + (XrefHead(count) + rest);
    assert XrefHead(count) + rest == key + (d + ("\n" + rest));
    OccursAfter(front, key, d + ("\n" + rest));
    assert pdf[|front| + 7..] == d + ("\n" + rest);
    DigitRunLength(d, "\n" + rest, d + ("\n" + rest));
    assert (d + ("\n" + rest))[..|d|] == d;
    ValueOfDec(count);
  }

  lemma TrailerEnds(front: string, count: nat, offset: nat)
    ensures StartXref(front + Trailer(count, offset)) == Some(offset)
  {
    hide Dec, StartXref, Words, TrailerWords;
    var start := "trailer\n" + Words(TrailerWords(count)) + "\n";
    var rest := "startxref\n" + (Dec(offset) + "\n%%EOF\n");
    assert Trailer(count, offset) == start + rest;
    StartXrefOf(front + start, offset);
    assert front + (start + rest) == front + start + rest;
  }

  /** Where the table's entries start. */
  function FirstEntry(bodies: seq<string>): nat {
    |ObjectsText(bodies)| + |XrefHead(|bodies| + 1)|
  }

  /** The document as objects, head of the table, entries and trailer, however they are grouped. */
  lemma PdfTextIs(bodies: seq<string>)
    ensures var objects, head, entries := ObjectsText(bodies), XrefHead(|bodies| + 1), Entries(bodies, |bodies|);
            var trailer := Trailer(|bodies| + 1, |objects|);
            PdfText(bodies) == objects + (head + (entries + trailer))
            && PdfText(bodies) == objects + head + (entries + trailer)
            && PdfText(bodies) == objects + head + entries + trailer
            && PdfText(bodies) == "" + (objects + (head + (entries + trailer)))
  {
    hide Entries, ObjectsText, XrefHead, Trailer;
    Regrouped(ObjectsText(bodies), XrefHead(|bodies| + 1), Entries(bodies, |bodies|),
              Trailer(|bodies| + 1, |ObjectsText(bodies)|));
  }

  lemma Regrouped(a: string, b: string, c: string, d: string)
    ensures a + b + c + d == a + (b + (c + d)) && a + b + c + d == a + b + (c + d)
    ensures "" + (a + (b + (c + d))) == a + b + c + d
  {
  }

  lemma TableIsFound(bodies: seq<string>)
    requires Fits(bodies)
    ensures StartXref(PdfText(bodies)) == Some(|ObjectsText(bodies)|)
    ensures TableAt(PdfText(bodies), |ObjectsText(bodies)|) == Some((|bodies| + 1, FirstEntry(bodies)))
    ensures OccursAt(PdfText(bodies), Entries(bodies, |bodies|), FirstEntry(bodies))
    ensures |Entries(bodies, |bodies|)| == 20 * (|bodies| + 1)
  {
    hide Entries, ObjectsText, XrefHead, Trailer, StartXref, TableAt, Fits, PdfText, OccursAt;
    var objects, head, entries := ObjectsText(bodies), XrefHead(|bodies| + 1), Entries(bodies, |bodies|);
    var trailer := Trailer(|bodies| + 1, |objects|);
    PdfTextIs(bodies);
    TrailerEnds(objects + head + entries, |bodies| + 1, |objects|);
    TableOf(objects, |bodies| + 1, entries + trailer);
    EntriesLength(bodies, |bodies|);
    OccursAfter(objects + head, entries, trailer);
  }

  lemma EntryIsThere(bodies: seq<string>, number: nat)
    requires Fits(bodies) && 1 <= number <= |bodies|
    ensures OccursAt(PdfText(bodies), Entry(OffsetOf(bodies, number)), FirstEntry(bodies) + 20 * number)
  {
    hide Entry, Entries, ObjectsText, XrefHead, Trailer, Fits, PdfText, OffsetOf, OccursAt;
    var objects, head, entries := ObjectsText(bodies), XrefHead(|bodies| + 1), Entries(bodies, |bodies|);
    PdfTextIs(bodies);
    EntryPlace(bodies, |bodies|, number);
    OccursShifted(objects + head, entries, Trailer(|bodies| + 1, |objects|), Entry(OffsetOf(bodies, number)), 20 * number);
  }

  lemma ObjectIsThere(bodies: seq<string>, number: nat)
    requires 1 <= number <= |bodies|
    ensures OccursAt(PdfText(bodies), ObjectText(number, bodies[number - 1]), OffsetOf(bodies, number))
  {
    hide Entries, ObjectsText, ObjectText, XrefHead, Trailer, PdfText, OffsetOf, OccursAt;
    var objects, head, entries := ObjectsText(bodies), XrefHead(|bodies| + 1), Entries(bodies, |bodies|);
    PdfTextIs(bodies);
    ObjectPlace(bodies, number);
    OccursShifted("", objects, head + (entries + Trailer(|bodies| + 1, |objects|)), ObjectText(number, bodies[number - 1]),
                  OffsetOf(bodies, number));
  }

  /** Following startxref, the table and the entry leads to the first byte of every object;
      all entries, the free one included, take 20 bytes each. */
  lemma XrefFindsEveryObject(bodies: seq<string>, number: nat)
    requires Fits(bodies) && 1 <= number <= |bodies|
    ensures var pdf := PdfText(bodies);
            FindObject(pdf, number) == Some(OffsetOf(bodies, number))
            && OccursAt(pdf, ObjectText(number, bodies[number - 1]), OffsetOf(bodies, number))
            && TableAt(pdf, |ObjectsText(bodies)|) == Some((|bodies| + 1, FirstEntry(bodies)))
            && OccursAt(pdf, Entries(bodies, |bodies|), FirstEntry(bodies))
            && |Entries(bodies, |bodies|)| == 20 * (|bodies| + 1)
  {
    hide Entry, Entries, ObjectsText, ObjectText, PdfText, OffsetOf, FirstEntry, StartXref, TableAt, EntryValue, Fits;
    TableIsFound(bodies);
    EntryIsThere(bodies, number);
    ObjectIsThere(bodies, number);
    OffsetFits(bodies, number);
  }

  // ---------------------------------------------------------- kids and contents

  /** References "n 0 R " at the start of a text, and what follows them. */
  function ReadRefs(text: string): (seq<nat>, string)
    decreases |text|
  {
    var n := DigitRun(text);
    if n > 0 && OccursAt(text, " 0 R ", n) then
      var (more, rest) := ReadRefs(text[n + 5..]);
      ([Value(text[..n])] + more, rest)
    else ([], text)
  }

  /** The references in the one array of the page tree. */
  function KidsOf(body: string): Option<seq<nat>> {
    if '[' !in body || IndexOf(body, '[') + 2 > |body| then None
    else
      var (refs, rest) := ReadRefs(body[IndexOf(body, '[') + 2..]);
      if rest == "] >>" then Some(refs) else None
  }

  function PageNumbers(count: nat): (numbers: seq<nat>)
    ensures |numbers| == count && forall i :: 0 <= i < count ==> numbers[i] == 3 + 3 * i
  {
    seq(count, i requires 0 <= i < count => 3 + 3 * i)
  }

  lemma ReadOneRef(n: nat, rest: string)
    ensures ReadRefs(Dec(n) + (" 0 R " + rest)) == ([n] + ReadRefs(rest).0, ReadRefs(rest).1)
  {
    hide Dec;
    var text := Dec(n) + (" 0 R " + rest);
    DigitRunLength(Dec(n), " 0 R " + rest, text);
    OccursAfter(Dec(n), " 0 R ", rest);
    assert text[..|Dec(n)|] == Dec(n) && text[|Dec(n)| + 5..] == rest;
    ValueOfDec(n);
  }

  lemma {:induction false} ReadKids(count: nat, rest: string)
    ensures ReadRefs(Kids(count) + rest) == (PageNumbers(count) + ReadRefs(rest).0, ReadRefs(rest).1)
  {
    hide ReadRefs, Dec;
    if count == 0 {
      assert Kids(0) + rest == rest && PageNumbers(0) + ReadRefs(rest).0 == ReadRefs(rest).0;
    } else {
      var last := Dec(3 * count) + (" 0 R " + rest);
      ReadOneRef(3 * count, rest);
      ReadKids(count - 1, last);
      assert Kids(count) + rest == Kids(count - 1) + last;
      assert PageNumbers(count) == PageNumbers(count - 1) + [3 * count];
      assert PageNumbers(count - 1) + ([3 * count] + ReadRefs(rest).0) == PageNumbers(count) + ReadRefs(rest).0;
    }
  }

  lemma KidsOfPageTree(count: nat)
    ensures KidsOf(PageTree(count)) == Some(PageNumbers(count))
  {
    hide Dec, Kids, ReadRefs;
    var head := "<< /Type /Pages /Count " + Dec(count) + " /Kids ";
    var body := PageTree(count);
    var rest := Kids(count) + "] >>";
    assert body == head + ("[ " + rest);
    assert '[' !in Dec(count);
    assert body[|head|] == '[' && body[..|head|] == head;
    IndexOfIs(body, '[', |head|);
    assert body[|head| + 2..] == rest;
    ReadKids(count, "] >>");
    NoRefs();
    assert PageNumbers(count) + [] == PageNumbers(count);
  }

  lemma NoRefs()
    ensures ReadRefs("] >>") == ([], "] >>")
  {
  }

  lemma {:induction false} SheetBodiesAt(sheets: seq<Sheet>, i: nat)
    requires i < |sheets|
    ensures SheetBodies(sheets)[3 * i] == PageBody(sheets[i], 3 + 3 * i)
    ensures SheetBodies(sheets)[3 * i + 1] == ContentBody(sheets[i])
    ensures SheetBodies(sheets)[3 * i + 2] == ImageBody(sheets[i].image)
  {
    hide PageBody, ContentBody, ImageBody;
    var n := |sheets| - 1;
    if i < n {
      SheetBodiesAt(sheets[..n], i);
    }
  }

  /** The page tree lists the pages in session order, each followed by its own content and image. */
  lemma KidsLeadToPages(sheets: seq<Sheet>, i: nat)
    requires i < |sheets|
    ensures var bodies := Bodies(sheets, |sheets|);
            KidsOf(bodies[1]) == Some(PageNumbers(|sheets|))
            && var number := PageNumbers(|sheets|)[i];
               bodies[number - 1] == PageBody(sheets[i], number)
               && bodies[number] == ContentBody(sheets[i])
               && bodies[number + 1] == ImageBody(sheets[i].image)
  {
    hide PageTree, PageBody, ContentBody, ImageBody, Catalog, KidsOf;
    KidsOfPageTree(|sheets|);
    SheetBodiesAt(sheets, i);
  }

  // ------------------------------------------------------------------ streams

  /** The word after a key in a list of dictionary words. */
  function WordAfter(words: seq<string>, key: string): Option<string> {
    if |words| < 2 then None
    else if words[0] == key then Some(words[1])
    else WordAfter(words[1..], key)
  }

  /** `length` bytes, if the end marker follows them. */
  function DataAt(text: string, from: nat, length: nat): Option<string> {
    if from + length > |text| then None
    else if OccursAt(text, "endstream", from + length) || OccursAt(text, "\nendstream", from + length) then
      Some(text[from..from + length])
    else None
  }

  /** The data of the stream object that a text starts with: as many bytes as /Length says, then the end marker. */
  function StreamData(text: string): Option<string> {
    if '>' !in text then None
    else
      var end := IndexOf(text, '>');
      var length := WordAfter(Split(text[..end], ' '), "/Length");
      if length.None? || length.value == "" || !AllDigits(length.value) || !OccursAt(text, StreamMark(), end) then None
      else DataAt(text, end + 10, Value(length.value))
  }

  lemma DataAtIs(front: string, data: string, end: string, rest: string)
    requires end == "endstream" || end == "\nendstream"
    ensures DataAt(front + (data + (end + rest)), |front|, |data|) == Some(data)
  {
    var text := front + (data + (end + rest));
    OccursAfter(front + data, end, rest);
    assert text == front + data + (end + rest);
    assert text[|front|..|front| + |data|] == data;
  }

  lemma StreamOf(words: seq<string>, data: string, end: string, rest: string)
    requires words != [] && forall w :: w in words ==> ' ' !in w && '>' !in w
    requires WordAfter(words, "/Length") == Some(Dec(|data|))
    requires end == "endstream" || end == "\nendstream"
    ensures StreamData(Words(words) + (StreamMark() + (data + end)) + rest) == Some(data)
  {
    hide Dec, Words, WordAfter, StreamMark, DataAt;
    var dict := Words(words);
    var text := dict + (StreamMark() + (data + (end + rest)));
    assert dict + (StreamMark() + (data + end)) + rest == text;
    DictSplits(words);
    assert text[|dict|] == '>' && text[..|dict|] == dict;
    IndexOfIs(text, '>', |dict|);
    OccursAfter(dict, StreamMark(), data + (end + rest));
    assert text == dict + StreamMark() + (data + (end + rest));
    DataAtIs(dict + StreamMark(), data, end, rest);
    ValueOfDec(|data|);
  }

  lemma DictSplits(words: seq<string>)
    requires words != [] && forall w :: w in words ==> ' ' !in w && '>' !in w
    ensures '>' !in Words(words) && Split(Words(words), ' ') == words
  {
    JoinAvoids(words, ' ', '>');
    SplitJoin(words, ' ');
  }

  lemma DecIsWord(n: nat)
    ensures ' ' !in Dec(n) && '>' !in Dec(n) && Dec(n) != "/Length" && Dec(n)[0] != '/'
  {
    assert IsDigit(Dec(n)[0]);
  }

  /** The /Length of a content stream is exact, whatever follows the object. */
  lemma ContentStream(sheet: Sheet, rest: string)
    ensures StreamData(ContentBody(sheet) + rest) == Some(Content(sheet))
  {
    hide Dec, Content, StreamData, Words;
    var words := ["<<", "/Length", Dec(|Content(sheet)|), ""];
    DecIsWord(|Content(sheet)|);
    assert words[1..] == ["/Length", Dec(|Content(sheet)|), ""];
    assert WordAfter(words[1..], "/Length") == Some(words[1..][1]);
    StreamOf(words, Content(sheet), "endstream", rest);
  }

  function ImageWords(image: Image): seq<string> {
    ["<<", "/Type", "/XObject", "/Subtype", "/Image", "/Width", Dec(image.width), "/Height", Dec(image.height),
     "/ColorSpace", "/DeviceGray", "/BitsPerComponent", "8", "/Length", Dec(|image.pixels|), ""]
  }

  lemma {:induction false} WordAfterIs(words: seq<string>, key: string, k: nat)
    requires k + 1 < |words| && words[k] == key && forall i :: 0 <= i < k ==> words[i] != key
    ensures WordAfter(words, key) == Some(words[k + 1])
  {
    if k > 0 {
      WordAfterIs(words[1..], key, k - 1);
    }
  }

  lemma ImageWordsAreClean(image: Image)
    ensures forall w :: w in ImageWords(image) ==> ' ' !in w && '>' !in w
  {
    hide ImageWords;
    ImageSizeWordsAreClean(image);
    FormatWordsAreClean(image);
  }

  lemma ImageSizeWordsAreClean(image: Image)
    ensures |ImageWords(image)| == 16
    ensures forall k :: 0 <= k < 9 ==> ' ' !in ImageWords(image)[k] && '>' !in ImageWords(image)[k]
  {
    hide Dec;
    DecIsWord(image.width);
    DecIsWord(image.height);
  }

  lemma FormatWordsAreClean(image: Image)
    ensures |ImageWords(image)| == 16
    ensures forall k :: 9 <= k < 16 ==> ' ' !in ImageWords(image)[k] && '>' !in ImageWords(image)[k]
  {
    hide Dec;
    DecIsWord(|image.pixels|);
  }

  lemma LengthIsAt13(image: Image)
    ensures ImageWords(image)[13] == "/Length" && forall k :: 0 <= k < 13 ==> ImageWords(image)[k] != "/Length"
  {
    hide Dec;
    DecIsWord(image.width);
    DecIsWord(image.height);
  }

  /** The image stream holds exactly the rendered pixels, whatever follows the object. */
  lemma ImageStream(image: Image, rest: string)
    ensures StreamData(ImageBody(image) + rest) == Some(PixelBytes(image))
  {
    hide Dec, StreamData, Words, PixelBytes;
    var words := ImageWords(image);
    ImageWordsAreClean(image);
    LengthIsAt13(image);
    WordAfterIs(words, "/Length", 13);
    StreamOf(words, PixelBytes(image), "\nendstream", rest);
  }
}
