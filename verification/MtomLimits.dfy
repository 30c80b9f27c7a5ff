/** Where extraction goes wrong on well-formed multipart messages, and exactly when it is right.

    A part without header lines makes the scanner look for its empty line in the body, and a preamble that mentions the mark
    inside a line is taken for a delimiter line. For one message the result can still be the right one by chance; the two
    equivalences below say for which header lines, and for which preambles, it is right whatever else the message holds. */
module MtomLimits {
  import opened Text
  import opened Mtom
  import opened Search
  import opened WsdSafety
  import opened MtomRoundTrip

  function Message(mark: string, preamble: string, parts: seq<Part>, epilogue: string): string {
    preamble + Encoded(mark, parts, epilogue)
  }

  predicate GoodCall(mediaType: string, boundary: string, wanted: string) {
    StartsWith(mediaType, "multipart/related") && Boundary(mediaType) == Some(boundary)
    && Safe(boundary, 200) && Safe(wanted, 512)
  }

  lemma DecodeScans(mediaType: string, boundary: string, raw: string, wanted: string, limits: Limits, at: nat)
    requires GoodCall(mediaType, boundary, wanted) && raw != "" && |raw| <= limits.maxImageBytes
    requires Find(raw, "--" + boundary, 0) == Some(at)
    ensures Decode(mediaType, raw, wanted, limits) == Scan(raw, "--" + boundary, at, wanted, limits)
  {
    hide Find, Boundary, Safe, Scan, StartsWith;
  }

  // ------------------------------------------------- a part without header lines

  function IdLine(id: string): string {
    "Content-ID:" + (" " + (id + ""))
  }

  function TypeLine(): string {
    "Content-Type:" + (" " + ("t" + ""))
  }

  /** Text that reads like the headers of a part with this id. */
  function FakeLines(id: string): (lines: seq<string>)
    ensures |lines| == 2
  {
    [IdLine(id), TypeLine()]
  }

  lemma FakeLinesJoined(id: string)
    ensures Lines(FakeLines(id)) == IdLine(id) + (Crlf() + TypeLine())
  {
    assert FakeLines(id)[1..] == [TypeLine()];
  }

  function FakeBody(id: string): string {
    Lines(FakeLines(id)) + (Blank() + "E")
  }

  predicate NoCr(id: string) {
    id != "" && '\r' !in id && !IsBlank(id[0]) && !IsBlank(id[|id| - 1]) && id[0] != '<'
  }

  lemma SafeIdIsPlain(id: string, max: nat)
    requires Safe(id, max)
    ensures NoCr(id)
  {
    assert !SafeChar('\r') && !SafeChar('<') && !SafeChar(' ') && !SafeChar('\t');
  }

  lemma FakeLinesAreValid(id: string)
    requires NoCr(id)
    ensures forall l :: l in FakeLines(id) ==> ValidLine(l)
    ensures IdLine(id)[0] == 'C' && TypeLine()[0] == 'C'
  {
  }

  /** The headers of a block that starts with an empty line. */
  lemma HeaderBehindEmptyLine(lines: seq<string>, name: string)
    requires lines != [] && (forall l :: l in lines ==> ValidLine(l)) && '\r' !in name
    ensures var line := FirstWith(lines, name + ":");
            Header(Crlf() + Lines(lines), name)
            == if line.Some? then Trimmed(line.value) else ""
  {
    hide Find, OccursAt, StartsWith, RestOfLine, Trimmed, Lines, ValidLine;
    var prefix, block, rest := name + ":", Crlf() + Lines(lines), Lines(lines);
    var needle := Crlf() + prefix;
    StartsOtherwise(rest, prefix);
    LaterLineStep("", rest, prefix);
    assert "" + Crlf() + rest == block;
    BlockStartsAsItsLine(lines, prefix);
    if StartsWith(rest, prefix) {
      PrefixFits(lines[0], prefix);
      RestOfFirstLine(lines, |prefix|);
      RestOfLineBehind(Crlf(), rest, |prefix|);
    } else {
      LaterLineIsFirstWith(lines, prefix);
      var found := Find(rest, needle, 0);
      if found.Some? {
        OccursInRange(rest, needle, found.value);
        RestOfLineBehind(Crlf(), rest, found.value + 2 + |prefix|);
      }
    }
  }

  lemma StartsOtherwise(rest: string, prefix: string)
    requires prefix != "" && '\r' !in prefix
    ensures !StartsWith(Crlf() + rest, prefix)
  {
    assert (Crlf() + rest)[0] == '\r';
  }

  lemma FakeHeaders(id: string)
    requires NoCr(id)
    ensures FirstWith(FakeLines(id), "Content-ID:") == Some(" " + (id + ""))
    ensures FirstWith(FakeLines(id), "Content-Type:") == Some(" " + ("t" + ""))
    ensures FirstWith(FakeLines(id)[1..], "Content-ID:") == None
    ensures Trimmed(" " + (id + "")) == id && Trimmed(" " + ("t" + "")) == "t" && WithoutAngles(id) == id
  {
    PrefixAndRest("Content-ID:", " " + (id + ""));
    PrefixAndRest("Content-Type:", " " + ("t" + ""));
    FakeStarts(id);
    FirstWithAt(FakeLines(id), 0, "Content-ID:");
    FirstWithAt(FakeLines(id), 1, "Content-Type:");
    FirstWithNone(FakeLines(id)[1..], "Content-ID:");
    assert id + "" == id && "t" + "" == "t";
    TrimStartSkips(" ", id);
    TrimStartSkips(" ", "t");
    TrimEndDrops(id, "");
    TrimEndDrops("t", "");
  }

  lemma FakeStarts(id: string)
    ensures !StartsWith(IdLine(id), "Content-Type:") && !StartsWith(TypeLine(), "Content-ID:")
  {
    assert IdLine(id)[8] == 'I' && "Content-Type:"[8] == 'T' && TypeLine()[8] == 'T' && "Content-ID:"[8] == 'I';
  }

  /** The fake headers, behind the empty line of a part without headers, give the fake id and type. */
  lemma FakeBlockIsRead(id: string)
    requires NoCr(id) && |id| <= 512
    ensures var block := Crlf() + Lines(FakeLines(id));
            ContentId(block) == id && |block| <= MAX_HEADERS
            && forall limits: Limits :: limits.maxImageBytes >= 1 ==> ImageOf(block, "E", limits) == Ok(Image("t", "E"))
  {
    hide Header, Trimmed, FirstWith, Find;
    FakeLinesAreValid(id);
    FakeHeaders(id);
    HeaderBehindEmptyLine(FakeLines(id), "Content-ID");
    HeaderBehindEmptyLine(FakeLines(id), "Content-Type");
    FakeLinesJoined(id);
    assert SafeChar('t');
    assert "Content-ID" + ":" == "Content-ID:" && "Content-Type" + ":" == "Content-Type:";
  }

  lemma FakeBlockEnds(id: string, after: string)
    requires NoCr(id)
    ensures var block := Crlf() + Lines(FakeLines(id));
            Find(block + (Blank() + after), Blank(), 0) == Some(|block|)
  {
    hide Find, OccursAt, ValidLine;
    var lines := FakeLines(id);
    FakeLinesAreValid(id);
    LinesStart(lines);
    var rest := Lines(lines) + (Blank() + after);
    BlockEndsAtBlank(lines, after);
    EmptyLineIsNoBlank(rest);
    FindSkips(Crlf(), rest, Blank(), 0);
    assert Crlf() + Lines(lines) + (Blank() + after) == Crlf() + rest;
  }

  lemma EmptyLineIsNoBlank(rest: string)
    requires rest != "" && rest[0] != '\r'
    ensures |Crlf()| == 2 && forall j :: 0 <= j < 2 ==> !OccursAt(Crlf() + rest, Blank(), j)
  {
    var whole := Crlf() + rest;
    forall j | 0 <= j < 2 ensures !OccursAt(whole, Blank(), j) {
      if OccursAt(whole, Blank(), j) {
        OccursChar(whole, Blank(), j, 0);
        OccursChar(whole, Blank(), j, 2);
      }
    }
  }

  /** No line of the fake text starts with a mark. */
  lemma FakeBodyHasNoDelimiter(id: string, mark: string)
    requires NoCr(id) && ValidMark(mark)
    ensures Find(FakeBody(id), Delimiter(mark), 0) == None
  {
    var text := FakeBody(id);
    FakeLinesJoined(id);
    assert text == IdLine(id) + (Crlf() + TypeLine()) + (Blank() + "E");
    var n := |IdLine(id)|;
    assert '\r' !in IdLine(id) && '\r' !in TypeLine();
    assert mark[..2][0] == '-';
    forall j: nat ensures !OccursAt(text, Delimiter(mark), j) {
      if OccursAt(text, Delimiter(mark), j) {
        OccursChar(text, Delimiter(mark), j, 0);
        OccursChar(text, Delimiter(mark), j, 2);
      }
    }
    FindNothing(text, Delimiter(mark), 0);
  }

  /** The turn at a part without headers whose body reads like headers. */
  lemma FakeIsReturned(front: string, mark: string, parts: seq<Part>, epilogue: string, pos: nat, wanted: string,
                       limits: Limits)
    requires ValidMark(mark) && parts != [] && parts[0] == Part([], FakeBody(wanted)) && pos <= |front|
    requires NoCr(wanted) && |wanted| <= 512 && limits.maxImageBytes >= 1
    requires MarkAbsent(front + Encoded(mark, parts, epilogue), mark, pos, |front|)
    ensures Scan(front + Encoded(mark, parts, epilogue), mark, pos, wanted, limits) == Ok(Image("t", "E"))
  {
    hide Find, OccursAt, Scan, Header, MarkAbsent, ValidMark, ContentId, ImageOf, Lines, FakeLines, PartText, Encoded, AfterMark;
    var block, rest := Crlf() + Lines(FakeLines(wanted)), AfterMark(mark, parts[1..], epilogue);
    FakeText(mark, parts, epilogue, wanted);
    FakeBlockIsRead(wanted);
    FakeBlockEnds(wanted, "E" + (Delimiter(mark) + rest));
    NoDelimiterInE(mark);
    ScanOnePart(front, mark, block, "E", rest, pos, wanted, limits);
  }

  lemma NoDelimiterInE(mark: string)
    ensures Find("E", Delimiter(mark), 0) == None
  {
    if Find("E", Delimiter(mark), 0).Some? {
      OccursInRange("E", Delimiter(mark), Find("E", Delimiter(mark), 0).value);
    }
  }

  lemma FakeText(mark: string, parts: seq<Part>, epilogue: string, id: string)
    requires parts != [] && parts[0] == Part([], FakeBody(id)) && FakeLines(id) != []
    ensures Encoded(mark, parts, epilogue)
            == PartText(mark, Crlf() + Lines(FakeLines(id)), "E", AfterMark(mark, parts[1..], epilogue))
  {
    hide Lines, AfterMark, FakeLines;
    var tail, rest := parts[1..], AfterMark(mark, parts[1..], epilogue);
    EncodedStartsWithMark(mark, tail, epilogue);
    assert Crlf() + (mark + rest) == Delimiter(mark) + rest;
    var lines := Lines(FakeLines(id));
    assert FakeBody(id) + (Delimiter(mark) + rest) == lines + (Blank() + ("E" + (Delimiter(mark) + rest)));
    assert Crlf() + (lines + (Blank() + ("E" + (Delimiter(mark) + rest))))
        == Crlf() + lines + (Blank() + ("E" + (Delimiter(mark) + rest)));
  }

  // -------------------------------------------- reaching the first such part

  /** Part i is the first without header lines, and the search for the id gets to it. */
  predicate FirstHeadless(parts: seq<Part>, i: nat, wanted: string) {
    i < |parts| && parts[i].lines == []
    && forall j :: 0 <= j < i ==> parts[j].lines != [] && |Block(parts[j])| <= MAX_HEADERS && PartId(parts[j]) != wanted
  }

  lemma {:induction false} FindHeadless(parts: seq<Part>, wanted: string) returns (i: nat)
    requires !HeadedUpTo(parts, wanted)
    ensures FirstHeadless(parts, i, wanted)
    decreases |parts|
  {
    hide Block, PartId;
    i := 0;
    if parts[0].lines != [] {
      var k := FindHeadless(parts[1..], wanted);
      i := k + 1;
      forall j | 0 <= j < i
        ensures parts[j].lines != [] && |Block(parts[j])| <= MAX_HEADERS && PartId(parts[j]) != wanted
      {
        assert j > 0 ==> parts[j] == parts[1..][j - 1];
      }
    }
  }

  /** The scan passes over the parts before it, and stands at its delimiter. */
  lemma {:induction false} ScanReaches(front: string, mark: string, parts: seq<Part>, epilogue: string, pos: nat,
                                       wanted: string, limits: Limits, i: nat) returns (front': string, pos': nat)
    requires ValidMark(mark) && ValidParts(mark, parts) && FirstHeadless(parts, i, wanted) && pos <= |front|
    requires |front| + |Encoded(mark, parts, epilogue)| <= limits.maxImageBytes
    requires MarkAbsent(front + Encoded(mark, parts, epilogue), mark, pos, |front|)
    ensures front' + Encoded(mark, parts[i..], epilogue) == front + Encoded(mark, parts, epilogue) && pos' <= |front'|
    ensures MarkAbsent(front' + Encoded(mark, parts[i..], epilogue), mark, pos', |front'|)
    ensures Scan(front + Encoded(mark, parts, epilogue), mark, pos, wanted, limits)
            == Scan(front' + Encoded(mark, parts[i..], epilogue), mark, pos', wanted, limits)
    decreases |parts|
  {
    hide ValidMark, MarkAbsent, Find, Scan, Safe, UpToNext, OccursAt, ValidPart, ContentId, ImageOf, Lines, Extracted, PartId,
         HeadersThen, Encoded;
    if i == 0 {
      front', pos' := front, pos;
      assert parts[0..] == parts;
    } else {
      var p, tail := parts[0], parts[1..];
      NextFront(front, mark, parts, epilogue);
      StopsAtFirstPart(mark, parts, wanted, limits);
      ScanFirstPart(front, mark, parts, epilogue, pos, wanted, limits);
      var next := UpToNext(front, mark, p);
      NoMarkInCrlf(next + Encoded(mark, tail, epilogue), mark, |next| - 2);
      HeadlessInTail(parts, i, wanted);
      front', pos' := ScanReaches(next, mark, tail, epilogue, |next| - 2, wanted, limits, i - 1);
      assert tail[i - 1..] == parts[i..];
    }
  }

  lemma HeadlessInTail(parts: seq<Part>, i: nat, wanted: string)
    requires i > 0 && FirstHeadless(parts, i, wanted)
    ensures FirstHeadless(parts[1..], i - 1, wanted) && parts != []
    ensures parts[0].lines != [] && |Block(parts[0])| <= MAX_HEADERS && PartId(parts[0]) != wanted
  {
    hide Block, PartId;
    assert forall j :: 0 <= j < |parts| - 1 ==> parts[1..][j] == parts[j + 1];
  }

  /** A part without headers whose body reads like the headers of the wanted id: its bytes are returned, whatever parts
      come before it (but for one with the id) and after it, and no part is labelled so. */
  lemma BodyIsReadAsHeaders(mediaType: string, boundary: string, preamble: string, parts: seq<Part>, epilogue: string,
                            wanted: string, limits: Limits, i: nat)
    requires GoodCall(mediaType, boundary, wanted) && CleanPreamble("--" + boundary, preamble)
    requires ValidParts("--" + boundary, parts) && FirstHeadless(parts, i, wanted) && parts[i].body == FakeBody(wanted)
    requires |Message("--" + boundary, preamble, parts, epilogue)| <= limits.maxImageBytes
    ensures Decode(mediaType, Message("--" + boundary, preamble, parts, epilogue), wanted, limits) == Ok(Image("t", "E"))
  {
    hide Find, OccursAt, Scan, MarkAbsent, ValidMark, CleanPreamble, ValidParts, Decode, Encoded, StartsWith, Boundary, FakeBody;
    var mark := "--" + boundary;
    var raw := Message(mark, preamble, parts, epilogue);
    MarkIsValid(boundary);
    SafeIdIsPlain(wanted, 512);
    MarkStartsMessage(preamble, mark, parts, epilogue);
    DecodeScans(mediaType, boundary, raw, wanted, limits, |preamble|);
    NoMarkInNothing(raw, mark, |preamble|);
    var front, pos := ScanReaches(preamble, mark, parts, epilogue, |preamble|, wanted, limits, i);
    assert parts[i..][0] == parts[i];
    SafeIsNotLong(wanted, 512);
    FakeIsReturned(front, mark, parts[i..], epilogue, pos, wanted, limits);
  }

  lemma SafeIsNotLong(s: string, max: nat)
    requires Safe(s, max)
    ensures 0 < |s| <= max
  {
  }

  // ------------------------------------- right for every choice of bodies, exactly

  /** Parts with these header lines and bodies. */
  function Zipped(heads: seq<seq<string>>, bodies: seq<string>): (parts: seq<Part>)
    requires |heads| == |bodies|
    ensures |parts| == |heads| && forall i :: 0 <= i < |heads| ==> parts[i] == Part(heads[i], bodies[i])
  {
    seq(|heads|, i requires 0 <= i < |heads| => Part(heads[i], bodies[i]))
  }

  function Bare(heads: seq<seq<string>>): (bodies: seq<string>)
    ensures |bodies| == |heads| && forall i :: 0 <= i < |heads| ==> bodies[i] == ""
  {
    seq(|heads|, i => "")
  }

  predicate ValidHeads(heads: seq<seq<string>>) {
    forall i, l :: 0 <= i < |heads| && l in heads[i] ==> ValidLine(l)
  }

  predicate ValidBodies(mark: string, bodies: seq<string>) {
    forall i :: 0 <= i < |bodies| ==> Find(bodies[i], Delimiter(mark), 0) == None
  }

  /** Decoding gives what is to be extracted whatever the bodies, the epilogue and the limit of the size. */
  ghost predicate RightForAllBodies(mediaType: string, boundary: string, preamble: string, heads: seq<seq<string>>,
                                    wanted: string)
  {
    forall bodies, epilogue, limits: Limits |
      |bodies| == |heads| && ValidBodies("--" + boundary, bodies)
      && |Message("--" + boundary, preamble, Zipped(heads, bodies), epilogue)| <= limits.maxImageBytes ::
      Decode(mediaType, Message("--" + boundary, preamble, Zipped(heads, bodies), epilogue), wanted, limits)
      == Extracted(Zipped(heads, bodies), wanted)
  }

  lemma ZippedIsValid(mark: string, heads: seq<seq<string>>, bodies: seq<string>)
    requires ValidHeads(heads) && |bodies| == |heads| && ValidBodies(mark, bodies)
    ensures ValidParts(mark, Zipped(heads, bodies))
  {
    hide ValidLine, Find;
  }

  /** Which parts the search looks at depends on the header lines alone. */
  lemma {:induction false} SameReach(parts: seq<Part>, others: seq<Part>, wanted: string)
    requires |parts| == |others| && forall i :: 0 <= i < |parts| ==> parts[i].lines == others[i].lines
    ensures HeadedUpTo(parts, wanted) <==> HeadedUpTo(others, wanted)
    decreases |parts|
  {
    hide FirstWith, Trimmed, Lines;
    if parts != [] {
      assert forall i :: 0 <= i < |parts| - 1 ==> parts[1..][i] == parts[i + 1] && others[1..][i] == others[i + 1];
      SameReach(parts[1..], others[1..], wanted);
    }
  }

  lemma HeadlessOfZipped(heads: seq<seq<string>>, bodies: seq<string>, others: seq<string>, i: nat, wanted: string)
    requires |bodies| == |heads| == |others| && FirstHeadless(Zipped(heads, bodies), i, wanted)
    ensures FirstHeadless(Zipped(heads, others), i, wanted)
  {
    hide FirstWith, Trimmed, Lines;
  }

  lemma EmptyHasNoDelimiter(mark: string)
    ensures Find("", Delimiter(mark), 0) == None
  {
    if Find("", Delimiter(mark), 0).Some? {
      OccursInRange("", Delimiter(mark), Find("", Delimiter(mark), 0).value);
    }
  }

  /** For given header lines and any clean preamble: decoding is right for every choice of bodies if and only if every part
      that the search for the id has to look at has header lines. */
  lemma RightForAllBodiesIff(mediaType: string, boundary: string, preamble: string, heads: seq<seq<string>>, wanted: string)
    requires GoodCall(mediaType, boundary, wanted) && CleanPreamble("--" + boundary, preamble) && ValidHeads(heads)
    ensures RightForAllBodies(mediaType, boundary, preamble, heads, wanted)
            <==> HeadedUpTo(Zipped(heads, Bare(heads)), wanted)
  {
    hide Decode, Message, HeadedUpTo, Extracted, ValidParts, CleanPreamble, StartsWith, Boundary, Safe;
    var mark := "--" + boundary;
    if HeadedUpTo(Zipped(heads, Bare(heads)), wanted) {
      forall bodies, epilogue, limits: Limits |
        |bodies| == |heads| && ValidBodies(mark, bodies)
        && |Message(mark, preamble, Zipped(heads, bodies), epilogue)| <= limits.maxImageBytes
        ensures Decode(mediaType, Message(mark, preamble, Zipped(heads, bodies), epilogue), wanted, limits)
                == Extracted(Zipped(heads, bodies), wanted)
      {
        RightForThese(mediaType, boundary, preamble, heads, bodies, epilogue, wanted, limits);
      }
    } else {
      WrongForSome(mediaType, boundary, preamble, heads, wanted);
    }
  }

  lemma RightForThese(mediaType: string, boundary: string, preamble: string, heads: seq<seq<string>>, bodies: seq<string>,
                      epilogue: string, wanted: string, limits: Limits)
    requires GoodCall(mediaType, boundary, wanted) && CleanPreamble("--" + boundary, preamble) && ValidHeads(heads)
    requires |bodies| == |heads| && ValidBodies("--" + boundary, bodies)
    requires |Message("--" + boundary, preamble, Zipped(heads, bodies), epilogue)| <= limits.maxImageBytes
    requires HeadedUpTo(Zipped(heads, Bare(heads)), wanted)
    ensures Decode(mediaType, Message("--" + boundary, preamble, Zipped(heads, bodies), epilogue), wanted, limits)
            == Extracted(Zipped(heads, bodies), wanted)
  {
    hide Decode, HeadedUpTo, Extracted, ValidParts, CleanPreamble, StartsWith, Boundary, Safe, Encoded;
    ZippedIsValid("--" + boundary, heads, bodies);
    SameReach(Zipped(heads, Bare(heads)), Zipped(heads, bodies), wanted);
    DecodingInvertsEncoding(mediaType, boundary, preamble, Zipped(heads, bodies), epilogue, wanted, limits);
  }

  lemma WrongForSome(mediaType: string, boundary: string, preamble: string, heads: seq<seq<string>>, wanted: string)
    requires GoodCall(mediaType, boundary, wanted) && CleanPreamble("--" + boundary, preamble) && ValidHeads(heads)
    requires !HeadedUpTo(Zipped(heads, Bare(heads)), wanted)
    ensures !RightForAllBodies(mediaType, boundary, preamble, heads, wanted)
  {
    hide Decode, HeadedUpTo, Extracted, ValidParts, CleanPreamble, StartsWith, Boundary, Encoded, FakeBody, Find, Safe, Block,
         PartId;
    var mark := "--" + boundary;
    var i := FindHeadless(Zipped(heads, Bare(heads)), wanted);
    var bodies := FakeAt(heads, i, wanted);
    FakeAtIsValid(boundary, heads, i, wanted);
    ZippedIsValid(mark, heads, bodies);
    HeadlessOfZipped(heads, Bare(heads), bodies, i, wanted);
    var parts := Zipped(heads, bodies);
    var limits := Limits(1, |Message(mark, preamble, parts, "")|, 1, 1);
    BodyIsReadAsHeaders(mediaType, boundary, preamble, parts, "", wanted, limits, i);
    NotExtracted(heads, i, wanted);
  }

  function FakeAt(heads: seq<seq<string>>, i: nat, wanted: string): (bodies: seq<string>)
    ensures |bodies| == |heads| && forall k :: 0 <= k < |heads| ==> bodies[k] == if k == i then FakeBody(wanted) else ""
  {
    seq(|heads|, k => if k == i then FakeBody(wanted) else "")
  }

  lemma FakeAtIsValid(boundary: string, heads: seq<seq<string>>, i: nat, wanted: string)
    requires Safe(boundary, 200) && Safe(wanted, 512)
    ensures ValidBodies("--" + boundary, FakeAt(heads, i, wanted))
  {
    hide Find, FakeBody, Safe, ValidMark, Delimiter;
    MarkIsValid(boundary);
    SafeIdIsPlain(wanted, 512);
    FakeBodyHasNoDelimiter(wanted, "--" + boundary);
    EmptyHasNoDelimiter("--" + boundary);
  }

  /** No part with the id has the byte that is returned. */
  lemma NotExtracted(heads: seq<seq<string>>, i: nat, wanted: string)
    requires FirstHeadless(Zipped(heads, FakeAt(heads, i, wanted)), i, wanted) && Safe(wanted, 512)
    ensures Extracted(Zipped(heads, FakeAt(heads, i, wanted)), wanted) != Ok(Image("t", "E"))
  {
    hide Safe, FakeBody, Extracted, PartHeader;
    var parts := Zipped(heads, FakeAt(heads, i, wanted));
    ExtractedIff(parts, wanted, Image("t", "E"));
    SafeIsNotLong(wanted, 512);
    HeadlessHasNoId(parts[i]);
    if Extracted(parts, wanted) == Ok(Image("t", "E")) {
      var k :| HoldsImage(parts, k, wanted, Image("t", "E"));
    }
  }

  lemma HeadlessHasNoId(p: Part)
    requires p.lines == []
    ensures PartId(p) == ""
  {
  }

  // ---------------------------------------- preambles that mention the mark, exactly

  /** Whole lines before the first delimiter line, none of which starts with the mark. */
  predicate ValidPreamble(mark: string, preamble: string) {
    (preamble == "" || (|preamble| >= 2 && preamble[|preamble| - 2..] == Crlf()))
    && !StartsWith(preamble, mark) && Find(preamble, Delimiter(mark), 0) == None
  }

  /** The mark comes nowhere; or it ends a line, and the text behind it reads like a part that no call can ask for: with an
      empty line soon enough and early enough, and without a usable id. */
  predicate HarmlessPreamble(mark: string, preamble: string) {
    var at := Find(preamble, mark, 0);
    at.Some? ==>
      var from := at.value + |mark| + 2;
      var end := Find(preamble, Blank(), from);
      OccursAt(preamble, Crlf(), at.value + |mark|)
      && end.Some? && end.value - from <= MAX_HEADERS && end.value + 4 <= |preamble| - 2
      && !Safe(ContentId(preamble[from..end.value]), 512)
  }

  /** Decoding gives what is to be extracted whatever the parts that it has to look at, as long as these have headers. */
  ghost predicate RightForAllParts(mediaType: string, boundary: string, preamble: string) {
    forall parts, epilogue, wanted, limits: Limits |
      Safe(wanted, 512) && ValidParts("--" + boundary, parts) && HeadedUpTo(parts, wanted)
      && |Message("--" + boundary, preamble, parts, epilogue)| <= limits.maxImageBytes ::
      Decode(mediaType, Message("--" + boundary, preamble, parts, epilogue), wanted, limits) == Extracted(parts, wanted)
  }

  /** What a first search in the preamble finds, a search in the message finds. */
  lemma FoundInFront(front: string, rest: string, pattern: string, from: nat)
    requires Find(front, pattern, from).Some?
    ensures Find(front + rest, pattern, from) == Find(front, pattern, from)
  {
    hide OccursAt, Find;
    var k := Find(front, pattern, from).value;
    OccursInRange(front, pattern, k);
    OccursInFront(front, rest, pattern, k);
    forall j | from <= j < k ensures !OccursAt(front + rest, pattern, j) {
      OccursInFront(front, rest, pattern, j);
    }
    FindIs(front + rest, pattern, from, k);
  }

  lemma PreambleEnds(mark: string, preamble: string, code: string)
    requires ValidMark(mark) && ValidPreamble(mark, preamble) && preamble != "" && StartsWith(code, mark)
    ensures |preamble| >= 2 && OccursAt(preamble + code, Crlf(), |preamble| - 2)
    ensures OccursAt(preamble + code, Delimiter(mark), |preamble| - 2)
    ensures forall j :: 0 <= j < |preamble| - 2 ==> !OccursAt(preamble + code, Delimiter(mark), j)
  {
    hide OccursAt, ValidMark, Find;
    var n := |preamble|;
    var front, rest := preamble[..n - 2], code[|mark|..];
    assert preamble == front + Crlf() && code == mark + rest;
    LineEndThenMark(front, mark, rest);
    NoCrInMark(mark);
    forall j | 0 <= j < n - 2 ensures !OccursAt(preamble + code, Delimiter(mark), j) {
      if j + |Delimiter(mark)| <= n {
        OccursInFront(preamble, code, Delimiter(mark), j);
        assert !OccursAt(preamble, Delimiter(mark), j);
      } else {
        NoMarkAcrossLineEnd(mark, front, code, j);
      }
    }
  }

  lemma LineEndThenMark(front: string, mark: string, rest: string)
    ensures OccursAt(front + Crlf() + (mark + rest), Crlf(), |front|)
    ensures OccursAt(front + Crlf() + (mark + rest), Delimiter(mark), |front|)
  {
    hide OccursAt, Crlf;
    OccursAfter(front, Crlf(), mark + rest);
    OccursAfter(front, Crlf() + mark, rest);
    assert front + (Crlf() + (mark + rest)) == front + Crlf() + (mark + rest);
    assert front + (Crlf() + mark + rest) == front + Crlf() + (mark + rest);
  }

  lemma NoMarkAcrossLineEnd(mark: string, front: string, code: string, j: nat)
    requires '\n' !in mark && j < |front| && j + |Delimiter(mark)| > |front| + 2
    ensures !OccursAt(front + Crlf() + code, Delimiter(mark), j)
  {
    hide OccursAt;
    var raw := front + Crlf() + code;
    assert raw[|front| + 1] == '\n';
    if OccursAt(raw, Delimiter(mark), j) {
      OccursChar(raw, Delimiter(mark), j, |front| + 1 - j);
    }
  }

  /** The turn at a mark in the preamble that ends its line. */
  lemma PreambleTurn(mark: string, preamble: string, code: string, wanted: string, limits: Limits)
    requires ValidMark(mark) && ValidPreamble(mark, preamble) && StartsWith(code, mark)
    requires var at := Find(preamble, mark, 0);
             at.Some? && OccursAt(preamble, Crlf(), at.value + |mark|)
             && var end := Find(preamble, Blank(), at.value + |mark| + 2);
                end.Some? && end.value - (at.value + |mark| + 2) <= MAX_HEADERS && end.value + 4 <= |preamble| - 2
    ensures var at := Find(preamble, mark, 0).value;
            var from := at + |mark| + 2;
            var end := Find(preamble, Blank(), from).value;
            Find(preamble + code, mark, 0) == Some(at)
            && Scan(preamble + code, mark, at, wanted, limits)
               == if ContentId(preamble[from..end]) == wanted
                  then ImageOf(preamble[from..end], preamble[end + 4..|preamble| - 2], limits)
                  else Scan(preamble + code, mark, |preamble| - 2, wanted, limits)
  {
    hide Find, OccursAt, ContentId, ImageOf, StartsWith, ValidMark, ValidPreamble, Scan, TurnLands;
    var at := Find(preamble, mark, 0).value;
    var from := at + |mark| + 2;
    var end := Find(preamble, Blank(), from).value;
    FoundInFront(preamble, code, mark, 0);
    FindStartsAt(preamble + code, mark, at);
    PreambleLands(mark, preamble, code, at, end);
    MarkIsNotEmpty(mark);
    ScanTurn(preamble + code, mark, at, preamble[from..end], preamble[end + 4..|preamble| - 2], at, wanted, limits);
  }

  lemma MarkIsNotEmpty(mark: string)
    requires ValidMark(mark)
    ensures mark != "" && mark[0] == '-'
  {
    assert mark[..2][0] == mark[0];
  }

  /** The searches of that turn, with the first delimiter line as the end of its body. */
  lemma PreambleLands(mark: string, preamble: string, code: string, at: nat, end: nat)
    requires ValidMark(mark) && ValidPreamble(mark, preamble) && StartsWith(code, mark)
    requires Find(preamble, mark, 0) == Some(at) && OccursAt(preamble, Crlf(), at + |mark|)
    requires Find(preamble, Blank(), at + |mark| + 2) == Some(end) && end + 4 <= |preamble| - 2
    ensures at + |mark| + 2 <= end
    ensures TurnLands(preamble + code, mark, at, preamble[at + |mark| + 2..end], preamble[end + 4..|preamble| - 2])
  {
    hide Find, OccursAt, StartsWith, ValidMark, ValidPreamble, Delimiter, Lands, Blank, Crlf, TurnLands;
    var raw, from := preamble + code, at + |mark| + 2;
    FoundInFront(preamble, code, mark, 0);
    NotDashes(preamble, code, at + |mark|);
    BlankLands(preamble, code, from, end);
    DelimiterLands(mark, preamble, code, end + 4);
    TurnLandsHere(raw, mark, at, preamble[from..end], preamble[end + 4..|preamble| - 2], end);
  }

  lemma BlankLands(preamble: string, code: string, from: nat, end: nat)
    requires Find(preamble, Blank(), from) == Some(end)
    ensures from <= end <= |preamble| && Lands(preamble + code, Blank(), from, preamble[from..end])
  {
    hide Find, Blank, Lands;
    FoundInFront(preamble, code, Blank(), from);
    LandsInFront(preamble, code, Blank(), from, end);
  }

  lemma DelimiterLands(mark: string, preamble: string, code: string, from: nat)
    requires ValidMark(mark) && ValidPreamble(mark, preamble) && StartsWith(code, mark) && from + 2 <= |preamble|
    ensures Lands(preamble + code, Delimiter(mark), from, preamble[from..|preamble| - 2])
  {
    hide Find, OccursAt, StartsWith, ValidMark, ValidPreamble, Delimiter, Lands;
    PreambleEnds(mark, preamble, code);
    FindIs(preamble + code, Delimiter(mark), from, |preamble| - 2);
    LandsInFront(preamble, code, Delimiter(mark), from, |preamble| - 2);
  }

  lemma TurnLandsHere(raw: string, mark: string, at: nat, block: string, body: string, end: nat)
    requires DelimiterLine(raw, mark, at) && end == at + |mark| + 2 + |block|
    requires Lands(raw, Blank(), at + |mark| + 2, block) && Lands(raw, Delimiter(mark), end + 4, body)
    ensures TurnLands(raw, mark, at, block, body)
  {
    hide Lands, DelimiterLine;
  }

  lemma BlankIsFour()
    ensures |Blank()| == 4 && |Crlf()| == 2
  {
  }

  lemma LandsInFront(front: string, rest: string, pattern: string, at: nat, end: nat)
    requires Find(front + rest, pattern, at) == Some(end) && at <= end <= |front|
    ensures Lands(front + rest, pattern, at, front[at..end])
  {
    hide Find;
    assert (front + rest)[at..end] == front[at..end];
  }

  lemma FindStartsAt(s: string, pattern: string, at: nat)
    requires Find(s, pattern, 0) == Some(at)
    ensures Find(s, pattern, at) == Some(at)
  {
    FindIs(s, pattern, at, at);
  }

  lemma NotDashes(front: string, rest: string, at: nat)
    requires OccursAt(front, Crlf(), at)
    ensures OccursAt(front + rest, Crlf(), at) && !OccursAt(front + rest, "--", at)
  {
    OccursInFront(front, rest, Crlf(), at);
    OccursChar(front + rest, Crlf(), at, 0);
    StartsWithOther(front + rest, "--", at);
  }

  lemma CodeStartsWithMark(mark: string, parts: seq<Part>, epilogue: string)
    ensures StartsWith(Encoded(mark, parts, epilogue), mark)
  {
    EncodedStartsWithMark(mark, parts, epilogue);
    PrefixAndRest(mark, AfterMark(mark, parts, epilogue));
  }

  lemma ValidIsClean(mark: string, preamble: string)
    requires ValidPreamble(mark, preamble) && Find(preamble, mark, 0) == None
    ensures CleanPreamble(mark, preamble)
  {
    if preamble != "" {
      assert preamble[|preamble| - 1] == preamble[|preamble| - 2..][1];
    }
  }

  lemma HarmlessIsRight(mediaType: string, boundary: string, preamble: string, parts: seq<Part>, epilogue: string,
                        wanted: string, limits: Limits)
    requires GoodCall(mediaType, boundary, wanted)
    requires ValidPreamble("--" + boundary, preamble) && HarmlessPreamble("--" + boundary, preamble)
    requires ValidParts("--" + boundary, parts) && HeadedUpTo(parts, wanted)
    requires |Message("--" + boundary, preamble, parts, epilogue)| <= limits.maxImageBytes
    ensures Decode(mediaType, Message("--" + boundary, preamble, parts, epilogue), wanted, limits)
            == Extracted(parts, wanted)
  {
    hide Find, OccursAt, Scan, StartsWith, Boundary, Safe, Decode, Encoded, ValidParts, HeadedUpTo, Extracted, ContentId,
         ValidPreamble, ValidMark, MarkAbsent, ImageOf, CleanPreamble;
    var mark := "--" + boundary;
    var raw := Message(mark, preamble, parts, epilogue);
    var code := Encoded(mark, parts, epilogue);
    MarkIsValid(boundary);
    if Find(preamble, mark, 0).None? {
      ValidIsClean(mark, preamble);
      DecodingInvertsEncoding(mediaType, boundary, preamble, parts, epilogue, wanted, limits);
    } else {
      CodeStartsWithMark(mark, parts, epilogue);
      PreambleTurn(mark, preamble, code, wanted, limits);
      FoundIsInside(preamble, mark);
      DecodeScans(mediaType, boundary, raw, wanted, limits, Find(preamble, mark, 0).value);
      PreambleEnds(mark, preamble, code);
      NoMarkInCrlf(raw, mark, |preamble| - 2);
      ScanEncoded(preamble, mark, parts, epilogue, |preamble| - 2, wanted, limits);
    }
  }

  lemma FoundIsInside(s: string, pattern: string)
    requires Find(s, pattern, 0).Some? && pattern != ""
    ensures s != ""
  {
  }

  // ------------------------------------------------- a part for each harmful preamble

  function OnePart(id: string, body: string): seq<Part> {
    [Part(FakeLines(id), body)]
  }

  /** A part with the id in its first line is extracted, as long as its other lines are no headers of interest. */
  lemma OnePartIsExtracted(lines: seq<string>, id: string, body: string)
    requires NoCr(id) && |lines| >= 2 && lines[..2] == FakeLines(id) && |Lines(lines)| <= MAX_HEADERS
    requires forall i :: 2 <= i < |lines| ==> !StartsWith(lines[i], "Content-ID:") && !StartsWith(lines[i], "Content-Type:")
    ensures Extracted([Part(lines, body)], id) == Ok(Image("t", body)) && HeadedUpTo([Part(lines, body)], id)
  {
    hide Trimmed, Lines, StartsWith;
    var p := Part(lines, body);
    FakeHeaders(id);
    FakeStarts(id);
    assert lines[0] == lines[..2][0] && lines[1] == lines[..2][1];
    FirstWithNone(lines[1..], "Content-ID:");
    assert lines[..1] == [IdLine(id)];
    FirstOfOne(IdLine(id), "Content-ID:");
    PrefixAndRest("Content-ID:", " " + (id + ""));
    PrefixAndRest("Content-Type:", " " + ("t" + ""));
    FirstWithAt(lines[1..], 0, "Content-Type:");
    assert "Content-ID" + ":" == "Content-ID:" && "Content-Type" + ":" == "Content-Type:";
    assert PartHeader(p, "Content-ID") == id && PartHeader(p, "Content-Type") == "t";
    assert SafeChar('t');
  }

  lemma OnePartIsFine(id: string, body: string, mark: string)
    requires NoCr(id) && |id| <= 512 && Find(body, Delimiter(mark), 0) == None
    ensures ValidParts(mark, OnePart(id, body)) && HeadedUpTo(OnePart(id, body), id)
    ensures Extracted(OnePart(id, body), id) == Ok(Image("t", body))
  {
    hide Extracted, HeadedUpTo, Find;
    FakeLinesAreValid(id);
    FakeLinesJoined(id);
    assert FakeLines(id)[..2] == FakeLines(id);
    OnePartIsExtracted(FakeLines(id), id, body);
  }

  /** A mark inside a line of the preamble, not at its end: the call fails whatever the parts. */
  lemma MentionedMarkIsRefused(mark: string, preamble: string, code: string, wanted: string, limits: Limits)
    requires ValidMark(mark) && ValidPreamble(mark, preamble) && Find(preamble, mark, 0).Some?
    requires !OccursAt(preamble, Crlf(), Find(preamble, mark, 0).value + |mark|)
    ensures Find(preamble + code, mark, 0) == Find(preamble, mark, 0)
    ensures Scan(preamble + code, mark, Find(preamble, mark, 0).value, wanted, limits)
            == if OccursAt(preamble, "--", Find(preamble, mark, 0).value + |mark|) then Err("missing_wsd_mtom_image")
               else Err("invalid_wsd_mtom_body")
  {
    hide Find, OccursAt, ValidMark, ValidPreamble, Scan, Crlf;
    var at := Find(preamble, mark, 0).value;
    BlankIsFour();
    MarkIsNotEmpty(mark);
    FoundInFront(preamble, code, mark, 0);
    FindStartsAt(preamble + code, mark, at);
    MarkEndsInside(mark, preamble, at);
    OccursInFront(preamble, code, "--", at + |mark|);
    OccursInFront(preamble, code, Crlf(), at + |mark|);
    NoDelimiterLine(preamble + code, mark, at, wanted, limits);
  }

  lemma NoDelimiterLine(raw: string, mark: string, at: nat, wanted: string, limits: Limits)
    requires mark != "" && Find(raw, mark, at) == Some(at) && !OccursAt(raw, Crlf(), at + |mark|)
    ensures Scan(raw, mark, at, wanted, limits)
            == if OccursAt(raw, "--", at + |mark|) then Err("missing_wsd_mtom_image") else Err("invalid_wsd_mtom_body")
  {
    hide Find, OccursAt;
  }

  /** No mark reaches into the last line end of the preamble. */
  lemma MarkEndsInside(mark: string, preamble: string, at: nat)
    requires ValidMark(mark) && ValidPreamble(mark, preamble) && OccursAt(preamble, mark, at)
    ensures at + |mark| + 2 <= |preamble|
  {
    NoCrInMark(mark);
    MarkIsNotEmpty(mark);
    var n := |preamble|;
    assert preamble[n - 2] == preamble[n - 2..][0] && preamble[n - 1] == preamble[n - 2..][1];
    if at + |mark| > n - 2 {
      OccursChar(preamble, mark, at, |mark| - 1);
    }
  }

  /** Where the empty line is found too late, or not at all. */
  lemma LongHeadersAreRefused(raw: string, mark: string, at: nat, wanted: string, limits: Limits)
    requires mark != "" && Find(raw, mark, at) == Some(at)
    requires OccursAt(raw, Crlf(), at + |mark|) && !OccursAt(raw, "--", at + |mark|)
    requires var end := Find(raw, Blank(), at + |mark| + 2); end.None? || end.value - (at + |mark| + 2) > MAX_HEADERS
    ensures Scan(raw, mark, at, wanted, limits) == Err("invalid_wsd_mtom_headers")
  {
    hide Find, OccursAt;
  }

  /** An id that no preamble can have made safe to ask for: any safe one will do. */
  lemma AIsSafe()
    ensures Safe("a", 512) && NoCr("a")
  {
  }

  /** A part as it is written, from its mark to its last byte. */
  function Written(mark: string, p: Part): string {
    mark + (Crlf() + HeadersThen(p.lines, p.body))
  }

  /** Nowhere in it does a line start with the mark again. */
  predicate Whole(mark: string, p: Part) {
    Find(Written(mark, p), Delimiter(mark), 0) == None
  }

  lemma HeadersThenMore(lines: seq<string>, body: string, rest: string)
    ensures HeadersThen(lines, body) + rest == HeadersThen(lines, body + rest)
  {
    hide Lines;
    if lines != [] {
      assert Lines(lines) + (Blank() + body) + rest == Lines(lines) + (Blank() + (body + rest));
    }
  }

  lemma EncodedIsWritten(mark: string, parts: seq<Part>, epilogue: string)
    requires parts != []
    ensures Encoded(mark, parts, epilogue)
            == Written(mark, parts[0]) + (Delimiter(mark) + AfterMark(mark, parts[1..], epilogue))
    ensures Encoded(mark, parts, epilogue)
            == Written(mark, parts[0]) + Crlf() + Encoded(mark, parts[1..], epilogue)
  {
    var p, tail, rest := parts[0], Encoded(mark, parts[1..], epilogue), AfterMark(mark, parts[1..], epilogue);
    EncodedStartsWithMark(mark, parts[1..], epilogue);
    hide AfterMark, HeadersThen;
    HeadersThenMore(p.lines, p.body, Crlf() + tail);
    assert Encoded(mark, parts, epilogue) == Written(mark, p) + (Crlf() + tail);
    assert Crlf() + (mark + rest) == Delimiter(mark) + rest;
  }

  /** Where the empty line of a turn ends right before a part, that part, mark and headers and all, is taken for a body. */
  lemma PartIsSwallowed(mark: string, front: string, parts: seq<Part>, epilogue: string, at: nat, wanted: string,
                        limits: Limits)
    requires ValidMark(mark) && parts != [] && Whole(mark, parts[0]) && at + |mark| + 6 <= |front|
    requires var raw := front + Encoded(mark, parts, epilogue);
             Find(raw, mark, at) == Some(at) && DelimiterLine(raw, mark, at) && |raw| <= limits.maxImageBytes
             && Lands(raw, Blank(), at + |mark| + 2, front[at + |mark| + 2..|front| - 4])
    requires ValidParts(mark, parts[1..]) && HeadedUpTo(parts[1..], wanted)
    ensures var block := front[at + |mark| + 2..|front| - 4];
            Scan(front + Encoded(mark, parts, epilogue), mark, at, wanted, limits)
            == if |block| > MAX_HEADERS then Err("invalid_wsd_mtom_headers")
               else if ContentId(block) == wanted then ImageOf(block, Written(mark, parts[0]), limits)
               else Extracted(parts[1..], wanted)
  {
    hide Find, OccursAt, ValidMark, Scan, Crlf, Blank, Delimiter, Encoded, ImageOf, ContentId, DelimiterLine, Lands, Written,
         ValidParts, HeadedUpTo, Extracted, AfterMark;
    var raw, text, tail := front + Encoded(mark, parts, epilogue), Written(mark, parts[0]), parts[1..];
    var block, next := front[at + |mark| + 2..|front| - 4], front + text + Crlf();
    MarkIsNotEmpty(mark);
    DelimiterStartsOnce(mark);
    EncodedIsWritten(mark, parts, epilogue);
    NoStraddling(text, Delimiter(mark), AfterMark(mark, tail, epilogue));
    LandsBehind(raw, front, text, Delimiter(mark), AfterMark(mark, tail, epilogue));
    ScanTurn(raw, mark, at, block, text, at, wanted, limits);
    var rest := Encoded(mark, tail, epilogue);
    assert raw == next + rest && raw == front + text + (Crlf() + rest);
    OccursAfter(front + text, Crlf(), rest);
    NoMarkInCrlf(raw, mark, |next| - 2);
    ScanEncoded(next, mark, tail, epilogue, |next| - 2, wanted, limits);
  }

  /** A mark at the end of a line of the preamble, and the next empty line right at the end of the preamble: the first part is
      taken for the body of what stands between, and decoding goes on behind it. */
  lemma FirstPartIsSwallowed(mediaType: string, boundary: string, preamble: string, parts: seq<Part>, epilogue: string,
                             wanted: string, limits: Limits)
    requires GoodCall(mediaType, boundary, wanted)
    requires ValidPreamble("--" + boundary, preamble) && Find(preamble, "--" + boundary, 0).Some?
    requires var after := Find(preamble, "--" + boundary, 0).value + |"--" + boundary|;
             OccursAt(preamble, Crlf(), after) && |preamble| >= 4 && Find(preamble, Blank(), after + 2) == Some(|preamble| - 4)
    requires parts != [] && Whole("--" + boundary, parts[0])
    requires ValidParts("--" + boundary, parts[1..]) && HeadedUpTo(parts[1..], wanted)
    requires |Message("--" + boundary, preamble, parts, epilogue)| <= limits.maxImageBytes
    ensures var from := Find(preamble, "--" + boundary, 0).value + |"--" + boundary| + 2;
            from <= |preamble| - 4
            && var block := preamble[from..|preamble| - 4];
               Decode(mediaType, Message("--" + boundary, preamble, parts, epilogue), wanted, limits)
               == if |block| > MAX_HEADERS then Err("invalid_wsd_mtom_headers")
                  else if ContentId(block) == wanted then ImageOf(block, Written("--" + boundary, parts[0]), limits)
                  else Extracted(parts[1..], wanted)
  {
    hide Find, OccursAt, ValidMark, ValidPreamble, Scan, Crlf, Blank, Encoded, ImageOf, ContentId, Lands, Written, Whole,
         ValidParts, HeadedUpTo, Extracted, StartsWith, Boundary, Safe;
    var mark := "--" + boundary;
    var at, code := Find(preamble, mark, 0).value, Encoded(mark, parts, epilogue);
    var from := at + |mark| + 2;
    MarkIsValid(boundary);
    MarkIsNotEmpty(mark);
    BlankIsFour();
    FoundIsInside(preamble, mark);
    FoundInFront(preamble, code, mark, 0);
    FindStartsAt(preamble + code, mark, at);
    NotDashes(preamble, code, at + |mark|);
    BlankLands(preamble, code, from, |preamble| - 4);
    PartIsSwallowed(mark, preamble, parts, epilogue, at, wanted, limits);
    DecodeScans(mediaType, boundary, preamble + code, wanted, limits, at);
  }

  lemma OnePartIsWhole(id: string, mark: string)
    requires NoCr(id) && ValidMark(mark)
    ensures Whole(mark, Part(FakeLines(id), ""))
  {
    var text := Written(mark, Part(FakeLines(id), ""));
    FakeLinesJoined(id);
    NoCrInMark(mark);
    MarkIsNotEmpty(mark);
    assert text == mark + (Crlf() + (IdLine(id) + (Crlf() + TypeLine()) + Blank()));
    assert '\r' !in IdLine(id) && '\r' !in TypeLine();
    forall j: nat ensures !OccursAt(text, Delimiter(mark), j) {
      if OccursAt(text, Delimiter(mark), j) {
        OccursChar(text, Delimiter(mark), j, 0);
        OccursChar(text, Delimiter(mark), j, 2);
      }
    }
    FindNothing(text, Delimiter(mark), 0);
  }

  /** So that part's own image, which is empty, is not what the call gives. */
  lemma SwallowedPartMisleads(mediaType: string, boundary: string, preamble: string)
    requires StartsWith(mediaType, "multipart/related") && Boundary(mediaType) == Some(boundary) && Safe(boundary, 200)
    requires ValidPreamble("--" + boundary, preamble) && Find(preamble, "--" + boundary, 0).Some?
    requires var after := Find(preamble, "--" + boundary, 0).value + |"--" + boundary|;
             OccursAt(preamble, Crlf(), after) && |preamble| >= 4 && Find(preamble, Blank(), after + 2) == Some(|preamble| - 4)
    ensures Misleads(mediaType, boundary, preamble, OnePart("a", ""), "a")
  {
    hide Find, OccursAt, StartsWith, Boundary, Safe, Encoded, ContentId, Extracted, ValidPreamble, ValidMark, ValidParts,
         HeadedUpTo, FakeLines, Header, Decode, Whole, Crlf, Blank;
    var mark, parts := "--" + boundary, OnePart("a", "");
    var limits := Limits(1, |Message(mark, preamble, parts, "")|, 1, 1);
    MarkIsValid(boundary);
    MarkIsNotEmpty(mark);
    AIsSafe();
    EmptyHasNoDelimiter(mark);
    OnePartIsFine("a", "", mark);
    OnePartIsWhole("a", mark);
    assert parts[1..] == [];
    NothingIsFine(mark, "a");
    FirstPartIsSwallowed(mediaType, boundary, preamble, parts, "", "a", limits);
  }

  lemma NothingIsFine(mark: string, wanted: string)
    ensures ValidParts(mark, []) && HeadedUpTo([], wanted) && Extracted([], wanted) == Err("missing_wsd_mtom_image")
  {
  }

  // ---------------------------------------------------- a header block of full length

  function Filler(n: nat): (s: string)
    ensures |s| == n && forall i :: 0 <= i < n ==> s[i] == 'x'
  {
    seq(n, i => 'x')
  }

  /** Fake headers and a line that fills the block up to the limit. */
  function FullLines(): (lines: seq<string>)
    ensures |lines| == 3
  {
    FakeLines("a") + [Filler(MAX_HEADERS - |Lines(FakeLines("a"))| - 2)]
  }

  lemma FullBlock()
    ensures |Lines(FakeLines("a"))| <= 100
  {
    FakeLinesJoined("a");
  }

  lemma FullLinesAreFull()
    ensures |Lines(FullLines())| == MAX_HEADERS && forall l :: l in FullLines() ==> ValidLine(l)
    ensures FullLines()[..2] == FakeLines("a")
    ensures !StartsWith(FullLines()[2], "Content-ID:") && !StartsWith(FullLines()[2], "Content-Type:")
  {
    FullBlock();
    AIsSafe();
    FakeLinesAreValid("a");
    var lines, filler := FullLines(), FullLines()[2];
    FakeLinesJoined("a");
    assert lines[1..] == [TypeLine(), filler] && lines[1..][1..] == [filler];
    assert Lines(lines) == IdLine("a") + (Crlf() + (TypeLine() + (Crlf() + filler)));
    assert filler[0] == 'x';
    FillerStartsNoHeader(filler);
  }

  lemma FillerStartsNoHeader(filler: string)
    requires filler != "" && filler[0] == 'x'
    ensures !StartsWith(filler, "Content-ID:") && !StartsWith(filler, "Content-Type:")
  {
    assert "Content-ID:"[0] == 'C' && "Content-Type:"[0] == 'C';
    assert |filler| >= 11 ==> filler[..11][0] == 'x';
    assert |filler| >= 13 ==> filler[..13][0] == 'x';
  }

  /** No empty line behind the mark in the preamble: the first part's headers are taken together with what comes before. */
  lemma FullHeadersAreRefused(mark: string, preamble: string, epilogue: string, limits: Limits)
    requires ValidMark(mark) && ValidPreamble(mark, preamble) && Find(preamble, mark, 0).Some?
    requires var after := Find(preamble, mark, 0).value + |mark|;
             OccursAt(preamble, Crlf(), after) && Find(preamble, Blank(), after + 2) == None
    ensures Scan(Message(mark, preamble, [Part(FullLines(), "")], epilogue), mark, Find(preamble, mark, 0).value, "a", limits)
            == Err("invalid_wsd_mtom_headers")
  {
    hide Find, OccursAt, ValidMark, ValidPreamble, Scan, Crlf, Blank, Lines, FullLines, ValidLine, Encoded;
    var at := Find(preamble, mark, 0).value;
    var from, parts := at + |mark| + 2, [Part(FullLines(), "")];
    var code := Encoded(mark, parts, epilogue);
    var raw := preamble + code;
    BlankIsFour();
    MarkIsNotEmpty(mark);
    MarkEndsInside(mark, preamble, at);
    FoundInFront(preamble, code, mark, 0);
    FindStartsAt(raw, mark, at);
    NotDashes(preamble, code, at + |mark|);
    BlankIsBehindFullLines(mark, preamble, epilogue, from);
    LongHeadersAreRefused(raw, mark, at, "a", limits);
  }

  /** The first empty line from there on ends the full headers, which the delimiter line before them makes too long. */
  lemma BlankIsBehindFullLines(mark: string, preamble: string, epilogue: string, from: nat)
    requires ValidMark(mark) && from <= |preamble| && Find(preamble, Blank(), from) == None
    ensures var found := Find(Message(mark, preamble, [Part(FullLines(), "")], epilogue), Blank(), from);
            found.Some? && found.value > from + MAX_HEADERS
  {
    hide Find, OccursAt, ValidMark, Crlf, Blank, Lines, FullLines, ValidLine, AfterMark, Encoded;
    var front, rest := preamble[..from], AfterMark(mark, [], epilogue);
    MarkIsNotEmpty(mark);
    FullLinesAreFull();
    LinesStart(FullLines());
    FullText(mark, epilogue);
    var tail := Blank() + ("" + (Delimiter(mark) + rest));
    BlockEndsAtBlank(FullLines(), "" + (Delimiter(mark) + rest));
    var between := preamble[from..] + mark + Crlf();
    NoBlankBetween(preamble, mark, from, Lines(FullLines()) + tail);
    FindSkips(between, Lines(FullLines()) + tail, Blank(), 0);
    FindBehind(front, between + (Lines(FullLines()) + tail), Blank(), 0);
    Rebracketed(front, preamble[from..], mark, Crlf(), Lines(FullLines()) + tail);
    assert front + preamble[from..] == preamble;
  }

  lemma Rebracketed(a: string, b: string, c: string, d: string, e: string)
    ensures a + ((b + c + d) + e) == (a + b) + (c + (d + e))
  {
  }

  lemma FullText(mark: string, epilogue: string)
    ensures Encoded(mark, [Part(FullLines(), "")], epilogue)
            == mark + (Crlf() + (Lines(FullLines()) + (Blank() + ("" + (Delimiter(mark) + AfterMark(mark, [], epilogue))))))
  {
    hide Lines, FullLines;
    EncodedIsPartText(mark, [Part(FullLines(), "")], epilogue);
  }

  /** Neither the rest of the preamble nor the delimiter line behind it holds an empty line. */
  lemma NoBlankBetween(preamble: string, mark: string, from: nat, rest: string)
    requires ValidMark(mark) && from <= |preamble| && Find(preamble, Blank(), from) == None && rest != "" && rest[0] != '\r'
    ensures var between := preamble[from..] + mark + Crlf();
            forall j :: 0 <= j < |between| ==> !OccursAt(between + rest, Blank(), j)
  {
    hide Find, OccursAt, Blank, Crlf, ValidMark;
    BlankIsFour();
    var front := preamble[from..];
    var between := front + mark + Crlf();
    var whole := between + rest;
    NoCrInMark(mark);
    MarkIsNotEmpty(mark);
    assert preamble == preamble[..from] + front;
    forall j | 0 <= j < |between| ensures !OccursAt(whole, Blank(), j) {
      if j + |Blank()| <= |front| {
        OccursBehind(preamble[..from], front, Blank(), j);
        OccursInFront(front, mark + Crlf() + rest, Blank(), j);
        assert front + (mark + Crlf() + rest) == whole;
      } else if OccursAt(whole, Blank(), j) {
        NoBlankAcross(front, mark, rest, j);
      }
    }
  }

  lemma NoBlankAcross(front: string, mark: string, rest: string, j: nat)
    requires '\r' !in mark && '\n' !in mark && mark != "" && rest != "" && rest[0] != '\r'
    requires |front| < j + 4 && j < |front| + |mark| + 2
    ensures !OccursAt(front + mark + Crlf() + rest, Blank(), j)
  {
    var whole, m := front + mark + Crlf() + rest, |front| + |mark|;
    assert whole[|front|] == mark[0] && whole[m] == '\r' && whole[m + 1] == '\n' && whole[m + 2] == rest[0];
    assert forall k :: |front| <= k < m ==> whole[k] == mark[k - |front|];
    if OccursAt(whole, Blank(), j) {
      OccursChar(whole, Blank(), j, 0);
      OccursChar(whole, Blank(), j, 1);
      OccursChar(whole, Blank(), j, 2);
      OccursChar(whole, Blank(), j, 3);
    }
  }

  // ------------------------------------------------------- exactly the harmless ones

  /** A call that gives something else than what is to be extracted. */
  predicate Misleads(mediaType: string, boundary: string, preamble: string, parts: seq<Part>, wanted: string) {
    var raw := Message("--" + boundary, preamble, parts, "");
    Safe(wanted, 512) && ValidParts("--" + boundary, parts) && HeadedUpTo(parts, wanted)
    && Decode(mediaType, raw, wanted, Limits(1, |raw|, 1, 1)) != Extracted(parts, wanted)
  }

  lemma MisleadsIsWrong(mediaType: string, boundary: string, preamble: string, parts: seq<Part>, wanted: string)
    requires Misleads(mediaType, boundary, preamble, parts, wanted)
    ensures !RightForAllParts(mediaType, boundary, preamble)
  {
    hide Decode, Extracted, Safe, ValidParts, HeadedUpTo;
  }

  /** One part that is there to be extracted, and a scan that does not give it. */
  lemma OnePartMisleads(mediaType: string, boundary: string, preamble: string, parts: seq<Part>, wanted: string, body: string,
                        at: nat)
    requires GoodCall(mediaType, boundary, wanted)
    requires ValidParts("--" + boundary, parts) && HeadedUpTo(parts, wanted) && Extracted(parts, wanted) == Ok(Image("t", body))
    requires var raw := Message("--" + boundary, preamble, parts, "");
             raw != "" && Find(raw, "--" + boundary, 0) == Some(at)
             && Scan(raw, "--" + boundary, at, wanted, Limits(1, |raw|, 1, 1)) != Ok(Image("t", body))
    ensures Misleads(mediaType, boundary, preamble, parts, wanted)
  {
    hide Decode, Extracted, Safe, ValidParts, HeadedUpTo, Scan, Find, StartsWith, Boundary, Message;
    var raw := Message("--" + boundary, preamble, parts, "");
    DecodeScans(mediaType, boundary, raw, wanted, Limits(1, |raw|, 1, 1), at);
  }

  /** The empty line behind a mark in the preamble ends early, or right with the preamble. */
  lemma BlankEndsWhere(mark: string, preamble: string, end: nat)
    requires ValidPreamble(mark, preamble) && OccursAt(preamble, Blank(), end) && end + 4 > |preamble| - 2
    ensures end == |preamble| - 4
  {
    assert preamble[|preamble| - 2] == preamble[|preamble| - 2..][0];
    OccursChar(preamble, Blank(), end, 3);
  }

  lemma HarmfulMisleads(mediaType: string, boundary: string, preamble: string) returns (parts: seq<Part>, wanted: string)
    requires StartsWith(mediaType, "multipart/related") && Boundary(mediaType) == Some(boundary) && Safe(boundary, 200)
    requires ValidPreamble("--" + boundary, preamble) && !HarmlessPreamble("--" + boundary, preamble)
    ensures Misleads(mediaType, boundary, preamble, parts, wanted)
  {
    hide Find, OccursAt, StartsWith, Boundary, Safe, Scan, Encoded, ContentId, ImageOf, Extracted, ValidPreamble, ValidMark,
         ValidParts, HeadedUpTo, Misleads, FakeLines, FullLines;
    var mark := "--" + boundary;
    var at := Find(preamble, mark, 0).value;
    var from := at + |mark| + 2;
    var end := Find(preamble, Blank(), from);
    MarkIsValid(boundary);
    MarkIsNotEmpty(mark);
    AIsSafe();
    EmptyHasNoDelimiter(mark);
    FoundIsInside(preamble, mark);
    if OccursAt(preamble, Crlf(), at + |mark|) && end.None? {
      parts, wanted := [Part(FullLines(), "")], "a";
      FullPartMisleads(mediaType, boundary, preamble, at);
    } else if OccursAt(preamble, Crlf(), at + |mark|) && end.value - from <= MAX_HEADERS
              && end.value + 4 <= |preamble| - 2 {
      wanted := ContentId(preamble[from..end.value]);
      parts := FakePartMisleads(mediaType, boundary, preamble, at, end.value, wanted);
    } else {
      parts, wanted := OnePart("a", ""), "a";
      var code := Encoded(mark, parts, "");
      var raw := Message(mark, preamble, parts, "");
      var limits := Limits(1, |raw|, 1, 1);
      OnePartIsFine("a", "", mark);
      FoundInFront(preamble, code, mark, 0);
      if !OccursAt(preamble, Crlf(), at + |mark|) {
        MentionedMarkIsRefused(mark, preamble, code, "a", limits);
      } else if end.value - from > MAX_HEADERS {
        FoundInFront(preamble, code, Blank(), from);
        FindStartsAt(raw, mark, at);
        NotDashes(preamble, code, at + |mark|);
        LongHeadersAreRefused(raw, mark, at, "a", limits);
      } else {
        BlankEndsWhere(mark, preamble, end.value);
        SwallowedPartMisleads(mediaType, boundary, preamble);
      }
      if !OccursAt(preamble, Crlf(), at + |mark|) || end.value - from > MAX_HEADERS {
        OnePartMisleads(mediaType, boundary, preamble, parts, "a", "", at);
      }
    }
  }

  lemma FullPartMisleads(mediaType: string, boundary: string, preamble: string, at: nat)
    requires GoodCall(mediaType, boundary, "a") && ValidPreamble("--" + boundary, preamble)
    requires Find(preamble, "--" + boundary, 0) == Some(at) && OccursAt(preamble, Crlf(), at + |"--" + boundary|)
    requires Find(preamble, Blank(), at + |"--" + boundary| + 2) == None
    ensures Misleads(mediaType, boundary, preamble, [Part(FullLines(), "")], "a")
  {
    hide Find, OccursAt, StartsWith, Boundary, Safe, Scan, Encoded, Extracted, ValidPreamble, ValidMark, HeadedUpTo, Misleads,
         FullLines, ValidLine, Lines;
    var mark, parts := "--" + boundary, [Part(FullLines(), "")];
    var raw := Message(mark, preamble, parts, "");
    MarkIsValid(boundary);
    MarkIsNotEmpty(mark);
    AIsSafe();
    EmptyHasNoDelimiter(mark);
    FoundIsInside(preamble, mark);
    FullLinesAreFull();
    OnePartIsExtracted(FullLines(), "a", "");
    FoundInFront(preamble, Encoded(mark, parts, ""), mark, 0);
    FullHeadersAreRefused(mark, preamble, "", Limits(1, |raw|, 1, 1));
    OnePartMisleads(mediaType, boundary, preamble, parts, "a", "", at);
  }

  /** The text in the preamble has an id that can be asked for: a part with that id and other bytes is not found. */
  lemma FakePartMisleads(mediaType: string, boundary: string, preamble: string, at: nat, end: nat, wanted: string)
    returns (parts: seq<Part>)
    requires StartsWith(mediaType, "multipart/related") && Boundary(mediaType) == Some(boundary) && Safe(boundary, 200)
    requires ValidPreamble("--" + boundary, preamble) && !HarmlessPreamble("--" + boundary, preamble)
    requires Find(preamble, "--" + boundary, 0) == Some(at) && OccursAt(preamble, Crlf(), at + |"--" + boundary|)
    requires Find(preamble, Blank(), at + |"--" + boundary| + 2) == Some(end) && end + 4 <= |preamble| - 2
    requires at + |"--" + boundary| + 2 <= end <= at + |"--" + boundary| + 2 + MAX_HEADERS
    requires wanted == ContentId(preamble[at + |"--" + boundary| + 2..end])
    ensures Misleads(mediaType, boundary, preamble, parts, wanted)
  {
    hide Find, OccursAt, StartsWith, Boundary, Safe, Scan, Encoded, ContentId, Extracted, ValidPreamble, ValidMark,
         ValidParts, HeadedUpTo, Misleads, FakeLines, Header;
    var mark := "--" + boundary;
    var bytes := preamble[end + 4..|preamble| - 2];
    var body := if bytes == "" then "E" else "";
    parts := OnePart(wanted, body);
    var raw := Message(mark, preamble, parts, "");
    MarkIsValid(boundary);
    MarkIsNotEmpty(mark);
    SafeIdIsPlain(wanted, 512);
    SafeIsNotLong(wanted, 512);
    EmptyHasNoDelimiter(mark);
    NoDelimiterInE(mark);
    FoundIsInside(preamble, mark);
    OnePartIsFine(wanted, body, mark);
    CodeStartsWithMark(mark, parts, "");
    PreambleTurn(mark, preamble, Encoded(mark, parts, ""), wanted, Limits(1, |raw|, 1, 1));
    OnePartMisleads(mediaType, boundary, preamble, parts, wanted, body, at);
  }

  /** For any preamble of whole lines, none of which starts with the mark: decoding is right for all parts with headers, ids
      and epilogues if and only if the preamble does not mention the mark, or mentions it first in a harmless way. */
  lemma RightForAllPartsIff(mediaType: string, boundary: string, preamble: string)
    requires StartsWith(mediaType, "multipart/related") && Boundary(mediaType) == Some(boundary) && Safe(boundary, 200)
    requires ValidPreamble("--" + boundary, preamble)
    ensures RightForAllParts(mediaType, boundary, preamble) <==> HarmlessPreamble("--" + boundary, preamble)
  {
    hide Decode, Extracted, Safe, ValidParts, HeadedUpTo, StartsWith, Boundary, ValidPreamble, HarmlessPreamble, Message, Misleads;
    var mark := "--" + boundary;
    if HarmlessPreamble(mark, preamble) {
      forall parts, epilogue, wanted, limits: Limits |
        Safe(wanted, 512) && ValidParts(mark, parts) && HeadedUpTo(parts, wanted)
        && |Message(mark, preamble, parts, epilogue)| <= limits.maxImageBytes
        ensures Decode(mediaType, Message(mark, preamble, parts, epilogue), wanted, limits) == Extracted(parts, wanted)
      {
        HarmlessIsRight(mediaType, boundary, preamble, parts, epilogue, wanted, limits);
      }
    } else {
      var parts, wanted := HarmfulMisleads(mediaType, boundary, preamble);
      MisleadsIsWrong(mediaType, boundary, preamble, parts, wanted);
    }
  }

  // ------------------------------------------------------------- further inputs

  /** A first part without headers and without line ends, longer than a header block may be: the call fails whatever comes
      after it. */
  lemma LongBodyIsRefused(mediaType: string, boundary: string, body: string, tail: seq<Part>, epilogue: string,
                          wanted: string, limits: Limits)
    requires GoodCall(mediaType, boundary, wanted) && '\r' !in body && |body| > MAX_HEADERS
    requires |Message("--" + boundary, "", [Part([], body)] + tail, epilogue)| <= limits.maxImageBytes
    ensures Decode(mediaType, Message("--" + boundary, "", [Part([], body)] + tail, epilogue), wanted, limits)
            == Err("invalid_wsd_mtom_headers")
  {
    hide Find, OccursAt, StartsWith, Boundary, Safe, Scan, ValidMark;
    var mark, parts := "--" + boundary, [Part([], body)] + tail;
    var raw := Message(mark, "", parts, epilogue);
    var rest := Crlf() + Encoded(mark, tail, epilogue);
    MarkIsValid(boundary);
    MarkIsNotEmpty(mark);
    assert parts[1..] == tail;
    assert raw == mark + (Crlf() + (Crlf() + (body + rest)));
    StartsThere(mark, Crlf() + (Crlf() + (body + rest)));
    DelimiterLineIsFound("", mark, Crlf() + (body + rest));
    assert "" + (mark + (Crlf() + (Crlf() + (body + rest)))) == raw;
    DecodeScans(mediaType, boundary, raw, wanted, limits, 0);
    LateBlank(mark, body, rest);
    LongHeadersAreRefused(raw, mark, 0, wanted, limits);
  }

  lemma StartsThere(pattern: string, rest: string)
    ensures Find(pattern + rest, pattern, 0) == Some(0)
  {
    assert (pattern + rest)[0..|pattern|] == pattern;
    FindIs(pattern + rest, pattern, 0, 0);
  }

  lemma LateBlank(mark: string, body: string, rest: string)
    requires '\r' !in body && |body| > MAX_HEADERS
    ensures var found := Find(mark + (Crlf() + (Crlf() + (body + rest))), Blank(), |mark| + 2);
            found.Some? ==> found.value - (|mark| + 2) > MAX_HEADERS
  {
    hide Find;
    var front, whole := mark + Crlf(), Crlf() + (body + rest);
    assert mark + (Crlf() + whole) == front + whole && |front| == |mark| + 2;
    FindBehind(front, whole, Blank(), 0);
    var found := Find(whole, Blank(), 0);
    assert forall j :: 2 <= j < 2 + |body| ==> whole[j] == body[j - 2];
    if found.Some? && found.value <= MAX_HEADERS {
      var k := found.value;
      OccursChar(whole, Blank(), k, 0);
      OccursChar(whole, Blank(), k, 2);
    }
  }

  /** "see <mark> here": the call fails whatever the parts; two hyphens behind the mark only change the error. */
  lemma SeeHereIsRefused(mediaType: string, boundary: string, before: string, behind: string, parts: seq<Part>,
                         epilogue: string, wanted: string, limits: Limits)
    requires GoodCall(mediaType, boundary, wanted)
    requires var preamble := before + "--" + boundary + behind;
             ValidPreamble("--" + boundary, preamble) && Find(preamble, "--" + boundary, 0) == Some(|before|)
             && !StartsWith(behind, Crlf())
             && |Message("--" + boundary, preamble, parts, epilogue)| <= limits.maxImageBytes
    ensures Decode(mediaType, Message("--" + boundary, before + "--" + boundary + behind, parts, epilogue), wanted, limits)
            == if StartsWith(behind, "--") then Err("missing_wsd_mtom_image") else Err("invalid_wsd_mtom_body")
  {
    hide Find, StartsWith, Boundary, Safe, Scan, ValidMark, ValidPreamble, OccursAt, Encoded;
    var mark, preamble := "--" + boundary, before + "--" + boundary + behind;
    var code := Encoded(mark, parts, epilogue);
    MarkIsValid(boundary);
    assert preamble == before + mark + behind;
    OccursWhereStarts(before + mark, behind, Crlf());
    OccursWhereStarts(before + mark, behind, "--");
    MentionedMarkIsRefused(mark, preamble, code, wanted, limits);
    DecodeScans(mediaType, boundary, preamble + code, wanted, limits, |before|);
  }

  lemma OccursWhereStarts(front: string, rest: string, pattern: string)
    ensures OccursAt(front + rest, pattern, |front|) <==> StartsWith(rest, pattern)
  {
    OccursBehind(front, rest, pattern, 0);
  }

  // ----------------------------------------------------------- a part without a body

  /** A message whose first part ends with its header lines, so that the empty line in front of the next delimiter is the only
      one: section 5.1.1 lets a part have header fields and no body. */
  function Bodyless(mark: string, preamble: string, lines: seq<string>, parts: seq<Part>, epilogue: string): string
    requires lines != []
  {
    preamble + (mark + (Crlf() + (Lines(lines) + (Crlf() + (Delimiter(mark) + AfterMark(mark, parts, epilogue))))))
  }

  /** The part that such a message is taken to start with. */
  function Misread(mark: string, lines: seq<string>, parts: seq<Part>): seq<Part>
    requires parts != []
  {
    [Part(lines, Written(mark, parts[0]))] + parts[1..]
  }

  /** A part without a body is taken to have the next part, mark and headers and all, as its body, and the next part itself is
      not found. */
  lemma BodylessPartIsMisread(mediaType: string, boundary: string, preamble: string, lines: seq<string>, parts: seq<Part>,
                              epilogue: string, wanted: string, limits: Limits)
    requires GoodCall(mediaType, boundary, wanted) && CleanPreamble("--" + boundary, preamble)
    requires lines != [] && (forall l :: l in lines ==> ValidLine(l)) && parts != [] && Whole("--" + boundary, parts[0])
    requires ValidParts("--" + boundary, parts[1..]) && HeadedUpTo(Misread("--" + boundary, lines, parts), wanted)
    requires |Bodyless("--" + boundary, preamble, lines, parts, epilogue)| <= limits.maxImageBytes
    ensures Decode(mediaType, Bodyless("--" + boundary, preamble, lines, parts, epilogue), wanted, limits)
            == Extracted(Misread("--" + boundary, lines, parts), wanted)
  {
    hide Decode, Extracted, HeadedUpTo, ValidLine, Boundary, Safe, StartsWith, CleanPreamble, Find, Written, AfterMark;
    var mark := "--" + boundary;
    BodylessText(mark, preamble, lines, parts, epilogue);
    DecodingInvertsEncoding(mediaType, boundary, preamble, Misread(mark, lines, parts), epilogue, wanted, limits);
  }

  lemma BodylessText(mark: string, preamble: string, lines: seq<string>, parts: seq<Part>, epilogue: string)
    requires lines != [] && parts != []
    ensures Bodyless(mark, preamble, lines, parts, epilogue) == Message(mark, preamble, Misread(mark, lines, parts), epilogue)
  {
    hide Lines, AfterMark, Written, Encoded, Crlf, Blank, Delimiter;
    var misread, text, tail := Misread(mark, lines, parts), Written(mark, parts[0]), Encoded(mark, parts[1..], epilogue);
    EncodedIsWritten(mark, parts, epilogue);
    EncodedStartsWithMark(mark, parts, epilogue);
    BlankSplits(mark, AfterMark(mark, parts, epilogue));
    assert misread[1..] == parts[1..];
    EncodedHeaded(mark, misread, epilogue);
    assert text + (Crlf() + tail) == text + Crlf() + tail;
  }

  lemma EncodedHeaded(mark: string, parts: seq<Part>, epilogue: string)
    requires parts != [] && parts[0].lines != []
    ensures Encoded(mark, parts, epilogue)
            == mark + (Crlf() + (Lines(parts[0].lines)
                                 + (Blank() + (parts[0].body + (Crlf() + Encoded(mark, parts[1..], epilogue))))))
  {
  }

  lemma BlankSplits(mark: string, rest: string)
    ensures Crlf() + (Delimiter(mark) + rest) == Blank() + (mark + rest)
  {
  }

  /** In the last part a missing body makes the call fail, where the search gets to it. */
  lemma BodylessLastPartIsRefused(mediaType: string, boundary: string, preamble: string, lines: seq<string>, epilogue: string,
                                  wanted: string, limits: Limits)
    requires GoodCall(mediaType, boundary, wanted) && CleanPreamble("--" + boundary, preamble)
    requires lines != [] && (forall l :: l in lines ==> ValidLine(l)) && |Lines(lines)| <= MAX_HEADERS
    requires Find("--" + boundary + ("--" + epilogue), Delimiter("--" + boundary), 0) == None
    requires |Bodyless("--" + boundary, preamble, lines, [], epilogue)| <= limits.maxImageBytes
    ensures Decode(mediaType, Bodyless("--" + boundary, preamble, lines, [], epilogue), wanted, limits)
            == Err("invalid_wsd_mtom_body")
  {
    hide Find, OccursAt, Lines, ValidLine, Boundary, Safe, StartsWith, CleanPreamble, Scan, Crlf, Blank, Delimiter;
    var mark := "--" + boundary;
    var close := mark + ("--" + epilogue);
    var raw := Bodyless(mark, preamble, lines, [], epilogue);
    var front := preamble + mark + Crlf() + Lines(lines) + Blank();
    MarkIsValid(boundary);
    MarkIsNotEmpty(mark);
    BlankIsFour();
    LastBodylessText(mark, preamble, lines, epilogue);
    BlankFirst(mark, preamble, lines, close);
    FindBehind(front, close, Delimiter(mark), 0);
    NoNextDelimiter(raw, mark, |preamble|, |preamble| + |mark| + 2 + |Lines(lines)|, wanted, limits);
    DecodeScans(mediaType, boundary, raw, wanted, limits, |preamble|);
  }

  lemma LastBodylessText(mark: string, preamble: string, lines: seq<string>, epilogue: string)
    requires lines != []
    ensures var close := mark + ("--" + epilogue);
            Bodyless(mark, preamble, lines, [], epilogue) == preamble + (mark + (Crlf() + (Lines(lines) + (Blank() + close))))
            && Bodyless(mark, preamble, lines, [], epilogue) == preamble + mark + Crlf() + Lines(lines) + Blank() + close
  {
    var close, block := mark + ("--" + epilogue), Lines(lines);
    hide Lines, Crlf, Blank, Delimiter;
    BlankSplits(mark, "--" + epilogue);
    Regrouped(preamble, mark, Crlf(), block + (Blank() + close));
    Regrouped(preamble + mark + Crlf(), block, Blank(), close);
  }

  /** The searches in such a message: the delimiter line, and the empty line right behind the header lines. */
  lemma BlankFirst(mark: string, preamble: string, lines: seq<string>, rest: string)
    requires ValidMark(mark) && CleanPreamble(mark, preamble) && lines != [] && forall l :: l in lines ==> ValidLine(l)
    ensures var raw := preamble + (mark + (Crlf() + (Lines(lines) + (Blank() + rest))));
            raw != "" && Find(raw, mark, 0) == Some(|preamble|) && Find(raw, mark, |preamble|) == Some(|preamble|)
            && DelimiterLine(raw, mark, |preamble|)
            && Find(raw, Blank(), |preamble| + |mark| + 2) == Some(|preamble| + |mark| + 2 + |Lines(lines)|)
  {
    hide Find, OccursAt, Lines, ValidLine, CleanPreamble, Blank, ValidMark, DelimiterLine;
    var blockOn := Lines(lines) + (Blank() + rest);
    var raw := preamble + (mark + (Crlf() + blockOn));
    MarkIsNotEmpty(mark);
    BlankIsFour();
    PreambleHasNoMark(preamble, mark, mark + (Crlf() + blockOn));
    OccursAfter(preamble, mark, Crlf() + blockOn);
    FindIs(raw, mark, 0, |preamble|);
    FindStartsAt(raw, mark, |preamble|);
    DelimiterLineIsFound(preamble, mark, blockOn);
    BlockEndsAtBlank(lines, rest);
    Regrouped(preamble, mark, Crlf(), blockOn);
    FindBehind(preamble + mark + Crlf(), blockOn, Blank(), 0);
  }

  lemma NoNextDelimiter(raw: string, mark: string, at: nat, end: nat, wanted: string, limits: Limits)
    requires mark != "" && Find(raw, mark, at) == Some(at) && DelimiterLine(raw, mark, at)
    requires Find(raw, Blank(), at + |mark| + 2) == Some(end) && at + |mark| + 2 <= end <= at + |mark| + 2 + MAX_HEADERS
    requires Find(raw, Delimiter(mark), end + 4) == None
    ensures Scan(raw, mark, at, wanted, limits) == Err("invalid_wsd_mtom_body")
  {
    hide Find, OccursAt;
  }

  /** Blanks behind the boundary on the first delimiter line, which section 5.1.1 allows: the call fails whatever follows. */
  lemma PaddedDelimiterIsRefused(mediaType: string, boundary: string, preamble: string, padding: string, rest: string,
                                 wanted: string, limits: Limits)
    requires GoodCall(mediaType, boundary, wanted) && CleanPreamble("--" + boundary, preamble)
    requires padding != "" && IsBlank(padding[0])
    requires |preamble + ("--" + boundary + (padding + rest))| <= limits.maxImageBytes
    ensures Decode(mediaType, preamble + ("--" + boundary + (padding + rest)), wanted, limits) == Err("invalid_wsd_mtom_body")
  {
    hide Find, OccursAt, Boundary, Safe, StartsWith, CleanPreamble, Scan, ValidMark;
    var mark, after := "--" + boundary, |preamble| + |"--" + boundary|;
    var raw := preamble + (mark + (padding + rest));
    MarkIsValid(boundary);
    MarkIsNotEmpty(mark);
    PreambleHasNoMark(preamble, mark, mark + (padding + rest));
    OccursAfter(preamble, mark, padding + rest);
    FindIs(raw, mark, 0, |preamble|);
    FindStartsAt(raw, mark, |preamble|);
    assert raw[after] == padding[0];
    StartsWithOther(raw, Crlf(), after);
    StartsWithOther(raw, "--", after);
    NoDelimiterLine(raw, mark, |preamble|, wanted, limits);
    DecodeScans(mediaType, boundary, raw, wanted, limits, |preamble|);
  }
}
