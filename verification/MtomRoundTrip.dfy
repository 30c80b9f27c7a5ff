/** Extraction inverts multipart encoding: for any parts, the first one with the wanted id comes back byte for byte. */
module MtomRoundTrip {
  import opened Text
  import opened Mtom
  import opened Search
  import opened WsdSafety

  /** A part: its header lines and its bytes. */
  datatype Part = Part(lines: seq<string>, body: string)

  // ----------------------------------------------------------------- encoding

  function Lines(lines: seq<string>): string
    requires lines != []
  {
    if |lines| == 1 then lines[0] else lines[0] + (Crlf() + Lines(lines[1..]))
  }

  function Delimiter(mark: string): string {
    Crlf() + mark
  }

  /** The header lines, each with its line end, and the empty line; without headers the empty line alone. */
  function HeadersThen(lines: seq<string>, rest: string): string {
    if lines == [] then Crlf() + rest else Lines(lines) + (Blank() + rest)
  }

  /** Section 5.1.1: each part after its delimiter line, then the close delimiter and an epilogue. */
  function Encoded(mark: string, parts: seq<Part>, epilogue: string): string {
    if parts == [] then mark + ("--" + epilogue)
    else
      mark + (Crlf() + HeadersThen(parts[0].lines, parts[0].body + (Crlf() + Encoded(mark, parts[1..], epilogue))))
  }

  predicate ValidLine(line: string) {
    line != "" && '\r' !in line
  }

  /** Header lines, if any, that are lines, and no delimiter inside the body. */
  predicate ValidPart(mark: string, p: Part) {
    (forall l :: l in p.lines ==> ValidLine(l)) && Find(p.body, Delimiter(mark), 0) == None
  }

  predicate ValidParts(mark: string, parts: seq<Part>) {
    forall p :: p in parts ==> ValidPart(mark, p)
  }

  /** Text before the first delimiter line: empty or whole lines, without the mark anywhere. */
  predicate CleanPreamble(mark: string, preamble: string) {
    (preamble == "" || preamble[|preamble| - 1] == '\n') && Find(preamble, mark, 0) == None
  }

  predicate ValidMark(mark: string) {
    |mark| >= 2 && mark[..2] == "--" && forall c :: c in mark ==> SafeChar(c)
  }

  // ------------------------------------------------------- what is to be found

  function FirstWith(lines: seq<string>, prefix: string): Option<string> {
    if lines == [] then None
    else if StartsWith(lines[0], prefix) then Some(lines[0][|prefix|..])
    else FirstWith(lines[1..], prefix)
  }

  /** A header of a part: the first line with the name after the first line, else the first line. */
  function PartHeader(p: Part, name: string): string {
    if p.lines == [] then "" else
    var later := FirstWith(p.lines[1..], name + ":");
    var line := if later.Some? then later else FirstWith(p.lines[..1], name + ":");
    if line.Some? then Trimmed(line.value) else ""
  }

  function PartId(p: Part): string {
    WithoutAngles(PartHeader(p, "Content-ID"))
  }

  /** The header block as it stands in the message. */
  function Block(p: Part): string {
    if p.lines == [] then "" else Lines(p.lines)
  }

  /** The first part with the wanted id, unless a part up to it has too long a header block. */
  function Extracted(parts: seq<Part>, wanted: string): Result<Image> {
    if parts == [] then Err("missing_wsd_mtom_image")
    else if |Block(parts[0])| > MAX_HEADERS then Err("invalid_wsd_mtom_headers")
    else if PartId(parts[0]) != wanted then Extracted(parts[1..], wanted)
    else if !Safe(PartHeader(parts[0], "Content-Type"), 256) then Err("invalid_wsd_mtom_image")
    else Ok(Image(PartHeader(parts[0], "Content-Type"), parts[0].body))
  }

  /** Every part that the search for an id has to look at has header lines. */
  predicate HeadedUpTo(parts: seq<Part>, wanted: string) {
    parts != [] ==>
      parts[0].lines != []
      && (|Block(parts[0])| > MAX_HEADERS || PartId(parts[0]) == wanted || HeadedUpTo(parts[1..], wanted))
  }

  lemma NoCrlfIn(line: string)
    requires '\r' !in line
    ensures Find(line, Crlf(), 0) == None
  {
    forall j: nat
      ensures !OccursAt(line, Crlf(), j)
    {
      if OccursAt(line, Crlf(), j) {
        OccursChar(line, Crlf(), j, 0);
      }
    }
    FindNothing(line, Crlf(), 0);
  }

  // ------------------------------------------------------------- header blocks

  lemma LinesStart(lines: seq<string>)
    requires lines != [] && forall l :: l in lines ==> ValidLine(l)
    ensures Lines(lines) != "" && Lines(lines)[0] != '\r' && lines[0] <= Lines(lines)
  {
    assert ValidLine(lines[0]);
  }

  /** The block of header lines ends at the first empty line after it. */
  lemma {:induction false} BlockEndsAtBlank(lines: seq<string>, after: string)
    requires lines != [] && forall l :: l in lines ==> ValidLine(l)
    ensures Find(Lines(lines) + (Blank() + after), Blank(), 0) == Some(|Lines(lines)|)
  {
    var line := lines[0];
    assert ValidLine(line);
    if |lines| == 1 {
      var whole := line + (Blank() + after);
      forall j | 0 <= j < |line|
        ensures !OccursAt(whole, Blank(), j)
      {
        if OccursAt(whole, Blank(), j) {
          OccursChar(whole, Blank(), j, 0);
        }
      }
      OccursAfter(line, Blank(), after);
      FindIs(whole, Blank(), 0, |line|);
    } else {
      var rest := Lines(lines[1..]) + (Blank() + after);
      var front := line + Crlf();
      LinesStart(lines[1..]);
      BlockEndsAtBlank(lines[1..], after);
      assert Lines(lines) + (Blank() + after) == front + rest;
      forall j | 0 <= j < |front|
        ensures !OccursAt(front + rest, Blank(), j)
      {
        if OccursAt(front + rest, Blank(), j) {
          OccursChar(front + rest, Blank(), j, 0);
          OccursChar(front + rest, Blank(), j, 2);
        }
      }
      FindSkips(front, rest, Blank(), 0);
    }
  }

  predicate NameLike(prefix: string) {
    prefix != "" && '\r' !in prefix
  }

  /** A line starts with a name wherever the block starts with it. */
  lemma BlockStartsAsItsLine(lines: seq<string>, prefix: string)
    requires lines != [] && (forall l :: l in lines ==> ValidLine(l)) && NameLike(prefix)
    ensures StartsWith(Lines(lines), prefix) <==> StartsWith(lines[0], prefix)
  {
    LinesStart(lines);
    var block, n := Lines(lines), |lines[0]|;
    assert |block| > n ==> block[n] == '\r';
    assert |prefix| <= n ==> lines[0][..|prefix|] == block[..|prefix|];
  }

  lemma RestOfFirstLine(lines: seq<string>, from: nat)
    requires lines != [] && (forall l :: l in lines ==> ValidLine(l)) && from <= |lines[0]|
    ensures from <= |Lines(lines)| && RestOfLine(Lines(lines), from) == lines[0][from..]
  {
    var line := lines[0];
    assert ValidLine(line);
    LinesStart(lines);
    NoCrlfIn(line[from..]);
    if |lines| == 1 {
      FindBehind(line[..from], line[from..], Crlf(), 0);
      assert line[..from] + line[from..] == line;
    } else {
      var after := Lines(lines[1..]);
      NoStraddling(line[from..], Crlf(), after);
      FindBehind(line[..from], line[from..] + (Crlf() + after), Crlf(), 0);
      assert line[..from] + (line[from..] + (Crlf() + after)) == Lines(lines);
    }
  }

  lemma RestOfLineBehind(a: string, b: string, from: nat)
    requires from <= |b|
    ensures RestOfLine(a + b, |a| + from) == RestOfLine(b, from)
  {
    FindBehind(a, b, Crlf(), from);
    var end := Find(b, Crlf(), from);
    if end.Some? {
      assert (a + b)[|a| + from..|a| + end.value] == b[from..end.value];
    } else {
      assert (a + b)[|a| + from..] == b[from..];
    }
  }

  /** What the search for a name at the start of a line amounts to. */
  function LaterLine(block: string, prefix: string): Option<string> {
    var found := Find(block, Crlf() + prefix, 0);
    if found.Some? then Some(RestOfLine(block, found.value + 2 + |prefix|)) else None
  }

  /** A block of two lines or more: the second line has the name, or the search moves on behind the first. */
  lemma LaterLineStep(line: string, rest: string, prefix: string)
    requires '\r' !in line && NameLike(prefix)
    ensures var found := Find(line + Crlf() + rest, Crlf() + prefix, 0);
            found == if StartsWith(rest, prefix) then Some(|line|)
                     else Shifted(Find(rest, Crlf() + prefix, 0), |line| + 2)
  {
    hide OccursAt, Find;
    var front, needle := line + Crlf(), Crlf() + prefix;
    NeedleAtLineEnd(line, rest, prefix);
    if StartsWith(rest, prefix) {
      FindIs(front + rest, needle, 0, |line|);
    } else {
      FindSkips(front, rest, needle, 0);
    }
  }

  lemma {:induction false} LaterLineIsFirstWith(lines: seq<string>, prefix: string)
    requires lines != [] && (forall l :: l in lines ==> ValidLine(l)) && NameLike(prefix)
    ensures LaterLine(Lines(lines), prefix) == FirstWith(lines[1..], prefix)
  {
    hide OccursAt, RestOfLine, StartsWith;
    var block, line, needle := Lines(lines), lines[0], Crlf() + prefix;
    assert ValidLine(line);
    if |lines| == 1 {
      NoNeedleInLine(line, prefix);
    } else {
      var front, rest := line + Crlf(), Lines(lines[1..]);
      assert block == front + rest;
      LaterLineStep(line, rest, prefix);
      BlockStartsAsItsLine(lines[1..], prefix);
      if StartsWith(rest, prefix) {
        PrefixFits(lines[1], prefix);
        RestOfFirstLine(lines[1..], |prefix|);
        RestOfLineBehind(front, rest, |prefix|);
      } else {
        LaterLineIsFirstWith(lines[1..], prefix);
        var found := Find(rest, needle, 0);
        if found.Some? {
          OccursInRange(rest, needle, found.value);
          RestOfLineBehind(front, rest, found.value + 2 + |prefix|);
        }
      }
    }
  }

  lemma PrefixFits(s: string, prefix: string)
    requires StartsWith(s, prefix)
    ensures |prefix| <= |s|
  {
  }

  lemma NoNeedleInLine(line: string, prefix: string)
    requires ValidLine(line)
    ensures Find(line, Crlf() + prefix, 0) == None
  {
    var needle := Crlf() + prefix;
    forall j: nat
      ensures !OccursAt(line, needle, j)
    {
      if OccursAt(line, needle, j) {
        OccursChar(line, needle, j, 0);
      }
    }
    FindNothing(line, needle, 0);
  }

  /** In a line and what follows it, the needle occurs before the next line only at this line's end. */
  lemma NeedleAtLineEnd(line: string, rest: string, prefix: string)
    requires '\r' !in line
    ensures var whole := line + Crlf() + rest;
            (forall j :: 0 <= j < |line| ==> !OccursAt(whole, Crlf() + prefix, j))
            && (OccursAt(whole, Crlf() + prefix, |line|) <==> StartsWith(rest, prefix))
            && !OccursAt(whole, Crlf() + prefix, |line| + 1)
  {
    var whole, needle := line + Crlf() + rest, Crlf() + prefix;
    forall j | 0 <= j <= |line| + 1 && j != |line|
      ensures !OccursAt(whole, needle, j)
    {
      if OccursAt(whole, needle, j) {
        OccursChar(whole, needle, j, 0);
      }
    }
    OccursInSuffix(whole, needle, |line|);
    assert whole[|line|..] == Crlf() + rest;
    if StartsWith(rest, prefix) {
      assert (Crlf() + rest)[..|needle|] == Crlf() + rest[..|prefix|];
    }
    if StartsWith(Crlf() + rest, needle) {
      assert rest[..|prefix|] == (Crlf() + rest)[..|needle|][2..];
    }
  }

  lemma FirstOfOne(line: string, prefix: string)
    ensures FirstWith([line], prefix) == if StartsWith(line, prefix) then Some(line[|prefix|..]) else None
  {
    assert FirstWith([], prefix) == None;
  }

  /** The search in the joined header lines reads each header of the part. */
  lemma HeaderOfBlock(p: Part, name: string)
    requires p.lines != [] && (forall l :: l in p.lines ==> ValidLine(l)) && '\r' !in name
    ensures Header(Lines(p.lines), name) == PartHeader(p, name)
  {
    hide Find, OccursAt, StartsWith, RestOfLine, Trimmed, Lines, ValidLine;
    var prefix := name + ":";
    LaterLineIsFirstWith(p.lines, prefix);
    BlockStartsAsItsLine(p.lines, prefix);
    assert p.lines[..1] == [p.lines[0]];
    FirstOfOne(p.lines[0], prefix);
    if StartsWith(p.lines[0], prefix) {
      PrefixFits(p.lines[0], prefix);
      RestOfFirstLine(p.lines, |prefix|);
    }
  }

  // ------------------------------------------------------------------ the scan

  function Seven(mark: string, lineEnd: string, block: string, blank: string, body: string, delimiter: string,
                 rest: string): string
  {
    mark + (lineEnd + (block + (blank + (body + (delimiter + rest)))))
  }

  /** From the start of a delimiter on: delimiter line, header block, blank line, body, next delimiter. */
  function PartText(mark: string, block: string, body: string, rest: string): string {
    Seven(mark, Crlf(), block, Blank(), body, Delimiter(mark), rest)
  }

  lemma NoCrInMark(mark: string)
    requires ValidMark(mark)
    ensures '\r' !in mark && '\n' !in mark
  {
    assert !SafeChar('\r') && !SafeChar('\n');
  }

  predicate MarkAbsent(raw: string, mark: string, from: nat, to: nat) {
    forall j :: from <= j < to ==> !OccursAt(raw, mark, j)
  }

  lemma DelimiterLineIsFound(front: string, mark: string, blockOn: string)
    ensures DelimiterLine(front + (mark + (Crlf() + blockOn)), mark, |front|)
  {
    var raw, lineEnd := front + (mark + (Crlf() + blockOn)), Crlf() + blockOn;
    OccursAfter(front, mark, lineEnd);
    assert raw == front + mark + lineEnd;
    OccursAfter(front + mark, Crlf(), blockOn);
    assert raw[|front + mark|] == '\r';
    if OccursAt(raw, "--", |front| + |mark|) {
      OccursChar(raw, "--", |front| + |mark|, 0);
    }
  }

  lemma FoundBehind(front: string, piece: string, pattern: string, rest: string)
    requires Find(piece + (pattern + rest), pattern, 0) == Some(|piece|)
    ensures var raw := front + (piece + (pattern + rest));
            Find(raw, pattern, |front|) == Some(|front| + |piece|) && raw[|front|..|front| + |piece|] == piece
  {
    hide Find, OccursAt;
    FindBehind(front, piece + (pattern + rest), pattern, 0);
  }

  predicate DelimiterLine(raw: string, mark: string, at: nat) {
    OccursAt(raw, mark, at) && !OccursAt(raw, "--", at + |mark|) && OccursAt(raw, Crlf(), at + |mark|)
  }

  /** The search from `at` finds the pattern right behind the piece that starts there. */
  predicate Lands(raw: string, pattern: string, at: nat, piece: string) {
    Find(raw, pattern, at) == Some(at + |piece|) && at + |piece| <= |raw| && raw[at..at + |piece|] == piece
  }

  /** Where the searches of one turn of the loop land. */
  predicate TurnLands(raw: string, mark: string, at: nat, block: string, body: string) {
    DelimiterLine(raw, mark, at) && Lands(raw, Blank(), at + |mark| + 2, block)
    && Lands(raw, Delimiter(mark), at + |mark| + 2 + |block| + 4, body)
  }

  lemma Regrouped(a: string, b: string, c: string, d: string)
    ensures a + (b + (c + d)) == a + b + c + d
  {
  }

  lemma DelimiterStartsOnce(mark: string)
    requires ValidMark(mark)
    ensures Delimiter(mark) == Crlf() + mark && |Crlf()| == 2 && |Blank()| == 4
    ensures Delimiter(mark) != "" && Delimiter(mark)[0] !in Delimiter(mark)[1..]
  {
    NoCrInMark(mark);
    assert Delimiter(mark)[1..] == "\n" + mark;
  }

  lemma LandsBehind(raw: string, front: string, piece: string, pattern: string, rest: string)
    requires raw == front + (piece + (pattern + rest)) && Find(piece + (pattern + rest), pattern, 0) == Some(|piece|)
    ensures Lands(raw, pattern, |front|, piece)
  {
    hide Find;
    FoundBehind(front, piece, pattern, rest);
  }

  /** Both searches of a turn, for any line end, blank line and delimiter that are found where they should be. */
  lemma SearchesLand(front: string, mark: string, lineEnd: string, block: string, blank: string, body: string,
                     delimiter: string, rest: string)
    requires Find(block + (blank + (body + (delimiter + rest))), blank, 0) == Some(|block|)
    requires Find(body + (delimiter + rest), delimiter, 0) == Some(|body|)
    ensures var raw, at := front + Seven(mark, lineEnd, block, blank, body, delimiter, rest), |front| + |mark| + |lineEnd|;
            Lands(raw, blank, at, block) && Lands(raw, delimiter, at + |block| + |blank|, body)
  {
    hide Find, OccursAt, Lands;
    var bodyOn := body + (delimiter + rest);
    var three := front + mark + lineEnd;
    Regrouped(front, mark, lineEnd, block + (blank + bodyOn));
    LandsBehind(three + (block + (blank + bodyOn)), three, block, blank, bodyOn);
    Regrouped(three, block, blank, bodyOn);
    LandsBehind(three + block + blank + bodyOn, three + block + blank, body, delimiter, rest);
  }

  lemma DelimiterLineOfPart(front: string, mark: string, lineEnd: string, block: string, blank: string, body: string,
                            delimiter: string, rest: string)
    requires lineEnd == Crlf()
    ensures DelimiterLine(front + Seven(mark, lineEnd, block, blank, body, delimiter, rest), mark, |front|)
  {
    hide DelimiterLine;
    DelimiterLineIsFound(front, mark, block + (blank + (body + (delimiter + rest))));
  }

  lemma PartIsFound(front: string, mark: string, block: string, body: string, rest: string)
    requires ValidMark(mark) && Find(body, Delimiter(mark), 0) == None
    requires Find(block + (Blank() + (body + (Delimiter(mark) + rest))), Blank(), 0) == Some(|block|)
    ensures TurnLands(front + PartText(mark, block, body, rest), mark, |front|, block, body)
  {
    hide DelimiterLine, Lands, Find, OccursAt, ValidMark, Crlf, Blank, Delimiter, Seven;
    DelimiterStartsOnce(mark);
    DelimiterLineOfPart(front, mark, Crlf(), block, Blank(), body, Delimiter(mark), rest);
    NoStraddling(body, Delimiter(mark), rest);
    SearchesLand(front, mark, Crlf(), block, Blank(), body, Delimiter(mark), rest);
  }

  lemma ScanTurn(raw: string, mark: string, at: nat, block: string, body: string, pos: nat, wanted: string, limits: Limits)
    requires mark != "" && TurnLands(raw, mark, at, block, body) && Find(raw, mark, pos) == Some(at)
    ensures Scan(raw, mark, pos, wanted, limits)
            == if |block| > MAX_HEADERS then Err("invalid_wsd_mtom_headers")
               else if ContentId(block) == wanted then ImageOf(block, body, limits)
               else Scan(raw, mark, at + |mark| + 2 + |block| + 4 + |body|, wanted, limits)
  {
    hide Find, ContentId, ImageOf, OccursAt;
  }

  lemma ScanOnePart(front: string, mark: string, block: string, body: string, rest: string, pos: nat, wanted: string,
                    limits: Limits)
    requires ValidMark(mark) && Find(body, Delimiter(mark), 0) == None
    requires Find(block + (Blank() + (body + (Delimiter(mark) + rest))), Blank(), 0) == Some(|block|)
    requires pos <= |front| && MarkAbsent(front + PartText(mark, block, body, rest), mark, pos, |front|)
    ensures Scan(front + PartText(mark, block, body, rest), mark, pos, wanted, limits)
            == if |block| > MAX_HEADERS then Err("invalid_wsd_mtom_headers")
               else if ContentId(block) == wanted then ImageOf(block, body, limits)
               else Scan(front + PartText(mark, block, body, rest), mark, |front| + |mark| + 2 + |block| + 4 + |body|,
                         wanted, limits)
  {
    hide Find, PartText, ContentId, ImageOf, OccursAt, Scan;
    var raw := front + PartText(mark, block, body, rest);
    PartIsFound(front, mark, block, body, rest);
    FindIs(raw, mark, pos, |front|);
    ScanTurn(raw, mark, |front|, block, body, pos, wanted, limits);
  }

  function AfterMark(mark: string, parts: seq<Part>, epilogue: string): string {
    if parts == [] then "--" + epilogue
    else Crlf() + HeadersThen(parts[0].lines, parts[0].body + (Crlf() + Encoded(mark, parts[1..], epilogue)))
  }

  lemma EncodedStartsWithMark(mark: string, parts: seq<Part>, epilogue: string)
    ensures Encoded(mark, parts, epilogue) == mark + AfterMark(mark, parts, epilogue)
  {
  }

  /** No delimiter is found between the end of one part and the start of the next. */
  lemma NoMarkInCrlf(raw: string, mark: string, at: nat)
    requires ValidMark(mark) && OccursAt(raw, Crlf(), at)
    ensures MarkAbsent(raw, mark, at, at + 2)
  {
    OccursChar(raw, Crlf(), at, 0);
    OccursChar(raw, Crlf(), at, 1);
    assert mark[..2][0] == '-';
    forall j | at <= j < at + 2
      ensures !OccursAt(raw, mark, j)
    {
      StartsWithOther(raw, mark, j);
    }
  }

  /** The front of the next turn: everything up to and with the line end before the next delimiter. */
  function UpToNext(front: string, mark: string, p: Part): string
    requires p.lines != []
  {
    front + mark + Crlf() + Lines(p.lines) + Blank() + p.body + Crlf()
  }

  lemma NextFront(front: string, mark: string, parts: seq<Part>, epilogue: string)
    requires parts != [] && parts[0].lines != []
    ensures var next, tail := UpToNext(front, mark, parts[0]), Encoded(mark, parts[1..], epilogue);
            front + Encoded(mark, parts, epilogue) == next + tail
            && |next| == |front| + |mark| + 2 + |Lines(parts[0].lines)| + 4 + |parts[0].body| + 2
            && OccursAt(next + tail, Crlf(), |next| - 2)
  {
    var p, tail := parts[0], Encoded(mark, parts[1..], epilogue);
    var block := Lines(p.lines);
    var three := front + mark + Crlf();
    var five := three + block + Blank();
    assert |Crlf()| == 2 && |Blank()| == 4;
    hide Crlf, Blank, Lines;
    Regrouped(front, mark, Crlf(), block + (Blank() + (p.body + (Crlf() + tail))));
    Regrouped(three, block, Blank(), p.body + (Crlf() + tail));
    Regrouped(five, p.body, Crlf(), tail);
    OccursAfter(five + p.body, Crlf(), tail);
    assert five + p.body + (Crlf() + tail) == five + p.body + Crlf() + tail;
  }

  lemma EncodedIsPartText(mark: string, parts: seq<Part>, epilogue: string)
    requires parts != [] && parts[0].lines != []
    ensures Encoded(mark, parts, epilogue)
            == PartText(mark, Lines(parts[0].lines), parts[0].body, AfterMark(mark, parts[1..], epilogue))
  {
    var tail, rest := parts[1..], AfterMark(mark, parts[1..], epilogue);
    EncodedStartsWithMark(mark, tail, epilogue);
    hide AfterMark, Lines;
    assert Crlf() + (mark + rest) == Delimiter(mark) + rest;
  }

  /** One turn of the loop, on encoded parts of which the first has header lines. */
  lemma ScanFirstPart(front: string, mark: string, parts: seq<Part>, epilogue: string, pos: nat, wanted: string,
                      limits: Limits)
    requires ValidMark(mark) && parts != [] && ValidPart(mark, parts[0]) && parts[0].lines != [] && pos <= |front|
    requires MarkAbsent(front + Encoded(mark, parts, epilogue), mark, pos, |front|)
    ensures var p := parts[0];
            Scan(front + Encoded(mark, parts, epilogue), mark, pos, wanted, limits)
            == if |Lines(p.lines)| > MAX_HEADERS then Err("invalid_wsd_mtom_headers")
               else if ContentId(Lines(p.lines)) == wanted then ImageOf(Lines(p.lines), p.body, limits)
               else Scan(front + Encoded(mark, parts, epilogue), mark, |UpToNext(front, mark, p)| - 2, wanted, limits)
  {
    hide ValidMark, MarkAbsent, Find, OccursAt, Scan, PartText, ValidLine, Lines, Encoded, AfterMark, ContentId, ImageOf, UpToNext;
    NextFront(front, mark, parts, epilogue);
    var p, rest := parts[0], AfterMark(mark, parts[1..], epilogue);
    EncodedIsPartText(mark, parts, epilogue);
    BlockEndsAtBlank(p.lines, p.body + (Delimiter(mark) + rest));
    ScanOnePart(front, mark, Lines(p.lines), p.body, rest, pos, wanted, limits);
  }

  /** What the loop does with the part it stops at is what is to be extracted. */
  lemma StopsAtFirstPart(mark: string, parts: seq<Part>, wanted: string, limits: Limits)
    requires parts != [] && ValidPart(mark, parts[0]) && parts[0].lines != [] && |parts[0].body| <= limits.maxImageBytes
    ensures var p := parts[0];
            ContentId(Lines(p.lines)) == PartId(p)
            && Extracted(parts, wanted)
               == if |Lines(p.lines)| > MAX_HEADERS then Err("invalid_wsd_mtom_headers")
                  else if ContentId(Lines(p.lines)) == wanted then ImageOf(Lines(p.lines), p.body, limits)
                  else Extracted(parts[1..], wanted)
  {
    hide Header, PartHeader, Find, ValidLine, Lines, Safe;
    HeaderOfBlock(parts[0], "Content-ID");
    HeaderOfBlock(parts[0], "Content-Type");
  }

  /** The search on encoded parts, as long as it looks at parts with header lines only. */
  lemma {:induction false} ScanEncoded(front: string, mark: string, parts: seq<Part>, epilogue: string, pos: nat,
                                       wanted: string, limits: Limits)
    requires ValidMark(mark) && ValidParts(mark, parts) && HeadedUpTo(parts, wanted) && pos <= |front|
    requires |front| + |Encoded(mark, parts, epilogue)| <= limits.maxImageBytes
    requires MarkAbsent(front + Encoded(mark, parts, epilogue), mark, pos, |front|)
    ensures Scan(front + Encoded(mark, parts, epilogue), mark, pos, wanted, limits) == Extracted(parts, wanted)
    decreases |parts|
  {
    hide ValidMark, MarkAbsent, Find, Scan, Safe, UpToNext, OccursAt, ValidPart, ContentId, ImageOf, Lines, Extracted, PartId,
         HeadersThen;
    if parts == [] {
      CloseDelimiterStops(front, mark, epilogue, pos, wanted, limits);
      NothingExtracted(wanted);
    } else {
      var p, tail := parts[0], parts[1..];
      NextFront(front, mark, parts, epilogue);
      StopsAtFirstPart(mark, parts, wanted, limits);
      ScanFirstPart(front, mark, parts, epilogue, pos, wanted, limits);
      if |Lines(p.lines)| <= MAX_HEADERS && ContentId(Lines(p.lines)) != wanted {
        var next := UpToNext(front, mark, p);
        NoMarkInCrlf(next + Encoded(mark, tail, epilogue), mark, |next| - 2);
        ScanEncoded(next, mark, tail, epilogue, |next| - 2, wanted, limits);
      }
    }
  }

  lemma NothingExtracted(wanted: string)
    ensures Extracted([], wanted) == Err("missing_wsd_mtom_image")
  {
  }

  lemma CloseDelimiterStops(front: string, mark: string, epilogue: string, pos: nat, wanted: string, limits: Limits)
    requires ValidMark(mark) && pos <= |front|
    requires MarkAbsent(front + (mark + ("--" + epilogue)), mark, pos, |front|)
    ensures Scan(front + (mark + ("--" + epilogue)), mark, pos, wanted, limits) == Err("missing_wsd_mtom_image")
  {
    var raw := front + (mark + ("--" + epilogue));
    OccursAfter(front, mark, "--" + epilogue);
    OccursAfter(front + mark, "--", epilogue);
    assert raw == (front + mark) + ("--" + epilogue);
    FindIs(raw, mark, pos, |front|);
  }

  // ------------------------------------------------------------- whole messages

  lemma PreambleHasNoMark(preamble: string, mark: string, after: string)
    requires ValidMark(mark) && CleanPreamble(mark, preamble)
    ensures MarkAbsent(preamble + after, mark, 0, |preamble|)
  {
    var raw := preamble + after;
    NoCrInMark(mark);
    forall j | 0 <= j < |preamble|
      ensures !OccursAt(raw, mark, j)
    {
      if j + |mark| <= |preamble| {
        OccursInFront(preamble, after, mark, j);
      } else if OccursAt(raw, mark, j) {
        OccursChar(raw, mark, j, |preamble| - 1 - j);
      }
    }
  }

  lemma MarkIsValid(boundary: string)
    requires Safe(boundary, 200)
    ensures ValidMark("--" + boundary)
  {
    var mark := "--" + boundary;
    forall c | c in mark ensures SafeChar(c) {
      assert c == '-' || c in boundary;
    }
  }

  /** For any list of parts, clean preamble and epilogue, decoding the message gives what is to be extracted, as long as
      the parts that have to be looked at have header lines. */
  lemma DecodingInvertsEncoding(mediaType: string, boundary: string, preamble: string, parts: seq<Part>, epilogue: string,
                                wanted: string, limits: Limits)
    requires StartsWith(mediaType, "multipart/related") && Boundary(mediaType) == Some(boundary)
    requires Safe(boundary, 200) && Safe(wanted, 512)
    requires CleanPreamble("--" + boundary, preamble) && ValidParts("--" + boundary, parts) && HeadedUpTo(parts, wanted)
    requires |preamble + Encoded("--" + boundary, parts, epilogue)| <= limits.maxImageBytes
    ensures Decode(mediaType, preamble + Encoded("--" + boundary, parts, epilogue), wanted, limits)
            == Extracted(parts, wanted)
  {
    hide Boundary, Safe, Scan, Encoded, ValidParts, CleanPreamble, ValidMark, StartsWith, MarkAbsent, OccursAt, Find;
    var mark := "--" + boundary;
    MarkIsValid(boundary);
    var code := Encoded(mark, parts, epilogue);
    MarkStartsMessage(preamble, mark, parts, epilogue);
    PreambleHasNoMark(preamble, mark, code);
    NoMarkInNothing(preamble + code, mark, |preamble|);
    ScanEncoded(preamble, mark, parts, epilogue, |preamble|, wanted, limits);
  }

  lemma NoMarkInNothing(raw: string, mark: string, at: nat)
    ensures MarkAbsent(raw, mark, at, at)
  {
  }

  lemma MarkStartsMessage(preamble: string, mark: string, parts: seq<Part>, epilogue: string)
    requires ValidMark(mark) && CleanPreamble(mark, preamble)
    ensures var raw := preamble + Encoded(mark, parts, epilogue);
            raw != "" && Find(raw, mark, 0) == Some(|preamble|)
  {
    var code := Encoded(mark, parts, epilogue);
    PreambleHasNoMark(preamble, mark, code);
    EncodedStartsWithMark(mark, parts, epilogue);
    OccursAfter(preamble, mark, AfterMark(mark, parts, epilogue));
    FindIs(preamble + code, mark, 0, |preamble|);
  }

  /** The part at index k is the first with the wanted id, no header block up to it is too long, and it holds the image. */
  predicate HoldsImage(parts: seq<Part>, k: int, wanted: string, image: Image) {
    0 <= k < |parts| && PartId(parts[k]) == wanted && (forall i :: 0 <= i < k ==> PartId(parts[i]) != wanted)
    && (forall i :: 0 <= i <= k ==> |Block(parts[i])| <= MAX_HEADERS)
    && image == Image(PartHeader(parts[k], "Content-Type"), parts[k].body) && Safe(image.contentType, 256)
  }

  /** Extraction gives an image exactly where the first part with the id holds it. */
  lemma {:induction false} ExtractedIff(parts: seq<Part>, wanted: string, image: Image)
    ensures Extracted(parts, wanted) == Ok(image) <==> exists k :: HoldsImage(parts, k, wanted, image)
  {
    hide PartHeader, Safe, Block, PartId;
    if parts != [] && |Block(parts[0])| <= MAX_HEADERS && PartId(parts[0]) != wanted {
      var tail := parts[1..];
      ExtractedIff(tail, wanted, image);
      if k :| HoldsImage(parts, k, wanted, image) {
        HoldsImageStep(parts, k - 1, wanted, image);
      }
      if k :| HoldsImage(tail, k, wanted, image) {
        HoldsImageStep(parts, k, wanted, image);
      }
    } else if parts != [] && Extracted(parts, wanted) == Ok(image) {
      assert HoldsImage(parts, 0, wanted, image);
    }
  }

  lemma HoldsImageStep(parts: seq<Part>, k: int, wanted: string, image: Image)
    requires parts != []
    requires |Block(parts[0])| <= MAX_HEADERS && PartId(parts[0]) != wanted
    ensures HoldsImage(parts, k + 1, wanted, image) <==> HoldsImage(parts[1..], k, wanted, image)
  {
    hide PartHeader, Block, PartId, Safe;
    var tail := parts[1..];
    if HoldsImage(tail, k, wanted, image) {
      forall i | 0 <= i < k + 1 ensures PartId(parts[i]) != wanted {
        assert i > 0 ==> tail[i - 1] == parts[i];
      }
      forall i | 0 <= i <= k + 1 ensures |Block(parts[i])| <= MAX_HEADERS {
        assert i > 0 ==> tail[i - 1] == parts[i];
      }
    }
    if HoldsImage(parts, k + 1, wanted, image) {
      assert k != -1;
      forall i | 0 <= i < k ensures PartId(tail[i]) != wanted {
        assert tail[i] == parts[i + 1];
      }
      forall i | 0 <= i <= k ensures |Block(tail[i])| <= MAX_HEADERS {
        assert tail[i] == parts[i + 1];
      }
    }
  }

  // -------------------------------------------------------------- any message

  /** Bytes that stand in the text between an empty line and the next delimiter. */
  predicate StandsAt(raw: string, mark: string, bytes: string, i: nat) {
    i >= 4 && i + |bytes| <= |raw| && raw[i..i + |bytes|] == bytes
    && OccursAt(raw, Blank(), i - 4) && Find(raw, Crlf() + mark, i) == Some(i + |bytes|)
  }

  /** Whatever the text, an image that is returned is a safe type and the exact bytes between two delimiters. */
  lemma {:induction false} ScannedBytesStandInText(raw: string, mark: string, pos: nat, wanted: string, limits: Limits)
    requires mark != "" && Scan(raw, mark, pos, wanted, limits).Ok?
    ensures var image := Scan(raw, mark, pos, wanted, limits).value;
            Safe(image.contentType, 256) && |image.bytes| <= limits.maxImageBytes
            && exists i :: StandsAt(raw, mark, image.bytes, i)
    decreases |raw| - pos
  {
    hide Safe, Find, ContentId, OccursAt, Header;
    var at := Find(raw, mark, pos).value;
    OccursInRange(raw, mark, at);
    var end := Find(raw, Blank(), at + |mark| + 2).value;
    var next := Find(raw, Crlf() + mark, end + 4).value;
    OccursInRange(raw, Blank(), end);
    OccursInRange(raw, Crlf() + mark, next);
    var headers := raw[at + |mark| + 2..end];
    if ContentId(headers) == wanted {
      assert StandsAt(raw, mark, raw[end + 4..next], end + 4);
    } else {
      ScannedBytesStandInText(raw, mark, next, wanted, limits);
    }
  }

  // ----------------------------------------------- parameters and headers as written

  /** A boundary parameter is read as it was written: quoted, */
  lemma QuotedBoundaryIsRead(mediaType: string, key: nat, boundary: string, rest: string)
    requires Find(mediaType, "boundary=", 0) == Some(key) && key + 9 <= |mediaType|
    requires '"' !in boundary && mediaType[key + 9..] == "\"" + (boundary + ("\"" + rest))
    ensures Boundary(mediaType) == Some(boundary)
  {
    hide Find, OccursAt;
    NoCharIn(boundary, '"');
    NoStraddling(boundary, "\"", rest);
    FindBehind("\"", boundary + ("\"" + rest), "\"", 0);
    assert ("\"" + (boundary + ("\"" + rest)))[1..1 + |boundary|] == boundary;
  }

  /** or plain, with or without a parameter after it. */
  lemma PlainBoundaryIsRead(mediaType: string, key: nat, boundary: string, rest: string)
    requires Find(mediaType, "boundary=", 0) == Some(key) && key + 9 <= |mediaType|
    requires ';' !in boundary && boundary != "" && boundary[0] != '"'
    requires mediaType[key + 9..] == boundary || mediaType[key + 9..] == boundary + (";" + rest)
    ensures Boundary(mediaType) == Some(boundary)
  {
    hide Find, OccursAt;
    NoCharIn(boundary, ';');
    NoStraddling(boundary, ";", rest);
  }

  lemma {:induction false} TrimStartSkips(blanks: string, s: string)
    requires (forall c :: c in blanks ==> IsBlank(c)) && s != "" && !IsBlank(s[0])
    ensures TrimStart(blanks + s) == s
  {
    if blanks == "" {
      assert blanks + s == s;
    } else {
      assert (blanks + s)[1..] == blanks[1..] + s;
      TrimStartSkips(blanks[1..], s);
    }
  }

  lemma {:induction false} TrimEndDrops(s: string, blanks: string)
    requires (forall c :: c in blanks ==> IsBlank(c)) && s != "" && !IsBlank(s[|s| - 1])
    ensures TrimEnd(s + blanks) == s
    decreases |blanks|
  {
    if blanks == "" {
      assert s + blanks == s;
    } else {
      var n := |blanks| - 1;
      assert (s + blanks)[..|s| + n] == s + blanks[..n];
      TrimEndDrops(s, blanks[..n]);
    }
  }

  /** A header of a part, in any position and with any blanks around its value, is read back if its name comes once. */
  lemma HeaderIsRead(p: Part, k: nat, name: string, before: string, value: string, after: string)
    requires k < |p.lines| && p.lines[k] == name + ":" + (before + (value + after))
    requires forall i :: 0 <= i < |p.lines| && i != k ==> !StartsWith(p.lines[i], name + ":")
    requires forall c :: c in before + after ==> IsBlank(c)
    requires value != "" && !IsBlank(value[0]) && !IsBlank(value[|value| - 1])
    ensures PartHeader(p, name) == value
  {
    hide StartsWith;
    var prefix, line := name + ":", p.lines[k];
    PrefixAndRest(prefix, before + (value + after));
    assert forall c :: c in before ==> c in before + after;
    assert forall c :: c in after ==> c in before + after;
    assert (value + after)[0] == value[0];
    TrimStartSkips(before, value + after);
    TrimEndDrops(value, after);
    if k == 0 {
      FirstWithNone(p.lines[1..], prefix);
      FirstOfOne(line, prefix);
      assert p.lines[..1] == [line];
    } else {
      FirstWithAt(p.lines[1..], k - 1, prefix);
    }
  }

  lemma PrefixAndRest(prefix: string, rest: string)
    ensures StartsWith(prefix + rest, prefix) && (prefix + rest)[|prefix|..] == rest
  {
  }

  lemma FirstWithNone(lines: seq<string>, prefix: string)
    requires forall i :: 0 <= i < |lines| ==> !StartsWith(lines[i], prefix)
    ensures FirstWith(lines, prefix) == None
  {
    hide StartsWith;
  }

  lemma {:induction false} FirstWithAt(lines: seq<string>, k: nat, prefix: string)
    requires k < |lines| && StartsWith(lines[k], prefix)
    requires forall i :: 0 <= i < k ==> !StartsWith(lines[i], prefix)
    ensures FirstWith(lines, prefix) == Some(lines[k][|prefix|..])
  {
    hide StartsWith;
    PrefixFits(lines[k], prefix);
    if k > 0 {
      FirstWithAt(lines[1..], k - 1, prefix);
    }
  }
}
