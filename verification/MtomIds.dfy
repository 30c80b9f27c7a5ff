/** Which part an id finds, in terms of the header lines as they are written. */
module MtomIds {
  import opened Text
  import opened Mtom
  import opened Search
  import opened WsdSafety
  import opened MtomRoundTrip

  /** Spaces and tabs. */
  predicate AllBlank(s: string) {
    forall c :: c in s ==> c == ' ' || c == '\t'
  }

  /** A header line with this name and value, with any spaces and tabs around the value. */
  ghost predicate IsHeader(line: string, name: string, value: string) {
    (value == "" || (value[0] != ' ' && value[0] != '\t' && value[|value| - 1] != ' ' && value[|value| - 1] != '\t'))
    && exists before, after :: AllBlank(before) && AllBlank(after) && line == name + ":" + before + value + after
  }

  /** The one header line of a part with a name. */
  ghost predicate HasHeader(p: Part, name: string, value: string) {
    exists k :: 0 <= k < |p.lines| && IsHeader(p.lines[k], name, value)
                && forall i :: 0 <= i < |p.lines| && i != k ==> !StartsWith(p.lines[i], name + ":")
  }

  /** The id as it is, or in angle brackets. */
  predicate Names(value: string, wanted: string) {
    value == wanted || value == "<" + wanted + ">"
  }

  /** A part none of whose Content-ID lines, if it has any, is for the id. */
  ghost predicate IsNotNamed(p: Part, wanted: string) {
    forall l, value | l in p.lines && IsHeader(l, "Content-ID", value) :: !Names(value, wanted)
  }

  // ------------------------------------------------------------------ trimming

  lemma {:induction false} StartTrimmed(s: string) returns (before: string)
    ensures AllBlank(before) && s == before + TrimStart(s)
  {
    hide AllBlank;
    NothingIsBlank();
    if s != "" && IsBlank(s[0]) {
      var more := StartTrimmed(s[1..]);
      before := [s[0]] + more;
      BlanksJoin([s[0]], more);
      assert s == [s[0]] + s[1..];
      assert [s[0]] + (more + TrimStart(s)) == [s[0]] + more + TrimStart(s);
    } else {
      before := "";
    }
  }

  lemma {:induction false} EndTrimmed(s: string) returns (after: string)
    ensures AllBlank(after) && s == TrimEnd(s) + after
  {
    hide AllBlank;
    NothingIsBlank();
    if s != "" && IsBlank(s[|s| - 1]) {
      var n := |s| - 1;
      var more := EndTrimmed(s[..n]);
      after := more + [s[n]];
      BlanksJoin(more, [s[n]]);
      assert s == s[..n] + [s[n]];
      assert TrimEnd(s) + more + [s[n]] == TrimEnd(s) + (more + [s[n]]);
    } else {
      after := "";
    }
  }

  lemma NothingIsBlank()
    ensures AllBlank("") && forall c :: IsBlank(c) ==> AllBlank([c])
  {
  }

  lemma BlanksJoin(a: string, b: string)
    requires AllBlank(a) && AllBlank(b)
    ensures AllBlank(a + b)
  {
  }

  lemma TrimmedHasNoBlanks(s: string)
    ensures var t := Trimmed(s); t == "" || (!IsBlank(t[0]) && !IsBlank(t[|t| - 1]))
  {
    var u := TrimStart(s);
    if TrimEnd(u) != "" {
      assert TrimEnd(u) <= u;
    }
  }

  /** What is left of a header line behind the colon is its value with blanks around it. */
  lemma TrimmedIsValue(line: string, name: string)
    requires StartsWith(line, name + ":")
    ensures IsHeader(line, name, Trimmed(line[|name| + 1..]))
  {
    hide TrimStart, TrimEnd;
    var rest, prefix := line[|name| + 1..], name + ":";
    var before := StartTrimmed(rest);
    var after := EndTrimmed(TrimStart(rest));
    TrimmedHasNoBlanks(rest);
    assert line == prefix + rest && |prefix| == |name| + 1;
    assert line == prefix + before + Trimmed(rest) + after;
  }

  // ----------------------------------------------------------------------- ids

  lemma AnglesAreDropped(value: string, wanted: string)
    requires wanted != "" && '<' !in wanted && '>' !in wanted
    ensures WithoutAngles(value) == wanted <==> Names(value, wanted)
  {
    var n := |value| - 1;
    assert wanted[0] != '<';
    if n >= 1 && value[0] == '<' && value[n] == '>' {
      assert value == ['<'] + value[1..n] + ['>'];
    }
    if value == "<" + wanted + ">" {
      assert value[1..n] == wanted;
    }
  }

  lemma {:induction false} FirstWithIsALine(lines: seq<string>, prefix: string) returns (l: string)
    requires FirstWith(lines, prefix).Some?
    ensures l in lines && StartsWith(l, prefix) && FirstWith(lines, prefix) == Some(l[|prefix|..])
  {
    hide StartsWith;
    if StartsWith(lines[0], prefix) {
      l := lines[0];
    } else {
      l := FirstWithIsALine(lines[1..], prefix);
    }
  }

  /** The header that the decoder takes is that of some line. */
  lemma HeaderIsALine(p: Part, name: string)
    ensures PartHeader(p, name) == "" || exists l :: l in p.lines && IsHeader(l, name, PartHeader(p, name))
  {
    hide StartsWith, Trimmed, IsHeader;
    if PartHeader(p, name) != "" {
      var later := FirstWith(p.lines[1..], name + ":");
      var lines := if later.Some? then p.lines[1..] else p.lines[..1];
      var l := FirstWithIsALine(lines, name + ":");
      assert l in p.lines;
      TrimmedIsValue(l, name);
    }
  }

  lemma OneHeaderIsRead(p: Part, name: string, value: string)
    requires HasHeader(p, name, value) && value != ""
    ensures PartHeader(p, name) == value
  {
    hide PartHeader, StartsWith;
    var k :| 0 <= k < |p.lines| && IsHeader(p.lines[k], name, value)
             && forall i :: 0 <= i < |p.lines| && i != k ==> !StartsWith(p.lines[i], name + ":");
    var before, after :| AllBlank(before) && AllBlank(after) && p.lines[k] == name + ":" + before + value + after;
    assert p.lines[k] == name + ":" + (before + (value + after));
    HeaderIsRead(p, k, name, before, value, after);
  }

  lemma NotNamedIsPassed(p: Part, wanted: string)
    requires IsNotNamed(p, wanted) && Safe(wanted, 512)
    ensures PartId(p) != wanted
  {
    hide PartHeader, WithoutAngles, IsHeader, Safe;
    SafeHasNoAngles(wanted);
    var value := PartHeader(p, "Content-ID");
    HeaderIsALine(p, "Content-ID");
    AnglesAreDropped(value, wanted);
    if value == "" {
      assert !Names("", wanted) by { assert |"<" + wanted + ">"| > 0; }
    }
  }

  lemma SafeHasNoAngles(s: string)
    requires Safe(s, 512)
    ensures s != "" && '<' !in s && '>' !in s
  {
    assert !SafeChar('<') && !SafeChar('>');
  }

  lemma NamedIsTaken(p: Part, value: string, wanted: string)
    requires HasHeader(p, "Content-ID", value) && Names(value, wanted) && Safe(wanted, 512)
    ensures PartId(p) == wanted
  {
    hide PartHeader, WithoutAngles, Safe, HasHeader;
    SafeHasNoAngles(wanted);
    assert value != "" by { assert |"<" + wanted + ">"| > 0; }
    OneHeaderIsRead(p, "Content-ID", value);
    AnglesAreDropped(value, wanted);
  }

  // ---------------------------------------------------------------- extraction

  /** Parts with header lines, of at most 16384 bytes together. */
  predicate Headed(p: Part) {
    p.lines != [] && |Lines(p.lines)| <= 16384
  }

  lemma {:induction false} ExtractsNamed(parts: seq<Part>, i: nat, value: string, wanted: string, contentType: string)
    requires i < |parts| && Safe(wanted, 512) && Safe(contentType, 256)
    requires forall j :: 0 <= j <= i ==> Headed(parts[j])
    requires forall j :: 0 <= j < i ==> IsNotNamed(parts[j], wanted)
    requires HasHeader(parts[i], "Content-ID", value) && Names(value, wanted)
    requires HasHeader(parts[i], "Content-Type", contentType)
    ensures HeadedUpTo(parts, wanted) && Extracted(parts, wanted) == Ok(Image(contentType, parts[i].body))
    decreases i
  {
    hide PartId, IsNotNamed, HasHeader, PartHeader, Names, Lines, Safe;
    if i == 0 {
      NamedIsTaken(parts[0], value, wanted);
      SafeIsNotEmpty(contentType);
      OneHeaderIsRead(parts[0], "Content-Type", contentType);
    } else {
      NotNamedIsPassed(parts[0], wanted);
      assert forall j :: 0 <= j < |parts| - 1 ==> parts[1..][j] == parts[j + 1];
      ExtractsNamed(parts[1..], i - 1, value, wanted, contentType);
    }
  }

  lemma SafeIsNotEmpty(s: string)
    requires Safe(s, 256)
    ensures s != ""
  {
  }

  lemma {:induction false} ExtractsNothing(parts: seq<Part>, wanted: string)
    requires Safe(wanted, 512) && forall p :: p in parts ==> Headed(p) && IsNotNamed(p, wanted)
    ensures HeadedUpTo(parts, wanted) && Extracted(parts, wanted) == Err("missing_wsd_mtom_image")
  {
    hide PartId, IsNotNamed, PartHeader, Lines, Safe;
    if parts != [] {
      NotNamedIsPassed(parts[0], wanted);
      ExtractsNothing(parts[1..], wanted);
    }
  }

  // ----------------------------------------------------------------- the decoder

  /** Asking for an id gives the type and the bytes of the first part whose Content-ID is the id, as it is or in angle brackets,
      with any spaces and tabs around it. */
  lemma IdFindsItsPart(mediaType: string, boundary: string, preamble: string, parts: seq<Part>, epilogue: string,
                       wanted: string, limits: Limits, i: nat, value: string, contentType: string)
    requires StartsWith(mediaType, "multipart/related") && Boundary(mediaType) == Some(boundary)
    requires Safe(boundary, 200) && Safe(wanted, 512) && Safe(contentType, 256)
    requires CleanPreamble("--" + boundary, preamble) && ValidParts("--" + boundary, parts)
    requires |preamble + Encoded("--" + boundary, parts, epilogue)| <= limits.maxImageBytes
    requires i < |parts| && forall j :: 0 <= j <= i ==> Headed(parts[j])
    requires forall j :: 0 <= j < i ==> IsNotNamed(parts[j], wanted)
    requires HasHeader(parts[i], "Content-ID", value) && (value == wanted || value == "<" + wanted + ">")
    requires HasHeader(parts[i], "Content-Type", contentType)
    ensures Decode(mediaType, preamble + Encoded("--" + boundary, parts, epilogue), wanted, limits)
            == Ok(Image(contentType, parts[i].body))
  {
    hide Decode, Encoded, ValidParts, CleanPreamble, StartsWith, Boundary, Safe, HasHeader, IsNotNamed, Headed, HeadedUpTo,
         Extracted;
    ExtractsNamed(parts, i, value, wanted, contentType);
    DecodingInvertsEncoding(mediaType, boundary, preamble, parts, epilogue, wanted, limits);
  }

  /** Asking for an id that no part has fails, */
  lemma UnknownIdFails(mediaType: string, boundary: string, preamble: string, parts: seq<Part>, epilogue: string,
                       wanted: string, limits: Limits)
    requires StartsWith(mediaType, "multipart/related") && Boundary(mediaType) == Some(boundary)
    requires Safe(boundary, 200) && Safe(wanted, 512)
    requires CleanPreamble("--" + boundary, preamble) && ValidParts("--" + boundary, parts)
    requires |preamble + Encoded("--" + boundary, parts, epilogue)| <= limits.maxImageBytes
    requires forall p :: p in parts ==> Headed(p) && IsNotNamed(p, wanted)
    ensures Decode(mediaType, preamble + Encoded("--" + boundary, parts, epilogue), wanted, limits)
            == Err("missing_wsd_mtom_image")
  {
    hide Decode, Encoded, ValidParts, CleanPreamble, StartsWith, Boundary, Safe, IsNotNamed, Headed, HeadedUpTo, Extracted;
    ExtractsNothing(parts, wanted);
    DecodingInvertsEncoding(mediaType, boundary, preamble, parts, epilogue, wanted, limits);
  }

  /** and so does asking with the brackets, whatever the message. */
  lemma BracketedIdFails(mediaType: string, raw: string, wanted: string, limits: Limits)
    requires StartsWith(mediaType, "multipart/related") && Boundary(mediaType).Some?
    requires raw != "" && |raw| <= limits.maxImageBytes && ('<' in wanted || '>' in wanted)
    ensures Decode(mediaType, raw, wanted, limits) == Err("invalid_wsd_mtom_boundary")
  {
    hide Boundary, Find, Scan;
    assert !SafeChar('<') && !SafeChar('>');
  }

  // --------------------------------------------------------------------- refusals

  /** What is refused before any part is looked at, in this order: an empty or too large message or one of another type, a type
      without a boundary, an unsafe boundary or id, and a message that does not mention the boundary. */
  lemma RefusedOutright(mediaType: string, raw: string, wanted: string, limits: Limits)
    ensures raw == "" || |raw| > limits.maxImageBytes || !StartsWith(mediaType, "multipart/related") ==>
              Decode(mediaType, raw, wanted, limits) == Err("invalid_wsd_mtom_response")
    ensures raw != "" && |raw| <= limits.maxImageBytes && StartsWith(mediaType, "multipart/related") ==>
              (Find(mediaType, "boundary=", 0) == None ==>
                 Decode(mediaType, raw, wanted, limits) == Err("missing_wsd_mtom_boundary"))
              && (Boundary(mediaType).Some? && !(Safe(Boundary(mediaType).value, 200) && Safe(wanted, 512)) ==>
                    Decode(mediaType, raw, wanted, limits) == Err("invalid_wsd_mtom_boundary"))
              && (Boundary(mediaType).Some? && Safe(Boundary(mediaType).value, 200) && Safe(wanted, 512)
                  && Find(raw, "--" + Boundary(mediaType).value, 0) == None ==>
                    Decode(mediaType, raw, wanted, limits) == Err("invalid_wsd_mtom_body"))
  {
    hide Find, Scan, Safe, StartsWith;
  }

  /** A part that is found is refused where its type is missing or unsafe or its bytes are too many. */
  lemma BadTypeIsRefused(mediaType: string, boundary: string, preamble: string, parts: seq<Part>, epilogue: string,
                         wanted: string, limits: Limits, i: nat, value: string, contentType: string)
    requires StartsWith(mediaType, "multipart/related") && Boundary(mediaType) == Some(boundary)
    requires Safe(boundary, 200) && Safe(wanted, 512) && !Safe(contentType, 256)
    requires CleanPreamble("--" + boundary, preamble) && ValidParts("--" + boundary, parts)
    requires |preamble + Encoded("--" + boundary, parts, epilogue)| <= limits.maxImageBytes
    requires i < |parts| && forall j :: 0 <= j <= i ==> Headed(parts[j])
    requires forall j :: 0 <= j < i ==> IsNotNamed(parts[j], wanted)
    requires HasHeader(parts[i], "Content-ID", value) && (value == wanted || value == "<" + wanted + ">")
    requires HasHeader(parts[i], "Content-Type", contentType) && contentType != ""
    ensures Decode(mediaType, preamble + Encoded("--" + boundary, parts, epilogue), wanted, limits)
            == Err("invalid_wsd_mtom_image")
  {
    hide Decode, Encoded, ValidParts, CleanPreamble, StartsWith, Boundary, Safe, HasHeader, IsNotNamed, Headed, HeadedUpTo,
         Extracted;
    RefusesNamed(parts, i, value, wanted, contentType);
    DecodingInvertsEncoding(mediaType, boundary, preamble, parts, epilogue, wanted, limits);
  }

  lemma {:induction false} RefusesNamed(parts: seq<Part>, i: nat, value: string, wanted: string, contentType: string)
    requires i < |parts| && Safe(wanted, 512) && !Safe(contentType, 256) && contentType != ""
    requires forall j :: 0 <= j <= i ==> Headed(parts[j])
    requires forall j :: 0 <= j < i ==> IsNotNamed(parts[j], wanted)
    requires HasHeader(parts[i], "Content-ID", value) && Names(value, wanted)
    requires HasHeader(parts[i], "Content-Type", contentType)
    ensures HeadedUpTo(parts, wanted) && Extracted(parts, wanted) == Err("invalid_wsd_mtom_image")
    decreases i
  {
    hide PartId, IsNotNamed, HasHeader, PartHeader, Names, Lines, Safe;
    if i == 0 {
      NamedIsTaken(parts[0], value, wanted);
      OneHeaderIsRead(parts[0], "Content-Type", contentType);
    } else {
      NotNamedIsPassed(parts[0], wanted);
      assert forall j :: 0 <= j < |parts| - 1 ==> parts[1..][j] == parts[j + 1];
      RefusesNamed(parts[1..], i - 1, value, wanted, contentType);
    }
  }
}
