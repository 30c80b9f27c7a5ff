/** The session manifest: percent encoding, the printer, the line reader. */
module Manifest {
  import opened Text
  import opened Pages

  const MAX_MANIFEST_BYTES: nat := 0x10_0000
  const BAD_ENCODING := "manifest encoding is invalid"
  const BAD_TEXT := "manifest text is invalid"

  datatype Session = Session(
    sessionId: string, createdUtc: string, providerId: string, deviceId: string, pages: seq<Page>)

  // ------------------------------------------------------- percent encoding

  predicate NeedsEscape(c: char) {
    c == '%' || c < 0x20 as char || c == 0x7f as char
  }

  function HexDigit(d: nat): char
    requires d < 16
  {
    if d < 10 then DigitChar(d) else ('A' as int + d - 10) as char
  }

  function HexValue(c: char): Result<nat> {
    if IsDigit(c) then Ok(DigitValue(c))
    else if 'A' <= c <= 'F' then Ok(10 + c as int - 'A' as int)
    else if 'a' <= c <= 'f' then Ok(10 + c as int - 'a' as int)
    else Err(BAD_ENCODING)
  }

  function EncodeChar(c: char): (s: string)
    ensures s != "" && '\t' !in s && '\n' !in s && '\r' !in s
  {
    if NeedsEscape(c) then ['%', HexDigit(c as int / 16), HexDigit(c as int % 16)] else [c]
  }

  function EncodeField(value: string): (s: string)
    ensures '\t' !in s && '\n' !in s && '\r' !in s
  {
    if value == "" then "" else EncodeField(value[..|value| - 1]) + EncodeChar(value[|value| - 1])
  }

  /** encode_field. */
  method EncodeFieldLoop(value: string) returns (output: string)
    ensures output == EncodeField(value)
  {
    output := "";
    for i := 0 to |value|
      invariant output == EncodeField(value[..i])
    {
      assert value[..i + 1][..i] == value[..i];
      output := output + EncodeChar(value[i]);
    }
    assert value[..|value|] == value;
  }

  function PrependText(front: string, r: Result<string>): Result<string> {
    match r
    case Ok(rest) => Ok(front + rest)
    case Err(_) => r
  }

  function DecodeField(value: string): Result<string> {
    if value == "" then Ok("")
    else if value[0] != '%' then
      if value[0] < 0x20 as char || value[0] == 0x7f as char then Err(BAD_TEXT)
      else PrependText([value[0]], DecodeField(value[1..]))
    else if |value| <= 2 then Err(BAD_ENCODING)
    else
      var high :- HexValue(value[1]);
      var low :- HexValue(value[2]);
      PrependText([ByteChar(high, low)], DecodeField(value[3..]))
  }

  function ByteChar(high: nat, low: nat): char {
    ((high * 16 + low) % 256) as char
  }

  lemma PrependTextTwice(a: string, b: string, r: Result<string>)
    ensures PrependText(a, PrependText(b, r)) == PrependText(a + b, r)
  {
    if r.Ok? {
      assert a + (b + r.value) == a + b + r.value;
    }
  }

  lemma PrependNoText(r: Result<string>)
    ensures PrependText("", r) == r
  {
    if r.Ok? {
      assert "" + r.value == r.value;
    }
  }

  /** decode_field. */
  method DecodeFieldLoop(value: string) returns (r: Result<string>)
    ensures r == DecodeField(value)
  {
    var decoded := "";
    var index := 0;
    assert value[0..] == value;
    PrependNoText(DecodeField(value));
    while index < |value|
      invariant 0 <= index <= |value|
      invariant DecodeField(value) == PrependText(decoded, DecodeField(value[index..]))
    {
      var ch := value[index];
      ghost var rest := value[index..];
      if ch != '%' {
        if ch < 0x20 as char || ch == 0x7f as char {
          return Err(BAD_TEXT);
        }
        PrependTextTwice(decoded, [ch], DecodeField(rest[1..]));
        decoded := decoded + [ch];
        index := index + 1;
      } else {
        if index + 2 >= |value| {
          return Err(BAD_ENCODING);
        }
        var high :- HexValue(value[index + 1]);
        var low :- HexValue(value[index + 2]);
        PrependTextTwice(decoded, [ByteChar(high, low)], DecodeField(rest[3..]));
        decoded := decoded + [ByteChar(high, low)];
        index := index + 3;
      }
    }
    assert value[index..] == "" && decoded + "" == decoded;
    return Ok(decoded);
  }

  lemma DecodeOfEncodedChar(c: char, rest: string)
    ensures DecodeField(EncodeChar(c) + rest) == PrependText([c], DecodeField(rest))
  {
    var s := EncodeChar(c) + rest;
    if NeedsEscape(c) {
      HexRoundTrip(c as int);
      assert s[3..] == rest && s[1] == HexDigit(c as int / 16) && s[2] == HexDigit(c as int % 16);
    } else {
      assert s[1..] == rest;
    }
  }

  lemma HexRoundTrip(n: nat)
    requires n < 256
    ensures HexValue(HexDigit(n / 16)) == Ok(n / 16) && HexValue(HexDigit(n % 16)) == Ok(n % 16)
    ensures ByteChar(n / 16, n % 16) == n as char
  {
  }

  lemma {:induction false} DecodeOfEncodeThen(value: string, rest: string)
    ensures DecodeField(EncodeField(value) + rest) == PrependText(value, DecodeField(rest))
  {
    if value == "" {
      assert EncodeField(value) + rest == rest;
      PrependNoText(DecodeField(rest));
    } else {
      var n := |value| - 1;
      var tail := EncodeChar(value[n]) + rest;
      DecodeOfEncodedChar(value[n], rest);
      DecodeOfEncodeThen(value[..n], tail);
      assert EncodeField(value) + rest == EncodeField(value[..n]) + tail;
      PrependTextTwice(value[..n], [value[n]], DecodeField(rest));
      assert value[..n] + [value[n]] == value;
    }
  }

  /** Decoding an encoded field gives it back, whatever bytes it has. */
  lemma FieldRoundTrip(value: string)
    ensures DecodeField(EncodeField(value)) == Ok(value)
  {
    DecodeOfEncodeThen(value, "");
    assert EncodeField(value) + "" == EncodeField(value) && value + "" == value;
  }

  // ----------------------------------------------------------------- printer

  function SourceName(source: SourceType): string {
    match source
    case Flatbed => "flatbed"
    case AdfSimplex => "adf-simplex"
    case AdfDuplex => "adf-duplex"
  }

  function ParseSource(value: string): Result<SourceType> {
    if value == "flatbed" then Ok(Flatbed)
    else if value == "adf-simplex" then Ok(AdfSimplex)
    else if value == "adf-duplex" then Ok(AdfDuplex)
    else Err("source is invalid")
  }

  function ColorName(color: ColorMode): string {
    match color
    case Gray8 => "gray8"
    case Rgb24 => "rgb24"
  }

  function ParseColor(value: string): Result<ColorMode> {
    if value == "gray8" then Ok(Gray8)
    else if value == "rgb24" then Ok(Rgb24)
    else Err("colour mode is invalid")
  }

  function Flag(b: bool): string {
    if b then "1" else "0"
  }

  function CropOrZero(page: Page): CropRect {
    if page.crop.Some? then page.crop.value else CropRect(0, 0, 0, 0)
  }

  function PageFields(page: Page): (fields: seq<string>)
    ensures |fields| == 20
  {
    var crop := CropOrZero(page);
    ["PAGE", EncodeField(page.id), EncodeField(page.fixtureId), EncodeField(page.currentMaster),
     Dec(page.revision), Dec(page.width), Dec(page.height), Dec(page.dpi),
     ColorName(page.color), Dec(page.bitDepth), SourceName(page.source),
     Dec(page.rotation), Flag(page.included), Flag(page.crop.Some?),
     Dec(crop.x), Dec(crop.y), Dec(crop.width), Dec(crop.height),
     SignedDec(page.brightness), SignedDec(page.contrast)]
  }

  function HistoryFields(id: string, history: string): seq<string> {
    ["HISTORY", EncodeField(id), EncodeField(history)]
  }

  function SessionFields(s: Session): seq<string> {
    ["SESSION", EncodeField(s.sessionId), EncodeField(s.createdUtc), EncodeField(s.providerId), EncodeField(s.deviceId)]
  }

  function Line(fields: seq<string>): string
    requires fields != []
  {
    Join(fields, '\t')
  }

  function HistoryLines(id: string, histories: seq<string>): seq<string> {
    if histories == [] then [] else [Line(HistoryFields(id, histories[0]))] + HistoryLines(id, histories[1..])
  }

  function PageLines(page: Page): seq<string> {
    [Line(PageFields(page))] + HistoryLines(page.id, page.preservedMasters)
  }

  function PagesLines(pages: seq<Page>): seq<string> {
    if pages == [] then [] else PageLines(pages[0]) + PagesLines(pages[1..])
  }

  function ManifestLines(s: Session): seq<string> {
    ["JSCAN\t2", Line(SessionFields(s))] + (PagesLines(s.pages) + ["END"])
  }

  function Unlines(lines: seq<string>): string {
    if lines == [] then "" else lines[0] + "\n" + Unlines(lines[1..])
  }

  function ManifestText(s: Session): string {
    Unlines(ManifestLines(s))
  }

  lemma {:induction false} UnlinesAppend(a: seq<string>, b: seq<string>)
    ensures Unlines(a + b) == Unlines(a) + Unlines(b)
  {
    if a == [] {
      assert a + b == b;
    } else {
      UnlinesAppend(a[1..], b);
      assert (a + b)[1..] == a[1..] + b;
      assert a[0] + "\n" + (Unlines(a[1..]) + Unlines(b)) == a[0] + "\n" + Unlines(a[1..]) + Unlines(b);
    }
  }

  lemma UnlinesOne(a: seq<string>, line: string)
    ensures Unlines(a + [line]) == Unlines(a) + line + "\n"
  {
    UnlinesAppend(a, [line]);
    assert Unlines([line]) == line + "\n" + "";
    assert Unlines(a) + (line + "\n" + "") == Unlines(a) + line + "\n";
  }

  lemma {:induction false} HistoryLinesStep(id: string, histories: seq<string>, k: nat)
    requires k < |histories|
    ensures HistoryLines(id, histories[..k + 1])
            == HistoryLines(id, histories[..k]) + [Line(HistoryFields(id, histories[k]))]
  {
    if k > 0 {
      HistoryLinesStep(id, histories[1..], k - 1);
      assert histories[..k + 1][1..] == histories[1..][..k];
      assert histories[..k][1..] == histories[1..][..k - 1];
    }
  }

  lemma {:induction false} PagesLinesStep(pages: seq<Page>, k: nat)
    requires k < |pages|
    ensures PagesLines(pages[..k + 1]) == PagesLines(pages[..k]) + PageLines(pages[k])
  {
    hide PageLines;
    if k == 0 {
      assert pages[..1][1..] == [] && PageLines(pages[0]) + [] == [] + PageLines(pages[0]);
    } else {
      PagesLinesStep(pages[1..], k - 1);
      assert pages[..k + 1][1..] == pages[1..][..k];
      assert pages[..k][1..] == pages[1..][..k - 1];
      var a, b, c := PageLines(pages[0]), PagesLines(pages[1..][..k - 1]), PageLines(pages[k]);
      assert a + (b + c) == a + b + c;
    }
  }

  /** The part of save that prints the manifest: nested loops over pages and their history. */
  method PrintManifest(s: Session) returns (output: string)
    ensures output == ManifestText(s)
  {
    hide Unlines, PageFields, Line, HistoryLines, PagesLines;
    ghost var lines := ["JSCAN\t2", Line(SessionFields(s))];
    output := "JSCAN\t2\n" + Line(SessionFields(s)) + "\n";
    UnlinesOfTwo("JSCAN\t2", Line(SessionFields(s)));
    NoPagesLines(s.pages);
    for i := 0 to |s.pages|
      invariant output == Unlines(lines)
      invariant lines == ["JSCAN\t2", Line(SessionFields(s))] + PagesLines(s.pages[..i])
    {
      var page := s.pages[i];
      ghost var before := lines;
      UnlinesOne(lines, Line(PageFields(page)));
      output := output + Line(PageFields(page)) + "\n";
      lines := lines + [Line(PageFields(page))];
      NoHistoryLines(page.id, page.preservedMasters);
      for k := 0 to |page.preservedMasters|
        invariant output == Unlines(lines)
        invariant lines == before + ([Line(PageFields(page))] + HistoryLines(page.id, page.preservedMasters[..k]))
      {
        var record := Line(HistoryFields(page.id, page.preservedMasters[k]));
        HistoryLinesStep(page.id, page.preservedMasters, k);
        UnlinesOne(lines, record);
        output := output + record + "\n";
        lines := lines + [record];
      }
      assert page.preservedMasters[..|page.preservedMasters|] == page.preservedMasters;
      PagesLinesStep(s.pages, i);
    }
    assert s.pages[..|s.pages|] == s.pages;
    UnlinesOne(lines, "END");
    output := output + "END" + "\n";
    assert ManifestLines(s) == lines + ["END"];
  }

  lemma UnlinesOfTwo(a: string, b: string)
    ensures Unlines([a, b]) == a + "\n" + b + "\n"
  {
    assert [a, b][1..] == [b] && [b][1..] == [];
    assert Unlines([b]) == b + "\n" + "";
    assert a + "\n" + (b + "\n" + "") == a + "\n" + b + "\n";
  }

  lemma NoPagesLines(pages: seq<Page>)
    ensures PagesLines(pages[..0]) == []
  {
  }

  lemma NoHistoryLines(id: string, histories: seq<string>)
    ensures HistoryLines(id, histories[..0]) == []
  {
  }
}
