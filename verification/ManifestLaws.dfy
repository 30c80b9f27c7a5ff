/** How manifests are written and what any text has to be to load. */
module ManifestLaws {
  import opened Text
  import opened Pages
  import opened Manifest
  import opened ManifestReader
  import opened ManifestRoundTrip
  import opened SessionStore

  // -------------------------------------------------------------------- escapes

  /** Percent signs and control characters are written as two upper-case hexadecimal digits, everything else as it is. */
  lemma EscapeIs(c: char)
    requires c as int < 256
    ensures EncodeField([c])
            == if c == '%' || c as int < 0x20 || c as int == 0x7f
               then ['%', "0123456789ABCDEF"[c as int / 16], "0123456789ABCDEF"[c as int % 16]] else [c]
  {
    HexIs(c as int / 16);
    HexIs(c as int % 16);
    hide HexDigit;
    assert [c][..0] == "" && EncodeField("") == "";
  }

  lemma HexIs(d: nat)
    requires d < 16
    ensures HexDigit(d) == "0123456789ABCDEF"[d]
  {
    var digits := "0123456789ABCDEF";
    assert d == 0 || d == 1 || d == 2 || d == 3 || d == 4 || d == 5 || d == 6 || d == 7 || d == 8 || d == 9 || d == 10
        || d == 11 || d == 12 || d == 13 || d == 14 || d == 15;
  }

  lemma EncodeOneMore(a: string, c: char)
    ensures EncodeField(a + [c]) == EncodeField(a) + EncodeChar(c)
  {
    assert (a + [c])[..|a|] == a;
  }

  lemma {:induction false} FieldsJoin(a: string, b: string)
    ensures EncodeField(a + b) == EncodeField(a) + EncodeField(b)
  {
    hide EncodeField, EncodeChar;
    if b == "" {
      assert a + b == a;
      NothingEncoded();
      assert EncodeField(a) + "" == EncodeField(a);
    } else {
      var front, c := b[..|b| - 1], b[|b| - 1];
      assert b == front + [c] && a + b == (a + front) + [c];
      FieldsJoin(a, front);
      EncodeOneMore(front, c);
      EncodeOneMore(a + front, c);
      assert EncodeField(a) + EncodeField(front) + EncodeChar(c) == EncodeField(a) + (EncodeField(front) + EncodeChar(c));
    }
  }

  lemma NothingEncoded()
    ensures EncodeField("") == ""
  {
  }

  /** The value of a hexadecimal digit, upper or lower case. */
  predicate HexIsWorth(c: char, v: int) {
    ('0' <= c <= '9' && v == c as int - 48) || ('A' <= c <= 'F' && v == c as int - 55) || ('a' <= c <= 'f' && v == c as int - 87)
  }

  /** A field is read piece by piece: a plain character is itself, an escape the character of its number; a control character and
      a broken escape make it unreadable. */
  lemma PieceIsRead(c: char, rest: string)
    ensures c != '%' && c as int >= 0x20 && c as int != 0x7f ==>
              DecodeField([c] + rest) == match DecodeField(rest) case Ok(more) => Ok([c] + more) case Err(e) => Err(e)
    ensures c as int < 0x20 || c as int == 0x7f ==> DecodeField([c] + rest) == Err("manifest text is invalid")
  {
    assert ([c] + rest)[1..] == rest;
  }

  lemma EscapeIsRead(high: char, low: char, rest: string, h: int, l: int)
    requires HexIsWorth(high, h) && HexIsWorth(low, l)
    ensures h * 16 + l < 256
    ensures DecodeField(['%', high, low] + rest)
            == match DecodeField(rest) case Ok(more) => Ok([(h * 16 + l) as char] + more) case Err(e) => Err(e)
  {
    hide HexValue, ByteChar, HexIsWorth;
    DigitIsRead(high, h);
    DigitIsRead(low, l);
    ByteIs(h, l);
    var s := ['%', high, low] + rest;
    assert s[3..] == rest && s[1] == high && s[2] == low;
  }

  lemma DigitIsRead(c: char, v: int)
    requires HexIsWorth(c, v)
    ensures 0 <= v < 16 && HexValue(c) == Ok(v)
  {
  }

  lemma ByteIs(h: nat, l: nat)
    requires h < 16 && l < 16
    ensures h * 16 + l < 256 && ByteChar(h, l) == (h * 16 + l) as char
  {
  }

  predicate IsHex(c: char) {
    '0' <= c <= '9' || 'A' <= c <= 'F' || 'a' <= c <= 'f'
  }

  lemma HexIsRead(c: char)
    ensures IsHex(c) <==> HexValue(c).Ok?
    ensures !IsHex(c) ==> HexValue(c) == Err("manifest encoding is invalid")
  {
  }

  lemma BrokenEscapeIsRefused(s: string)
    requires s != "" && s[0] == '%' && (|s| <= 2 || !IsHex(s[1]) || !IsHex(s[2]))
    ensures DecodeField(s) == Err("manifest encoding is invalid")
  {
    hide HexValue, ByteChar, PrependText, IsHex;
    if |s| > 2 {
      HexIsRead(s[1]);
      HexIsRead(s[2]);
    }
  }

  // -------------------------------------------------------------------- records

  /** The record of a page, field by field. */
  lemma PageRecordIs(page: Page)
    ensures var crop := if page.crop.Some? then page.crop.value else CropRect(0, 0, 0, 0);
            PageFields(page)
            == ["PAGE", EncodeField(page.id), EncodeField(page.fixtureId), EncodeField(page.currentMaster),
                Dec(page.revision), Dec(page.width), Dec(page.height), Dec(page.dpi),
                if page.color == Gray8 then "gray8" else "rgb24", Dec(page.bitDepth),
                if page.source == Flatbed then "flatbed" else if page.source == AdfSimplex then "adf-simplex" else "adf-duplex",
                Dec(page.rotation), if page.included then "1" else "0", if page.crop.Some? then "1" else "0",
                Dec(crop.x), Dec(crop.y), Dec(crop.width), Dec(crop.height),
                SignedDec(page.brightness), SignedDec(page.contrast)]
  {
    hide EncodeField, Dec, SignedDec;
  }

  /** Signed numbers are read exactly as a minus sign or none and digits, within 32 bits. */
  lemma SignedNumberIs(text: string, n: I32)
    ensures ParseI32(text, "tone") == Ok(n)
            <==> (text != "" && AllDigits(text) && Value(text) == n)
                 || (|text| > 1 && text[0] == '-' && AllDigits(text[1..]) && Value(text[1..]) + n == 0)
  {
    hide Value, AllDigits;
    NoSignAmongDigits(text);
  }

  lemma NoSignAmongDigits(text: string)
    ensures text != "" && AllDigits(text) ==> text[0] != '-'
  {
  }

  // -------------------------------------------------------- what any text loads as

  /** What has been gathered is sound. */
  predicate Sound(st: LoadState) {
    (st.sawSession ==> HeaderValid(st.session)) && (!st.sawSession ==> st.session.pages == [])
    && |st.session.pages| <= 10000 && UniqueIds(st.session.pages)
    && st.historyCount == HistoryCount(st.session.pages) <= 100000
    && forall p :: p in st.session.pages ==> ToneInRange(p)
  }

  lemma {:induction false} HistoryAdded(pages: seq<Page>, i: nat, path: string)
    requires i < |pages|
    ensures HistoryCount(AddHistory(pages, i, path)) == HistoryCount(pages) + 1
  {
    var after := AddHistory(pages, i, path);
    if i > 0 {
      HistoryAdded(pages[1..], i - 1, path);
      assert after[1..] == AddHistory(pages[1..], i - 1, path);
    } else {
      assert after[1..] == pages[1..];
    }
  }

  lemma SessionKeepsSound(fields: seq<string>, st: LoadState)
    requires Sound(st) && ReadSession(fields, st).Ok?
    ensures Sound(ReadSession(fields, st).value) && ReadSession(fields, st).value.sawSession
  {
    hide DecodeField, IsIdentifier, IsPlainText;
  }

  lemma ReadPageHasTone(fields: seq<string>, versionTwo: bool, st: LoadState)
    requires Sound(st) && ReadPage(fields, versionTwo, st).Ok?
    ensures var pages, after := st.session.pages, ReadPage(fields, versionTwo, st).value;
            st.sawSession && |pages| < 10000
            && |after.session.pages| == |pages| + 1 && after.session.pages[..|pages|] == pages
            && var page := after.session.pages[|pages|];
               after == st.(session := st.session.(pages := pages + [page])) && page.preservedMasters == []
               && ToneInRange(page) && IndexOfPage(pages, page.id).None?
  {
    hide DecodeField, ParseU32, ParseI32, ParseColor, ParseSource, IndexOfPage;
  }

  lemma PageKeepsSound(fields: seq<string>, versionTwo: bool, st: LoadState)
    requires Sound(st) && ReadPage(fields, versionTwo, st).Ok?
    ensures Sound(ReadPage(fields, versionTwo, st).value)
  {
    hide ReadPage, IsIdentifier, IsPlainText;
    ReadPageHasTone(fields, versionTwo, st);
    var pages, after := st.session.pages, ReadPage(fields, versionTwo, st).value;
    var page := after.session.pages[|pages|];
    HistoryCountAppend(pages, page);
    assert after.session.pages == pages + [page];
    assert forall p :: p in after.session.pages ==> p in pages || p == page;
    forall i, j | 0 <= i < j < |pages| + 1 ensures (pages + [page])[i].id != (pages + [page])[j].id {
      if j < |pages| {
        assert pages[i].id != pages[j].id;
      } else {
        assert pages[i].id != page.id;
      }
    }
  }

  lemma HistoryKeepsSound(fields: seq<string>, st: LoadState)
    requires Sound(st) && ReadHistory(fields, st).Ok?
    ensures Sound(ReadHistory(fields, st).value) && st.sawSession
  {
    hide DecodeField, IsIdentifier, IsPlainText;
    var id := DecodeField(fields[1]).value;
    var i, path := IndexOfPage(st.session.pages, id).value, DecodeField(fields[2]).value;
    HistoryAdded(st.session.pages, i, path);
    var after := AddHistory(st.session.pages, i, path);
    assert forall p :: p in after ==> p in st.session.pages || p == after[i];
    assert st.session.pages[i] in st.session.pages;
    assert forall j :: 0 <= j < |after| ==> after[j].id == st.session.pages[j].id;
  }

  lemma {:induction false} LoadedLinesAreSound(lines: seq<string>, versionTwo: bool, st: LoadState)
    requires Sound(st) && LoadLines(lines, versionTwo, st).Ok?
    ensures Sound(LoadState(true, LoadLines(lines, versionTwo, st).value, HistoryCount(LoadLines(lines, versionTwo, st).value.pages)))
    decreases |lines|
  {
    hide Sound, ReadSession, ReadPage, ReadHistory, StripCr, Split;
    var fields := Split(StripCr(lines[0]), '\t');
    if fields[0] == "END" {
      SoundEnd(st);
    } else {
      var next := Record(fields, versionTwo, st).value;
      if fields[0] == "SESSION" {
        SessionKeepsSound(fields, st);
      } else if fields[0] == "PAGE" {
        PageKeepsSound(fields, versionTwo, st);
      } else {
        HistoryKeepsSound(fields, st);
      }
      LoadedLinesAreSound(lines[1..], versionTwo, next);
    }
  }

  lemma SoundEnd(st: LoadState)
    requires Sound(st) && st.sawSession
    ensures Sound(LoadState(true, st.session, HistoryCount(st.session.pages)))
  {
  }

  lemma BlankIsSound()
    ensures Sound(BLANK_STATE)
  {
  }

  /** Whatever the text: what a manifest loads as has valid identifiers and times, at most 10000 pages of distinct ids, at most
      100000 earlier masters, tones in range, and every page valid on this disk; so it passes the checks of a save. */
  lemma LoadedIsSound(files: Files, path: string)
    requires LoadManifest(files, path).Ok?
    ensures var s := LoadManifest(files, path).value;
            HeaderValid(s) && |s.pages| <= 10000 && UniqueIds(s.pages) && HistoryCount(s.pages) <= 100000
            && (forall p :: p in s.pages ==> ValidPage(p, files.Keys)) && Savable(s, files.Keys)
  {
    hide Sound, LoadLines, GetLines, HeaderValid, ValidPage;
    var text := files[path];
    BlankIsSound();
    LoadedLinesAreSound(GetLines(text)[1..], GetLines(text)[0] == "JSCAN\t2", BLANK_STATE);
    SoundSays(LoadState(true, ParseManifest(text).value, HistoryCount(ParseManifest(text).value.pages)));
  }

  lemma SoundSays(st: LoadState)
    requires Sound(st) && st.sawSession
    ensures HeaderValid(st.session) && |st.session.pages| <= 10000 && UniqueIds(st.session.pages)
    ensures HistoryCount(st.session.pages) <= 100000
  {
  }

  // ------------------------------------------------------- the shape of any manifest

  /** A line without the carriage return that may end it. */
  function Bare(line: string): string {
    if line != "" && line[|line| - 1] == '\r' then line[..|line| - 1] else line
  }

  predicate StartsRecord(line: string, name: string) {
    Bare(line) == name || (|Bare(line)| > |name| && Bare(line)[..|name|] == name && Bare(line)[|name|] == '\t')
  }

  lemma FirstFieldStarts(line: string, name: string)
    requires '\t' !in name && Split(StripCr(line), '\t')[0] == name
    ensures StartsRecord(line, name)
  {
    var s := StripCr(line);
    if '\t' in s {
      var i := IndexOf(s, '\t');
      SplitStep(s, '\t', i);
      assert s[..i] == name;
    } else {
      SplitOfPlain(s, '\t');
    }
  }

  lemma {:induction false} LinesHaveShape(lines: seq<string>, versionTwo: bool, st: LoadState)
    requires LoadLines(lines, versionTwo, st).Ok?
    ensures lines != [] && Bare(lines[|lines| - 1]) == "END"
    ensures forall k :: 0 <= k < |lines| - 1 ==>
              StartsRecord(lines[k], "SESSION") || StartsRecord(lines[k], "PAGE") || StartsRecord(lines[k], "HISTORY")
    ensures st.sawSession ==> forall k :: 0 <= k < |lines| - 1 ==> StartsRecord(lines[k], "PAGE") || StartsRecord(lines[k], "HISTORY")
    ensures !st.sawSession ==> |lines| >= 2 && StartsRecord(lines[0], "SESSION")
    decreases |lines|
  {
    hide ReadSession, ReadPage, ReadHistory, StartsRecord, Bare, Split;
    var fields := Split(StripCr(lines[0]), '\t');
    if fields[0] == "END" {
      OneField(lines[0], fields);
    } else {
      var next := Record(fields, versionTwo, st).value;
      OnlySessionStarts(fields, versionTwo, st);
      FirstFieldStarts(lines[0], fields[0]);
      LinesHaveShape(lines[1..], versionTwo, next);
      assert forall k :: 1 <= k < |lines| ==> lines[k] == lines[1..][k - 1];
    }
  }

  lemma OneField(line: string, fields: seq<string>)
    requires fields == Split(StripCr(line), '\t') && |fields| == 1
    ensures Bare(line) == fields[0]
  {
    var s := StripCr(line);
    TabsSplit(s);
    SplitOfPlain(s, '\t');
  }

  lemma TabsSplit(s: string)
    ensures |Split(s, '\t')| == 1 ==> '\t' !in s
  {
    if '\t' in s {
      SplitStep(s, '\t', IndexOf(s, '\t'));
    }
  }

  lemma OnlySessionStarts(fields: seq<string>, versionTwo: bool, st: LoadState)
    requires fields != [] && Record(fields, versionTwo, st).Ok?
    ensures fields[0] == "SESSION" || fields[0] == "PAGE" || fields[0] == "HISTORY"
    ensures Record(fields, versionTwo, st).value.sawSession
    ensures !st.sawSession ==> fields[0] == "SESSION"
    ensures st.sawSession ==> fields[0] != "SESSION"
    ensures '\t' !in fields[0]
  {
    hide DecodeField, ParseU32, ParseI32, ParseColor, ParseSource, IndexOfPage, IsIdentifier, IsPlainText;
  }

  /** Any text that is taken: a first line with version 1 or 2, one session record, page and history records, and END, with
      nothing behind it. */
  lemma ManifestsHaveShape(text: string)
    requires ParseManifest(text).Ok?
    ensures var lines := GetLines(text);
            |lines| >= 3 && (lines[0] == "JSCAN\t1" || lines[0] == "JSCAN\t2") && StartsRecord(lines[1], "SESSION")
            && Bare(lines[|lines| - 1]) == "END"
            && forall k :: 2 <= k < |lines| - 1 ==> StartsRecord(lines[k], "PAGE") || StartsRecord(lines[k], "HISTORY")
  {
    hide GetLines, StartsRecord, Bare, ReadSession, ReadPage, ReadHistory;
    var lines := GetLines(text);
    var two := lines[0] == "JSCAN\t2";
    LinesHaveShape(lines[1..], two, BLANK_STATE);
    var fields := Split(StripCr(lines[1]), '\t');
    assert lines[1..][0] == lines[1];
    SecondOn(lines[1..], two);
    assert forall k :: 2 <= k < |lines| ==> lines[1..][1..][k - 2] == lines[k];
  }

  lemma SecondOn(lines: seq<string>, versionTwo: bool)
    requires LoadLines(lines, versionTwo, BLANK_STATE).Ok? && |lines| >= 2
    ensures forall k :: 0 <= k < |lines| - 2 ==> StartsRecord(lines[1..][k], "PAGE") || StartsRecord(lines[1..][k], "HISTORY")
  {
    hide StartsRecord, Bare, Split, Record, StripCr;
    var fields := Split(StripCr(lines[0]), '\t');
    if fields[0] != "END" {
      OnlySessionStarts(fields, versionTwo, BLANK_STATE);
      LinesHaveShape(lines[1..], versionTwo, Record(fields, versionTwo, BLANK_STATE).value);
    }
  }
}
