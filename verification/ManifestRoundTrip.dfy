/** Printing a session and reading it back; version 1 texts. */
module ManifestRoundTrip {
  import opened Text
  import opened Pages
  import opened Manifest
  import opened ManifestReader

  // ------------------------------------------------------------ printed lines

  predicate Clean(s: string) {
    '\t' !in s && '\n' !in s && '\r' !in s
  }

  predicate CleanFields(fields: seq<string>) {
    fields != [] && fields[0] != "" && forall f :: f in fields ==> Clean(f)
  }

  lemma DecIsClean(n: nat)
    ensures Clean(Dec(n))
  {
    assert forall i :: 0 <= i < |Dec(n)| ==> IsDigit(Dec(n)[i]);
  }

  lemma SignedDecIsClean(n: int)
    ensures Clean(SignedDec(n))
  {
    if n < 0 {
      DecIsClean(-n);
    } else {
      DecIsClean(n);
    }
  }

  lemma EncodedIsClean(value: string)
    ensures Clean(EncodeField(value))
  {
  }

  lemma NamesAreClean(page: Page)
    ensures Clean("PAGE") && Clean(ColorName(page.color)) && Clean(SourceName(page.source))
    ensures Clean("0") && Clean("1")
  {
  }

  lemma PageFieldsAreClean(page: Page)
    ensures CleanFields(PageFields(page))
  {
    hide Dec, SignedDec, EncodeField, Clean, ColorName, SourceName;
    var crop := CropOrZero(page);
    NamesAreClean(page);
    EncodedIsClean(page.id); EncodedIsClean(page.fixtureId); EncodedIsClean(page.currentMaster);
    DecIsClean(page.revision); DecIsClean(page.width); DecIsClean(page.height); DecIsClean(page.dpi);
    DecIsClean(page.bitDepth); DecIsClean(page.rotation);
    DecIsClean(crop.x); DecIsClean(crop.y); DecIsClean(crop.width); DecIsClean(crop.height);
    SignedDecIsClean(page.brightness); SignedDecIsClean(page.contrast);
    var fields := PageFields(page);
    assert forall k :: 0 <= k < 20 ==> Clean(fields[k]);
  }

  lemma {:induction false} JoinIsOneLine(fields: seq<string>)
    requires CleanFields(fields)
    ensures Line(fields) != "" && '\n' !in Line(fields) && '\r' !in Line(fields)
  {
    JoinAvoids(fields, '\t', '\n');
    JoinAvoids(fields, '\t', '\r');
  }

  lemma {:induction false} LinesOfUnlines(lines: seq<string>)
    requires forall l :: l in lines ==> '\n' !in l
    ensures Split(Unlines(lines), '\n') == lines + [""]
  {
    hide Split;
    if lines == [] {
      SplitOfEmpty('\n');
    } else {
      SplitOfPlain(lines[0], '\n');
      LinesOfUnlines(lines[1..]);
      SplitAppend(lines[0], '\n', Unlines(lines[1..]));
      assert Unlines(lines) == lines[0] + ['\n'] + Unlines(lines[1..]);
      assert lines + [""] == [lines[0]] + (lines[1..] + [""]);
    }
  }

  lemma GetLinesOfUnlines(lines: seq<string>)
    requires forall l :: l in lines ==> '\n' !in l
    ensures GetLines(Unlines(lines)) == lines
  {
    LinesOfUnlines(lines);
    assert (lines + [""])[..|lines|] == lines;
  }

  // ------------------------------------------------------------- one record

  lemma ReadPrintedStart(page: Page)
    ensures ReadPageStart(PageFields(page))
            == Ok(Page(page.id, page.fixtureId, page.currentMaster, [], page.revision, page.width, page.height, page.dpi,
                       page.color, page.bitDepth, page.source, 0, None, 0, 0, true))
  {
    hide Dec, SignedDec, EncodeField, DecodeField, ParseU32;
    FieldRoundTrip(page.id);
    FieldRoundTrip(page.fixtureId);
    FieldRoundTrip(page.currentMaster);
    ParseU32OfDec(page.revision, "revision");
    ParseU32OfDec(page.width, "width");
    ParseU32OfDec(page.height, "height");
    ParseU32OfDec(page.dpi, "dpi");
    ParseU32OfDec(page.bitDepth, "bit depth");
  }

  lemma FlagIsDec(b: bool)
    ensures Flag(b) == Dec(if b then 1 else 0)
  {
  }

  lemma ReadPrintedEdits(page: Page, start: Page)
    ensures ReadPageEdits(PageFields(page), start)
            == Ok(start.(rotation := page.rotation, included := page.included, crop := page.crop))
  {
    hide Dec, SignedDec, EncodeField, ParseU32;
    var crop := CropOrZero(page);
    FlagIsDec(page.included);
    FlagIsDec(page.crop.Some?);
    ParseU32OfDec(page.rotation, "rotation");
    ParseU32OfDec(if page.included then 1 else 0, "included flag");
    ParseU32OfDec(if page.crop.Some? then 1 else 0, "crop flag");
    ParseU32OfDec(crop.x, "crop x");
    ParseU32OfDec(crop.y, "crop y");
    ParseU32OfDec(crop.width, "crop width");
    ParseU32OfDec(crop.height, "crop height");
  }

  lemma ReadPrintedTone(page: Page, edited: Page)
    requires -100 <= page.brightness <= 100 && -100 <= page.contrast <= 100
    ensures ReadPageTone(PageFields(page), edited)
            == Ok(edited.(brightness := page.brightness, contrast := page.contrast))
  {
    hide Dec, SignedDec, EncodeField, ParseI32;
    ParseI32OfSignedDec(page.brightness, "brightness");
    ParseI32OfSignedDec(page.contrast, "contrast");
  }

  predicate ToneInRange(page: Page) {
    -100 <= page.brightness <= 100 && -100 <= page.contrast <= 100
  }

  function WithoutHistory(page: Page): Page {
    page.(preservedMasters := [])
  }

  /** A printed PAGE record is read back, unless its id is taken. */
  lemma ReadPrintedPage(page: Page, st: LoadState)
    requires ToneInRange(page) && st.sawSession && |st.session.pages| < MAX_PAGES
    ensures ReadPage(PageFields(page), true, st)
            == if IndexOfPage(st.session.pages, page.id).Some? then Err("page identifier is duplicated")
               else Ok(st.(session := st.session.(pages := st.session.pages + [WithoutHistory(page)])))
  {
    hide PageFields, ReadPageStart, ReadPageEdits, ReadPageTone, IndexOfPage;
    ReadPrintedStart(page);
    var start := ReadPageStart(PageFields(page)).value;
    ReadPrintedEdits(page, start);
    var edited := ReadPageEdits(PageFields(page), start).value;
    ReadPrintedTone(page, edited);
  }

  // ---------------------------------------------------------------- the loop

  function LoadRest(rest: seq<string>, st: Result<LoadState>): Result<Session> {
    if st.Ok? then LoadLines(rest, true, st.value) else Err(st.error)
  }

  /** One printed line moves the reader on by its record. */
  lemma LoadPrintedLine(fields: seq<string>, rest: seq<string>, st: LoadState)
    requires CleanFields(fields) && fields[0] != "END"
    ensures LoadLines([Line(fields)] + rest, true, st)
            == LoadRest(rest, Record(fields, true, st))
  {
    hide Record, Line, Split, Join;
    JoinIsOneLine(fields);
    SplitFields(fields);
    assert ([Line(fields)] + rest)[1..] == rest;
  }

  lemma SplitFields(fields: seq<string>)
    requires CleanFields(fields)
    ensures Split(Line(fields), '\t') == fields
  {
    SplitJoin(fields, '\t');
  }

  predicate UniqueIds(pages: seq<Page>) {
    forall i, j :: 0 <= i < j < |pages| ==> pages[i].id != pages[j].id
  }

  function HistoryCount(pages: seq<Page>): nat {
    if pages == [] then 0 else |pages[0].preservedMasters| + HistoryCount(pages[1..])
  }

  lemma {:induction false} HistoryCountAppend(pages: seq<Page>, page: Page)
    ensures HistoryCount(pages + [page]) == HistoryCount(pages) + |page.preservedMasters|
  {
    if pages == [] {
      assert (pages + [page])[1..] == [];
    } else {
      HistoryCountAppend(pages[1..], page);
      assert (pages + [page])[1..] == pages[1..] + [page];
    }
  }

  function StateWith(s: Session, pages: seq<Page>, count: nat): LoadState {
    LoadState(true, s.(pages := pages), count)
  }

  lemma LoadHistoryLine(s: Session, done: seq<Page>, page: Page, path: string, count: nat, rest: seq<string>)
    requires IndexOfPage(done, page.id).None? && count < MAX_HISTORY
    ensures LoadLines([Line(HistoryFields(page.id, path))] + rest, true, StateWith(s, done + [page], count))
            == LoadLines(rest, true,
                         StateWith(s, done + [page.(preservedMasters := page.preservedMasters + [path])], count + 1))
  {
    hide LoadLines, EncodeField, DecodeField;
    var st := StateWith(s, done + [page], count);
    var fields := HistoryFields(page.id, path);
    LoadPrintedLine(fields, rest, st);
    FieldRoundTrip(page.id);
    FieldRoundTrip(path);
    var all := done + [page];
    var found := IndexOfPage(all, page.id);
    assert all[|done|].id == page.id;
    assert forall j :: 0 <= j < |done| ==> all[j] == done[j];
    assert found == Some(|done|);
    assert AddHistory(all, |done|, path) == done + [page.(preservedMasters := page.preservedMasters + [path])];
  }

  lemma {:induction false} LoadHistoryLines(
      s: Session, done: seq<Page>, page: Page, histories: seq<string>, count: nat, rest: seq<string>)
    requires IndexOfPage(done, page.id).None? && count + |histories| <= MAX_HISTORY
    ensures LoadLines(HistoryLines(page.id, histories) + rest, true, StateWith(s, done + [page], count))
            == LoadLines(rest, true,
                         StateWith(s, done + [page.(preservedMasters := page.preservedMasters + histories)],
                                   count + |histories|))
    decreases |histories|
  {
    hide LoadLines, IndexOfPage, Line;
    if histories == [] {
      assert HistoryLines(page.id, histories) + rest == rest;
      assert page.preservedMasters + histories == page.preservedMasters;
    } else {
      var more := histories[1..];
      var longer := page.(preservedMasters := page.preservedMasters + [histories[0]]);
      var tail := HistoryLines(page.id, more) + rest;
      LoadHistoryLine(s, done, page, histories[0], count, tail);
      LoadHistoryLines(s, done, longer, more, count + 1, rest);
      assert HistoryLines(page.id, histories) + rest == [Line(HistoryFields(page.id, histories[0]))] + tail;
      assert longer.preservedMasters + more == page.preservedMasters + histories;
    }
  }

  /** The lines of one page: read in full, or refused because the id is taken. */
  lemma LoadPageLines(s: Session, done: seq<Page>, page: Page, count: nat, rest: seq<string>)
    requires ToneInRange(page) && |done| < MAX_PAGES && count + |page.preservedMasters| <= MAX_HISTORY
    ensures LoadLines(PageLines(page) + rest, true, StateWith(s, done, count))
            == if IndexOfPage(done, page.id).Some? then Err("page identifier is duplicated")
               else LoadLines(rest, true, StateWith(s, done + [page], count + |page.preservedMasters|))
  {
    hide LoadLines, IndexOfPage, Line, PageFields, ReadPage, HistoryLines;
    var st := StateWith(s, done, count);
    var tail := HistoryLines(page.id, page.preservedMasters) + rest;
    PageFieldsAreClean(page);
    FirstPageField(page);
    LoadPrintedLine(PageFields(page), tail, st);
    ReadPrintedPage(page, st);
    assert PageLines(page) + rest == [Line(PageFields(page))] + tail;
    if IndexOfPage(done, page.id).None? {
      LoadHistoryLines(s, done, WithoutHistory(page), page.preservedMasters, count, rest);
      assert [] + page.preservedMasters == page.preservedMasters;
    }
  }

  lemma FirstPageField(page: Page)
    ensures PageFields(page)[0] == "PAGE"
  {
  }

  lemma {:induction false} LoadPagesLines(s: Session, done: seq<Page>, todo: seq<Page>, count: nat, rest: seq<string>)
    requires forall p :: p in todo ==> ToneInRange(p)
    requires |done| + |todo| <= MAX_PAGES && count + HistoryCount(todo) <= MAX_HISTORY
    requires UniqueIds(done)
    ensures LoadLines(PagesLines(todo) + rest, true, StateWith(s, done, count))
            == if UniqueIds(done + todo) then LoadLines(rest, true, StateWith(s, done + todo, count + HistoryCount(todo)))
               else Err("page identifier is duplicated")
    decreases |todo|
  {
    hide LoadLines, PageLines, IndexOfPage;
    if todo == [] {
      assert PagesLines(todo) + rest == rest && done + todo == done;
    } else {
      var page, more := todo[0], todo[1..];
      var tail := PagesLines(more) + rest;
      LoadPageLines(s, done, page, count, tail);
      assert PagesLines(todo) + rest == PageLines(page) + tail;
      assert done + todo == done + [page] + more;
      if IndexOfPage(done, page.id).Some? {
        var i := IndexOfPage(done, page.id).value;
        assert (done + todo)[i].id == page.id && (done + todo)[|done|].id == page.id;
      } else {
        assert UniqueIds(done + [page]);
        LoadPagesLines(s, done + [page], more, count + |page.preservedMasters|, rest);
      }
    }
  }

  predicate HeaderValid(s: Session) {
    IsIdentifier(s.sessionId) && IsPlainText(s.createdUtc) && IsIdentifier(s.providerId) && IsIdentifier(s.deviceId)
  }

  lemma LoadSessionLine(s: Session, rest: seq<string>)
    requires HeaderValid(s)
    ensures LoadLines([Line(SessionFields(s))] + rest, true, BLANK_STATE)
            == LoadLines(rest, true, StateWith(s, [], 0))
  {
    hide LoadLines, EncodeField, DecodeField, IsIdentifier, IsPlainText;
    LoadPrintedLine(SessionFields(s), rest, BLANK_STATE);
    FieldRoundTrip(s.sessionId);
    FieldRoundTrip(s.createdUtc);
    FieldRoundTrip(s.providerId);
    FieldRoundTrip(s.deviceId);
  }

  lemma LoadEndLine(st: LoadState)
    requires st.sawSession
    ensures LoadLines(["END"], true, st) == Ok(st.session)
  {
    assert Split("END", '\t') == ["END"];
  }

  lemma {:induction false} ManifestLinesAreLines(s: Session)
    ensures forall l :: l in ManifestLines(s) ==> '\n' !in l
  {
    hide Line, PagesLines;
    JoinIsOneLine(SessionFields(s));
    PagesLinesAreLines(s.pages);
  }

  lemma {:induction false} HistoryLinesAreLines(id: string, histories: seq<string>)
    ensures forall l :: l in HistoryLines(id, histories) ==> '\n' !in l
  {
    hide Line;
    if histories != [] {
      HistoryLinesAreLines(id, histories[1..]);
      JoinIsOneLine(HistoryFields(id, histories[0]));
    }
  }

  lemma {:induction false} PagesLinesAreLines(pages: seq<Page>)
    ensures forall l :: l in PagesLines(pages) ==> '\n' !in l
  {
    hide Line, PageFields, HistoryLines;
    if pages != [] {
      PagesLinesAreLines(pages[1..]);
      PageFieldsAreClean(pages[0]);
      JoinIsOneLine(PageFields(pages[0]));
      HistoryLinesAreLines(pages[0].id, pages[0].preservedMasters);
    }
  }

  predicate WithinLimits(s: Session) {
    HeaderValid(s) && |s.pages| <= MAX_PAGES && HistoryCount(s.pages) <= MAX_HISTORY
    && forall p :: p in s.pages ==> ToneInRange(p)
  }

  /** Reading the printed manifest gives the session back exactly when its page ids are distinct. */
  lemma ParseRoundTrip(s: Session)
    requires WithinLimits(s)
    ensures ParseManifest(ManifestText(s))
            == if UniqueIds(s.pages) then Ok(s) else Err("page identifier is duplicated")
  {
    hide LoadLines, Unlines, PagesLines, GetLines, Line;
    var lines := ManifestLines(s);
    ManifestLinesAreLines(s);
    GetLinesOfUnlines(lines);
    var tail := PagesLines(s.pages) + ["END"];
    assert lines[0] == "JSCAN\t2" && lines[1..] == [Line(SessionFields(s))] + tail;
    LoadSessionLine(s, tail);
    LoadPagesLines(s, [], s.pages, 0, ["END"]);
    assert [] + s.pages == s.pages;
    if UniqueIds(s.pages) {
      LoadEndLine(StateWith(s, s.pages, HistoryCount(s.pages)));
    }
  }

  // --------------------------------------------------------------- version 1

  predicate IsPageLine(line: string) {
    StripCr(line) != "" && Split(StripCr(line), '\t')[0] == "PAGE"
  }

  /** A version 1 line as version 2 writes it: a page gets brightness 0 and contrast 0. */
  function UpgradedLine(line: string): string {
    if IsPageLine(line) then StripCr(line) + "\t" + "0\t0" else line
  }

  function Upgraded(lines: seq<string>): (r: seq<string>)
    ensures |r| == |lines|
  {
    if lines == [] then [] else [UpgradedLine(lines[0])] + Upgraded(lines[1..])
  }

  lemma UpgradedPageFields(line: string)
    requires IsPageLine(line)
    ensures StripCr(UpgradedLine(line)) == UpgradedLine(line) && UpgradedLine(line) != ""
    ensures Split(UpgradedLine(line), '\t') == Split(StripCr(line), '\t') + ["0", "0"]
  {
    var s := StripCr(line);
    assert "\t" == ['\t'];
    SplitAppend(s, '\t', "0\t0");
    SplitAppend("0", '\t', "0");
    assert "0\t0" == "0" + ['\t'] + "0";
    assert Split("0", '\t') == ["0"];
  }

  /** The appended tone fields read as tone 0, 0. */
  lemma ReadUpgradedPage(fields: seq<string>, st: LoadState)
    ensures ReadPage(fields + ["0", "0"], true, st) == ReadPage(fields, false, st)
  {
    hide IndexOfPage, ParseU32, DecodeField;
    var longer := fields + ["0", "0"];
    if |fields| == 18 {
      assert forall k :: 0 <= k < 18 ==> longer[k] == fields[k];
      assert longer[18] == "0" && longer[19] == "0";
      assert ReadPageStart(longer) == ReadPageStart(fields);
      if ReadPageStart(fields).Ok? {
        var start := ReadPageStart(fields).value;
        NoToneAtStart(fields);
        assert ReadPageEdits(longer, start) == ReadPageEdits(fields, start);
        if ReadPageEdits(fields, start).Ok? {
          var edited := ReadPageEdits(fields, start).value;
          assert ParseI32("0", "brightness") == Ok(0) && ParseI32("0", "contrast") == Ok(0);
          assert edited.(brightness := 0, contrast := 0) == edited;
        }
      }
    }
  }

  lemma NoToneAtStart(fields: seq<string>)
    requires |fields| >= 18 && ReadPageStart(fields).Ok?
    ensures ReadPageStart(fields).value.brightness == 0 && ReadPageStart(fields).value.contrast == 0
  {
  }

  lemma RecordIgnoresVersion(fields: seq<string>, st: LoadState)
    requires fields != [] && fields[0] != "PAGE"
    ensures Record(fields, true, st) == Record(fields, false, st)
  {
  }

  lemma RecordOfPage(fields: seq<string>, versionTwo: bool, st: LoadState)
    requires fields != [] && fields[0] == "PAGE"
    ensures Record(fields, versionTwo, st) == ReadPage(fields, versionTwo, st)
  {
  }

  lemma {:induction false} LoadUpgradedLines(lines: seq<string>, st: LoadState)
    ensures LoadLines(Upgraded(lines), true, st) == LoadLines(lines, false, st)
    decreases |lines|
  {
    hide Record, Split, ReadPage;
    if lines != [] {
      var line := StripCr(lines[0]);
      var upgraded := Upgraded(lines);
      assert upgraded[1..] == Upgraded(lines[1..]);
      if line != "" {
        var fields := Split(line, '\t');
        if IsPageLine(lines[0]) {
          UpgradedPageFields(lines[0]);
          ReadUpgradedPage(fields, st);
          RecordOfPage(fields, false, st);
          RecordOfPage(fields + ["0", "0"], true, st);
        } else {
          RecordIgnoresVersion(fields, st);
        }
        if fields[0] != "END" && Record(fields, false, st).Ok? {
          LoadUpgradedLines(lines[1..], Record(fields, false, st).value);
        }
      }
    }
  }

  /** Every version 1 text, valid or not and with or without a last newline, loads like the version 2 text with neutral
      tone. */
  lemma VersionOneLoadsAsUpgraded(text: string)
    requires GetLines(text) != [] && GetLines(text)[0] == "JSCAN\t1"
    ensures ParseManifest(text) == ParseManifest(Unlines(["JSCAN\t2"] + Upgraded(GetLines(text)[1..])))
  {
    hide LoadLines, Unlines, Upgraded, GetLines;
    var lines := GetLines(text)[1..];
    LinesHaveNoNewline(text);
    UpgradedAreLines(lines);
    GetLinesOfUnlines(["JSCAN\t2"] + Upgraded(lines));
    LoadUpgradedLines(lines, BLANK_STATE);
    assert (["JSCAN\t2"] + Upgraded(lines))[1..] == Upgraded(lines);
  }

  lemma LinesHaveNoNewline(text: string)
    ensures forall l :: l in GetLines(text) ==> '\n' !in l
  {
  }

  lemma {:induction false} UpgradedAreLines(lines: seq<string>)
    requires forall l :: l in lines ==> '\n' !in l
    ensures forall l :: l in Upgraded(lines) ==> '\n' !in l
  {
    hide Split;
    if lines != [] {
      assert '\n' !in lines[0];
      UpgradedAreLines(lines[1..]);
    }
  }
}
