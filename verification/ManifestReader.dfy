/** Reading a manifest back, and the round trip with the printer. */
module ManifestReader {
  import opened Text
  import opened Pages
  import opened Manifest

  /** What load_manifest has gathered so far. */
  datatype LoadState = LoadState(sawSession: bool, session: Session, historyCount: nat)

  const BLANK_STATE := LoadState(false, Session("", "", "", "", []), 0)

  /** The lines std::getline delivers: a last line may lack its newline, an empty one is no line. */
  function GetLines(text: string): seq<string> {
    var parts := Split(text, '\n');
    if parts[|parts| - 1] == "" then parts[..|parts| - 1] else parts
  }

  function StripCr(line: string): string {
    if line != "" && line[|line| - 1] == '\r' then line[..|line| - 1] else line
  }

  function IndexOfPage(pages: seq<Page>, id: string): (r: Option<nat>)
    ensures r.Some? ==> r.value < |pages| && pages[r.value].id == id
    ensures r.Some? ==> forall j :: 0 <= j < r.value ==> pages[j].id != id
    ensures r.None? <==> forall j :: 0 <= j < |pages| ==> pages[j].id != id
  {
    if pages == [] then None
    else if pages[0].id == id then Some(0)
    else
      var r := IndexOfPage(pages[1..], id);
      if r.None? then None else Some(r.value + 1)
  }

  // ----------------------------------------------------------------- records

  function ReadSession(fields: seq<string>, st: LoadState): Result<LoadState> {
    if st.sawSession || st.session.pages != [] || |fields| != 5 then Err("session record is invalid")
    else
      var sessionId :- DecodeField(fields[1]);
      var createdUtc :- DecodeField(fields[2]);
      var providerId :- DecodeField(fields[3]);
      var deviceId :- DecodeField(fields[4]);
      var _ :- RequireIdentifier(sessionId, "session id");
      var _ :- RequireText(createdUtc, "creation time");
      var _ :- RequireIdentifier(providerId, "provider id");
      var _ :- RequireIdentifier(deviceId, "device id");
      Ok(st.(sawSession := true, session := Session(sessionId, createdUtc, providerId, deviceId, st.session.pages)))
  }

  /** Fields 1 to 10: identity, size and source; the rest of the page has its defaults. */
  function ReadPageStart(fields: seq<string>): Result<Page>
    requires |fields| >= 18
  {
    var id :- DecodeField(fields[1]);
    var fixtureId :- DecodeField(fields[2]);
    var master :- DecodeField(fields[3]);
    var revision :- ParseU32(fields[4], "revision");
    var width :- ParseU32(fields[5], "width");
    var height :- ParseU32(fields[6], "height");
    var dpi :- ParseU32(fields[7], "dpi");
    var color :- ParseColor(fields[8]);
    var bitDepth :- ParseU32(fields[9], "bit depth");
    var source :- ParseSource(fields[10]);
    Ok(Page(id, fixtureId, master, [], revision, width, height, dpi, color, bitDepth, source, 0, None, 0, 0, true))
  }

  /** Fields 11 to 17: rotation, flags and crop. */
  function ReadPageEdits(fields: seq<string>, page: Page): Result<Page>
    requires |fields| >= 18
  {
    var rotation :- ParseU32(fields[11], "rotation");
    if rotation > 0xFFFF then Err("rotation is invalid") else
    var included :- ParseU32(fields[12], "included flag");
    var hasCrop :- ParseU32(fields[13], "crop flag");
    if included > 1 || hasCrop > 1 then Err("page flags are invalid") else
    var x :- ParseU32(fields[14], "crop x");
    var y :- ParseU32(fields[15], "crop y");
    var width :- ParseU32(fields[16], "crop width");
    var height :- ParseU32(fields[17], "crop height");
    Ok(page.(rotation := rotation, included := included == 1,
             crop := if hasCrop == 1 then Some(CropRect(x, y, width, height)) else None))
  }

  /** Fields 18 and 19, which version 2 added. */
  function ReadPageTone(fields: seq<string>, page: Page): Result<Page>
    requires |fields| >= 20
  {
    var brightness :- ParseI32(fields[18], "brightness");
    var contrast :- ParseI32(fields[19], "contrast");
    if brightness < -100 || brightness > 100 || contrast < -100 || contrast > 100
    then Err("page tone settings are invalid")
    else Ok(page.(brightness := brightness, contrast := contrast))
  }

  function ReadPage(fields: seq<string>, versionTwo: bool, st: LoadState): Result<LoadState> {
    var expected := if versionTwo then 20 else 18;
    if !st.sawSession || |fields| != expected || |st.session.pages| >= MAX_PAGES then Err("page record is invalid")
    else
      var start :- ReadPageStart(fields);
      var edited :- ReadPageEdits(fields, start);
      var page :- if versionTwo then ReadPageTone(fields, edited) else Ok(edited);
      if IndexOfPage(st.session.pages, page.id).Some? then Err("page identifier is duplicated")
      else Ok(st.(session := st.session.(pages := st.session.pages + [page])))
  }

  function ReadHistory(fields: seq<string>, st: LoadState): Result<LoadState> {
    if !st.sawSession || |fields| != 3 || st.historyCount + 1 > MAX_HISTORY then Err("history record is invalid")
    else
      var id :- DecodeField(fields[1]);
      var found := IndexOfPage(st.session.pages, id);
      if found.None? then Err("page does not exist")
      else
        var path :- DecodeField(fields[2]);
        Ok(st.(session := st.session.(pages := AddHistory(st.session.pages, found.value, path)),
               historyCount := st.historyCount + 1))
  }

  function AddHistory(pages: seq<Page>, i: nat, path: string): seq<Page>
    requires i < |pages|
  {
    pages[i := pages[i].(preservedMasters := pages[i].preservedMasters + [path])]
  }

  function Record(fields: seq<string>, versionTwo: bool, st: LoadState): Result<LoadState>
    requires fields != []
  {
    if fields[0] == "SESSION" then ReadSession(fields, st)
    else if fields[0] == "PAGE" then ReadPage(fields, versionTwo, st)
    else if fields[0] == "HISTORY" then ReadHistory(fields, st)
    else Err("session manifest contains an unknown record")
  }

  // ------------------------------------------------------------------ reader

  function LoadLines(lines: seq<string>, versionTwo: bool, st: LoadState): Result<Session> {
    if lines == [] then Err("session manifest is incomplete")
    else
      var line := StripCr(lines[0]);
      if line == "" then Err("session manifest contains an empty record")
      else
        var fields := Split(line, '\t');
        if fields[0] == "END" then
          if !st.sawSession || |fields| != 1 then Err("end record is invalid")
          else if |lines| > 1 then Err("session manifest has trailing records")
          else Ok(st.session)
        else
          var next :- Record(fields, versionTwo, st);
          LoadLines(lines[1..], versionTwo, next)
  }

  function ParseManifest(text: string): Result<Session> {
    var lines := GetLines(text);
    if lines == [] || (lines[0] != "JSCAN\t1" && lines[0] != "JSCAN\t2") then Err("session manifest header is invalid")
    else LoadLines(lines[1..], lines[0] == "JSCAN\t2", BLANK_STATE)
  }

  function ValidatePages(pages: seq<Page>, files: set<string>): (r: Result<()>)
    ensures r.Ok? <==> forall p :: p in pages ==> ValidPage(p, files)
  {
    if pages == [] then Ok(())
    else var _ :- ValidatePage(pages[0], files); ValidatePages(pages[1..], files)
  }

  /** load_manifest: read, parse, and check every page against the files. */
  function LoadManifest(files: Files, path: string): Result<Session> {
    var text :- ReadBoundedFile(files, path, MAX_MANIFEST_BYTES, "session manifest is unavailable");
    var session :- ParseManifest(text);
    var _ :- ValidatePages(session.pages, files.Keys);
    Ok(session)
  }

  /** The line loop of load_manifest. */
  method ReadManifest(files: Files, path: string) returns (r: Result<Session>)
    ensures r == LoadManifest(files, path)
  {
    hide Record, ValidatePages, Split;
    var text :- ReadBoundedFile(files, path, MAX_MANIFEST_BYTES, "session manifest is unavailable");
    var lines := GetLines(text);
    if lines == [] || (lines[0] != "JSCAN\t1" && lines[0] != "JSCAN\t2") {
      return Err("session manifest header is invalid");
    }
    var versionTwo := lines[0] == "JSCAN\t2";
    var st := BLANK_STATE;
    var sawEnd := false;
    var i := 1;
    while i < |lines| && !sawEnd
      invariant 1 <= i <= |lines|
      invariant !sawEnd ==> ParseManifest(text) == LoadLines(lines[i..], versionTwo, st)
      invariant sawEnd ==> ParseManifest(text) == Ok(st.session)
      decreases |lines| - i
    {
      var line := StripCr(lines[i]);
      assert lines[i..][1..] == lines[i + 1..];
      if line == "" {
        return Err("session manifest contains an empty record");
      }
      var fields := Split(line, '\t');
      if fields[0] == "END" {
        if !st.sawSession || |fields| != 1 {
          return Err("end record is invalid");
        }
        sawEnd := true;
        if i + 1 < |lines| {
          return Err("session manifest has trailing records");
        }
      } else {
        st :- Record(fields, versionTwo, st);
      }
      i := i + 1;
    }
    if !sawEnd {
      return Err("session manifest is incomplete");
    }
    var session := st.session;
    var _ :- ValidatePages(session.pages, files.Keys);
    return Ok(session);
  }
}
