/** What save demands and does, by file name, and what a loaded session can do. */
module StoreLaws {
  import opened Text
  import opened Pages
  import opened Manifest
  import opened ManifestReader
  import opened ManifestRoundTrip
  import opened ManifestLaws
  import opened SessionStore

  // ------------------------------------------------------------------- validity

  /** One to 64 letters, digits, dashes, underscores and dots. */
  predicate IsName(s: string) {
    1 <= |s| <= 64
    && forall i :: 0 <= i < |s| ==>
         'A' <= s[i] <= 'Z' || 'a' <= s[i] <= 'z' || '0' <= s[i] <= '9' || s[i] == '-' || s[i] == '_' || s[i] == '.'
  }

  /** One to 128 characters without control characters. */
  predicate IsPlain(s: string) {
    1 <= |s| <= 128 && forall i :: 0 <= i < |s| ==> s[i] as int >= 0x20 && s[i] as int != 0x7f
  }

  /** A relative path without a step that leads nowhere or up. */
  predicate StaysInside(path: string) {
    path != "" && path[0] != '/' && path[|path| - 1] != '/'
    && var steps := Split(path, '/'); forall i :: 0 <= i < |steps| ==> steps[i] != "." && steps[i] != ".."
  }

  /** A page as it has to be, with its masters on the disk. */
  predicate PageFits(p: Page, files: set<string>) {
    IsName(p.id) && IsName(p.fixtureId) && StaysInside(p.currentMaster) && p.currentMaster in files
    && p.revision >= 1 && p.width >= 1 && p.height >= 1 && p.dpi >= 1 && p.bitDepth == 8
    && (p.rotation == 0 || p.rotation == 90 || p.rotation == 180 || p.rotation == 270)
    && -100 <= p.brightness <= 100 && -100 <= p.contrast <= 100
    && (p.crop.Some? ==>
          var c := p.crop.value;
          c.width >= 1 && c.height >= 1 && c.x + c.width <= p.width && c.y + c.height <= p.height)
    && forall i :: 0 <= i < |p.preservedMasters| ==> StaysInside(p.preservedMasters[i]) && p.preservedMasters[i] in files
  }

  lemma NameIs(s: string)
    ensures IsIdentifier(s) <==> IsName(s)
  {
  }

  lemma PathIs(path: string)
    ensures SafeRelativePath(path) <==> StaysInside(path)
  {
    hide Split;
    var steps := Split(path, '/');
    assert forall i :: 0 <= i < |steps| ==> steps[i] in steps;
    assert forall part :: part in steps ==> exists i :: 0 <= i < |steps| && steps[i] == part;
  }

  lemma PageFitsIs(p: Page, files: set<string>)
    ensures ValidPage(p, files) <==> PageFits(p, files)
  {
    NameIs(p.id);
    NameIs(p.fixtureId);
    PathIs(p.currentMaster);
    forall h ensures SafeRelativePath(h) <==> StaysInside(h) {
      PathIs(h);
    }
    hide IsIdentifier, IsName, SafeRelativePath, StaysInside;
  }

  function AllHistories(pages: seq<Page>): nat {
    if pages == [] then 0 else AllHistories(pages[..|pages| - 1]) + |pages[|pages| - 1].preservedMasters|
  }

  lemma {:induction false} HistoriesAre(pages: seq<Page>)
    ensures HistoryCount(pages) == AllHistories(pages)
  {
    if pages != [] {
      var front, last := pages[..|pages| - 1], pages[|pages| - 1];
      HistoriesAre(front);
      HistoryCountAppend(front, last);
      assert pages == front + [last];
    }
  }

  /** A save succeeds exactly for valid names and time, at most 10000 pages, all of them valid, at most 100000 earlier masters
      and a manifest of at most a megabyte, where the file system plays along. */
  lemma SaveSucceedsIff(files: Files, s: Session, io: SaveIo)
    ensures SaveOutcome(files, s, io).1.Ok?
            <==> IsName(s.sessionId) && IsPlain(s.createdUtc) && IsName(s.providerId) && IsName(s.deviceId)
                 && |s.pages| <= 10000 && (forall p :: p in s.pages ==> PageFits(p, files.Keys))
                 && AllHistories(s.pages) <= 100000 && |ManifestText(s)| <= 1048576
                 && (io.Works? || (io.CopyFails? && "session.jscan" !in files))
  {
    hide ManifestText, ValidPage, PageFits, IsIdentifier, IsName;
    NameIs(s.sessionId);
    NameIs(s.providerId);
    NameIs(s.deviceId);
    HistoriesAre(s.pages);
    forall p ensures ValidPage(p, files.Keys) <==> PageFits(p, files.Keys) {
      PageFitsIs(p, files.Keys);
    }
  }

  // ------------------------------------------------------------------- the files

  predicate SameFile(files: Files, d: Files, path: string) {
    (path in d <==> path in files) && (path in files ==> d[path] == files[path])
  }

  /** A save that succeeds leaves the printed manifest as session.jscan, the one before it, if any, as session.jscan.bak, and no
      session.jscan.tmp; one that fails leaves session.jscan as it was; and no other file is touched. */
  lemma SaveTouchesItsFiles(files: Files, s: Session, io: SaveIo)
    ensures var (d, r) := SaveOutcome(files, s, io);
            (forall path :: path != "session.jscan" && path != "session.jscan.bak" && path != "session.jscan.tmp" ==>
               SameFile(files, d, path))
            && (r.Err? ==> SameFile(files, d, "session.jscan"))
            && (r.Ok? ==>
                  "session.jscan" in d && d["session.jscan"] == ManifestText(s) && "session.jscan.tmp" !in d
                  && (if "session.jscan" in files
                      then "session.jscan.bak" in d && d["session.jscan.bak"] == files["session.jscan"]
                      else SameFile(files, d, "session.jscan.bak")))
  {
    hide ManifestText, CheckSession, SaveOutcome, SameFile;
    var (d, r) := SaveOutcome(files, s, io);
    forall path | path != "session.jscan" && path != "session.jscan.bak" && path != "session.jscan.tmp"
      ensures SameFile(files, d, path) {
      OtherFileStays(files, s, io, path);
    }
    if r.Err? {
      FailedSaveKeepsCurrent(files, s, io);
    } else {
      DoneSaveWrites(files, s, io);
    }
  }

  lemma OtherFileStays(files: Files, s: Session, io: SaveIo, path: string)
    requires path != "session.jscan" && path != "session.jscan.bak" && path != "session.jscan.tmp"
    ensures SameFile(files, SaveOutcome(files, s, io).0, path)
  {
    hide ManifestText, CheckSession;
  }

  lemma FailedSaveKeepsCurrent(files: Files, s: Session, io: SaveIo)
    requires SaveOutcome(files, s, io).1.Err?
    ensures SameFile(files, SaveOutcome(files, s, io).0, "session.jscan")
  {
    hide ManifestText, CheckSession;
    NamesDiffer();
  }

  lemma DoneSaveWrites(files: Files, s: Session, io: SaveIo)
    requires SaveOutcome(files, s, io).1.Ok?
    ensures var d := SaveOutcome(files, s, io).0;
            "session.jscan" in d && d["session.jscan"] == ManifestText(s) && "session.jscan.tmp" !in d
            && (if "session.jscan" in files
                then "session.jscan.bak" in d && d["session.jscan.bak"] == files["session.jscan"]
                else SameFile(files, d, "session.jscan.bak"))
  {
    hide ManifestText, CheckSession;
    NamesDiffer();
  }

  lemma NamesDiffer()
    ensures CURRENT == "session.jscan" && BACKUP == "session.jscan.bak" && STAGE == "session.jscan.tmp"
    ensures CURRENT != BACKUP && CURRENT != STAGE && BACKUP != STAGE
  {
    assert |BACKUP| == 17 && BACKUP[14] == 'b' && STAGE[14] == 't';
  }

  /** Loading takes session.jscan if it can, and session.jscan.bak where it cannot, and says which. */
  lemma LoadPrefersTheCurrent(files: Files)
    ensures Load(files)
            == if LoadManifest(files, "session.jscan").Ok? then Ok((LoadManifest(files, "session.jscan").value, false))
               else if LoadManifest(files, "session.jscan.bak").Ok?
               then Ok((LoadManifest(files, "session.jscan.bak").value, true))
               else Err("no valid session manifest is available")
  {
    hide LoadManifest;
  }

  /** What was loaded can be saved, if its manifest is not too large, and is loaded again, if no page of it lives in the stage
      file. */
  lemma LoadSaveLoad(files: Files)
    requires Load(files).Ok? && |ManifestText(Load(files).value.0)| <= 1048576
    ensures var s := Load(files).value.0;
            SaveOutcome(files, s, Works).1 == Ok(())
            && (!NamesStage(s) ==> Load(SaveOutcome(files, s, Works).0) == Ok((s, false)))
  {
    hide ManifestText, LoadManifest, NamesStage, Savable, CheckSession;
    var s := Load(files).value.0;
    LoadedIsSound(files, if LoadManifest(files, CURRENT).Ok? then CURRENT else BACKUP);
    SavableIsChecked(s, files.Keys);
    if !NamesStage(s) {
      SavedManifestLoads(files, SaveOutcome(files, s, Works).0, s);
    }
  }

  lemma SavableIsChecked(s: Session, files: set<string>)
    ensures CheckSession(s, files).Ok? <==> Savable(s, files)
  {
  }
}
