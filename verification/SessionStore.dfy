/** Saving a session through a stage file and loading it again, with a crash allowed at any moment. */
module SessionStore {
  import opened Text
  import opened Pages
  import opened Manifest
  import opened ManifestReader
  import opened ManifestRoundTrip

  const CURRENT := "session.jscan"
  const BACKUP := "session.jscan.bak"
  const STAGE := "session.jscan.tmp"

  // -------------------------------------------------------------------- disk

  ghost predicate DiffersAt(files: Files, d: Files, path: string) {
    path in d && d == files[path := d[path]]
  }

  /** The disks on which `path` holds anything at all: what a write leaves, torn or done. */
  ghost function AnyContent(files: Files, path: string): iset<Files> {
    iset d: Files | DiffersAt(files, d, path)
  }

  /** Files by path. `crashes` gathers every disk that stopping the program could leave. */
  class Disk {
    var files: Files
    ghost var crashes: iset<Files>

    constructor (files: Files)
      ensures this.files == files && crashes == iset{files}
    {
      this.files := files;
      this.crashes := iset{files};
    }

    /** A write may tear: until it is done the file may hold anything. */
    method Write(path: string, bytes: string)
      modifies this
      ensures files == old(files)[path := bytes]
      ensures crashes == old(crashes) + AnyContent(old(files), path)
    {
      crashes := crashes + AnyContent(files, path);
      files := files[path := bytes];
    }

    method Copy(from: string, to: string)
      requires from in files
      modifies this
      ensures files == old(files)[to := old(files)[from]]
      ensures crashes == old(crashes) + AnyContent(old(files), to)
    {
      Write(to, files[from]);
    }

    /** Renaming is atomic: the target has its old or its new content. */
    method Rename(from: string, to: string)
      requires from in files
      modifies this
      ensures files == old(files)[to := old(files)[from]] - {from}
      ensures crashes == old(crashes) + iset{files}
    {
      files := files[to := files[from]] - {from};
      crashes := crashes + iset{files};
    }

    method Remove(path: string)
      modifies this
      ensures files == old(files) - {path}
      ensures crashes == old(crashes) + iset{files}
    {
      files := files - {path};
      crashes := crashes + iset{files};
    }
  }

  // -------------------------------------------------------------------- save

  /** The step of a save at which the file system reports an error, if any;
      `torn` is what the failed write leaves, None where it could not even begin. */
  datatype SaveIo = Works | StageFails(torn: Option<string>) | CopyFails(torn: Option<string>) | RenameFails

  function Torn(files: Files, path: string, torn: Option<string>): Files {
    if torn.Some? then files[path := torn.value] else files
  }

  /** What save demands of a session before it writes anything. */
  predicate Savable(s: Session, files: set<string>) {
    HeaderValid(s) && |s.pages| <= MAX_PAGES
    && (forall p :: p in s.pages ==> ValidPage(p, files))
    && HistoryCount(s.pages) <= MAX_HISTORY
  }

  function CheckPages(pages: seq<Page>, files: set<string>, records: nat): (r: Result<()>)
    requires records <= MAX_HISTORY
    ensures r.Ok? <==> (forall p :: p in pages ==> ValidPage(p, files)) && records + HistoryCount(pages) <= MAX_HISTORY
  {
    if pages == [] then Ok(())
    else
      var _ :- ValidatePage(pages[0], files);
      if |pages[0].preservedMasters| > MAX_HISTORY - records then Err("session history limit was reached")
      else CheckPages(pages[1..], files, records + |pages[0].preservedMasters|)
  }

  function CheckSession(s: Session, files: set<string>): (r: Result<()>)
    ensures r.Ok? <==> Savable(s, files)
  {
    var _ :- RequireIdentifier(s.sessionId, "session id");
    var _ :- RequireText(s.createdUtc, "creation time");
    var _ :- RequireIdentifier(s.providerId, "provider id");
    var _ :- RequireIdentifier(s.deviceId, "device id");
    if |s.pages| > MAX_PAGES then Err("session page limit was reached") else CheckPages(s.pages, files, 0)
  }

  /** The disk with the old manifest, if there is one, copied over the backup. */
  function Kept(files: Files): Files {
    if CURRENT in files then files[BACKUP := files[CURRENT]] else files
  }

  /** The disk once a save has gone through. */
  function Published(files: Files, s: Session): Files {
    Kept(files)[CURRENT := ManifestText(s)] - {STAGE}
  }

  /** Disk and outcome of a save. */
  function SaveOutcome(files: Files, s: Session, io: SaveIo): (Files, Result<()>) {
    var check := CheckSession(s, files.Keys);
    if check.Err? then (files, check)
    else if io.StageFails? then (Torn(files, STAGE, io.torn), Err("session could not be staged"))
    else if |ManifestText(s)| > MAX_MANIFEST_BYTES then (files - {STAGE}, Err("session manifest exceeds its safe limit"))
    else if io.CopyFails? && CURRENT in files then
      (Torn(files, BACKUP, io.torn) - {STAGE}, Err("session backup could not be written"))
    else if io.RenameFails? then (Kept(files) - {STAGE}, Err("session could not be published"))
    else (Published(files, s), Ok(()))
  }

  /** Exactly the disks that a save passes through after the one it starts from: stopping it anywhere leaves one of them. */
  ghost function SaveCrashes(files: Files, s: Session, io: SaveIo): iset<Files> {
    if CheckSession(s, files.Keys).Err? then iset{}
    else if io.StageFails? then (if io.torn.Some? then AnyContent(files, STAGE) else iset{})
    else AnyContent(files, STAGE) + CopyCrashes(files, s, io) + iset{SaveOutcome(files, s, io).0}
  }

  /** Those that come of the copy of the old manifest over the backup. */
  ghost function CopyCrashes(files: Files, s: Session, io: SaveIo): iset<Files> {
    if |ManifestText(s)| > MAX_MANIFEST_BYTES || CURRENT !in files || (io.CopyFails? && io.torn.None?) then iset{}
    else AnyContent(files[STAGE := ManifestText(s)], BACKUP)
  }

  /** What a save that may fail at any step, stopped anywhere, leaves. */
  ghost predicate SaveMayLeave(files: Files, s: Session, d: Files) {
    d == files || exists io :: d in SaveCrashes(files, s, io)
  }

  /** Equal files, but for the stage file and, where there is a manifest to keep, the backup. */
  ghost predicate OnlyScratchDiffers(files: Files, d: Files) {
    (forall path :: path in files && path != STAGE && path != BACKUP ==> path in d && d[path] == files[path])
    && (forall path :: path in d && path != STAGE && path != BACKUP ==> path in files)
    && (BACKUP in files ==> BACKUP in d)
    && (CURRENT !in files ==> (BACKUP in d <==> BACKUP in files) && (BACKUP in d ==> d[BACKUP] == files[BACKUP]))
  }

  /** ScanSession::save: it passes through exactly the disks of SaveCrashes and ends as SaveOutcome says. */
  method Save(disk: Disk, s: Session, io: SaveIo) returns (r: Result<()>)
    modifies disk
    ensures (disk.files, r) == SaveOutcome(old(disk.files), s, io)
    ensures disk.crashes == old(disk.crashes) + SaveCrashes(old(disk.files), s, io)
  {
    hide ManifestText, Savable, CheckSession, AnyContent;
    ghost var files := disk.files;
    var _ :- CheckSession(s, disk.files.Keys);
    if io.StageFails? {
      if io.torn.Some? {
        disk.Write(STAGE, io.torn.value);
      }
      return Err("session could not be staged");
    }
    var text := PrintManifest(s);
    disk.Write(STAGE, text);
    ManifestIsNotEmpty(s);
    if |text| == 0 || |text| > MAX_MANIFEST_BYTES {
      disk.Remove(STAGE);
      WriteThenRemove(files, STAGE, text);
      return Err("session manifest exceeds its safe limit");
    }
    if CURRENT in disk.files {
      if io.CopyFails? {
        if io.torn.Some? {
          disk.Write(BACKUP, io.torn.value);
          WriteBothThenRemove(files, STAGE, text, BACKUP, io.torn.value);
        }
        disk.Remove(STAGE);
        WriteThenRemove(files, STAGE, text);
        return Err("session backup could not be written");
      }
      disk.Copy(CURRENT, BACKUP);
      WriteBothThenRemove(files, STAGE, text, BACKUP, files[CURRENT]);
    }
    WriteThenRemove(files, STAGE, text);
    if io.RenameFails? {
      disk.Remove(STAGE);
      return Err("session could not be published");
    }
    disk.Rename(STAGE, CURRENT);
    StagedIsPublished(files, s);
    return Ok(());
  }

  lemma WriteThenRemove(files: Files, p: string, x: string)
    ensures files[p := x] - {p} == files - {p}
  {
  }

  lemma WriteBothThenRemove(files: Files, p: string, x: string, q: string, y: string)
    requires p != q
    ensures files[p := x][q := y] - {p} == files[q := y] - {p}
  {
  }

  lemma StagedIsPublished(files: Files, s: Session)
    ensures var staged := files[STAGE := ManifestText(s)];
            var kept := if CURRENT in files then staged[BACKUP := files[CURRENT]] else staged;
            kept[CURRENT := ManifestText(s)] - {STAGE} == Published(files, s)
  {
    hide ManifestText;
  }

  predicate Scratch(files: Files, path: string) {
    path == STAGE || (path == BACKUP && CURRENT in files)
  }

  lemma NothingDiffers(files: Files)
    ensures OnlyScratchDiffers(files, files)
  {
  }

  lemma ScratchWritten(files: Files, e: Files, path: string, bytes: string)
    requires OnlyScratchDiffers(files, e) && Scratch(files, path)
    ensures OnlyScratchDiffers(files, e[path := bytes])
  {
  }

  lemma StageRemoved(files: Files, e: Files)
    requires OnlyScratchDiffers(files, e)
    ensures OnlyScratchDiffers(files, e - {STAGE})
  {
  }

  lemma CopyLeavesScratch(files: Files, s: Session, io: SaveIo, d: Files)
    requires d in CopyCrashes(files, s, io)
    ensures OnlyScratchDiffers(files, d)
  {
    hide ManifestText, OnlyScratchDiffers;
    var staged := files[STAGE := ManifestText(s)];
    NothingDiffers(files);
    ScratchWritten(files, files, STAGE, ManifestText(s));
    ScratchWritten(files, staged, BACKUP, d[BACKUP]);
  }

  lemma OutcomeIsScratchOrPublished(files: Files, s: Session, io: SaveIo)
    ensures var d := SaveOutcome(files, s, io).0;
            OnlyScratchDiffers(files, d)
            || (d == Published(files, s) && Savable(s, files.Keys) && |ManifestText(s)| <= MAX_MANIFEST_BYTES)
  {
    hide ManifestText, OnlyScratchDiffers, Savable, CheckSession;
    NothingDiffers(files);
    StageRemoved(files, files);
    if io.StageFails? && io.torn.Some? {
      ScratchWritten(files, files, STAGE, io.torn.value);
    }
    if CURRENT in files {
      ScratchWritten(files, files, BACKUP, files[CURRENT]);
      if io.CopyFails? && io.torn.Some? {
        ScratchWritten(files, files, BACKUP, io.torn.value);
        StageRemoved(files, files[BACKUP := io.torn.value]);
      }
    }
    StageRemoved(files, Kept(files));
  }

  /** A save leaves the published disk, or one that differs from the old one in the stage file and the backup at most. */
  lemma LeavesScratchOrPublished(files: Files, s: Session, d: Files)
    requires SaveMayLeave(files, s, d)
    ensures OnlyScratchDiffers(files, d)
            || (d == Published(files, s) && Savable(s, files.Keys) && |ManifestText(s)| <= MAX_MANIFEST_BYTES)
  {
    hide ManifestText, Savable, CheckSession, OnlyScratchDiffers, CopyCrashes, SaveOutcome;
    NothingDiffers(files);
    if d != files {
      var io :| d in SaveCrashes(files, s, io);
      if d in CopyCrashes(files, s, io) {
        CopyLeavesScratch(files, s, io, d);
      } else if d == SaveOutcome(files, s, io).0 {
        OutcomeIsScratchOrPublished(files, s, io);
      } else {
        ScratchWritten(files, files, STAGE, d[STAGE]);
      }
    }
  }

  lemma ManifestIsNotEmpty(s: Session)
    ensures ManifestText(s) != ""
  {
    hide Line, PagesLines;
    assert ManifestLines(s)[0] == "JSCAN\t2";
  }

  // -------------------------------------------------------------------- load

  /** ScanSession::load: the session, and whether it came from the backup. */
  function Load(files: Files): Result<(Session, bool)> {
    match LoadManifest(files, CURRENT)
    case Ok(s) => Ok((s, false))
    case Err(_) =>
      match LoadManifest(files, BACKUP)
      case Ok(s) => Ok((s, true))
      case Err(_) => Err("no valid session manifest is available")
  }

  /** Some page keeps its master, or an older one, under the name of the stage file. */
  predicate NamesStage(s: Session) {
    exists p :: p in s.pages && (p.currentMaster == STAGE || STAGE in p.preservedMasters)
  }

  /** Loading looks at the two manifests and at which files exist, never at the stage file's content. */
  lemma LoadReadsOnlyManifests(files: Files, d: Files)
    requires files.Keys == d.Keys
    requires CURRENT in files ==> files[CURRENT] == d[CURRENT]
    requires BACKUP in files ==> files[BACKUP] == d[BACKUP]
    ensures Load(files) == Load(d)
  {
    hide ParseManifest, ValidatePages;
  }

  lemma SameManifestLoads(files: Files, d: Files, path: string, from: string, s: Session)
    requires LoadManifest(files, from) == Ok(s)
    requires path in d && d[path] == files[from]
    requires forall f :: f in files && f != STAGE ==> f in d
    requires !NamesStage(s)
    ensures LoadManifest(d, path) == Ok(s)
  {
    hide ParseManifest;
    forall p | p in s.pages ensures ValidPage(p, d.Keys) {
      assert ValidPage(p, files.Keys);
    }
  }

  /** A loaded session that names the stage file is lost when the stage file goes. */
  lemma WithoutStageItDoesNotLoad(files: Files, d: Files, path: string, from: string, s: Session)
    requires LoadManifest(files, from) == Ok(s)
    requires path in d && d[path] == files[from] && STAGE !in d
    requires NamesStage(s)
    ensures LoadManifest(d, path).Err?
  {
    hide ParseManifest;
    var p :| p in s.pages && (p.currentMaster == STAGE || STAGE in p.preservedMasters);
    assert !ValidPage(p, d.Keys);
  }

  /** The manifest of a saved session loads again exactly when its ids are distinct
      and no page lives in the stage file. */
  lemma SavedManifestLoads(files: Files, d: Files, s: Session)
    requires Savable(s, files.Keys) && |ManifestText(s)| <= MAX_MANIFEST_BYTES
    requires CURRENT in d && d[CURRENT] == ManifestText(s)
    requires STAGE !in d && forall f :: f in files && f != STAGE ==> f in d
    ensures LoadManifest(d, CURRENT) == Ok(s) <==> UniqueIds(s.pages) && !NamesStage(s)
    ensures LoadManifest(d, CURRENT).Ok? ==> LoadManifest(d, CURRENT) == Ok(s)
  {
    hide ParseManifest, ManifestText, HeaderValid;
    ManifestIsNotEmpty(s);
    assert forall p :: p in s.pages ==> ToneInRange(p) by {
      assert forall p :: p in s.pages ==> ValidPage(p, files.Keys);
    }
    ParseRoundTrip(s);
    if NamesStage(s) {
      var p :| p in s.pages && (p.currentMaster == STAGE || STAGE in p.preservedMasters);
      assert !ValidPage(p, d.Keys);
    } else {
      forall p | p in s.pages ensures ValidPage(p, d.Keys) {
        assert ValidPage(p, files.Keys);
      }
    }
  }

  predicate Loadable(s: Session) {
    UniqueIds(s.pages) && !NamesStage(s)
  }

  /** What a completed save over a valid manifest makes of the next load, in every case. */
  lemma LoadAfterSave(files: Files, s0: Session, s1: Session)
    requires LoadManifest(files, CURRENT) == Ok(s0)
    requires Savable(s1, files.Keys) && |ManifestText(s1)| <= MAX_MANIFEST_BYTES
    ensures Load(Published(files, s1))
            == if Loadable(s1) then Ok((s1, false))
               else if !NamesStage(s0) then Ok((s0, true))
               else Err("no valid session manifest is available")
    ensures !NamesStage(s0) ==> LoadManifest(Published(files, s1), BACKUP) == Ok(s0)
  {
    hide LoadManifest, ManifestText, NamesStage, Savable;
    ManifestWasThere(files, s0);
    var d := Published(files, s1);
    SavedManifestLoads(files, d, s1);
    if NamesStage(s0) {
      WithoutStageItDoesNotLoad(files, d, BACKUP, CURRENT, s0);
    } else {
      SameManifestLoads(files, d, BACKUP, CURRENT, s0);
    }
  }

  lemma ManifestWasThere(files: Files, s: Session)
    requires LoadManifest(files, CURRENT) == Ok(s)
    ensures CURRENT in files
  {
  }

  // --------------------------------------------------------------- crash safety

  /** The manifest that stands for the session on a disk: the current one, and the backup only where there is none. */
  function Authority(files: Files): string {
    if CURRENT in files then CURRENT else BACKUP
  }

  /** It loads, and no page of its session lives in the stage file. */
  predicate SafeToSave(files: Files) {
    LoadManifest(files, Authority(files)).Ok? && !NamesStage(LoadManifest(files, Authority(files)).value)
  }

  /** The session that loads now, or the new one. */
  predicate OldOrNew(files: Files, s1: Session, d: Files) {
    Load(files).Ok? && Load(d).Ok? && (Load(d).value.0 == Load(files).value.0 || Load(d).value.0 == s1)
  }

  lemma AuthorityLoads(files: Files)
    requires LoadManifest(files, Authority(files)).Ok?
    ensures Load(files) == Ok((LoadManifest(files, Authority(files)).value, CURRENT !in files))
  {
    hide ParseManifest, ValidatePages;
  }

  /** Stopped anywhere, a save leaves a disk from which the old or the new session loads; the new one is the only other
      one if it can be loaded at all. */
  lemma CrashSafe(files: Files, s1: Session, d: Files)
    requires SafeToSave(files) && SaveMayLeave(files, s1, d)
    ensures OldOrNew(files, s1, d)
    ensures Loadable(s1) && CURRENT in files ==>
              Load(d) == Ok((Load(files).value.0, false)) || Load(d) == Ok((s1, false))
  {
    hide LoadManifest, ManifestText, NamesStage, Savable, OnlyScratchDiffers, SaveMayLeave, Published;
    var path := Authority(files);
    var s0 := LoadManifest(files, path).value;
    AuthorityLoads(files);
    AuthorityWasThere(files);
    LeavesScratchOrPublished(files, s1, d);
    if OnlyScratchDiffers(files, d) {
      ScratchKeepsAuthority(files, d);
      SameManifestLoads(files, d, path, path, s0);
      AuthorityLoads(d);
    } else {
      PublishedLoads(files, s0, s1);
    }
  }

  lemma ScratchKeepsAuthority(files: Files, d: Files)
    requires OnlyScratchDiffers(files, d) && Authority(files) in files
    ensures Authority(d) == Authority(files) && Authority(files) in d && d[Authority(files)] == files[Authority(files)]
    ensures forall f :: f in files && f != STAGE ==> f in d
  {
  }

  /** After a completed save the new session loads, or, if it cannot be loaded, the old one. */
  lemma PublishedLoads(files: Files, s0: Session, s1: Session)
    requires LoadManifest(files, Authority(files)) == Ok(s0) && !NamesStage(s0)
    requires Savable(s1, files.Keys) && |ManifestText(s1)| <= MAX_MANIFEST_BYTES
    ensures Load(Published(files, s1)) == if Loadable(s1) then Ok((s1, false)) else Ok((s0, true))
  {
    hide LoadManifest, ManifestText, NamesStage, Savable;
    var d := Published(files, s1);
    AuthorityWasThere(files);
    SavedManifestLoads(files, d, s1);
    SameManifestLoads(files, d, BACKUP, Authority(files), s0);
  }

  lemma AuthorityWasThere(files: Files)
    requires LoadManifest(files, Authority(files)).Ok?
    ensures Authority(files) in files
  {
    hide ParseManifest, ValidatePages;
  }

  /** Where the condition fails, a save of any session that is published can be stopped so that neither loads. */
  lemma UnsafeWitness(files: Files, s1: Session) returns (d: Files)
    requires Savable(s1, files.Keys) && |ManifestText(s1)| <= MAX_MANIFEST_BYTES && !SafeToSave(files)
    ensures SaveMayLeave(files, s1, d) && !OldOrNew(files, s1, d)
  {
    hide LoadManifest, ManifestText, NamesStage, Savable, Load;
    if Load(files).Err? {
      d := files;
    } else if CURRENT in files {
      d := files[BACKUP := ""] - {STAGE};
      EmptyBackupIsLeft(files, s1);
      NothingLoads(files);
    } else {
      d := files - {STAGE};
      StageIsRemoved(files, s1);
      BackupIsLost(files);
    }
  }

  lemma EmptyBackupIsLeft(files: Files, s1: Session)
    requires Savable(s1, files.Keys) && |ManifestText(s1)| <= MAX_MANIFEST_BYTES && CURRENT in files
    ensures SaveMayLeave(files, s1, files[BACKUP := ""] - {STAGE})
  {
    hide ManifestText, Savable, AnyContent, CopyCrashes;
    assert files[BACKUP := ""] - {STAGE} in SaveCrashes(files, s1, CopyFails(Some("")));
  }

  lemma StageIsRemoved(files: Files, s1: Session)
    requires Savable(s1, files.Keys) && |ManifestText(s1)| <= MAX_MANIFEST_BYTES && CURRENT !in files
    ensures SaveMayLeave(files, s1, files - {STAGE})
  {
    hide ManifestText, Savable, AnyContent, CopyCrashes;
    assert files - {STAGE} in SaveCrashes(files, s1, RenameFails);
  }

  lemma NothingLoads(files: Files)
    requires CURRENT in files && Load(files).Ok? && !SafeToSave(files)
    ensures Load(files[BACKUP := ""] - {STAGE}).Err?
  {
    hide ParseManifest, NamesStage, ValidatePages, LoadManifest;
    var d := files[BACKUP := ""] - {STAGE};
    EmptyDoesNotLoad(d, BACKUP);
    if LoadManifest(files, CURRENT).Ok? {
      WithoutStageItDoesNotLoad(files, d, CURRENT, CURRENT, LoadManifest(files, CURRENT).value);
    } else {
      LoadedWasThere(files, BACKUP);
      StaysUnloadable(files, d, CURRENT);
    }
  }

  lemma EmptyDoesNotLoad(files: Files, path: string)
    requires path in files && files[path] == ""
    ensures LoadManifest(files, path).Err?
  {
    hide ParseManifest, ValidatePages;
  }

  lemma LoadedWasThere(files: Files, path: string)
    requires LoadManifest(files, path).Ok?
    ensures path in files
  {
    hide ParseManifest, ValidatePages;
  }

  /** With fewer files a manifest that does not load still does not load. */
  lemma StaysUnloadable(files: Files, d: Files, path: string)
    requires LoadManifest(files, path).Err? && path in files && path in d && d[path] == files[path]
    requires forall f :: f in d ==> f in files
    ensures LoadManifest(d, path).Err?
  {
    hide ParseManifest;
    if ParseManifest(files[path]).Ok? {
      ValidStaysValid(ParseManifest(files[path]).value.pages, d.Keys, files.Keys);
    }
  }

  lemma ValidStaysValid(pages: seq<Page>, few: set<string>, more: set<string>)
    requires few <= more
    ensures (forall p :: p in pages ==> ValidPage(p, few)) ==> forall p :: p in pages ==> ValidPage(p, more)
  {
    forall p | p in pages && ValidPage(p, few) ensures ValidPage(p, more) {
    }
  }

  lemma BackupIsLost(files: Files)
    requires CURRENT !in files && Load(files).Ok? && !SafeToSave(files)
    ensures Load(files - {STAGE}).Err?
  {
    hide ParseManifest, NamesStage, ValidatePages, LoadManifest;
    var d := files - {STAGE};
    MissingDoesNotLoad(files, CURRENT);
    MissingDoesNotLoad(d, CURRENT);
    LoadedWasThere(files, BACKUP);
    WithoutStageItDoesNotLoad(files, d, BACKUP, BACKUP, LoadManifest(files, BACKUP).value);
  }

  lemma MissingDoesNotLoad(files: Files, path: string)
    requires path !in files
    ensures LoadManifest(files, path).Err?
  {
    hide ParseManifest, ValidatePages;
  }

  /** Crash safety, exactly: every disk that a save of s1 can be stopped at loads the old or the new session if and only if
      the manifest that stands for the old one loads and does not name the stage file as a master. */
  lemma CrashSafeIff(files: Files, s1: Session)
    requires Savable(s1, files.Keys) && |ManifestText(s1)| <= MAX_MANIFEST_BYTES
    ensures (forall d :: SaveMayLeave(files, s1, d) ==> OldOrNew(files, s1, d)) <==> SafeToSave(files)
  {
    hide OldOrNew, SaveMayLeave, SafeToSave, Savable, ManifestText;
    if SafeToSave(files) {
      forall d | SaveMayLeave(files, s1, d) ensures OldOrNew(files, s1, d) {
        CrashSafe(files, s1, d);
      }
    } else {
      var d := UnsafeWitness(files, s1);
    }
  }

  /** A corrupt current manifest beside a valid backup: stopped between the copy and the rename, a save of any session
      leaves nothing that loads. */
  lemma CorruptManifestCanCostTheBackup(files: Files, s0: Session, s1: Session)
    requires CURRENT in files && ParseManifest(files[CURRENT]).Err? && LoadManifest(files, BACKUP) == Ok(s0)
    requires Savable(s1, files.Keys) && |ManifestText(s1)| <= MAX_MANIFEST_BYTES
    ensures var d := files[STAGE := ManifestText(s1)][BACKUP := files[CURRENT]];
            Load(files) == Ok((s0, true)) && d in SaveCrashes(files, s1, Works) && Load(d).Err?
  {
    hide ParseManifest, ManifestText, Savable, ValidatePages;
    var staged := files[STAGE := ManifestText(s1)];
    assert DiffersAt(staged, staged[BACKUP := files[CURRENT]], BACKUP);
  }

  /** The first save, with no manifest on the disk: stopped anywhere, it leaves nothing to load or the new session. */
  lemma FirstSaveIsCrashSafe(files: Files, s1: Session, d: Files)
    requires CURRENT !in files && BACKUP !in files && SaveMayLeave(files, s1, d)
    ensures Load(d).Ok? ==> Load(d) == Ok((s1, false))
    ensures Load(d).Err? ==> OnlyScratchDiffers(files, d) || !Loadable(s1)
  {
    hide LoadManifest, ManifestText, NamesStage, Savable, SaveMayLeave;
    LeavesScratchOrPublished(files, s1, d);
    if OnlyScratchDiffers(files, d) {
      MissingDoesNotLoad(d, CURRENT);
    } else {
      SavedManifestLoads(files, d, s1);
    }
    MissingDoesNotLoad(d, BACKUP);
  }

  /** Neither manifest that could load has a page in the stage file. */
  predicate StageDoesNotMatter(files: Files) {
    var current, backup := LoadManifest(files[STAGE := ""], CURRENT), LoadManifest(files[STAGE := ""], BACKUP);
    if current.Ok? then !NamesStage(current.value) else backup.Ok? ==> !NamesStage(backup.value)
  }

  predicate SameLoad(files: Files, d: Files) {
    if Load(files).Ok? then Load(d) == Load(files) else Load(d).Err?
  }

  /** What loads with a stage file loads without one, exactly if the stage file does not matter. */
  lemma StageMattersIff(files: Files)
    ensures SameLoad(files[STAGE := ""], files - {STAGE}) <==> StageDoesNotMatter(files)
    ensures SameLoad(files - {STAGE}, files[STAGE := ""]) <==> StageDoesNotMatter(files)
  {
    hide LoadManifest, NamesStage;
    ManifestWithoutStage(files, CURRENT);
    ManifestWithoutStage(files, BACKUP);
  }

  lemma ManifestWithoutStage(files: Files, path: string)
    requires path != STAGE
    ensures var r := LoadManifest(files[STAGE := ""], path);
            if r.Ok? && !NamesStage(r.value) then LoadManifest(files - {STAGE}, path) == r
            else LoadManifest(files - {STAGE}, path).Err?
  {
    hide LoadManifest, NamesStage;
    var staged, d := files[STAGE := ""], files - {STAGE};
    var r := LoadManifest(staged, path);
    if path !in files {
      MissingDoesNotLoad(d, path);
      MissingDoesNotLoad(staged, path);
    } else if r.Err? {
      StaysUnloadable(staged, d, path);
    } else if NamesStage(r.value) {
      WithoutStageItDoesNotLoad(staged, d, path, path, r.value);
    } else {
      SameManifestLoads(staged, d, path, path, r.value);
    }
  }

  /** A session too large to be published: every disk that its save can be stopped at loads exactly what loaded before, if
      and only if the stage file does not matter. */
  lemma RefusedSaveIff(files: Files, s1: Session)
    requires Savable(s1, files.Keys) && |ManifestText(s1)| > MAX_MANIFEST_BYTES
    ensures (forall d :: SaveMayLeave(files, s1, d) ==> SameLoad(files, d)) <==> StageDoesNotMatter(files)
  {
    hide SaveMayLeave, Savable, ManifestText, Load, StageDoesNotMatter, LoadManifest;
    var staged, removed := files[STAGE := ""], files - {STAGE};
    StageMattersIff(files);
    if STAGE in files {
      LoadReadsOnlyManifests(files, staged);
    } else {
      assert files == removed;
    }
    RefusedMayLeave(files, s1, staged);
    RefusedMayLeave(files, s1, removed);
    if StageDoesNotMatter(files) {
      forall d | SaveMayLeave(files, s1, d) ensures SameLoad(files, d) {
        RefusedMayLeave(files, s1, d);
        if DiffersAt(files, d, STAGE) {
          LoadReadsOnlyManifests(staged, d);
        }
      }
    }
  }

  lemma RefusedMayLeave(files: Files, s1: Session, d: Files)
    requires Savable(s1, files.Keys) && |ManifestText(s1)| > MAX_MANIFEST_BYTES
    ensures SaveMayLeave(files, s1, d) <==> d == files || DiffersAt(files, d, STAGE) || d == files - {STAGE}
  {
    hide ManifestText, Savable;
    assert DiffersAt(files, d, STAGE) ==> d in SaveCrashes(files, s1, Works);
    assert files - {STAGE} in SaveCrashes(files, s1, Works);
  }

  // -------------------------------------------------------------------- runs

  /** One attempt to save: the session, and the disk that was left behind. */
  datatype Attempt = Attempt(session: Session, left: Files)

  /** Every attempt starts from what the one before it left, crashed or not. */
  ghost predicate IsRun(files: Files, run: seq<Attempt>)
    decreases |run|
  {
    run != [] ==> SaveMayLeave(files, run[0].session, run[0].left) && IsRun(run[0].left, run[1..])
  }

  function LastDisk(files: Files, run: seq<Attempt>): Files
    decreases |run|
  {
    if run == [] then files else LastDisk(run[0].left, run[1..])
  }

  lemma RunStep(files: Files, s0: Session, s1: Session, d: Files)
    requires LoadManifest(files, CURRENT) == Ok(s0) && !NamesStage(s0) && Loadable(s1) && SaveMayLeave(files, s1, d)
    ensures Load(d) == Ok((s0, false)) || Load(d) == Ok((s1, false))
    ensures LoadManifest(d, CURRENT) == Ok(Load(d).value.0)
  {
    hide LoadManifest, NamesStage, SaveMayLeave;
    LoadedWasThere(files, CURRENT);
    CrashSafe(files, s1, d);
  }

  /** However many saves go through, fail or crash, the session that loads afterwards
      is the first one or one of those saved; loading never fails or falls back. */
  lemma {:induction false} AnyRunLoads(files: Files, s0: Session, run: seq<Attempt>)
    requires LoadManifest(files, CURRENT) == Ok(s0) && !NamesStage(s0)
    requires IsRun(files, run) && forall a :: a in run ==> Loadable(a.session)
    ensures exists s :: Load(LastDisk(files, run)) == Ok((s, false)) && !NamesStage(s)
                        && (s == s0 || exists a :: a in run && a.session == s)
    decreases |run|
  {
    hide LoadManifest, NamesStage, SaveMayLeave;
    if run != [] {
      var d := run[0].left;
      RunStep(files, s0, run[0].session, d);
      var s := Load(d).value.0;
      AnyRunLoads(d, s, run[1..]);
      var t :| Load(LastDisk(d, run[1..])) == Ok((t, false)) && !NamesStage(t)
               && (t == s || exists a :: a in run[1..] && a.session == t);
      assert run[0] in run;
      assert t == s0 || exists a :: a in run && a.session == t;
      assert Load(LastDisk(files, run)) == Ok((t, false));
    }
  }
}
