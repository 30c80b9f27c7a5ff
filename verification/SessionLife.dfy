/** The life of a session folder: operations, saves and loads in any order, with a stop at any moment. */
module SessionLife {
  import opened Text
  import opened Pages
  import opened Manifest
  import opened ManifestReader
  import opened ManifestRoundTrip
  import opened SessionStore
  import opened SessionOps
  import opened SessionRuns

  datatype Event =
    | Work(op: Op)
    | Save(io: SaveIo)
    | Reopen
    | StopInWork(op: Op, left: Files)
    | StopInSave(left: Files)

  /** The program's session and its disk, and the session that a save last brought onto the disk. */
  datatype Life = Life(world: World, saved: Session)

  /** The operation with another behaviour of the file system. */
  function WithIo(op: Op, io: PublishIo): Op {
    match op
    case AddPage(frame, _) => AddPage(frame, io)
    case Rescan(id, frame, _) => Rescan(id, frame, io)
    case _ => op
  }

  /** What an operation, stopped anywhere, leaves: nothing done, or the disk of a write that tore or went through, of a
      stage file removed, or of a master published. */
  ghost predicate WorkMayLeave(w: World, op: Op, d: Files) {
    d == w.files || exists io :: d == Apply(w, WithIo(op, io)).0.files
  }

  ghost predicate Possible(l: Life, e: Event) {
    match e
    case StopInWork(op, left) => WorkMayLeave(l.world, op, left)
    case StopInSave(left) => SaveMayLeave(l.world.files, l.world.session, left)
    case _ => true
  }

  /** The program started again on a disk; without a manifest that loads it is left with nothing. */
  function Reopened(d: Files): Life {
    var s := match Load(d) case Ok((s, _)) => s case Err(_) => NOTHING;
    Life(World(s, d), s)
  }

  const NOTHING := Session("", "", "", "", [])

  function Next(l: Life, e: Event): Life {
    match e
    case Work(op) => l.(world := Apply(l.world, op).0)
    case Save(io) =>
      var (files, r) := SaveOutcome(l.world.files, l.world.session, io);
      Life(l.world.(files := files), if r.Ok? then l.world.session else l.saved)
    case Reopen => Reopened(l.world.files)
    case StopInWork(_, left) => Reopened(left)
    case StopInSave(left) => Reopened(left)
  }

  ghost predicate IsLife(l: Life, events: seq<Event>)
    decreases |events|
  {
    events != [] ==> Possible(l, events[0]) && IsLife(Next(l, events[0]), events[1..])
  }

  function Lived(l: Life, events: seq<Event>): Life
    decreases |events|
  {
    if events == [] then l else Lived(Next(l, events[0]), events[1..])
  }

  /** The sessions that were being saved, whether their saves went through, failed or were stopped. */
  function Attempted(l: Life, events: seq<Event>): seq<Session>
    decreases |events|
  {
    if events == [] then []
    else
      (if events[0].Save? || events[0].StopInSave? then [l.world.session] else [])
      + Attempted(Next(l, events[0]), events[1..])
  }

  /** Both the program's session and the saved one are sound on this disk, and the current manifest is the saved one's. */
  predicate Steady(l: Life) {
    Inv(l.world) && Inv(World(l.saved, l.world.files)) && LoadManifest(l.world.files, CURRENT) == Ok(l.saved)
  }

  // -------------------------------------------------------------- preservation

  /** Every file but stage files is still there. */
  predicate KeepsNames(before: Files, after: Files) {
    forall path :: path in before && !IsStageName(path) ==> path in after
  }

  lemma InvMovesTo(s: Session, before: Files, after: Files)
    requires Inv(World(s, before)) && KeepsNames(before, after)
    ensures Inv(World(s, after))
  {
    hide SafeRelativePath, MasterName, IsIdentifier, IdsArePermutation, HeaderValid;
    forall p | p in s.pages ensures GoodPage(p, after.Keys) {
      assert GoodPage(p, before.Keys);
      MasterNameIsSafe(p.id, p.revision);
      forall h | h in p.preservedMasters ensures h in after {
        var k :| 0 <= k < |p.preservedMasters| && p.preservedMasters[k] == h;
        MasterNameIsSafe(p.id, k + 1);
      }
    }
  }

  /** The same manifest loads wherever its pages are valid. */
  lemma ManifestMovesTo(files: Files, d: Files, s: Session)
    requires LoadManifest(files, CURRENT) == Ok(s) && CURRENT in d && d[CURRENT] == files[CURRENT]
    requires Inv(World(s, d))
    ensures LoadManifest(d, CURRENT) == Ok(s)
  {
    hide ParseManifest, ValidPage, RevisionsAreNamed;
    forall p | p in s.pages ensures ValidPage(p, d.Keys) {
      assert GoodPage(p, d.Keys);
    }
  }

  lemma InvNamesNoStage(w: World)
    requires Inv(w)
    ensures !NamesStage(w.session) && UniqueIds(w.session.pages)
  {
    hide SafeRelativePath, MasterName, IsIdentifier, HeaderValid;
    forall p | p in w.Pages() ensures p.currentMaster != STAGE && STAGE !in p.preservedMasters {
      assert GoodPage(p, w.files.Keys);
      MasterNameIsSafe(p.id, p.revision);
      forall k | 0 <= k < |p.preservedMasters| ensures p.preservedMasters[k] != STAGE {
        MasterNameIsSafe(p.id, k + 1);
      }
    }
  }

  lemma ManifestNames()
    ensures !IsStageName(CURRENT) && !IsStageName(BACKUP) && IsStageName(STAGE)
  {
    assert CURRENT[|CURRENT| - 1] == 'n' && BACKUP[|BACKUP| - 1] == 'k';
    assert CURRENT[|CURRENT| - 4..][3] == CURRENT[|CURRENT| - 1] && BACKUP[|BACKUP| - 4..][3] == BACKUP[|BACKUP| - 1];
    assert STAGE[|STAGE| - 4..] == ".tmp";
  }

  lemma WorkKeepsSteady(l: Life, op: Op)
    requires Steady(l)
    ensures Steady(Next(l, Work(op)))
  {
    hide Inv, Apply, LoadManifest, IsStageName;
    ApplyKeepsInv(l.world, op);
    FilesKept(l, Apply(l.world, op).0.files);
  }

  /** A disk that keeps all but stage files: the saved session is still what loads. */
  lemma FilesKept(l: Life, d: Files)
    requires Steady(l) && KeepsFiles(l.world.files, d)
    ensures Inv(World(l.saved, d)) && Inv(World(l.world.session, d)) && LoadManifest(d, CURRENT) == Ok(l.saved)
  {
    hide Inv, LoadManifest, IsStageName;
    ManifestNames();
    LoadedWasThere(l.world.files, CURRENT);
    InvMovesTo(l.saved, l.world.files, d);
    InvMovesTo(l.world.session, l.world.files, d);
    ManifestMovesTo(l.world.files, d, l.saved);
  }

  lemma ReopenedIsSteady(d: Files, s: Session)
    requires LoadManifest(d, CURRENT) == Ok(s) && Inv(World(s, d))
    ensures Steady(Reopened(d)) && Reopened(d).saved == s
  {
    hide Inv, LoadManifest;
  }

  lemma StoppedWorkKeepsSteady(l: Life, op: Op, left: Files)
    requires Steady(l) && WorkMayLeave(l.world, op, left)
    ensures Steady(Reopened(left)) && Reopened(left).saved == l.saved
  {
    hide Inv, Apply, LoadManifest, KeepsFiles, Reopened;
    NothingChanges(l.world.files);
    if left != l.world.files {
      var io :| left == Apply(l.world, WithIo(op, io)).0.files;
      ApplyKeepsInv(l.world, WithIo(op, io));
    }
    FilesKept(l, left);
    ReopenedIsSteady(left, l.saved);
  }

  lemma SaveKeepsNames(files: Files, s: Session, d: Files)
    requires SaveMayLeave(files, s, d)
    ensures KeepsNames(files, d)
  {
    hide SaveMayLeave, IsStageName, ManifestText, Savable;
    ManifestNames();
    LeavesScratchOrPublished(files, s, d);
  }

  /** Stopped or not, a save leaves a disk from which the saved session or the program's own loads. */
  lemma LeftBySave(l: Life, d: Files)
    requires Steady(l) && SaveMayLeave(l.world.files, l.world.session, d)
    ensures Steady(Reopened(d)) && (Reopened(d).saved == l.saved || Reopened(d).saved == l.world.session)
    ensures Inv(World(l.world.session, d)) && Inv(World(l.saved, d))
  {
    hide Inv, LoadManifest, SaveMayLeave, KeepsNames, Reopened, NamesStage;
    var files, s := l.world.files, l.world.session;
    InvNamesNoStage(l.world);
    InvNamesNoStage(World(l.saved, files));
    SaveKeepsNames(files, s, d);
    InvMovesTo(l.saved, files, d);
    InvMovesTo(s, files, d);
    RunStep(files, l.saved, s, d);
    ReopenedIsSteady(d, Load(d).value.0);
  }

  lemma OutcomeMayBeLeft(files: Files, s: Session, io: SaveIo)
    ensures SaveMayLeave(files, s, SaveOutcome(files, s, io).0)
  {
    hide ManifestText, CheckSession;
    var d := SaveOutcome(files, s, io).0;
    assert d != files ==> d in SaveCrashes(files, s, io);
  }

  /** A save that returns: the saved session is the program's own exactly if the save succeeded. */
  lemma SaveKeepsSteady(l: Life, io: SaveIo)
    requires Steady(l)
    ensures Steady(Next(l, Save(io)))
  {
    hide Inv, LoadManifest, SaveOutcome, NamesStage;
    var (d, r) := SaveOutcome(l.world.files, l.world.session, io);
    OutcomeMayBeLeft(l.world.files, l.world.session, io);
    LeftBySave(l, d);
    InvNamesNoStage(l.world);
    InvNamesNoStage(World(l.saved, l.world.files));
    OutcomeLoads(l.world.files, l.saved, l.world.session, io);
  }

  lemma OutcomeLoads(files: Files, s0: Session, s1: Session, io: SaveIo)
    requires LoadManifest(files, CURRENT) == Ok(s0) && !NamesStage(s0) && Loadable(s1)
    ensures var (d, r) := SaveOutcome(files, s1, io);
            LoadManifest(d, CURRENT) == if r.Ok? then Ok(s1) else Ok(s0)
  {
    hide LoadManifest, NamesStage, ManifestText, CheckSession, Savable;
    var (d, r) := SaveOutcome(files, s1, io);
    LoadedWasThere(files, CURRENT);
    if r.Ok? {
      SavedManifestLoads(files, d, s1);
    } else {
      SameManifestLoads(files, d, CURRENT, CURRENT, s0);
    }
  }

  lemma NextKeepsSteady(l: Life, e: Event)
    requires Steady(l) && Possible(l, e)
    ensures Steady(Next(l, e))
    ensures Next(l, e).saved == l.saved || ((e.Save? || e.StopInSave?) && Next(l, e).saved == l.world.session)
  {
    hide Inv, LoadManifest, Apply, SaveOutcome, SaveMayLeave, WorkMayLeave, Reopened;
    match e
    case Work(op) => WorkKeepsSteady(l, op);
    case Save(io) => SaveKeepsSteady(l, io);
    case Reopen => ReopenedIsSteady(l.world.files, l.saved);
    case StopInWork(op, left) => StoppedWorkKeepsSteady(l, op, left);
    case StopInSave(left) => LeftBySave(l, left);
  }

  /** Whatever is done, saved, stopped and loaded in any order: what loads at the end is the session of the first save, or
      one that was being saved since; it never falls back or fails, and all its masters are there. */
  lemma {:induction false} LifeIsSafe(l: Life, events: seq<Event>)
    requires Steady(l) && IsLife(l, events)
    ensures var end := Lived(l, events);
            Steady(end) && Load(end.world.files) == Ok((end.saved, false))
            && (end.saved == l.saved || end.saved in Attempted(l, events))
    decreases |events|
  {
    hide Inv, LoadManifest, Next, Possible;
    if events != [] {
      NextKeepsSteady(l, events[0]);
      LifeIsSafe(Next(l, events[0]), events[1..]);
    }
  }

  /** A new session, worked on and saved for the first time, begins such a life. */
  lemma FirstSaveBeginsLife(s: Session, files: Files, ops: seq<Op>, io: SaveIo)
    requires HeaderValid(s) && s.pages == []
    ensures var w := RunAll(World(s, files), ops);
            var (d, r) := SaveOutcome(w.files, w.session, io);
            r.Ok? ==> Steady(Life(World(w.session, d), w.session))
  {
    hide Inv, LoadManifest, SaveOutcome, RunAll, NamesStage;
    NewSessionHasInv(s, files);
    RunKeepsInv(World(s, files), ops);
    var w := RunAll(World(s, files), ops);
    var (d, r) := SaveOutcome(w.files, w.session, io);
    if r.Ok? {
      InvNamesNoStage(w);
      OutcomeMayBeLeft(w.files, w.session, io);
      SaveKeepsNames(w.files, w.session, d);
      InvMovesTo(w.session, w.files, d);
      SuccessLoads(w.files, w.session, io);
    }
  }

  lemma SuccessLoads(files: Files, s: Session, io: SaveIo)
    requires SaveOutcome(files, s, io).1.Ok? && Loadable(s)
    ensures LoadManifest(SaveOutcome(files, s, io).0, CURRENT) == Ok(s)
  {
    hide LoadManifest, NamesStage, ManifestText, Savable;
    SavedManifestLoads(files, SaveOutcome(files, s, io).0, s);
  }
}
