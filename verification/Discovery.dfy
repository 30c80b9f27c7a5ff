/** Device discovery: public ids in place of the driver's, valid for one generation. */
module Discovery {
  import opened Text

  datatype DeviceClass = Scanner | Camera | Video | OtherClass
  datatype Discovered = Discovered(deviceClass: DeviceClass, rawId: string, displayName: string, manufacturer: string)
  datatype PublicDevice = PublicDevice(opaqueId: string, displayName: string, manufacturer: string)
  datatype Issue = DiscoveryLimit | InvalidDeviceId | DuplicateDeviceId | InvalidPublicMetadata
  datatype Published = Published(generation: U64, devices: seq<PublicDevice>, issues: seq<Issue>)

  const MAX_RAW_ID: nat := 4096
  const MAX_PUBLIC_TEXT: nat := 128
  const MAX_DEVICES: nat := 1024

  predicate ValidDriverText(value: string, maximum: nat) {
    0 < |value| <= maximum && forall i :: 0 <= i < |value| ==> value[i] as int >= 0x20 && value[i] as int != 0x7f
  }

  function OpaqueId(ordinal: nat): string {
    "wia-device-" + Padded(ordinal, 4)
  }

  lemma OpaqueIdInjective(m: nat, n: nat)
    requires OpaqueId(m) == OpaqueId(n)
    ensures m == n
  {
    assert OpaqueId(m)[11..] == Padded(m, 4) && OpaqueId(n)[11..] == Padded(n, 4);
    PaddedInjective(m, n, 4);
  }

  /** The public id of the device at index k of a result. */
  function NthId(k: nat): string {
    OpaqueId(k + 1)
  }

  // ---------------------------------------------------------------- one refresh

  datatype Progress = Progress(devices: seq<PublicDevice>, issues: seq<Issue>, seen: set<string>, rawIds: map<string, string>)

  function Issued(p: Progress, issue: Issue): Progress {
    p.(issues := p.issues + [issue])
  }

  function Candidate(d: Discovered, p: Progress): Progress {
    if d.deviceClass != Scanner then p
    else if !ValidDriverText(d.rawId, MAX_RAW_ID) then Issued(p, InvalidDeviceId)
    else if d.rawId in p.seen then Issued(p, DuplicateDeviceId)
    else
      var marked := p.(seen := p.seen + {d.rawId});
      if !ValidDriverText(d.displayName, MAX_PUBLIC_TEXT) || !ValidDriverText(d.manufacturer, MAX_PUBLIC_TEXT)
      then Issued(marked, InvalidPublicMetadata)
      else
        var token := OpaqueId(|p.devices| + 1);
        marked.(devices := p.devices + [PublicDevice(token, d.displayName, d.manufacturer)],
                rawIds := p.rawIds[token := d.rawId])
  }

  function Candidates(discovered: seq<Discovered>): Progress {
    if discovered == [] then Progress([], [], {}, map[])
    else Candidate(discovered[|discovered| - 1], Candidates(discovered[..|discovered| - 1]))
  }

  /** What a refresh publishes and keeps. */
  function Refreshed(discovered: seq<Discovered>): Progress {
    if |discovered| > MAX_DEVICES then Progress([], [DiscoveryLimit], {}, map[]) else Candidates(discovered)
  }

  // ------------------------------------------------ what is accepted, independently

  /** Record k is the first valid record with its raw id, and its public texts are valid. */
  predicate AcceptedRecord(discovered: seq<Discovered>, k: nat)
    requires k < |discovered|
  {
    var d := discovered[k];
    d.deviceClass == Scanner && ValidDriverText(d.rawId, MAX_RAW_ID)
    && (forall j :: 0 <= j < k && discovered[j].deviceClass == Scanner ==> discovered[j].rawId != d.rawId)
    && ValidDriverText(d.displayName, MAX_PUBLIC_TEXT) && ValidDriverText(d.manufacturer, MAX_PUBLIC_TEXT)
  }

  /** The accepted records, in the order they were found. */
  function AcceptedRecords(discovered: seq<Discovered>): seq<Discovered> {
    if discovered == [] then []
    else
      var n := |discovered| - 1;
      AcceptedRecords(discovered[..n]) + (if AcceptedRecord(discovered, n) then [discovered[n]] else [])
  }

  /** The published devices and the kept raw ids are those of the accepted records, in order. */
  predicate Mirrors(accepted: seq<Discovered>, devices: seq<PublicDevice>, rawIds: map<string, string>) {
    |devices| == |accepted|
    && (forall k :: 0 <= k < |accepted| ==>
          devices[k] == PublicDevice(NthId(k), accepted[k].displayName, accepted[k].manufacturer))
    && (forall k :: 0 <= k < |accepted| ==> NthId(k) in rawIds && rawIds[NthId(k)] == accepted[k].rawId)
    && (forall token :: token in rawIds ==> exists k :: 0 <= k < |accepted| && token == NthId(k))
  }

  /** The raw ids seen are those of the valid scanner records. */
  ghost predicate SeenExactly(discovered: seq<Discovered>, seen: set<string>) {
    forall id :: id in seen <==> exists j :: 0 <= j < |discovered| && discovered[j].deviceClass == Scanner
                                             && discovered[j].rawId == id && ValidDriverText(id, MAX_RAW_ID)
  }

  lemma {:induction false} SeenAreValidScanners(discovered: seq<Discovered>)
    ensures SeenExactly(discovered, Candidates(discovered).seen)
  {
    hide ValidDriverText, OpaqueId;
    if discovered != [] {
      SeenAreValidScanners(discovered[..|discovered| - 1]);
    }
  }

  lemma MirrorsAppend(accepted: seq<Discovered>, devices: seq<PublicDevice>, rawIds: map<string, string>, d: Discovered)
    requires Mirrors(accepted, devices, rawIds)
    ensures Mirrors(accepted + [d], devices + [PublicDevice(NthId(|devices|), d.displayName, d.manufacturer)],
                    rawIds[NthId(|devices|) := d.rawId])
  {
    hide OpaqueId;
    var n, more, after := |accepted|, accepted + [d], rawIds[NthId(|devices|) := d.rawId];
    forall k: nat | k < n
      ensures NthId(k) in after && after[NthId(k)] == more[k].rawId
    {
      if NthId(k) == NthId(n) {
        OpaqueIdInjective(k + 1, n + 1);
      }
    }
    forall token | token in after
      ensures exists k :: 0 <= k < |more| && token == NthId(k)
    {
      if token in rawIds {
        var k :| 0 <= k < |accepted| && token == NthId(k);
        assert 0 <= k < |more|;
      } else {
        assert token == NthId(n) && 0 <= n < |more|;
      }
    }
  }

  lemma {:induction false} CandidatesMirrorAccepted(discovered: seq<Discovered>)
    ensures var p := Candidates(discovered); Mirrors(AcceptedRecords(discovered), p.devices, p.rawIds)
  {
    hide ValidDriverText, OpaqueId, Mirrors;
    if discovered == [] {
      NothingMirrored();
    } else {
      var n := |discovered| - 1;
      var front, d := discovered[..n], discovered[n];
      var p := Candidates(front);
      CandidatesMirrorAccepted(front);
      SeenAreValidScanners(front);
      assert forall j :: 0 <= j < n ==> front[j] == discovered[j];
      if AcceptedRecord(discovered, n) {
        MirrorsAppend(AcceptedRecords(front), p.devices, p.rawIds, d);
        assert NthId(|p.devices|) == OpaqueId(|p.devices| + 1);
      } else {
        assert AcceptedRecords(discovered) == AcceptedRecords(front);
      }
    }
  }

  lemma NothingMirrored()
    ensures Mirrors([], [], map[])
  {
  }

  // --------------------------------------------------------------- generations

  datatype Model = Model(generation: U64, rawIds: map<string, string>)

  function AfterRefresh(m: Model, discovered: seq<Discovered>): Model {
    if m.generation == U64_MAX then m else Model(m.generation + 1, Refreshed(discovered).rawIds)
  }

  function PublishedBy(m: Model, discovered: seq<Discovered>): Result<Published> {
    if m.generation == U64_MAX then Err("WIA discovery generation limit was reached")
    else Ok(Published(m.generation + 1, Refreshed(discovered).devices, Refreshed(discovered).issues))
  }

  function Resolved(m: Model, opaqueId: string, generation: U64): Result<string> {
    if generation == 0 || generation != m.generation then Err("scanner selection is stale")
    else if opaqueId !in m.rawIds then Err("scanner selection is unavailable")
    else Ok(m.rawIds[opaqueId])
  }

  /** After refreshes with these findings, from the start. */
  function AfterAll(refreshes: seq<seq<Discovered>>): Model {
    if refreshes == [] then Model(0, map[])
    else AfterRefresh(AfterAll(refreshes[..|refreshes| - 1]), refreshes[|refreshes| - 1])
  }

  lemma {:induction false} GenerationCounts(refreshes: seq<seq<Discovered>>)
    ensures AfterAll(refreshes).generation == if |refreshes| <= U64_MAX then |refreshes| else U64_MAX
  {
    hide Refreshed;
    if refreshes != [] {
      GenerationCounts(refreshes[..|refreshes| - 1]);
    }
  }

  /** The records whose ids the latest refresh handed out. */
  function LatestAccepted(refreshes: seq<seq<Discovered>>): seq<Discovered>
    requires refreshes != []
  {
    var last := refreshes[|refreshes| - 1];
    if |last| > MAX_DEVICES then [] else AcceptedRecords(last)
  }

  /** After any refreshes, an id resolves exactly if it carries the latest generation and one of the latest public ids,
      and then to the raw id of the record behind that id; every other generation is stale. */
  lemma ResolvesExactlyTheLatest(refreshes: seq<seq<Discovered>>, opaqueId: string, generation: U64, rawId: string)
    requires 0 < |refreshes| <= U64_MAX
    ensures Resolved(AfterAll(refreshes), opaqueId, generation) == Ok(rawId)
            <==> generation == |refreshes|
                 && exists k :: 0 <= k < |LatestAccepted(refreshes)| && opaqueId == NthId(k)
                                && LatestAccepted(refreshes)[k].rawId == rawId
    ensures generation != |refreshes| ==>
              Resolved(AfterAll(refreshes), opaqueId, generation) == Err("scanner selection is stale")
  {
    hide NthId, AcceptedRecords, Candidates;
    var earlier, last := refreshes[..|refreshes| - 1], refreshes[|refreshes| - 1];
    GenerationCounts(refreshes);
    GenerationCounts(earlier);
    CandidatesMirrorAccepted(last);
    NothingMirrored();
    assert Mirrors(LatestAccepted(refreshes), Refreshed(last).devices, AfterAll(refreshes).rawIds);
  }

  // ------------------------------------------------------------ raw ids stay private

  function Renamed(discovered: seq<Discovered>, rename: string -> string): (renamed: seq<Discovered>)
    ensures |renamed| == |discovered|
    ensures forall i :: 0 <= i < |discovered| ==> renamed[i] == discovered[i].(rawId := rename(discovered[i].rawId))
  {
    seq(|discovered|, i requires 0 <= i < |discovered| => discovered[i].(rawId := rename(discovered[i].rawId)))
  }

  /** Different ids stay different, and validity is kept. */
  predicate KeepsIds(discovered: seq<Discovered>, rename: string -> string) {
    (forall i, j :: 0 <= i < |discovered| && 0 <= j < |discovered| && rename(discovered[i].rawId) == rename(discovered[j].rawId)
        ==> discovered[i].rawId == discovered[j].rawId)
    && forall i :: 0 <= i < |discovered| ==>
         (ValidDriverText(rename(discovered[i].rawId), MAX_RAW_ID) <==> ValidDriverText(discovered[i].rawId, MAX_RAW_ID))
  }

  lemma SeenAlike(front: seq<Discovered>, d: Discovered, rename: string -> string)
    requires KeepsIds(front + [d], rename)
    ensures d.rawId in Candidates(front).seen <==> rename(d.rawId) in Candidates(Renamed(front, rename)).seen
  {
    hide Candidates, ValidDriverText;
    var all, renamed := front + [d], Renamed(front, rename);
    SeenAreValidScanners(front);
    SeenAreValidScanners(renamed);
    assert all[|front|] == d && forall j :: 0 <= j < |front| ==> all[j] == front[j];
    if d.rawId in Candidates(front).seen {
      var j :| 0 <= j < |front| && front[j].deviceClass == Scanner && front[j].rawId == d.rawId;
      assert renamed[j].rawId == rename(d.rawId);
    }
    if rename(d.rawId) in Candidates(renamed).seen {
      var j :| 0 <= j < |renamed| && renamed[j].deviceClass == Scanner && renamed[j].rawId == rename(d.rawId)
               && ValidDriverText(rename(d.rawId), MAX_RAW_ID);
      assert rename(all[j].rawId) == rename(all[|front|].rawId);
    }
  }

  lemma {:induction false} RenamingIsInvisible(discovered: seq<Discovered>, rename: string -> string)
    requires KeepsIds(discovered, rename)
    ensures var p, q := Candidates(discovered), Candidates(Renamed(discovered, rename));
            q.devices == p.devices && q.issues == p.issues && q.rawIds.Keys == p.rawIds.Keys
            && forall token :: token in p.rawIds ==> q.rawIds[token] == rename(p.rawIds[token])
  {
    hide ValidDriverText, OpaqueId;
    if discovered != [] {
      var n := |discovered| - 1;
      var front, d := discovered[..n], discovered[n];
      assert discovered == front + [d];
      assert Renamed(discovered, rename)[..n] == Renamed(front, rename);
      RenamingIsInvisible(front, rename);
      SeenAlike(front, d, rename);
    }
  }

  /** Two runs whose raw ids differ only by a renaming publish the same results. */
  lemma PublishedHidesRawIds(m: Model, n: Model, discovered: seq<Discovered>, rename: string -> string)
    requires KeepsIds(discovered, rename) && m.generation == n.generation
    ensures PublishedBy(m, discovered) == PublishedBy(n, Renamed(discovered, rename))
    ensures AfterRefresh(m, discovered).generation == AfterRefresh(n, Renamed(discovered, rename)).generation
  {
    hide Candidates, KeepsIds;
    RenamingIsInvisible(discovered, rename);
  }

  function AllRenamed(refreshes: seq<seq<Discovered>>, renamings: seq<string -> string>): (renamed: seq<seq<Discovered>>)
    requires |renamings| == |refreshes|
    ensures |renamed| == |refreshes| && forall i :: 0 <= i < |refreshes| ==> renamed[i] == Renamed(refreshes[i], renamings[i])
  {
    seq(|refreshes|, i requires 0 <= i < |refreshes| => Renamed(refreshes[i], renamings[i]))
  }

  /** Two whole runs from the start, with a renaming of its own for every refresh: each refresh publishes the same. */
  lemma RunsPublishAlike(refreshes: seq<seq<Discovered>>, renamings: seq<string -> string>, k: nat)
    requires |renamings| == |refreshes| && k < |refreshes| && KeepsIds(refreshes[k], renamings[k])
    ensures var other := AllRenamed(refreshes, renamings);
            PublishedBy(AfterAll(refreshes[..k]), refreshes[k]) == PublishedBy(AfterAll(other[..k]), other[k])
  {
    hide KeepsIds, PublishedBy, AfterAll;
    var other := AllRenamed(refreshes, renamings);
    GenerationCounts(refreshes[..k]);
    GenerationCounts(other[..k]);
    PublishedHidesRawIds(AfterAll(refreshes[..k]), AfterAll(other[..k]), refreshes[k], renamings[k]);
  }

  // ---------------------------------------------------------------- the object

  class WiaDiscoveryModel {
    var generation: U64
    var rawIds: map<string, string>

    function View(): Model
      reads this
    {
      Model(generation, rawIds)
    }

    constructor ()
      ensures View() == AfterAll([])
    {
      generation, rawIds := 0, map[];
    }

    method Refresh(discovered: seq<Discovered>) returns (result: Result<Published>)
      modifies this
      ensures result == PublishedBy(old(View()), discovered)
      ensures View() == AfterRefresh(old(View()), discovered)
    {
      hide Candidate, OpaqueId;
      if generation == U64_MAX { return Err("WIA discovery generation limit was reached"); }
      generation := generation + 1;
      rawIds := map[];
      if |discovered| > MAX_DEVICES { return Ok(Published(generation, [], [DiscoveryLimit])); }
      var devices: seq<PublicDevice>, issues: seq<Issue>, seen: set<string> := [], [], {};
      for i := 0 to |discovered|
        invariant generation == old(generation) + 1
        invariant Progress(devices, issues, seen, rawIds) == Candidates(discovered[..i])
      {
        assert discovered[..i + 1][..i] == discovered[..i];
        devices, issues, seen := Consider(discovered[i], devices, issues, seen);
      }
      assert discovered[..|discovered|] == discovered;
      result := Ok(Published(generation, devices, issues));
    }

    /** The body of the loop; each `continue` of the source returns. */
    method Consider(d: Discovered, devices: seq<PublicDevice>, issues: seq<Issue>, seen: set<string>)
      returns (devicesNow: seq<PublicDevice>, issuesNow: seq<Issue>, seenNow: set<string>)
      modifies this`rawIds
      ensures Progress(devicesNow, issuesNow, seenNow, rawIds) == Candidate(d, Progress(devices, issues, seen, old(rawIds)))
    {
      hide ValidDriverText, OpaqueId;
      devicesNow, issuesNow, seenNow := devices, issues, seen;
      if d.deviceClass != Scanner { return; }
      if !ValidDriverText(d.rawId, MAX_RAW_ID) {
        issuesNow := issues + [InvalidDeviceId];
        return;
      }
      if d.rawId in seen {
        issuesNow := issues + [DuplicateDeviceId];
        return;
      }
      seenNow := seen + {d.rawId};
      if !ValidDriverText(d.displayName, MAX_PUBLIC_TEXT) || !ValidDriverText(d.manufacturer, MAX_PUBLIC_TEXT) {
        issuesNow := issues + [InvalidPublicMetadata];
        return;
      }
      var token := OpaqueId(|devices| + 1);
      rawIds := rawIds[token := d.rawId];
      devicesNow := devices + [PublicDevice(token, d.displayName, d.manufacturer)];
    }

    method ResolveForConnection(opaqueId: string, generation: U64) returns (result: Result<string>)
      ensures result == Resolved(View(), opaqueId, generation)
    {
      if generation == 0 || generation != this.generation { return Err("scanner selection is stale"); }
      if opaqueId !in rawIds { return Err("scanner selection is unavailable"); }
      result := Ok(rawIds[opaqueId]);
    }
  }
}
