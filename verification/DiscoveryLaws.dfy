/** What a refresh makes of each record that the driver reports. */
module DiscoveryLaws {
  import opened Text
  import opened Discovery

  /** One to so many characters, none of them a control character. */
  predicate TextFits(s: string, max: nat) {
    1 <= |s| <= max && forall i :: 0 <= i < |s| ==> 0x20 <= s[i] as int && s[i] as int != 0x7f
  }

  datatype Fate = Ignored | Listed | Reported(issue: Issue)

  /** An earlier scanner with the same id. */
  predicate IsRepeat(discovered: seq<Discovered>, k: nat)
    requires k < |discovered|
  {
    exists j :: 0 <= j < k && discovered[j].deviceClass == Scanner && discovered[j].rawId == discovered[k].rawId
  }

  /** What is not a scanner is ignored; a scanner is listed if its id is valid and new and its two texts are valid. */
  function FateOf(discovered: seq<Discovered>, k: nat): Fate
    requires k < |discovered|
  {
    var d := discovered[k];
    if d.deviceClass != Scanner then Ignored
    else if !TextFits(d.rawId, 4096) then Reported(InvalidDeviceId)
    else if IsRepeat(discovered, k) then Reported(DuplicateDeviceId)
    else if !TextFits(d.displayName, 128) || !TextFits(d.manufacturer, 128) then Reported(InvalidPublicMetadata)
    else Listed
  }

  predicate Ascends(at: seq<nat>) {
    forall i, j :: 0 <= i < j < |at| ==> at[i] < at[j]
  }

  /** Records at these places, and no others, are listed: each under the next public id, which leads back to its raw id. */
  predicate ListedAt(discovered: seq<Discovered>, at: seq<nat>, devices: seq<PublicDevice>, rawIds: map<string, string>) {
    Ascends(at) && |devices| == |at|
    && (forall i :: 0 <= i < |discovered| ==> (i in at <==> FateOf(discovered, i) == Listed))
    && forall j :: 0 <= j < |at| ==>
         at[j] < |discovered|
         && var d := discovered[at[j]];
            devices[j] == PublicDevice("wia-device-" + Padded(j + 1, 4), d.displayName, d.manufacturer)
            && devices[j].opaqueId in rawIds && rawIds[devices[j].opaqueId] == d.rawId
  }

  /** Records at these places, and no others, are reported, in order, each with its issue. */
  predicate ReportedAt(discovered: seq<Discovered>, at: seq<nat>, issues: seq<Issue>) {
    Ascends(at) && |issues| == |at|
    && (forall i :: 0 <= i < |discovered| ==> (i in at <==> FateOf(discovered, i).Reported?))
    && forall j :: 0 <= j < |at| ==> at[j] < |discovered| && FateOf(discovered, at[j]) == Reported(issues[j])
  }

  lemma TextFitsIs(s: string, max: nat)
    ensures ValidDriverText(s, max) <==> TextFits(s, max)
  {
  }

  lemma FrontFates(discovered: seq<Discovered>, i: nat)
    requires i < |discovered| - 1
    ensures FateOf(discovered, i) == FateOf(discovered[..|discovered| - 1], i)
  {
    hide TextFits;
    var front := discovered[..|discovered| - 1];
    assert forall j :: 0 <= j <= i ==> front[j] == discovered[j];
    assert IsRepeat(front, i) <==> IsRepeat(discovered, i);
  }

  /** The seen ids tell exactly whether the next record repeats one. */
  lemma RepeatIsSeen(discovered: seq<Discovered>)
    requires discovered != [] && TextFits(discovered[|discovered| - 1].rawId, 4096)
    ensures discovered[|discovered| - 1].rawId in Candidates(discovered[..|discovered| - 1]).seen
            <==> IsRepeat(discovered, |discovered| - 1)
  {
    hide TextFits, Candidates;
    var n := |discovered| - 1;
    var front, id := discovered[..n], discovered[n].rawId;
    SeenAreValidScanners(front);
    TextFitsIs(id, 4096);
    hide ValidDriverText;
    assert forall j :: 0 <= j < n ==> front[j] == discovered[j];
  }

  /** One more record: listed, reported or ignored as its fate says. */
  lemma CandidateHasItsFate(discovered: seq<Discovered>)
    requires discovered != []
    ensures var n := |discovered| - 1;
            var before, after := Candidates(discovered[..n]), Candidates(discovered);
            match FateOf(discovered, n)
            case Ignored => after.devices == before.devices && after.issues == before.issues && after.rawIds == before.rawIds
            case Reported(issue) =>
              after.devices == before.devices && after.issues == before.issues + [issue] && after.rawIds == before.rawIds
            case Listed =>
              var d, token := discovered[n], "wia-device-" + Padded(|before.devices| + 1, 4);
              after.devices == before.devices + [PublicDevice(token, d.displayName, d.manufacturer)]
              && after.issues == before.issues && after.rawIds == before.rawIds[token := d.rawId]
  {
    hide TextFits, ValidDriverText, IsRepeat, Padded;
    var n := |discovered| - 1;
    var d := discovered[n];
    TextFitsIs(d.rawId, 4096);
    TextFitsIs(d.displayName, 128);
    TextFitsIs(d.manufacturer, 128);
    if TextFits(d.rawId, 4096) {
      RepeatIsSeen(discovered);
    }
  }

  lemma TokensDiffer(m: nat, n: nat)
    requires m != n
    ensures "wia-device-" + Padded(m, 4) != "wia-device-" + Padded(n, 4)
  {
    hide Padded;
    if "wia-device-" + Padded(m, 4) == "wia-device-" + Padded(n, 4) {
      OpaqueIdInjective(m, n);
    }
  }

  lemma ListedMore(discovered: seq<Discovered>, at: seq<nat>, devices: seq<PublicDevice>, rawIds: map<string, string>)
    requires discovered != []
    requires var n := |discovered| - 1; FateOf(discovered, n) == Listed && ListedAt(discovered[..n], at, devices, rawIds)
    ensures var n := |discovered| - 1;
            var d, token := discovered[n], "wia-device-" + Padded(|devices| + 1, 4);
            ListedAt(discovered, at + [n], devices + [PublicDevice(token, d.displayName, d.manufacturer)],
                     rawIds[token := d.rawId])
  {
    hide FateOf, Padded;
    var n := |discovered| - 1;
    var front, d, token, more := discovered[..n], discovered[n], "wia-device-" + Padded(|devices| + 1, 4), at + [n];
    forall i | 0 <= i < |discovered| ensures i in more <==> FateOf(discovered, i) == Listed {
      if i < n {
        FrontFates(discovered, i);
        assert i in more <==> i in at;
      }
    }
    forall j | 0 <= j < |at| ensures devices[j].opaqueId != token {
      TokensDiffer(j + 1, |devices| + 1);
    }
  }

  lemma ListedNoMore(discovered: seq<Discovered>, at: seq<nat>, devices: seq<PublicDevice>, rawIds: map<string, string>)
    requires discovered != []
    requires var n := |discovered| - 1; FateOf(discovered, n) != Listed && ListedAt(discovered[..n], at, devices, rawIds)
    ensures ListedAt(discovered, at, devices, rawIds)
  {
    hide FateOf, Padded;
    forall i | 0 <= i < |discovered| ensures i in at <==> FateOf(discovered, i) == Listed {
      if i < |discovered| - 1 {
        FrontFates(discovered, i);
      }
    }
  }

  lemma ReportedMore(discovered: seq<Discovered>, at: seq<nat>, issues: seq<Issue>)
    requires discovered != []
    requires var n := |discovered| - 1; FateOf(discovered, n).Reported? && ReportedAt(discovered[..n], at, issues)
    ensures var n := |discovered| - 1; ReportedAt(discovered, at + [n], issues + [FateOf(discovered, n).issue])
  {
    hide FateOf;
    var n := |discovered| - 1;
    var more := at + [n];
    forall i | 0 <= i < |discovered|
      ensures i in more <==> FateOf(discovered, i).Reported?
      ensures i < n ==> FateOf(discovered, i) == FateOf(discovered[..n], i)
    {
      if i < n {
        FrontFates(discovered, i);
        assert i in more <==> i in at;
      }
    }
  }

  lemma ReportedNoMore(discovered: seq<Discovered>, at: seq<nat>, issues: seq<Issue>)
    requires discovered != []
    requires var n := |discovered| - 1; !FateOf(discovered, n).Reported? && ReportedAt(discovered[..n], at, issues)
    ensures ReportedAt(discovered, at, issues)
  {
    hide FateOf;
    forall i | 0 <= i < |discovered|
      ensures i in at <==> FateOf(discovered, i).Reported?
      ensures i < |discovered| - 1 ==> FateOf(discovered, i) == FateOf(discovered[..|discovered| - 1], i)
    {
      if i < |discovered| - 1 {
        FrontFates(discovered, i);
      }
    }
  }

  lemma {:induction false} CandidatesMeetTheirFates(discovered: seq<Discovered>) returns (listed: seq<nat>, reported: seq<nat>)
    ensures var p := Candidates(discovered);
            ListedAt(discovered, listed, p.devices, p.rawIds) && ReportedAt(discovered, reported, p.issues)
  {
    hide FateOf, Padded, ListedAt, ReportedAt, Candidate;
    listed, reported := [], [];
    if discovered == [] {
      NothingToReport();
    } else {
      var n := |discovered| - 1;
      var before := Candidates(discovered[..n]);
      listed, reported := CandidatesMeetTheirFates(discovered[..n]);
      CandidateHasItsFate(discovered);
      if FateOf(discovered, n).Listed? {
        ListedMore(discovered, listed, before.devices, before.rawIds);
        ReportedNoMore(discovered, reported, before.issues);
        listed := listed + [n];
      } else if FateOf(discovered, n).Reported? {
        ListedNoMore(discovered, listed, before.devices, before.rawIds);
        ReportedMore(discovered, reported, before.issues);
        reported := reported + [n];
      } else {
        ListedNoMore(discovered, listed, before.devices, before.rawIds);
        ReportedNoMore(discovered, reported, before.issues);
      }
    }
  }

  lemma NothingToReport()
    ensures ListedAt([], [], [], map[]) && ReportedAt([], [], [])
  {
  }

  /** A refresh takes the next generation, until there is none; of at most 1024 records each scanner is listed or reported as its
      fate says, in order, and of more nothing is listed but the limit reported. */
  lemma RefreshMeetsEveryRecord(m: Model, discovered: seq<Discovered>) returns (listed: seq<nat>, reported: seq<nat>)
    ensures m.generation == 0xffff_ffff_ffff_ffff ==> PublishedBy(m, discovered).Err? && AfterRefresh(m, discovered) == m
    ensures m.generation < 0xffff_ffff_ffff_ffff ==>
              PublishedBy(m, discovered).Ok?
              && var result, kept := PublishedBy(m, discovered).value, AfterRefresh(m, discovered).rawIds;
                 result.generation == m.generation + 1 && AfterRefresh(m, discovered).generation == m.generation + 1
                 && (|discovered| > 1024 ==> result.devices == [] && result.issues == [DiscoveryLimit] && kept == map[])
                 && (|discovered| <= 1024 ==>
                       ListedAt(discovered, listed, result.devices, kept) && ReportedAt(discovered, reported, result.issues))
  {
    hide Candidates, ListedAt, ReportedAt;
    listed, reported := CandidatesMeetTheirFates(discovered);
  }
}
