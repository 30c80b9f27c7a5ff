/** From a device's items to profiles, and from a request to the values written to the device. */
module CapabilityMap {
  import opened Text
  import opened Capability

  const GRAYSCALE: I32 := 2
  const COLOR: I32 := 3
  const MAX_PAGES: I32 := 10000

  function Colors(item: Item): Outcome<seq<Color>> {
    if item.dataType.None? then Bad(MissingDataType)
    else
      var values :- AllowedValues(item.dataType.value, InvalidDataType);
      var colors := (if GRAYSCALE in values then [Gray8] else []) + (if COLOR in values then [Rgb24] else []);
      if colors == [] then Bad(UnsupportedDataType) else Good(colors)
  }

  predicate KnownDepth(value: int) {
    value == 1 || value == 8 || value == 16 || value == 24 || value == 48
  }

  function KnownDepths(values: seq<I32>): seq<U32> {
    if values == [] then []
    else
      var front, value := KnownDepths(values[..|values| - 1]), values[|values| - 1];
      if KnownDepth(value) then front + [value] else front
  }

  function BitDepths(item: Item): Outcome<seq<U32>> {
    if item.bitDepth.None? then Bad(MissingBitDepth)
    else
      var values :- AllowedValues(item.bitDepth.value, InvalidBitDepth);
      if KnownDepths(values) == [] then Bad(UnsupportedBitDepth) else Good(KnownDepths(values))
  }

  method CollectBitDepths(item: Item) returns (result: Outcome<seq<U32>>)
    ensures result == BitDepths(item)
  {
    hide AllowedValues;
    if item.bitDepth.None? { return Bad(MissingBitDepth); }
    var values := CollectAllowed(item.bitDepth.value, InvalidBitDepth);
    if values.Bad? { return Bad(values.issue); }
    var depths: seq<U32> := [];
    for i := 0 to |values.value|
      invariant depths == KnownDepths(values.value[..i])
    {
      assert values.value[..i + 1][..i] == values.value[..i];
      var value := values.value[i];
      if value == 1 || value == 8 || value == 16 || value == 24 || value == 48 {
        depths := depths + [value];
      }
    }
    assert values.value[..|values.value|] == values.value;
    result := if depths == [] then Bad(UnsupportedBitDepth) else Good(depths);
  }

  function MaxPages(item: Item): Outcome<U32> {
    if item.pageCount.None? then Bad(MissingPageCount)
    else
      var pages := item.pageCount.value;
      if !pages.readable || pages.shape != Range || pages.minimum < 0 || pages.maximum <= 0 || pages.step <= 0
      then Bad(InvalidPageCount)
      else Good(if pages.maximum < MAX_PAGES then pages.maximum else MAX_PAGES)
  }

  function HandlingFlags(item: Item): Outcome<U32> {
    if item.handlingCapabilities.None? then Good(0)
    else
      var p := item.handlingCapabilities.value;
      if !p.readable || p.shape != Flags || p.current < 0 then Bad(InvalidHandlingCapabilities) else Good(p.current)
  }

  /** Bits 2 and 3 of the handling flags. */
  predicate HasDuplex(flags: U32) { flags / 4 % 2 == 1 }
  predicate HasAdvancedDuplex(flags: U32) { flags / 8 % 2 == 1 }

  function ProfileFor(item: Item, source: Source): Outcome<Profile> {
    if !item.transferCapable then Bad(ItemNotTransferCapable)
    else
      var dpi :- Resolutions(item);
      var colors :- Colors(item);
      var depths :- BitDepths(item);
      var pages :- if source == OnFlatbed then Good(1) else MaxPages(item);
      Good(Profile(source, dpi, colors, depths, pages, false))
  }

  method BuildProfile(item: Item, source: Source) returns (result: Outcome<Profile>)
    ensures result == ProfileFor(item, source)
  {
    hide Resolutions, Colors, BitDepths, MaxPages;
    if !item.transferCapable { return Bad(ItemNotTransferCapable); }
    var dpi := IntersectResolutions(item);
    if dpi.Bad? { return Bad(dpi.issue); }
    var colors := Colors(item);
    if colors.Bad? { return Bad(colors.issue); }
    var depths := CollectBitDepths(item);
    if depths.Bad? { return Bad(depths.issue); }
    var pages := if source == OnFlatbed then Good(1) else MaxPages(item);
    if pages.Bad? { return Bad(pages.issue); }
    result := Good(Profile(source, dpi.value, colors.value, depths.value, pages.value, false));
  }

  // ------------------------------------------------------------------ mapping

  predicate HasCategory(items: seq<Item>, category: Category) {
    exists i :: 0 <= i < |items| && items[i].category == category
  }

  /** Both back and front of an advanced duplex unit. */
  predicate HasBothSides(device: Device) {
    HasCategory(device.items, FeederFront) && HasCategory(device.items, FeederBack)
  }

  function Duplexed(device: Device, simplex: Profile, flags: U32): Profile {
    simplex.(source := AdfDuplex, advancedDuplex := HasAdvancedDuplex(flags) && HasBothSides(device))
  }

  datatype Progress = Progress(profiles: seq<Profile>, issues: seq<Issue>, sawFlatbed: bool, sawFeeder: bool)

  function WithIssue(p: Progress, issue: Issue): Progress {
    p.(issues := p.issues + [issue])
  }

  function AddFlatbed(item: Item, p: Progress): Progress {
    if p.sawFlatbed then WithIssue(p, DuplicateFlatbed)
    else
      var seen, profile := p.(sawFlatbed := true), ProfileFor(item, OnFlatbed);
      if profile.Bad? then WithIssue(seen, profile.issue) else seen.(profiles := seen.profiles + [profile.value])
  }

  /** The profiles and issues that one feeder item adds; an issue ends it after what was added before. */
  function FeederAdds(device: Device, item: Item): (seq<Profile>, seq<Issue>) {
    var simplex := ProfileFor(item, AdfSimplex);
    if simplex.Bad? then ([], [simplex.issue])
    else
      var flags := HandlingFlags(item);
      if flags.Bad? then ([simplex.value], [flags.issue])
      else if !HasDuplex(flags.value) then ([simplex.value], [])
      else
        ([simplex.value, Duplexed(device, simplex.value, flags.value)],
         if HasAdvancedDuplex(flags.value) && !HasBothSides(device) then [IncompleteAdvancedDuplexTree] else [])
  }

  function AddFeeder(device: Device, item: Item, p: Progress): Progress {
    if p.sawFeeder then WithIssue(p, DuplicateFeeder)
    else
      var added := FeederAdds(device, item);
      Progress(p.profiles + added.0, p.issues + added.1, p.sawFlatbed, true)
  }

  function AddItem(device: Device, item: Item, p: Progress): Progress {
    match item.category
    case Flatbed => AddFlatbed(item, p)
    case Feeder => AddFeeder(device, item, p)
    case _ => p
  }

  function AddItems(device: Device, items: seq<Item>): Progress {
    if items == [] then Progress([], [], false, false)
    else AddItem(device, items[|items| - 1], AddItems(device, items[..|items| - 1]))
  }

  predicate ValidOpaqueId(id: string) {
    0 < |id| <= 64
  }

  function Mapped(device: Device): Capabilities {
    if !ValidOpaqueId(device.opaqueId) then Capabilities([], [InvalidOpaqueDeviceId])
    else
      var p := AddItems(device, device.items);
      Capabilities(p.profiles, p.issues + (if !p.sawFlatbed && !p.sawFeeder then [NoSupportedScanItem] else []))
  }

  method MapCapabilities(device: Device) returns (result: Capabilities)
    ensures result == Mapped(device)
  {
    hide ProfileFor, FeederAdds;
    if device.opaqueId == "" || |device.opaqueId| > 64 { return Capabilities([], [InvalidOpaqueDeviceId]); }
    var profiles: seq<Profile>, issues: seq<Issue> := [], [];
    var sawFlatbed, sawFeeder := false, false;
    for i := 0 to |device.items|
      invariant Progress(profiles, issues, sawFlatbed, sawFeeder) == AddItems(device, device.items[..i])
    {
      assert device.items[..i + 1][..i] == device.items[..i];
      var item := device.items[i];
      if item.category == Flatbed {
        if sawFlatbed {
          issues := issues + [DuplicateFlatbed];
        } else {
          sawFlatbed := true;
          var profile := BuildProfile(item, OnFlatbed);
          if profile.Bad? { issues := issues + [profile.issue]; } else { profiles := profiles + [profile.value]; }
        }
      } else if item.category == Feeder {
        if sawFeeder {
          issues := issues + [DuplicateFeeder];
        } else {
          sawFeeder := true;
          var added, found := MapFeeder(device, item);
          profiles, issues := profiles + added, issues + found;
        }
      }
    }
    assert device.items[..|device.items|] == device.items;
    if !sawFlatbed && !sawFeeder { issues := issues + [NoSupportedScanItem]; }
    result := Capabilities(profiles, issues);
  }

  /** The feeder branch of the loop. */
  method MapFeeder(device: Device, item: Item) returns (profiles: seq<Profile>, issues: seq<Issue>)
    ensures (profiles, issues) == FeederAdds(device, item)
  {
    hide ProfileFor, HandlingFlags, HasDuplex, HasAdvancedDuplex, HasBothSides;
    profiles, issues := [], [];
    var simplex := BuildProfile(item, AdfSimplex);
    if simplex.Bad? { return [], [simplex.issue]; }
    profiles := [simplex.value];
    var flags := HandlingFlags(item);
    if flags.Bad? { return profiles, [flags.issue]; }
    if HasDuplex(flags.value) {
      var duplex := Duplexed(device, simplex.value, flags.value);
      assert profiles + [duplex] == [simplex.value, duplex];
      profiles := profiles + [duplex];
      if HasAdvancedDuplex(flags.value) && !HasBothSides(device) { issues := [IncompleteAdvancedDuplexTree]; }
    }
  }

  // ------------------------------------------------------------------ requests

  predicate Supported(profile: Profile, request: Request) {
    profile.source == request.source && request.dpi in profile.dpiValues && request.color in profile.colors
    && request.bitDepth in profile.bitDepths && request.maxPages != 0 && request.maxPages <= profile.maxPages
  }

  function ProfileOf(profiles: seq<Profile>, source: Source): Option<Profile> {
    if profiles == [] then None
    else if profiles[0].source == source then Some(profiles[0])
    else ProfileOf(profiles[1..], source)
  }

  function PropertyWrites(capabilities: Capabilities, request: Request): Outcome<Writes> {
    var profile := ProfileOf(capabilities.profiles, request.source);
    if profile.None? then Bad(SourceUnavailable)
    else if !Supported(profile.value, request) then Bad(SettingsNotSupported)
    else if request.dpi > I32_MAX || request.bitDepth > I32_MAX || request.maxPages > I32_MAX
    then Bad(SettingsExceedPropertyRange)
    else
      Good(Writes(request.dpi, request.dpi, if request.color == Gray8 then GRAYSCALE else COLOR, request.bitDepth,
                  request.maxPages))
  }

  function AcceptReadback(profile: Profile, request: Request, r: Readback): Outcome<Accepted> {
    if !Supported(profile, request) then Bad(SettingsNotSupported)
    else if r.xDpi != r.yDpi || r.xDpi !in profile.dpiValues || r.color !in profile.colors
            || r.bitDepth !in profile.bitDepths || r.pages == 0 || r.pages > profile.maxPages
    then Bad(ReadbackOutsideCapabilities)
    else
      Good(Accepted(r.xDpi, r.color, r.bitDepth, r.pages,
                    r.xDpi != request.dpi || r.color != request.color || r.bitDepth != request.bitDepth
                    || r.pages != request.maxPages))
  }

  // -------------------------------------------------------- profiles are exact

  /** What the metadata of an optional property says. */
  predicate MayBe(p: Option<Property>, value: int) {
    p.Some? && Usable(p.value) && Allows(p.value, value)
  }

  lemma NothingIsAscending()
    ensures Ascending([])
  {
  }

  lemma FrontIsAscending(s: seq<int>)
    requires Ascending(s) && s != []
    ensures var front, last := s[..|s| - 1], s[|s| - 1];
            s == front + [last] && Ascending(front) && forall v :: v in front ==> v < last
  {
  }

  lemma SnocIsAscending(s: seq<int>, last: int)
    requires Ascending(s)
    ensures (forall v :: v in s ==> v < last) ==> Ascending(s + [last])
  {
    if forall v :: v in s ==> v < last {
      var t := s + [last];
      forall i, j | 0 <= i < j < |t| ensures t[i] < t[j] {
        assert t[i] in s;
      }
    }
  }

  lemma {:induction false} CommonIs(x: seq<I32>, y: seq<I32>)
    requires Ascending(x)
    ensures Ascending(Common(x, y))
    ensures forall d: int :: d in Common(x, y) <==> d in x && d in y && MIN_DPI <= d <= MAX_DPI
  {
    hide Ascending;
    if x == [] {
      NothingIsAscending();
    } else {
      var front := x[..|x| - 1];
      FrontIsAscending(x);
      CommonIs(front, y);
      SnocIsAscending(Common(front, y), x[|x| - 1]);
    }
  }

  /** The resolutions offered are exactly the values both axes allow between 50 and 9600, in ascending order. */
  lemma ResolutionsAreExact(item: Item)
    ensures Resolutions(item).Good? ==>
              Ascending(Resolutions(item).value)
              && forall d: int :: d in Resolutions(item).value
                                  <==> MayBe(item.xResolution, d) && MayBe(item.yResolution, d) && MIN_DPI <= d <= MAX_DPI
    ensures item.xResolution.Some? && item.yResolution.Some? && Usable(item.xResolution.value)
            && Usable(item.yResolution.value) ==>
              (Resolutions(item).Good?
               <==> exists d: int :: MayBe(item.xResolution, d) && MayBe(item.yResolution, d) && MIN_DPI <= d <= MAX_DPI)
  {
    hide AllowedValues, Allows, Usable, Common;
    if item.xResolution.Some? && item.yResolution.Some? {
      AllowedAreExact(item.xResolution.value, InvalidXResolution);
      AllowedAreExact(item.yResolution.value, InvalidYResolution);
      var x := AllowedValues(item.xResolution.value, InvalidXResolution);
      var y := AllowedValues(item.yResolution.value, InvalidYResolution);
      if x.Good? && y.Good? {
        CommonIs(x.value, y.value);
        var c := Common(x.value, y.value);
        assert c != [] ==> c[0] in c;
      }
    }
  }

  lemma {:induction false} KnownDepthsAre(values: seq<I32>)
    ensures forall d: int :: d in KnownDepths(values) <==> d in values && KnownDepth(d)
  {
    if values != [] {
      var front := values[..|values| - 1];
      assert values == front + [values[|values| - 1]];
      KnownDepthsAre(front);
    }
  }

  lemma ColorsAreExact(item: Item)
    requires Colors(item).Good?
    ensures Gray8 in Colors(item).value <==> MayBe(item.dataType, GRAYSCALE)
    ensures Rgb24 in Colors(item).value <==> MayBe(item.dataType, COLOR)
  {
    hide AllowedValues, Allows, Usable;
    AllowedAreExact(item.dataType.value, InvalidDataType);
  }

  lemma BitDepthsAreExact(item: Item)
    requires BitDepths(item).Good?
    ensures forall d: int :: d in BitDepths(item).value <==> MayBe(item.bitDepth, d) && KnownDepth(d)
  {
    hide AllowedValues, Allows, Usable, KnownDepths;
    AllowedAreExact(item.bitDepth.value, InvalidBitDepth);
    KnownDepthsAre(AllowedValues(item.bitDepth.value, InvalidBitDepth).value);
  }

  /** A profile offers exactly what its item's metadata allows. */
  ghost predicate OffersExactly(item: Item, profile: Profile) {
    item.transferCapable
    && (forall d: int :: d in profile.dpiValues
                         <==> MayBe(item.xResolution, d) && MayBe(item.yResolution, d) && MIN_DPI <= d <= MAX_DPI)
    && (Gray8 in profile.colors <==> MayBe(item.dataType, GRAYSCALE))
    && (Rgb24 in profile.colors <==> MayBe(item.dataType, COLOR))
    && (forall d: int :: d in profile.bitDepths <==> MayBe(item.bitDepth, d) && KnownDepth(d))
    && (if profile.source == OnFlatbed then profile.maxPages == 1
        else
          item.pageCount.Some? && profile.maxPages <= item.pageCount.value.maximum && 0 < profile.maxPages <= 10000
          && item.pageCount.value.shape == Range && item.pageCount.value.step > 0)
  }

  lemma ProfileIsExact(item: Item, source: Source)
    requires ProfileFor(item, source).Good?
    ensures var p := ProfileFor(item, source).value;
            p.source == source && !p.advancedDuplex && OffersExactly(item, p) && Ascending(p.dpiValues)
  {
    hide Resolutions, Colors, BitDepths, MayBe, KnownDepth;
    ResolutionsAreExact(item);
    ColorsAreExact(item);
    BitDepthsAreExact(item);
  }

  // --------------------------------------------------------- the map is exact

  function FirstOf(items: seq<Item>, category: Category): Option<Item> {
    if items == [] then None
    else
      var earlier := FirstOf(items[..|items| - 1], category);
      if earlier.Some? then earlier
      else if items[|items| - 1].category == category then Some(items[|items| - 1])
      else None
  }

  predicate IsFirstAt(items: seq<Item>, category: Category, i: nat) {
    i < |items| && items[i].category == category && forall j :: 0 <= j < i ==> items[j].category != category
  }

  /** The first item of a category, if there is one. */
  predicate IsFirst(items: seq<Item>, category: Category, first: Option<Item>) {
    match first
    case None => forall i :: 0 <= i < |items| ==> items[i].category != category
    case Some(item) => exists i :: 0 <= i < |items| && IsFirstAt(items, category, i) && items[i] == item
  }

  lemma {:induction false} FirstOfIsFirst(items: seq<Item>, category: Category)
    ensures IsFirst(items, category, FirstOf(items, category))
  {
    if items != [] {
      var n := |items| - 1;
      var before := FirstOf(items[..n], category);
      FirstOfIsFirst(items[..n], category);
      if before.Some? {
        var i: nat :| i < n && IsFirstAt(items[..n], category, i) && items[..n][i] == before.value;
        assert IsFirstAt(items, category, i);
      } else if items[n].category == category {
        assert IsFirstAt(items, category, n);
      }
    }
  }

  /** The one profile each source has, if any: from the first item of its category alone. */
  predicate Offers(device: Device, items: seq<Item>, p: Profile) {
    match p.source
    case OnFlatbed =>
      var item := FirstOf(items, Flatbed);
      item.Some? && ProfileFor(item.value, OnFlatbed) == Good(p)
    case AdfSimplex =>
      var item := FirstOf(items, Feeder);
      item.Some? && ProfileFor(item.value, AdfSimplex) == Good(p)
    case AdfDuplex =>
      var item := FirstOf(items, Feeder);
      item.Some? && ProfileFor(item.value, AdfSimplex).Good? && HandlingFlags(item.value).Good?
      && HasDuplex(HandlingFlags(item.value).value)
      && p == Duplexed(device, ProfileFor(item.value, AdfSimplex).value, HandlingFlags(item.value).value)
  }

  predicate SourcesDistinct(profiles: seq<Profile>) {
    forall i, j :: 0 <= i < j < |profiles| ==> profiles[i].source != profiles[j].source
  }

  ghost predicate Exact(device: Device, items: seq<Item>, p: Progress) {
    (p.sawFlatbed <==> FirstOf(items, Flatbed).Some?) && (p.sawFeeder <==> FirstOf(items, Feeder).Some?)
    && SourcesDistinct(p.profiles) && forall profile :: profile in p.profiles <==> Offers(device, items, profile)
  }

  lemma ProfileForSource(item: Item, source: Source)
    ensures ProfileFor(item, source).Good? ==>
              ProfileFor(item, source).value.source == source && !ProfileFor(item, source).value.advancedDuplex
  {
    hide Resolutions, Colors, BitDepths, MaxPages;
  }

  /** What a further item changes in the offers: nothing, unless it is the first of its category. */
  lemma OffersAppend(device: Device, front: seq<Item>, item: Item, p: Profile)
    ensures Offers(device, front + [item], p)
            <==> Offers(device, front, p) || (FirstOf(front, item.category).None? && Offers(device, [item], p))
    ensures FirstOf(front, Flatbed).None? && p.source == OnFlatbed ==> !Offers(device, front, p)
    ensures FirstOf(front, Feeder).None? && p.source != OnFlatbed ==> !Offers(device, front, p)
  {
    hide ProfileFor, HandlingFlags, HasDuplex, Duplexed, FirstOf;
    FirstOfAppend(front, item, Flatbed);
    FirstOfAppend(front, item, Feeder);
    FirstOfAppend([], item, Flatbed);
    FirstOfAppend([], item, Feeder);
    FirstOfNone(Flatbed);
    FirstOfNone(Feeder);
    assert [] + [item] == [item];
  }

  lemma FirstOfNone(category: Category)
    ensures FirstOf([], category) == None
  {
  }

  /** Adding the profiles that one more item offers. */
  lemma AppendKeepsExact(device: Device, front: seq<Item>, item: Item, profiles: seq<Profile>, more: seq<Profile>)
    requires SourcesDistinct(profiles) && SourcesDistinct(more)
    requires forall p :: p in profiles <==> Offers(device, front, p)
    requires forall p :: p in more <==> FirstOf(front, item.category).None? && Offers(device, [item], p)
    requires forall p :: p in more ==> if item.category == Flatbed then p.source == OnFlatbed
                                       else item.category == Feeder && p.source != OnFlatbed
    ensures SourcesDistinct(profiles + more)
    ensures forall p :: p in profiles + more <==> Offers(device, front + [item], p)
  {
    hide Offers, FirstOf;
    forall p
      ensures p in profiles + more <==> Offers(device, front + [item], p)
    {
      OffersAppend(device, front, item, p);
    }
    forall i, j | 0 <= i < |profiles| && 0 <= j < |more|
      ensures profiles[i].source != more[j].source
    {
      assert profiles[i] in profiles && more[j] in more;
      OffersAppend(device, front, item, profiles[i]);
    }
  }

  lemma OffersOfOne(device: Device, item: Item, p: Profile)
    ensures Offers(device, [item], p)
            <==> (item.category == Flatbed && ProfileFor(item, OnFlatbed) == Good(p))
                 || (item.category == Feeder && p in FeederAdds(device, item).0)
  {
    hide Resolutions, Colors, BitDepths, MaxPages, HandlingFlags, HasDuplex, HasAdvancedDuplex, HasBothSides;
    FirstOfAppend([], item, Flatbed);
    FirstOfAppend([], item, Feeder);
    assert [] + [item] == [item];
  }

  lemma FeederAddsDistinct(device: Device, item: Item)
    ensures SourcesDistinct(FeederAdds(device, item).0)
    ensures forall p :: p in FeederAdds(device, item).0 ==> p.source != OnFlatbed
  {
    hide ProfileFor, HandlingFlags, HasDuplex, HasAdvancedDuplex, HasBothSides;
    ProfileForSource(item, AdfSimplex);
  }

  /** The profiles one item adds, unless an earlier item has its category. */
  function Adds(device: Device, item: Item): seq<Profile> {
    match item.category
    case Flatbed => var p := ProfileFor(item, OnFlatbed); if p.Good? then [p.value] else []
    case Feeder => FeederAdds(device, item).0
    case _ => []
  }

  lemma AddsAreOffered(device: Device, item: Item)
    ensures forall p :: p in Adds(device, item) <==> Offers(device, [item], p)
    ensures SourcesDistinct(Adds(device, item))
    ensures forall p :: p in Adds(device, item) ==> if item.category == Flatbed then p.source == OnFlatbed
                                                    else item.category == Feeder && p.source != OnFlatbed
  {
    hide ProfileFor, FeederAdds, Offers;
    forall p ensures p in Adds(device, item) <==> Offers(device, [item], p) {
      OffersOfOne(device, item, p);
    }
    FeederAddsDistinct(device, item);
    ProfileForSource(item, OnFlatbed);
  }

  lemma AddedProfiles(device: Device, item: Item, p: Progress)
    ensures var after := AddItem(device, item, p);
            after.profiles
            == p.profiles + (if (item.category == Flatbed && p.sawFlatbed) || (item.category == Feeder && p.sawFeeder)
                             then [] else Adds(device, item))
            && (after.sawFlatbed <==> p.sawFlatbed || item.category == Flatbed)
            && (after.sawFeeder <==> p.sawFeeder || item.category == Feeder)
  {
    hide ProfileFor, FeederAdds;
  }

  lemma FirstOfAppend(front: seq<Item>, item: Item, category: Category)
    ensures FirstOf(front + [item], category)
            == if FirstOf(front, category).Some? then FirstOf(front, category)
               else if item.category == category then Some(item) else None
  {
    assert (front + [item])[..|front|] == front;
  }

  lemma ItemKeepsExact(device: Device, front: seq<Item>, item: Item, p: Progress)
    requires Exact(device, front, p)
    ensures Exact(device, front + [item], AddItem(device, item, p))
  {
    hide Offers, Adds, AddItem, FirstOf, SourcesDistinct;
    FirstOfAppend(front, item, Flatbed);
    FirstOfAppend(front, item, Feeder);
    AddedProfiles(device, item, p);
    AddsAreOffered(device, item);
    if FirstOf(front, item.category).None? {
      AppendKeepsExact(device, front, item, p.profiles, Adds(device, item));
    } else {
      NothingMore(device, item);
      AppendKeepsExact(device, front, item, p.profiles, []);
      assert p.profiles + [] == p.profiles;
      if item.category != Flatbed && item.category != Feeder {
        OtherAddsNothing(device, item);
      }
    }
  }

  lemma NothingMore(device: Device, item: Item)
    ensures SourcesDistinct([])
  {
  }

  lemma OtherAddsNothing(device: Device, item: Item)
    requires item.category != Flatbed && item.category != Feeder
    ensures Adds(device, item) == []
  {
  }

  lemma {:induction false} AddItemsIsExact(device: Device, items: seq<Item>)
    ensures Exact(device, items, AddItems(device, items))
  {
    hide AddItem;
    if items == [] {
      assert forall p :: !Offers(device, [], p);
    } else {
      var front, item := items[..|items| - 1], items[|items| - 1];
      assert items == front + [item];
      AddItemsIsExact(device, front);
      ItemKeepsExact(device, front, item, AddItems(device, front));
    }
  }

  /** The result lists each source at most once, and lists a profile exactly if the first item of its category offers it. */
  lemma MapIsExact(device: Device)
    requires ValidOpaqueId(device.opaqueId)
    ensures SourcesDistinct(Mapped(device).profiles)
    ensures forall p :: p in Mapped(device).profiles <==> Offers(device, device.items, p)
    ensures forall category :: IsFirst(device.items, category, FirstOf(device.items, category))
  {
    hide Offers, ProfileFor, FirstOf;
    AddItemsIsExact(device, device.items);
    forall category ensures IsFirst(device.items, category, FirstOf(device.items, category)) {
      FirstOfIsFirst(device.items, category);
    }
  }

  // ------------------------------------------------------- requests are sound

  lemma {:induction false} ProfileOfIs(profiles: seq<Profile>, source: Source)
    requires SourcesDistinct(profiles)
    ensures var p := ProfileOf(profiles, source);
            (p.Some? ==> p.value in profiles && p.value.source == source)
            && forall q :: q in profiles && q.source == source ==> p == Some(q)
  {
    if profiles != [] && profiles[0].source != source {
      var tail := profiles[1..];
      assert forall i :: 0 <= i < |tail| ==> tail[i] == profiles[i + 1];
      ProfileOfIs(tail, source);
      assert profiles == [profiles[0]] + tail;
    } else if profiles != [] {
      assert forall q :: q in profiles && q != profiles[0] ==> q in profiles[1..];
    }
  }

  /** The item that a source's settings are written to. */
  function ItemFor(device: Device, source: Source): Option<Item> {
    FirstOf(device.items, if source == OnFlatbed then Flatbed else Feeder)
  }

  /** What an offered profile says of its item. */
  lemma OfferedIsExact(device: Device, p: Profile)
    requires Offers(device, device.items, p)
    ensures ItemFor(device, p.source).Some? && OffersExactly(ItemFor(device, p.source).value, p)
    ensures p.advancedDuplex ==> p.source == AdfDuplex && HasBothSides(device)
  {
    hide OffersExactly, FirstOf, HandlingFlags, HasBothSides, HasDuplex, HasAdvancedDuplex, ProfileFor;
    var item := ItemFor(device, p.source).value;
    match p.source
    case OnFlatbed => ProfileIsExact(item, OnFlatbed);
    case AdfSimplex => ProfileIsExact(item, AdfSimplex);
    case AdfDuplex =>
      ProfileIsExact(item, AdfSimplex);
      DuplexOffersTheSame(device, item, ProfileFor(item, AdfSimplex).value, HandlingFlags(item).value);
  }

  lemma DuplexOffersTheSame(device: Device, item: Item, simplex: Profile, flags: U32)
    requires OffersExactly(item, simplex) && simplex.source == AdfSimplex
    ensures OffersExactly(item, Duplexed(device, simplex, flags))
    ensures Duplexed(device, simplex, flags).advancedDuplex ==> HasBothSides(device)
  {
    hide MayBe, KnownDepth, HasBothSides, HasAdvancedDuplex;
  }

  /** Every value written is one that the item's own metadata allows. */
  predicate AllowedByItem(item: Item, source: Source, w: Writes) {
    item.transferCapable && w.xDpi == w.yDpi
    && MayBe(item.xResolution, w.xDpi) && MayBe(item.yResolution, w.yDpi) && MIN_DPI <= w.xDpi <= MAX_DPI
    && MayBe(item.dataType, w.dataType) && MayBe(item.bitDepth, w.bitDepth) && KnownDepth(w.bitDepth)
    && 1 <= w.pages
    && (if source == OnFlatbed then w.pages == 1
        else item.pageCount.Some? && w.pages <= item.pageCount.value.maximum && w.pages <= 10000)
  }

  lemma WritesFollowProfile(item: Item, p: Profile, request: Request)
    requires OffersExactly(item, p) && Supported(p, request)
    ensures AllowedByItem(item, request.source,
                          Writes(request.dpi, request.dpi, if request.color == Gray8 then GRAYSCALE else COLOR,
                                 request.bitDepth, request.maxPages))
  {
    hide Allows, Usable;
  }

  /** For any device and request, what is prepared is allowed by the item it is written to, and a request is refused
      exactly if no profile of its source supports it; the range check never fails. */
  lemma PreparedWritesAreAllowed(device: Device, request: Request)
    requires ValidOpaqueId(device.opaqueId)
    ensures var result := PropertyWrites(Mapped(device), request);
            (result.Good? ==>
               ItemFor(device, request.source).Some?
               && AllowedByItem(ItemFor(device, request.source).value, request.source, result.value))
            && (result.Good? <==> exists p :: p in Mapped(device).profiles && Supported(p, request))
            && result != Bad(SettingsExceedPropertyRange)
  {
    hide Offers, OffersExactly, AllowedByItem, Mapped, ItemFor, SourcesDistinct;
    var profiles := Mapped(device).profiles;
    MapIsExact(device);
    ProfileOfIs(profiles, request.source);
    var p := ProfileOf(profiles, request.source);
    if p.Some? && Supported(p.value, request) {
      OfferedIsExact(device, p.value);
      WritesFollowProfile(ItemFor(device, request.source).value, p.value, request);
      WritesFit(ItemFor(device, request.source).value, p.value, request);
    }
  }

  /** The page count written for a feeder never exceeds the reported maximum, and it is one that the page property
      allows exactly if the request respects the property's minimum and step. */
  lemma WrittenPagesAreAllowedIff(device: Device, request: Request)
    requires ValidOpaqueId(device.opaqueId) && PropertyWrites(Mapped(device), request).Good?
    requires request.source != OnFlatbed
    ensures ItemFor(device, request.source).Some? && ItemFor(device, request.source).value.pageCount.Some?
    ensures var pages := ItemFor(device, request.source).value.pageCount.value;
            pages.step > 0
            && (Allows(pages, PropertyWrites(Mapped(device), request).value.pages)
                <==> request.maxPages >= pages.minimum && (request.maxPages - pages.minimum) % pages.step == 0)
  {
    hide Mapped, ItemFor, Offers, MayBe, KnownDepth;
    PreparedWritesAreAllowed(device, request);
    MapIsExact(device);
    ProfileOfIs(Mapped(device).profiles, request.source);
    OfferedIsExact(device, ProfileOf(Mapped(device).profiles, request.source).value);
  }

  // ------------------------- the minimum and the step of a page count are not enforced

  function Only(value: I32): Property {
    Property(Scalar, value, [], 0, 0, 0, true)
  }

  /** A feeder that scans gray pages at 300 dpi and reports these page counts. */
  function PlainFeeder(pages: Property): Item {
    Item(Feeder, true, Some(Only(300)), Some(Only(300)), Some(Only(GRAYSCALE)), Some(Only(8)), Some(pages), None)
  }

  function PlainRequest(pages: U32): Request {
    Request(AdfSimplex, 300, Gray8, 8, pages)
  }

  lemma PlainResolutions(pages: Property)
    ensures Resolutions(PlainFeeder(pages)) == Good([300])
  {
    var three: seq<I32> := [300];
    assert Common([], three) == [] && three[..0] == [];
    assert Common(three, three) == [300];
  }

  lemma PlainDepths(pages: Property)
    ensures BitDepths(PlainFeeder(pages)) == Good([8])
  {
    var eight: seq<I32> := [8];
    assert KnownDepths([]) == [] && eight[..0] == [];
    assert KnownDepths(eight) == [8];
  }

  lemma PlainColors(pages: Property)
    ensures Colors(PlainFeeder(pages)) == Good([Gray8])
  {
    var gray: seq<Color> := [Gray8];
    assert gray + [] == gray && COLOR !in [GRAYSCALE];
  }

  lemma PlainFeederProfile(pages: Property)
    requires pages.readable && pages.shape == Range && 0 <= pages.minimum && 0 < pages.maximum && 0 < pages.step
    ensures ProfileFor(PlainFeeder(pages), AdfSimplex)
            == Good(Profile(AdfSimplex, [300], [Gray8], [8],
                            if pages.maximum < MAX_PAGES then pages.maximum else MAX_PAGES, false))
  {
    hide Resolutions, Colors, BitDepths;
    PlainResolutions(pages);
    PlainColors(pages);
    PlainDepths(pages);
  }

  /** For any page counts a feeder can report, every number up to the maximum is accepted and written, in particular one
      below the minimum or off the step, which the property does not allow. */
  lemma DisallowedPagesAreWritten(pages: Property, count: U32)
    requires pages.readable && pages.shape == Range && 0 <= pages.minimum && 0 < pages.maximum && 0 < pages.step
    requires 0 < count <= pages.maximum && count <= MAX_PAGES
    ensures var device := Device("feeder", [PlainFeeder(pages)]);
            ItemFor(device, AdfSimplex) == Some(PlainFeeder(pages))
            && PropertyWrites(Mapped(device), PlainRequest(count)).Good?
            && PropertyWrites(Mapped(device), PlainRequest(count)).value.pages == count
            && (Allows(pages, count) <==> count >= pages.minimum && (count - pages.minimum) % pages.step == 0)
  {
    hide ProfileFor, Mapped, SourcesDistinct, Offers, AllowedByItem, Resolutions, Colors, BitDepths, HandlingFlags;
    var item := PlainFeeder(pages);
    var device := Device("feeder", [item]);
    PlainFeederProfile(pages);
    FirstOfAppend([], item, Feeder);
    FirstOfNone(Feeder);
    assert [] + [item] == [item];
    SimplexIsOffered(device, item, ProfileFor(item, AdfSimplex).value);
    MapIsExact(device);
    assert Supported(ProfileFor(item, AdfSimplex).value, PlainRequest(count));
    PreparedWritesAreAllowed(device, PlainRequest(count));
  }

  /** One page, from a feeder that reports at least two. */
  lemma PageBelowMinimumIsWritten(minimum: I32, maximum: I32)
    requires 2 <= minimum <= maximum
    ensures var pages := Property(Range, minimum, [], minimum, maximum, 1, true);
            var result := PropertyWrites(Mapped(Device("feeder", [PlainFeeder(pages)])), PlainRequest(1));
            result.Good? && result.value.pages == 1 && !Allows(pages, 1)
  {
    hide Mapped, PropertyWrites, PlainFeeder;
    DisallowedPagesAreWritten(Property(Range, minimum, [], minimum, maximum, 1, true), 1);
  }

  lemma SimplexIsOffered(device: Device, item: Item, p: Profile)
    requires FirstOf(device.items, Feeder) == Some(item) && ProfileFor(item, AdfSimplex) == Good(p) && p.source == AdfSimplex
    ensures Offers(device, device.items, p)
  {
    hide ProfileFor, FirstOf;
  }

  lemma WritesFit(item: Item, p: Profile, request: Request)
    requires OffersExactly(item, p) && Supported(p, request)
    ensures request.dpi <= I32_MAX && request.bitDepth <= I32_MAX && request.maxPages <= I32_MAX
  {
    hide MayBe;
  }

  /** Settings that the driver reports back are accepted only if they could have been requested, and count as coerced
      exactly if they are not what was requested. */
  lemma AcceptedCouldBeRequested(profile: Profile, request: Request, r: Readback)
    ensures AcceptReadback(profile, request, r).Good?
            <==> Supported(profile, request) && r.xDpi == r.yDpi
                 && Supported(profile, Request(request.source, r.xDpi, r.color, r.bitDepth, r.pages))
    ensures AcceptReadback(profile, request, r).Good? ==>
              var a := AcceptReadback(profile, request, r).value;
              (!a.coerced <==> Request(request.source, a.dpi, a.color, a.bitDepth, a.pages) == request)
  {
  }
}
