/** What is offered, written and accepted, value by value, from what the device reports. */
module CapabilityLaws {
  import opened Text
  import opened Arith
  import opened Capability
  import opened CapabilityMap

  // ----------------------------------------------------------------- properties

  /** Metadata that can be used: one value, a list of 1 to 256 values, or a range of at most 256 steps. */
  predicate CanBeUsed(p: Property) {
    p.readable
    && (p.shape == Scalar
        || (p.shape == List && 1 <= |p.values| <= 256)
        || (p.shape == Range && p.step > 0 && p.minimum <= p.maximum && p.maximum - p.minimum < 256 * p.step))
  }

  /** The device can be set to this value. */
  predicate Takes(p: Property, v: int) {
    (p.shape == Scalar && v == p.current)
    || (p.shape == List && v in p.values)
    || (p.shape == Range && p.step > 0 && p.minimum <= v <= p.maximum && (v - p.minimum) % p.step == 0)
  }

  lemma UsableIs(p: Property)
    ensures Usable(p) <==> CanBeUsed(p)
  {
    if p.shape == Range && p.step > 0 && p.minimum <= p.maximum {
      FewSteps(p.maximum - p.minimum, p.step);
    }
  }

  lemma FewSteps(n: nat, step: int)
    requires step > 0
    ensures n / step + 1 <= 256 <==> n < 256 * step
  {
    var q, r := n / step, n % step;
    assert n == step * q + r;
    if q <= 255 {
      assert step * q <= step * 255;
    } else {
      assert step * q >= step * 256;
    }
  }

  lemma AllowsIs(p: Property, v: int)
    ensures Allows(p, v) <==> Takes(p, v)
  {
  }

  /** The values of a property: exactly what the device can be set to, ascending, or the issue. */
  lemma ValuesAre(p: Property, issue: Issue)
    ensures CanBeUsed(p) ==> AllowedValues(p, issue).Good?
    ensures !CanBeUsed(p) ==> AllowedValues(p, issue) == Bad(issue)
    ensures CanBeUsed(p) ==>
              var values := AllowedValues(p, issue).value;
              (forall i, j :: 0 <= i < j < |values| ==> values[i] < values[j]) && forall v: int :: v in values <==> Takes(p, v)
  {
    UsableIs(p);
    AllowedAreExact(p, issue);
    forall v: int ensures Allows(p, v) <==> Takes(p, v) {
      AllowsIs(p, v);
    }
    hide Usable, CanBeUsed, Allows, Takes;
  }

  /** An optional property that can be used and takes the value. */
  predicate Has(p: Option<Property>, v: int) {
    p.Some? && CanBeUsed(p.value) && Takes(p.value, v)
  }

  lemma HasIs(p: Option<Property>)
    ensures forall v: int :: MayBe(p, v) <==> Has(p, v)
  {
    hide Usable, CanBeUsed, Allows, Takes;
    if p.Some? {
      UsableIs(p.value);
      forall v: int ensures Allows(p.value, v) <==> Takes(p.value, v) {
        AllowsIs(p.value, v);
      }
    }
  }

  // ------------------------------------------------------------------- profiles

  predicate Ascends(values: seq<int>) {
    forall i, j :: 0 <= i < j < |values| ==> values[i] < values[j]
  }

  /** The most pages that a feeder may be asked for. */
  predicate PagesFrom(item: Item, pages: int) {
    item.pageCount.Some?
    && var p := item.pageCount.value;
       p.readable && p.shape == Range && p.minimum >= 0 && p.maximum > 0 && p.step > 0
       && pages == if p.maximum <= 10000 then p.maximum else 10000
  }

  /** A profile of an item: resolutions that both axes take between 50 and 9600, gray where 2 is a data type and colour where 3
      is, the usual depths, one page from the glass and as many as reported, up to 10000, from a feeder. */
  ghost predicate IsProfileOf(item: Item, source: Source, p: Profile) {
    item.transferCapable && p.source == source && !p.advancedDuplex
    && p.dpiValues != [] && Ascends(p.dpiValues)
    && (forall d: int :: d in p.dpiValues <==> 50 <= d <= 9600 && Has(item.xResolution, d) && Has(item.yResolution, d))
    && (p.colors == [Gray8] || p.colors == [Rgb24] || p.colors == [Gray8, Rgb24])
    && (Gray8 in p.colors <==> Has(item.dataType, 2)) && (Rgb24 in p.colors <==> Has(item.dataType, 3))
    && p.bitDepths != [] && Ascends(p.bitDepths)
    && (forall d: int :: d in p.bitDepths <==> (d == 1 || d == 8 || d == 16 || d == 24 || d == 48) && Has(item.bitDepth, d))
    && if source == OnFlatbed then p.maxPages == 1 else PagesFrom(item, p.maxPages)
  }

  lemma {:induction false} DepthsAscend(values: seq<I32>)
    requires Ascending(values)
    ensures Ascending(KnownDepths(values))
  {
    hide Ascending, KnownDepth;
    if values == [] {
      NothingIsAscending();
    } else {
      var front, last := values[..|values| - 1], values[|values| - 1];
      FrontIsAscending(values);
      DepthsAscend(front);
      KnownDepthsAre(front);
      SnocIsAscending(KnownDepths(front), last);
    }
  }

  lemma BitDepthsAscend(item: Item)
    requires BitDepths(item).Good?
    ensures Ascending(BitDepths(item).value) && BitDepths(item).value != []
  {
    hide AllowedValues, Allows, Usable, KnownDepths;
    AllowedAreExact(item.bitDepth.value, InvalidBitDepth);
    DepthsAscend(AllowedValues(item.bitDepth.value, InvalidBitDepth).value);
  }

  lemma ColorsAre(item: Item)
    requires Colors(item).Good?
    ensures var c := Colors(item).value; c == [Gray8] || c == [Rgb24] || c == [Gray8, Rgb24]
  {
    hide AllowedValues;
  }

  /** Whatever is offered for an item is a profile of it in that sense. */
  lemma ProfileIsAsReported(item: Item, source: Source)
    requires ProfileFor(item, source).Good?
    ensures IsProfileOf(item, source, ProfileFor(item, source).value)
  {
    hide Resolutions, Colors, BitDepths, MayBe, Has;
    ProfileIsExact(item, source);
    ResolutionsAreExact(item);
    ResolutionsAreSome(item);
    ColorsAre(item);
    BitDepthsAscend(item);
    HasIs(item.xResolution);
    HasIs(item.yResolution);
    HasIs(item.dataType);
    HasIs(item.bitDepth);
  }

  lemma ResolutionsAreSome(item: Item)
    ensures Resolutions(item).Good? ==> Resolutions(item).value != []
  {
    hide AllowedValues, Common;
  }

  /** The first thing that is wrong with an item, in the order in which the report is read. */
  ghost function Problem(item: Item, source: Source): Option<Issue> {
    if !item.transferCapable then Some(ItemNotTransferCapable)
    else if item.xResolution.None? || item.yResolution.None? then Some(MissingResolution)
    else if !CanBeUsed(item.xResolution.value) then Some(InvalidXResolution)
    else if !CanBeUsed(item.yResolution.value) then Some(InvalidYResolution)
    else if !(exists d: int :: 50 <= d <= 9600 && Takes(item.xResolution.value, d) && Takes(item.yResolution.value, d))
    then Some(NoCompatibleResolution)
    else if item.dataType.None? then Some(MissingDataType)
    else if !CanBeUsed(item.dataType.value) then Some(InvalidDataType)
    else if !Takes(item.dataType.value, 2) && !Takes(item.dataType.value, 3) then Some(UnsupportedDataType)
    else if item.bitDepth.None? then Some(MissingBitDepth)
    else if !CanBeUsed(item.bitDepth.value) then Some(InvalidBitDepth)
    else if !Takes(item.bitDepth.value, 1) && !Takes(item.bitDepth.value, 8) && !Takes(item.bitDepth.value, 16)
            && !Takes(item.bitDepth.value, 24) && !Takes(item.bitDepth.value, 48)
    then Some(UnsupportedBitDepth)
    else if source == OnFlatbed then None
    else if item.pageCount.None? then Some(MissingPageCount)
    else if !(exists pages: int :: PagesFrom(item, pages)) then Some(InvalidPageCount)
    else None
  }

  lemma ResolutionProblem(item: Item)
    ensures Resolutions(item)
            == if item.xResolution.None? || item.yResolution.None? then Bad(MissingResolution)
               else if !CanBeUsed(item.xResolution.value) then Bad(InvalidXResolution)
               else if !CanBeUsed(item.yResolution.value) then Bad(InvalidYResolution)
               else if !(exists d: int :: 50 <= d <= 9600 && Takes(item.xResolution.value, d) && Takes(item.yResolution.value, d))
               then Bad(NoCompatibleResolution) else Resolutions(item)
    ensures Resolutions(item).Good? <==>
              item.xResolution.Some? && item.yResolution.Some? && CanBeUsed(item.xResolution.value)
              && CanBeUsed(item.yResolution.value)
              && exists d: int :: 50 <= d <= 9600 && Takes(item.xResolution.value, d) && Takes(item.yResolution.value, d)
  {
    hide AllowedValues, Allows, Usable, CanBeUsed, Takes, Common;
    if item.xResolution.Some? && item.yResolution.Some? {
      var x, y := item.xResolution.value, item.yResolution.value;
      ValuesAre(x, InvalidXResolution);
      ValuesAre(y, InvalidYResolution);
      if CanBeUsed(x) && CanBeUsed(y) {
        var a, b := AllowedValues(x, InvalidXResolution).value, AllowedValues(y, InvalidYResolution).value;
        AllowedAreExact(x, InvalidXResolution);
        CommonIs(a, b);
        var c := Common(a, b);
        assert c != [] ==> c[0] in c;
        forall d: int ensures d in c <==> 50 <= d <= 9600 && Takes(x, d) && Takes(y, d) {
          assert d in a <==> Takes(x, d);
          assert d in b <==> Takes(y, d);
        }
      }
    }
  }

  lemma ColorProblem(item: Item)
    ensures Colors(item).Bad? ==>
              Colors(item) == if item.dataType.None? then Bad(MissingDataType)
                              else if !CanBeUsed(item.dataType.value) then Bad(InvalidDataType) else Bad(UnsupportedDataType)
    ensures Colors(item).Good? <==>
              item.dataType.Some? && CanBeUsed(item.dataType.value)
              && (Takes(item.dataType.value, 2) || Takes(item.dataType.value, 3))
  {
    hide AllowedValues, Allows, Usable, CanBeUsed, Takes;
    if item.dataType.Some? {
      ValuesAre(item.dataType.value, InvalidDataType);
    }
  }

  lemma DepthProblem(item: Item)
    ensures BitDepths(item).Bad? ==>
              BitDepths(item) == if item.bitDepth.None? then Bad(MissingBitDepth)
                                 else if !CanBeUsed(item.bitDepth.value) then Bad(InvalidBitDepth) else Bad(UnsupportedBitDepth)
    ensures BitDepths(item).Good? <==>
              item.bitDepth.Some? && CanBeUsed(item.bitDepth.value)
              && (Takes(item.bitDepth.value, 1) || Takes(item.bitDepth.value, 8) || Takes(item.bitDepth.value, 16)
                  || Takes(item.bitDepth.value, 24) || Takes(item.bitDepth.value, 48))
  {
    hide AllowedValues, Allows, Usable, CanBeUsed, Takes, KnownDepths;
    if item.bitDepth.Some? {
      ValuesAre(item.bitDepth.value, InvalidBitDepth);
      if CanBeUsed(item.bitDepth.value) {
        var values := AllowedValues(item.bitDepth.value, InvalidBitDepth).value;
        KnownDepthsAre(values);
        var depths := KnownDepths(values);
        assert depths != [] ==> depths[0] in depths;
        assert forall d: int :: d in values <==> Takes(item.bitDepth.value, d);
      }
    }
  }

  /** An item is offered exactly if nothing is wrong with it, and the issue is the first thing that is. */
  lemma ProfileOrProblem(item: Item, source: Source)
    ensures ProfileFor(item, source).Good? <==> Problem(item, source) == None
    ensures ProfileFor(item, source).Bad? ==> Problem(item, source) == Some(ProfileFor(item, source).issue)
  {
    hide Resolutions, Colors, BitDepths, CanBeUsed, Takes;
    ResolutionProblem(item);
    ColorProblem(item);
    DepthProblem(item);
    if item.pageCount.Some? && MaxPages(item).Good? {
      assert PagesFrom(item, MaxPages(item).value);
    }
  }

  // -------------------------------------------------------------------- devices

  /** The handling flags of a feeder: none where it reports none. */
  predicate Flagged(item: Item, flags: int) {
    if item.handlingCapabilities.None? then flags == 0
    else
      var p := item.handlingCapabilities.value;
      p.readable && p.shape == Flags && p.current >= 0 && flags == p.current
  }

  predicate FlagsAreBad(item: Item) {
    item.handlingCapabilities.Some?
    && var p := item.handlingCapabilities.value; !p.readable || p.shape != Flags || p.current < 0
  }

  predicate HasItem(device: Device, category: Category) {
    exists i :: 0 <= i < |device.items| && device.items[i].category == category
  }

  lemma FlagsAre(item: Item)
    ensures HandlingFlags(item).Good? <==> !FlagsAreBad(item)
    ensures HandlingFlags(item).Good? ==> Flagged(item, HandlingFlags(item).value)
    ensures HandlingFlags(item).Bad? ==> HandlingFlags(item) == Bad(InvalidHandlingCapabilities)
  {
  }

  /** Bit 2 of the flags is duplex, bit 3 advanced duplex. */
  lemma BitsAre(flags: U32)
    ensures HasDuplex(flags) <==> flags % 8 >= 4
    ensures HasAdvancedDuplex(flags) <==> flags % 16 >= 8
  {
    BitTwo(flags / 8, flags % 8);
    BitThree(flags / 16, flags % 16);
  }

  lemma BitTwo(high: nat, low: nat)
    requires low < 8
    ensures (8 * high + low) / 4 % 2 == 1 <==> low >= 4
  {
    if low < 4 {
      assert (8 * high + low) / 4 == 2 * high;
    } else {
      assert (8 * high + low) / 4 == 2 * high + 1;
    }
  }

  lemma BitThree(high: nat, low: nat)
    requires low < 16
    ensures (16 * high + low) / 8 % 2 == 1 <==> low >= 8
  {
    if low < 8 {
      assert (16 * high + low) / 8 == 2 * high;
    } else {
      assert (16 * high + low) / 8 == 2 * high + 1;
    }
  }

  /** The double-sided profile: the one-sided profile of the first feeder with another source, where bit 2 of its flags is set,
      and advanced where bit 3 is set too and there are items for both sides. */
  ghost predicate IsDuplexOf(device: Device, item: Item, p: Profile) {
    exists flags: U32 ::
      Flagged(item, flags) && flags % 8 >= 4 && p.source == AdfDuplex
      && (p.advancedDuplex <==> flags % 16 >= 8 && HasItem(device, FeederFront) && HasItem(device, FeederBack))
      && IsProfileOf(item, AdfSimplex, p.(source := AdfSimplex, advancedDuplex := false))
  }

  /** Each source is listed at most once; what is listed is a profile of the first flatbed or feeder; and it is listed if nothing
      is wrong with that item. */
  lemma DeviceIsOffered(device: Device)
    requires 1 <= |device.opaqueId| <= 64
    ensures SourcesDistinct(Mapped(device).profiles)
    ensures forall p :: p in Mapped(device).profiles && p.source == OnFlatbed ==>
                          exists i: nat :: IsFirstAt(device.items, Flatbed, i) && IsProfileOf(device.items[i], OnFlatbed, p)
    ensures forall p :: p in Mapped(device).profiles && p.source == AdfSimplex ==>
                          exists i: nat :: IsFirstAt(device.items, Feeder, i) && IsProfileOf(device.items[i], AdfSimplex, p)
    ensures forall p :: p in Mapped(device).profiles && p.source == AdfDuplex ==>
                          exists i: nat :: IsFirstAt(device.items, Feeder, i) && IsDuplexOf(device, device.items[i], p)
    ensures forall i: nat :: IsFirstAt(device.items, Flatbed, i) ==>
              (Problem(device.items[i], OnFlatbed) == None <==> exists p :: p in Mapped(device).profiles && p.source == OnFlatbed)
    ensures forall i: nat :: IsFirstAt(device.items, Feeder, i) ==>
              (Problem(device.items[i], AdfSimplex) == None <==> exists p :: p in Mapped(device).profiles && p.source == AdfSimplex)
  {
    MapIsExact(device);
    hide Mapped, Offers, ProfileFor, IsProfileOf, IsDuplexOf, Problem, FirstOf;
    forall p | p in Mapped(device).profiles && p.source == OnFlatbed
      ensures exists i: nat :: IsFirstAt(device.items, Flatbed, i) && IsProfileOf(device.items[i], OnFlatbed, p)
    {
      assert Offers(device, device.items, p);
      FlatbedIsReported(device, p);
    }
    forall p | p in Mapped(device).profiles && p.source == AdfSimplex
      ensures exists i: nat :: IsFirstAt(device.items, Feeder, i) && IsProfileOf(device.items[i], AdfSimplex, p)
    {
      assert Offers(device, device.items, p);
      SimplexIsReported(device, p);
    }
    forall p | p in Mapped(device).profiles && p.source == AdfDuplex
      ensures exists i: nat :: IsFirstAt(device.items, Feeder, i) && IsDuplexOf(device, device.items[i], p)
    {
      assert Offers(device, device.items, p);
      DuplexIsReported(device, p);
    }
    forall i: nat | IsFirstAt(device.items, Flatbed, i)
      ensures Problem(device.items[i], OnFlatbed) == None <==> exists p :: p in Mapped(device).profiles && p.source == OnFlatbed
    {
      OfferedUnlessProblem(device, i, OnFlatbed);
    }
    forall i: nat | IsFirstAt(device.items, Feeder, i)
      ensures Problem(device.items[i], AdfSimplex) == None <==> exists p :: p in Mapped(device).profiles && p.source == AdfSimplex
    {
      OfferedUnlessProblem(device, i, AdfSimplex);
    }
  }

  lemma FirstIs(items: seq<Item>, category: Category, i: nat)
    requires IsFirstAt(items, category, i)
    ensures FirstOf(items, category) == Some(items[i])
  {
    hide FirstOf;
    FirstOfIsFirst(items, category);
    var first := FirstOf(items, category);
    if first.Some? {
      var j :| 0 <= j < |items| && IsFirstAt(items, category, j) && items[j] == first.value;
      assert i == j;
    }
  }

  lemma FlatbedIsReported(device: Device, p: Profile)
    requires Offers(device, device.items, p) && p.source == OnFlatbed
    ensures exists i: nat :: IsFirstAt(device.items, Flatbed, i) && IsProfileOf(device.items[i], OnFlatbed, p)
  {
    hide ProfileFor, IsProfileOf, FirstOf;
    FirstOfIsFirst(device.items, Flatbed);
    ProfileIsAsReported(FirstOf(device.items, Flatbed).value, OnFlatbed);
  }

  lemma SimplexIsReported(device: Device, p: Profile)
    requires Offers(device, device.items, p) && p.source == AdfSimplex
    ensures exists i: nat :: IsFirstAt(device.items, Feeder, i) && IsProfileOf(device.items[i], AdfSimplex, p)
  {
    hide ProfileFor, IsProfileOf, FirstOf;
    FirstOfIsFirst(device.items, Feeder);
    ProfileIsAsReported(FirstOf(device.items, Feeder).value, AdfSimplex);
  }

  lemma DuplexIsReported(device: Device, p: Profile)
    requires Offers(device, device.items, p) && p.source == AdfDuplex
    ensures exists i: nat :: IsFirstAt(device.items, Feeder, i) && IsDuplexOf(device, device.items[i], p)
  {
    hide ProfileFor, IsProfileOf, FirstOf, HandlingFlags, HasDuplex, HasAdvancedDuplex;
    FirstOfIsFirst(device.items, Feeder);
    var item := FirstOf(device.items, Feeder).value;
    var simplex, flags := ProfileFor(item, AdfSimplex).value, HandlingFlags(item).value;
    ProfileIsAsReported(item, AdfSimplex);
    IsProfileHas(item, simplex);
    FlagsAre(item);
    BitsAre(flags);
    assert p.(source := AdfSimplex, advancedDuplex := false) == simplex;
    assert IsDuplexOf(device, item, p);
  }

  lemma IsProfileHas(item: Item, p: Profile)
    requires IsProfileOf(item, AdfSimplex, p)
    ensures p.source == AdfSimplex && !p.advancedDuplex
  {
  }

  lemma OfferedUnlessProblem(device: Device, i: nat, source: Source)
    requires ValidOpaqueId(device.opaqueId) && source != AdfDuplex
    requires IsFirstAt(device.items, if source == OnFlatbed then Flatbed else Feeder, i)
    ensures Problem(device.items[i], source) == None <==> exists p :: p in Mapped(device).profiles && p.source == source
  {
    hide ProfileFor, Problem, FirstOf, Mapped, HandlingFlags;
    MapIsExact(device);
    FirstIs(device.items, if source == OnFlatbed then Flatbed else Feeder, i);
    ProfileOrProblem(device.items[i], source);
    ProfileForSource(device.items[i], source);
    if ProfileFor(device.items[i], source).Good? {
      var p := ProfileFor(device.items[i], source).value;
      assert Offers(device, device.items, p);
    }
    if p :| p in Mapped(device).profiles && p.source == source {
      assert Offers(device, device.items, p);
    }
  }

  /** The double-sided profile is listed exactly if the first feeder is listed and bit 2 of its flags is set. */
  lemma DuplexIsOffered(device: Device, i: nat)
    requires 1 <= |device.opaqueId| <= 64 && IsFirstAt(device.items, Feeder, i)
    ensures (exists p :: p in Mapped(device).profiles && p.source == AdfDuplex)
            <==> Problem(device.items[i], AdfSimplex) == None
                 && exists flags: U32 :: Flagged(device.items[i], flags) && flags % 8 >= 4
  {
    hide ProfileFor, Problem, FirstOf, Mapped, HandlingFlags, HasDuplex, HasAdvancedDuplex;
    MapIsExact(device);
    FirstIs(device.items, Feeder, i);
    var item := device.items[i];
    ProfileOrProblem(item, AdfSimplex);
    FlagsAre(item);
    var simplex, flags := ProfileFor(item, AdfSimplex), HandlingFlags(item);
    if simplex.Good? && flags.Good? {
      BitsAre(flags.value);
      if HasDuplex(flags.value) {
        assert Offers(device, device.items, Duplexed(device, simplex.value, flags.value));
      }
    }
    if p :| p in Mapped(device).profiles && p.source == AdfDuplex {
      assert Offers(device, device.items, p);
    }
  }

  // --------------------------------------------------------------------- issues

  predicate Several(items: seq<Item>, category: Category) {
    exists i, j :: 0 <= i < j < |items| && items[i].category == category && items[j].category == category
  }

  /** What a feeder gives rise to: its first problem; without one, bad flags, or an advanced unit that lacks a side. */
  ghost predicate FeederRaises(device: Device, item: Item, issue: Issue) {
    Problem(item, AdfSimplex) == Some(issue)
    || (Problem(item, AdfSimplex) == None && FlagsAreBad(item) && issue == InvalidHandlingCapabilities)
    || (Problem(item, AdfSimplex) == None && issue == IncompleteAdvancedDuplexTree
        && !(HasItem(device, FeederFront) && HasItem(device, FeederBack))
        && exists flags: U32 :: Flagged(item, flags) && flags % 8 >= 4 && flags % 16 >= 8)
  }

  /** The issues of a list of items: a second flatbed or feeder, and what the first of each gives rise to. */
  ghost predicate Raised(device: Device, items: seq<Item>, issue: Issue) {
    (issue == DuplicateFlatbed && Several(items, Flatbed)) || (issue == DuplicateFeeder && Several(items, Feeder))
    || (FirstOf(items, Flatbed).Some? && Problem(FirstOf(items, Flatbed).value, OnFlatbed) == Some(issue))
    || (FirstOf(items, Feeder).Some? && FeederRaises(device, FirstOf(items, Feeder).value, issue))
  }

  lemma FeederIssues(device: Device, item: Item)
    ensures forall issue :: issue in FeederAdds(device, item).1 <==> FeederRaises(device, item, issue)
  {
    hide ProfileFor, Problem, HandlingFlags, HasDuplex, HasAdvancedDuplex;
    ProfileOrProblem(item, AdfSimplex);
    FlagsAre(item);
    if HandlingFlags(item).Good? {
      BitsAre(HandlingFlags(item).value);
    }
  }

  lemma SeveralAppend(front: seq<Item>, item: Item, category: Category)
    ensures Several(front + [item], category)
            <==> Several(front, category) || (FirstOf(front, category).Some? && item.category == category)
  {
    hide FirstOf;
    FirstOfIsFirst(front, category);
    var all := front + [item];
    if FirstOf(front, category).Some? && item.category == category {
      var i :| 0 <= i < |front| && IsFirstAt(front, category, i) && front[i] == FirstOf(front, category).value;
      assert all[i].category == category && all[|front|].category == category;
    }
    if Several(front, category) {
      var i, j :| 0 <= i < j < |front| && front[i].category == category && front[j].category == category;
      assert all[i].category == category && all[j].category == category;
    }
    if Several(all, category) {
      var i, j :| 0 <= i < j < |all| && all[i].category == category && all[j].category == category;
      assert all[i] == front[i];
      assert j < |front| ==> all[j] == front[j];
    }
  }

  lemma {:induction false} IssuesAre(device: Device, items: seq<Item>)
    ensures forall issue :: issue in AddItems(device, items).issues <==> Raised(device, items, issue)
  {
    hide ProfileFor, Problem, FeederRaises, FeederAdds, FirstOf, Several;
    if items == [] {
      FirstOfNone(Flatbed);
      FirstOfNone(Feeder);
      NotSeveral(Flatbed);
      NotSeveral(Feeder);
    } else {
      var front, item := items[..|items| - 1], items[|items| - 1];
      assert items == front + [item];
      IssuesAre(device, front);
      AddItemsIsExact(device, front);
      SeveralAppend(front, item, Flatbed);
      SeveralAppend(front, item, Feeder);
      FirstOfAppend(front, item, Flatbed);
      FirstOfAppend(front, item, Feeder);
      ProfileOrProblem(item, OnFlatbed);
      FeederIssues(device, item);
    }
  }

  lemma NotSeveral(category: Category)
    ensures !Several([], category)
  {
  }

  /** The issues of a device: those, and that nothing can be scanned from where there is neither a flatbed nor a feeder. */
  lemma DeviceIssuesAre(device: Device, issue: Issue)
    requires 1 <= |device.opaqueId| <= 64
    ensures issue in Mapped(device).issues
            <==> Raised(device, device.items, issue)
                 || (issue == NoSupportedScanItem && !HasItem(device, Flatbed) && !HasItem(device, Feeder))
  {
    hide Raised, FirstOf, Offers;
    IssuesAre(device, device.items);
    AddItemsIsExact(device, device.items);
    FirstOfIsFirst(device.items, Flatbed);
    FirstOfIsFirst(device.items, Feeder);
  }

  lemma InvalidDeviceIsNotMapped(device: Device)
    requires device.opaqueId == "" || |device.opaqueId| > 64
    ensures Mapped(device) == Capabilities([], [InvalidOpaqueDeviceId])
  {
  }

  // ---------------------------------------------------------- writes and readback

  /** A profile that supports a request, literally. */
  predicate Fits(p: Profile, r: Request) {
    p.source == r.source && r.dpi in p.dpiValues && r.color in p.colors && r.bitDepth in p.bitDepths
    && 1 <= r.maxPages <= p.maxPages
  }

  /** What is written is the request: its resolution both ways, 2 for gray and 3 for colour, its depth and its pages; and a
      request is refused for want of its source or because that source's profile does not fit it. */
  lemma WritesAreTheRequest(device: Device, r: Request)
    requires 1 <= |device.opaqueId| <= 64
    ensures var profiles, result := Mapped(device).profiles, PropertyWrites(Mapped(device), r);
            if !(exists p :: p in profiles && p.source == r.source) then result == Bad(SourceUnavailable)
            else if !(exists p :: p in profiles && Fits(p, r)) then result == Bad(SettingsNotSupported)
            else
              result.Good?
              && var w := result.value;
                 w.xDpi == r.dpi && w.yDpi == r.dpi && w.dataType == (if r.color == Gray8 then 2 else 3)
                 && w.bitDepth == r.bitDepth && w.pages == r.maxPages
  {
    hide Mapped, SourcesDistinct, Offers;
    MapIsExact(device);
    PreparedWritesAreAllowed(device, r);
    ProfileOfIs(Mapped(device).profiles, r.source);
  }

  /** Settings read back are accepted exactly if they fit as a request would, the same both ways, and are passed on as they are;
      they count as coerced exactly if one of them is not what was asked for. */
  lemma ReadbackIsPassedOn(p: Profile, r: Request, back: Readback)
    ensures AcceptReadback(p, r, back)
            == if !Fits(p, r) then Bad(SettingsNotSupported)
               else if back.xDpi != back.yDpi || !Fits(p, Request(r.source, back.xDpi, back.color, back.bitDepth, back.pages))
               then Bad(ReadbackOutsideCapabilities)
               else Good(Accepted(back.xDpi, back.color, back.bitDepth, back.pages,
                                  !(back.xDpi == r.dpi && back.color == r.color && back.bitDepth == r.bitDepth
                                    && back.pages == r.maxPages)))
  {
  }
}
