/** What a device's items allow, as the profiles and property writes that the application offers. */
module Capability {
  import opened Text
  import opened Arith

  datatype Category = Root | Flatbed | Feeder | FeederFront | FeederBack | Film | Unknown
  datatype Shape = Scalar | List | Range | Flags
  datatype Source = OnFlatbed | AdfSimplex | AdfDuplex
  datatype Color = Gray8 | Rgb24

  /** One constructor for each issue code, and for each message the operations throw. */
  datatype Issue =
    | MissingResolution | InvalidXResolution | InvalidYResolution | NoCompatibleResolution
    | MissingDataType | InvalidDataType | UnsupportedDataType
    | MissingBitDepth | InvalidBitDepth | UnsupportedBitDepth
    | MissingPageCount | InvalidPageCount | InvalidHandlingCapabilities | ItemNotTransferCapable
    | DuplicateFlatbed | DuplicateFeeder | IncompleteAdvancedDuplexTree | NoSupportedScanItem | InvalidOpaqueDeviceId
    | SourceUnavailable | SettingsNotSupported | SettingsExceedPropertyRange | ReadbackOutsideCapabilities

  datatype Outcome<+T> = Good(value: T) | Bad(issue: Issue) {
    predicate IsFailure() {
      Bad?
    }

    function PropagateFailure<U>(): Outcome<U>
      requires Bad?
    {
      Bad(issue)
    }

    function Extract(): T
      requires Good?
    {
      value
    }
  }

  datatype Property = Property(
    shape: Shape, current: I32, values: seq<I32>, minimum: I32, maximum: I32, step: I32, readable: bool)

  datatype Item = Item(
    category: Category, transferCapable: bool, xResolution: Option<Property>, yResolution: Option<Property>,
    dataType: Option<Property>, bitDepth: Option<Property>, pageCount: Option<Property>,
    handlingCapabilities: Option<Property>)

  datatype Device = Device(opaqueId: string, items: seq<Item>)

  datatype Profile = Profile(
    source: Source, dpiValues: seq<U32>, colors: seq<Color>, bitDepths: seq<U32>, maxPages: U32, advancedDuplex: bool)

  datatype Capabilities = Capabilities(profiles: seq<Profile>, issues: seq<Issue>)
  datatype Request = Request(source: Source, dpi: U32, color: Color, bitDepth: U32, maxPages: U32)
  datatype Writes = Writes(xDpi: I32, yDpi: I32, dataType: I32, bitDepth: I32, pages: I32)
  datatype Readback = Readback(xDpi: U32, yDpi: U32, color: Color, bitDepth: U32, pages: U32)
  datatype Accepted = Accepted(dpi: U32, color: Color, bitDepth: U32, pages: U32, coerced: bool)

  const MIN_DPI: int := 50
  const MAX_DPI: int := 9600
  const MAX_VALUES: nat := 256

  // ------------------------------------------------------------ allowed values

  /** What a property says about one value. */
  predicate Allows(p: Property, value: int) {
    match p.shape
    case Scalar => value == p.current
    case List => exists i :: 0 <= i < |p.values| && p.values[i] == value
    case Range => p.step > 0 && p.minimum <= value <= p.maximum && (value - p.minimum) % p.step == 0
    case Flags => false
  }

  /** Metadata that allowed_values accepts. */
  predicate Usable(p: Property) {
    p.readable
    && match p.shape
       case Scalar => true
       case List => 0 < |p.values| <= MAX_VALUES
       case Range => p.step > 0 && p.minimum <= p.maximum && (p.maximum - p.minimum) / p.step + 1 <= MAX_VALUES
       case Flags => false
  }

  predicate Ascending(s: seq<int>) {
    forall i, j :: 0 <= i < j < |s| ==> s[i] < s[j]
  }

  /** Insertion into an ordered set. */
  function Inserted(s: seq<I32>, value: I32): seq<I32> {
    if s == [] || value < s[0] then [value] + s
    else if value == s[0] then s
    else [s[0]] + Inserted(s[1..], value)
  }

  function SortedUnique(values: seq<I32>): seq<I32> {
    if values == [] then [] else Inserted(SortedUnique(values[..|values| - 1]), values[|values| - 1])
  }

  /** start, start + step, ... up to the maximum. */
  function RangeValues(start: int, maximum: I32, step: I32): seq<I32>
    requires step > 0 && start >= -I32_MAX - 1
    decreases maximum - start
  {
    if start > maximum then [] else [start] + RangeValues(start + step, maximum, step)
  }

  function AllowedValues(p: Property, issue: Issue): Outcome<seq<I32>> {
    if !Usable(p) then Bad(issue)
    else
      match p.shape
      case Scalar => Good([p.current])
      case List => Good(SortedUnique(p.values))
      case Range => Good(RangeValues(p.minimum, p.maximum, p.step))
      case Flags => Bad(issue)
  }

  method CollectList(values: seq<I32>) returns (unique: seq<I32>)
    ensures unique == SortedUnique(values)
  {
    unique := [];
    for i := 0 to |values|
      invariant unique == SortedUnique(values[..i])
    {
      assert values[..i + 1][..i] == values[..i];
      unique := Inserted(unique, values[i]);
    }
    assert values[..|values|] == values;
  }

  method CollectRange(minimum: I32, maximum: I32, step: I32) returns (values: seq<I32>)
    requires step > 0
    ensures values == RangeValues(minimum, maximum, step)
  {
    values := [];
    var value: int := minimum;
    while value <= maximum
      invariant value >= minimum
      invariant values + RangeValues(value, maximum, step) == RangeValues(minimum, maximum, step)
      decreases maximum - value
    {
      values := values + [value];
      value := value + step;
    }
    assert values + [] == values;
  }

  method CollectAllowed(p: Property, issue: Issue) returns (result: Outcome<seq<I32>>)
    ensures result == AllowedValues(p, issue)
  {
    if !p.readable { return Bad(issue); }
    if p.shape == List {
      if p.values == [] || |p.values| > MAX_VALUES { return Bad(issue); }
      var unique := CollectList(p.values);
      return Good(unique);
    }
    if p.shape == Range {
      if p.step <= 0 || p.minimum > p.maximum { return Bad(issue); }
      var span: int := p.maximum - p.minimum;
      if span / p.step + 1 > MAX_VALUES { return Bad(issue); }
      var values := CollectRange(p.minimum, p.maximum, p.step);
      return Good(values);
    }
    if p.shape == Scalar { return Good([p.current]); }
    return Bad(issue);
  }

  // ------------------------------------------------------------- capabilities

  /** The values of x in the supported band that y has as well. */
  function Common(x: seq<I32>, y: seq<I32>): seq<U32> {
    if x == [] then []
    else
      var front := Common(x[..|x| - 1], y);
      var value := x[|x| - 1];
      if MIN_DPI <= value <= MAX_DPI && value in y then front + [value] else front
  }

  function Resolutions(item: Item): Outcome<seq<U32>> {
    if item.xResolution.None? || item.yResolution.None? then Bad(MissingResolution)
    else
      var x :- AllowedValues(item.xResolution.value, InvalidXResolution);
      var y :- AllowedValues(item.yResolution.value, InvalidYResolution);
      if Common(x, y) == [] then Bad(NoCompatibleResolution) else Good(Common(x, y))
  }

  /** std::binary_search: the lower bound by halving, then one comparison. */
  method BinarySearch(s: seq<I32>, value: int) returns (found: bool)
    requires Ascending(s)
    ensures found <==> value in s
  {
    var first, count := 0, |s|;
    while count > 0
      invariant 0 <= first <= first + count <= |s|
      invariant forall i :: 0 <= i < first ==> s[i] < value
      invariant forall i :: first + count <= i < |s| ==> s[i] >= value
    {
      var half := count / 2;
      if s[first + half] < value {
        first, count := first + half + 1, count - half - 1;
      } else {
        count := half;
      }
    }
    found := first < |s| && s[first] == value;
  }

  method IntersectResolutions(item: Item) returns (result: Outcome<seq<U32>>)
    ensures result == Resolutions(item)
  {
    hide AllowedValues, Allows, Usable;
    if item.xResolution.None? || item.yResolution.None? { return Bad(MissingResolution); }
    var x := CollectAllowed(item.xResolution.value, InvalidXResolution);
    if x.Bad? { return Bad(x.issue); }
    var y := CollectAllowed(item.yResolution.value, InvalidYResolution);
    if y.Bad? { return Bad(y.issue); }
    AllowedAreExact(item.yResolution.value, InvalidYResolution);
    var values: seq<U32> := [];
    for i := 0 to |x.value|
      invariant values == Common(x.value[..i], y.value)
    {
      assert x.value[..i + 1][..i] == x.value[..i];
      var value := x.value[i];
      var found := BinarySearch(y.value, value);
      if value >= MIN_DPI && value <= MAX_DPI && found {
        values := values + [value];
      }
    }
    assert x.value[..|x.value|] == x.value;
    result := if values == [] then Bad(NoCompatibleResolution) else Good(values);
  }

  // ---------------------------------------- allowed values are exact and sorted

  lemma {:induction false} InsertedIsSorted(s: seq<I32>, value: I32)
    requires Ascending(s)
    ensures Ascending(Inserted(s, value)) && 0 < |Inserted(s, value)| <= |s| + 1
    ensures forall v :: v in Inserted(s, value) <==> v == value || v in s
  {
    hide Ascending;
    if s == [] {
      ConsIsAscending(value, s);
    } else {
      var tail := s[1..];
      TailIsAscending(s);
      if value < s[0] {
        AllAbove(s, value);
        ConsIsAscending(value, s);
      } else if value > s[0] {
        InsertedIsSorted(tail, value);
        ConsIsAscending(s[0], Inserted(tail, value));
      }
    }
  }

  lemma ConsIsAscending(head: int, tail: seq<int>)
    requires Ascending(tail) && forall v :: v in tail ==> head < v
    ensures Ascending([head] + tail)
  {
    var s := [head] + tail;
    forall i, j | 0 <= i < j < |s| ensures s[i] < s[j] {
      assert s[j] == tail[j - 1] && tail[j - 1] in tail;
    }
  }

  lemma AllAbove(s: seq<int>, value: int)
    requires Ascending(s) && s != [] && value < s[0]
    ensures forall v :: v in s ==> value < v
  {
  }

  lemma TailIsAscending(s: seq<int>)
    requires Ascending(s) && s != []
    ensures s == [s[0]] + s[1..] && Ascending(s[1..]) && forall v :: v in s[1..] ==> s[0] < v
  {
  }

  lemma {:induction false} SortedUniqueIsSorted(values: seq<I32>)
    ensures Ascending(SortedUnique(values)) && |SortedUnique(values)| <= |values|
    ensures forall v :: v in SortedUnique(values) <==> v in values
  {
    if values != [] {
      var front := values[..|values| - 1];
      SortedUniqueIsSorted(front);
      InsertedIsSorted(SortedUnique(front), values[|values| - 1]);
      assert values == front + [values[|values| - 1]];
    }
  }

  lemma {:induction false} RangeValuesAre(start: int, maximum: I32, step: I32)
    requires step > 0 && start >= -I32_MAX - 1
    ensures var values := RangeValues(start, maximum, step);
            |values| == (if start > maximum then 0 else (maximum - start) / step + 1)
            && forall i :: 0 <= i < |values| ==> values[i] == start + i * step <= maximum
    decreases maximum - start
  {
    if start <= maximum {
      RangeValuesAre(start + step, maximum, step);
      StepBack(maximum - start, step);
      var rest := RangeValues(start + step, maximum, step);
      forall i | 0 < i < 1 + |rest| ensures rest[i - 1] == start + i * step {
        assert start + step + (i - 1) * step == start + i * step;
      }
    }
  }

  lemma StepBack(span: int, step: int)
    requires step > 0 && span >= 0
    ensures span >= step ==> (span - step) / step + 1 == span / step
    ensures span < step ==> span / step == 0
  {
    var q, r := span / step, span % step;
    assert span == q * step + r;
    if span >= step {
      assert (q - 1) * step == q * step - step;
      DivModIs(span - step, q - 1, r, step);
    } else {
      DivModIs(span, 0, span, step);
    }
  }

  lemma RangeIsAscending(p: Property)
    requires p.step > 0
    ensures Ascending(RangeValues(p.minimum, p.maximum, p.step))
  {
    RangeValuesAre(p.minimum, p.maximum, p.step);
    var values := RangeValues(p.minimum, p.maximum, p.step);
    forall i, j | 0 <= i < j < |values| ensures values[i] < values[j] {
      assert j * p.step == i * p.step + (j - i) * p.step;
    }
  }

  lemma RangeIsExact(p: Property, v: int)
    requires p.step > 0
    ensures v in RangeValues(p.minimum, p.maximum, p.step)
            <==> p.minimum <= v <= p.maximum && (v - p.minimum) % p.step == 0
  {
    hide RangeValues;
    if v in RangeValues(p.minimum, p.maximum, p.step) {
      InRangeIsOnStep(p, v);
    }
    if p.minimum <= v <= p.maximum && (v - p.minimum) % p.step == 0 {
      OnStepIsInRange(p, v);
    }
  }

  lemma InRangeIsOnStep(p: Property, v: int)
    requires p.step > 0 && v in RangeValues(p.minimum, p.maximum, p.step)
    ensures p.minimum <= v <= p.maximum && (v - p.minimum) % p.step == 0
  {
    hide RangeValues;
    RangeValuesAre(p.minimum, p.maximum, p.step);
    var values := RangeValues(p.minimum, p.maximum, p.step);
    var i :| 0 <= i < |values| && values[i] == v;
    MulNonNegative(i, p.step);
    DivModIs(v - p.minimum, i, 0, p.step);
  }

  lemma OnStepIsInRange(p: Property, v: int)
    requires p.step > 0 && p.minimum <= v <= p.maximum && (v - p.minimum) % p.step == 0
    ensures v in RangeValues(p.minimum, p.maximum, p.step)
  {
    hide RangeValues;
    RangeValuesAre(p.minimum, p.maximum, p.step);
    var values, distance, i := RangeValues(p.minimum, p.maximum, p.step), v - p.minimum, (v - p.minimum) / p.step;
    QuotientsAscend(distance, p.maximum - p.minimum, p.step);
    NotNegative(distance, p.step);
    assert distance == i * p.step;
    assert values[i] == v;
  }

  lemma NotNegative(a: int, d: int)
    requires a >= 0 && d > 0
    ensures a / d >= 0
  {
  }

  /** allowed_values gives, in ascending order and without repeats, exactly what the metadata allows. */
  lemma AllowedAreExact(p: Property, issue: Issue)
    ensures AllowedValues(p, issue).Good? <==> Usable(p)
    ensures AllowedValues(p, issue).Good? ==>
              var values := AllowedValues(p, issue).value;
              Ascending(values) && 0 < |values| <= MAX_VALUES && forall v: int :: v in values <==> Allows(p, v)
  {
    if Usable(p) {
      if p.shape == List {
        SortedUniqueIsSorted(p.values);
        assert p.values[0] in p.values;
      } else if p.shape == Range {
        RangeValuesAre(p.minimum, p.maximum, p.step);
        RangeIsAscending(p);
        forall v: int ensures v in RangeValues(p.minimum, p.maximum, p.step) <==> Allows(p, v) {
          RangeIsExact(p, v);
        }
      }
    }
  }
}
