/** Byte strings, decimal numbers, splitting and searching.

    A byte string of the program is a Dafny `string` with one character per byte.
    No result below needs characters to stay under 256. */
module Text {

  datatype Option<+T> = None | Some(value: T)

  /** A value, or the message of the exception the program throws. */
  datatype Result<+T> = Ok(value: T) | Err(error: string) {
    predicate IsFailure() {
      Err?
    }

    function PropagateFailure<U>(): Result<U>
      requires Err?
    {
      Err(error)
    }

    function Extract(): T
      requires Ok?
    {
      value
    }
  }

  const U32_MAX := 0xFFFF_FFFF
  const U64_MAX := 0xFFFF_FFFF_FFFF_FFFF
  const I32_MAX := 0x7FFF_FFFF

  type U32 = x: int | 0 <= x <= U32_MAX
  type U64 = x: int | 0 <= x <= U64_MAX
  type I32 = x: int | -I32_MAX - 1 <= x <= I32_MAX

  // ---------------------------------------------------------------- decimals

  predicate IsDigit(c: char) {
    '0' <= c <= '9'
  }

  predicate AllDigits(s: string) {
    forall i :: 0 <= i < |s| ==> IsDigit(s[i])
  }

  function DigitValue(c: char): nat
    requires IsDigit(c)
  {
    c as int - '0' as int
  }

  function DigitChar(d: nat): (c: char)
    requires d < 10
    ensures IsDigit(c) && DigitValue(c) == d
  {
    (d + '0' as int) as char
  }

  /** The decimal form that streams and std::to_string print. */
  function Dec(n: nat): (s: string)
    ensures s != "" && AllDigits(s)
  {
    if n < 10 then [DigitChar(n)] else Dec(n / 10) + [DigitChar(n % 10)]
  }

  /** The decimal form of a signed number. */
  function SignedDec(n: int): string {
    if n < 0 then "-" + Dec(-n) else Dec(n)
  }

  /** The number a digit string stands for. */
  function Value(s: string): nat
    requires AllDigits(s)
  {
    if s == "" then 0 else Value(s[..|s| - 1]) * 10 + DigitValue(s[|s| - 1])
  }

  lemma {:induction false} ValueOfDec(n: nat)
    ensures Value(Dec(n)) == n
  {
    if n >= 10 {
      ValueOfDec(n / 10);
      assert Dec(n)[..|Dec(n)| - 1] == Dec(n / 10);
    }
  }

  function Pow10(k: nat): (p: nat)
    ensures p >= 1
  {
    if k == 0 then 1 else 10 * Pow10(k - 1)
  }

  /** A number below 10^k prints in at most k digits, and conversely. */
  lemma {:induction false} DecLength(n: nat, k: nat)
    requires k >= 1
    ensures |Dec(n)| <= k <==> n < Pow10(k)
    decreases k
  {
    if k == 1 {
      assert Pow10(1) == 10 * Pow10(0);
    } else if n >= 10 {
      DecLength(n / 10, k - 1);
      assert Pow10(k) == 10 * Pow10(k - 1);
    }
  }

  function Zeros(k: nat): (s: string)
    ensures |s| == k && AllDigits(s) && forall i :: 0 <= i < k ==> s[i] == '0'
  {
    if k == 0 then "" else Zeros(k - 1) + "0"
  }

  /** std::setw(width) with std::setfill('0'). */
  function Padded(n: nat, width: nat): (s: string)
    ensures AllDigits(s) && |s| >= width && s != ""
  {
    var d := Dec(n);
    if |d| >= width then d else Zeros(width - |d|) + d
  }

  lemma {:induction false} ValueSkipsZeros(k: nat, s: string)
    requires AllDigits(s)
    ensures Value(Zeros(k) + s) == Value(s)
    decreases |s|, k
  {
    if s != "" {
      var t := Zeros(k) + s;
      assert t[..|t| - 1] == Zeros(k) + s[..|s| - 1];
      ValueSkipsZeros(k, s[..|s| - 1]);
    } else if k > 0 {
      assert Zeros(k) + s == Zeros(k);
      assert Zeros(k)[..k - 1] == Zeros(k - 1);
      ValueSkipsZeros(k - 1, "");
      assert Zeros(k - 1) + "" == Zeros(k - 1);
    }
  }

  lemma ValueOfPadded(n: nat, width: nat)
    ensures Value(Padded(n, width)) == n
  {
    ValueOfDec(n);
    if |Dec(n)| < width {
      ValueSkipsZeros(width - |Dec(n)|, Dec(n));
    }
  }

  lemma PaddedInjective(m: nat, n: nat, width: nat)
    requires Padded(m, width) == Padded(n, width)
    ensures m == n
  {
    ValueOfPadded(m, width);
    ValueOfPadded(n, width);
  }

  /** std::from_chars over the whole text into a std::uint32_t. */
  function ParseU32(text: string, field: string): Result<U32> {
    if text != "" && AllDigits(text) && Value(text) <= U32_MAX
    then Ok(Value(text)) else Err(field + " is invalid")
  }

  /** std::from_chars over the whole text into a std::int32_t. */
  function ParseI32(text: string, field: string): Result<I32> {
    var negative := text != "" && text[0] == '-';
    var digits := if negative then text[1..] else text;
    if digits == "" || !AllDigits(digits) then Err(field + " is invalid")
    else
      var magnitude: int := Value(digits);
      var value := if negative then -magnitude else magnitude;
      if -I32_MAX - 1 <= value <= I32_MAX then Ok(value) else Err(field + " is invalid")
  }

  lemma ParseU32OfDec(n: U32, field: string)
    ensures ParseU32(Dec(n), field) == Ok(n)
  {
    ValueOfDec(n);
  }

  lemma ParseI32OfSignedDec(n: I32, field: string)
    ensures ParseI32(SignedDec(n), field) == Ok(n)
  {
    hide Dec, Value;
    if n < 0 {
      var negative: int := n;
      ValueOfDec(-negative);
      assert SignedDec(n)[1..] == Dec(-negative);
    } else {
      ValueOfDec(n);
    }
  }

  // --------------------------------------------------------------- searching

  predicate OccursAt(s: string, pattern: string, i: int) {
    0 <= i && i + |pattern| <= |s| && s[i..i + |pattern|] == pattern
  }

  /** std::string::find: the first occurrence at or after `from`. */
  function Find(s: string, pattern: string, from: nat): (r: Option<nat>)
    ensures r.Some? ==> from <= r.value && OccursAt(s, pattern, r.value)
    ensures r.Some? ==> forall j :: from <= j < r.value ==> !OccursAt(s, pattern, j)
    ensures r.None? ==> forall j :: from <= j ==> !OccursAt(s, pattern, j)
    decreases |s| - from
  {
    if from + |pattern| > |s| then None
    else if OccursAt(s, pattern, from) then Some(from)
    else Find(s, pattern, from + 1)
  }

  lemma FindIs(s: string, pattern: string, from: nat, k: nat)
    requires from <= k && OccursAt(s, pattern, k)
    requires forall j :: from <= j < k ==> !OccursAt(s, pattern, j)
    ensures Find(s, pattern, from) == Some(k)
  {
  }

  lemma FindNothing(s: string, pattern: string, from: nat)
    requires forall j :: from <= j ==> !OccursAt(s, pattern, j)
    ensures Find(s, pattern, from) == None
  {
  }

  /** An occurrence puts every pattern character at its place. */
  lemma OccursChar(s: string, pattern: string, i: nat, k: nat)
    requires OccursAt(s, pattern, i) && k < |pattern|
    ensures s[i + k] == pattern[k]
  {
    assert s[i..i + |pattern|][k] == s[i + k];
  }

  predicate StartsWith(s: string, prefix: string) {
    |prefix| <= |s| && s[..|prefix|] == prefix
  }

  /** Text that agrees from `i` on has the same occurrence there. */
  lemma OccursInSuffix(s: string, pattern: string, i: nat)
    requires i <= |s|
    ensures OccursAt(s, pattern, i) <==> StartsWith(s[i..], pattern)
  {
    if i + |pattern| <= |s| {
      assert s[i..][..|pattern|] == s[i..i + |pattern|];
    }
  }

  function IndexOf(s: string, c: char): (i: nat)
    requires c in s
    ensures i < |s| && s[i] == c && c !in s[..i]
  {
    if s[0] == c then 0 else
      var k := IndexOf(s[1..], c);
      assert s[..k + 1] == [s[0]] + s[1..][..k];
      k + 1
  }

  lemma IndexOfIs(s: string, c: char, i: nat)
    requires i < |s| && s[i] == c && c !in s[..i]
    ensures IndexOf(s, c) == i
  {
    var k := IndexOf(s, c);
    assert forall j :: 0 <= j < i ==> s[..i][j] == s[j];
    assert forall j :: 0 <= j < k ==> s[..k][j] == s[j];
  }

  // --------------------------------------------------------------- splitting

  /** The fields between separators; always at least one. */
  function Split(s: string, c: char): (fields: seq<string>)
    ensures fields != [] && forall f :: f in fields ==> c !in f
  {
    if c !in s then [s]
    else var i := IndexOf(s, c); [s[..i]] + Split(s[i + 1..], c)
  }

  function Join(fields: seq<string>, c: char): string
    requires fields != []
  {
    if |fields| == 1 then fields[0] else fields[0] + [c] + Join(fields[1..], c)
  }

  lemma SplitStep(s: string, c: char, i: nat)
    requires i < |s| && s[i] == c && c !in s[..i]
    ensures Split(s, c) == [s[..i]] + Split(s[i + 1..], c)
  {
    IndexOfIs(s, c, i);
  }

  lemma SplitOfPlain(s: string, c: char)
    requires c !in s
    ensures Split(s, c) == [s]
  {
  }

  lemma SplitOfEmpty(c: char)
    ensures Split("", c) == [""]
  {
  }

  lemma {:induction false} SplitAppend(s: string, c: char, t: string)
    ensures Split(s + [c] + t, c) == Split(s, c) + Split(t, c)
    decreases |s|
  {
    var u := s + [c] + t;
    var i := if c in s then IndexOf(s, c) else |s|;
    assert u[..i] == s[..i];
    SplitStep(u, c, i);
    if c in s {
      var rest := s[i + 1..];
      assert u[i + 1..] == rest + [c] + t;
      SplitAppend(rest, c, t);
      SplitStep(s, c, i);
    } else {
      assert s[..i] == s && u[i + 1..] == t;
    }
  }

  lemma {:induction false} SplitJoin(fields: seq<string>, c: char)
    requires fields != [] && forall f :: f in fields ==> c !in f
    ensures Split(Join(fields, c), c) == fields
  {
    if |fields| > 1 {
      SplitAppend(fields[0], c, Join(fields[1..], c));
      SplitJoin(fields[1..], c);
      assert fields == [fields[0]] + fields[1..];
    }
  }

  lemma {:induction false} JoinAvoids(fields: seq<string>, separator: char, c: char)
    requires fields != [] && c != separator && forall f :: f in fields ==> c !in f
    ensures c !in Join(fields, separator)
  {
    if |fields| > 1 {
      JoinAvoids(fields[1..], separator, c);
    }
  }

  /** Number of digits a text starts with. */
  function DigitRun(s: string): (n: nat)
    ensures n <= |s| && AllDigits(s[..n])
  {
    if s == "" || !IsDigit(s[0]) then 0
    else
      var n := 1 + DigitRun(s[1..]);
      assert s[..n] == [s[0]] + s[1..][..n - 1];
      n
  }

  lemma {:induction false} DigitRunLength(digits: string, rest: string, s: string)
    requires s == digits + rest && AllDigits(digits) && (rest == "" || !IsDigit(rest[0]))
    ensures DigitRun(s) == |digits|
  {
    if digits != "" {
      DigitRunLength(digits[1..], rest, s[1..]);
    } else {
      assert s == rest;
    }
  }

  /** Number of digits a text ends with. */
  function DigitTail(s: string): (n: nat)
    ensures n <= |s| && AllDigits(s[|s| - n..])
  {
    if s == "" || !IsDigit(s[|s| - 1]) then 0
    else
      var n := 1 + DigitTail(s[..|s| - 1]);
      assert s[|s| - n..] == s[..|s| - 1][|s| - n..] + [s[|s| - 1]];
      n
  }

  lemma {:induction false} DigitTailLength(rest: string, digits: string, s: string)
    requires s == rest + digits && AllDigits(digits) && (rest == "" || !IsDigit(rest[|rest| - 1]))
    ensures DigitTail(s) == |digits|
    decreases |digits|
  {
    if digits != "" {
      DigitTailLength(rest, digits[..|digits| - 1], s[..|s| - 1]);
    } else {
      assert s == rest;
    }
  }

  /** A piece of a concatenation occurs right after what precedes it. */
  lemma OccursAfter(before: string, piece: string, after: string)
    ensures OccursAt(before + (piece + after), piece, |before|)
  {
    assert (before + (piece + after))[|before|..|before| + |piece|] == piece;
  }

  /** What occurs in a text occurs, shifted, behind a longer front. */
  lemma OccursShifted(before: string, s: string, after: string, piece: string, i: nat)
    requires OccursAt(s, piece, i)
    ensures OccursAt(before + (s + after), piece, |before| + i)
  {
    var whole := before + (s + after);
    assert whole[|before| + i..|before| + i + |piece|] == s[i..i + |piece|];
  }
}
