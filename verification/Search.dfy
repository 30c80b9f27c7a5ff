/** Where the first occurrence of a pattern lies in a text made of pieces. */
module Search {
  import opened Text

  lemma OccursInRange(s: string, pattern: string, i: int)
    requires OccursAt(s, pattern, i)
    ensures 0 <= i <= i + |pattern| <= |s|
  {
  }

  lemma OccursBehind(a: string, b: string, pattern: string, i: nat)
    ensures OccursAt(a + b, pattern, |a| + i) <==> OccursAt(b, pattern, i)
  {
    if i + |pattern| <= |b| {
      assert (a + b)[|a| + i..|a| + i + |pattern|] == b[i..i + |pattern|];
    }
  }

  function Shifted(found: Option<nat>, distance: nat): Option<nat> {
    if found.Some? then Some(distance + found.value) else None
  }

  /** A search that starts behind a front finds what it finds without the front. */
  lemma FindBehind(a: string, b: string, pattern: string, from: nat)
    ensures Find(a + b, pattern, |a| + from) == Shifted(Find(b, pattern, from), |a|)
  {
    hide OccursAt;
    var found := Find(b, pattern, from);
    forall j: nat | |a| + from <= j && (found.Some? ==> j < |a| + found.value)
      ensures !OccursAt(a + b, pattern, j)
    {
      OccursBehind(a, b, pattern, j - |a|);
    }
    if found.Some? {
      OccursBehind(a, b, pattern, found.value);
      FindIs(a + b, pattern, |a| + from, |a| + found.value);
    } else {
      FindNothing(a + b, pattern, |a| + from);
    }
  }

  lemma FindSkips(a: string, b: string, pattern: string, from: nat)
    requires from <= |a| && forall j :: from <= j < |a| ==> !OccursAt(a + b, pattern, j)
    ensures Find(a + b, pattern, from) == Shifted(Find(b, pattern, 0), |a|)
  {
    FindBehind(a, b, pattern, 0);
    var found := Find(a + b, pattern, |a|);
    if found.Some? {
      FindIs(a + b, pattern, from, found.value);
    } else {
      FindNothing(a + b, pattern, from);
    }
  }

  lemma OccursInFront(a: string, b: string, pattern: string, i: nat)
    requires i + |pattern| <= |a|
    ensures OccursAt(a + b, pattern, i) <==> OccursAt(a, pattern, i)
  {
    assert (a + b)[i..i + |pattern|] == a[i..i + |pattern|];
  }

  lemma StartsWithOther(s: string, pattern: string, at: nat)
    requires pattern != "" && at < |s| && s[at] != pattern[0]
    ensures !OccursAt(s, pattern, at)
  {
    assert at + |pattern| <= |s| ==> s[at..at + |pattern|][0] == s[at];
  }

  /** A pattern whose first character does not come again in it cannot straddle the end of a text. */
  lemma NoStraddling(text: string, pattern: string, after: string)
    requires pattern != "" && pattern[0] !in pattern[1..]
    requires Find(text, pattern, 0) == None
    ensures Find(text + (pattern + after), pattern, 0) == Some(|text|)
  {
    var whole := text + (pattern + after);
    OccursAfter(text, pattern, after);
    forall j: nat | j < |text|
      ensures !OccursAt(whole, pattern, j)
    {
      if j + |pattern| <= |text| {
        OccursInFront(text, pattern + after, pattern, j);
      } else if OccursAt(whole, pattern, j) {
        OccursChar(whole, pattern, j, |text| - j);
      }
    }
    FindIs(whole, pattern, 0, |text|);
  }

  lemma NoCharIn(s: string, c: char)
    requires c !in s
    ensures Find(s, [c], 0) == None
  {
    forall j: nat
      ensures !OccursAt(s, [c], j)
    {
      if OccursAt(s, [c], j) {
        OccursChar(s, [c], j, 0);
      }
    }
    FindNothing(s, [c], 0);
  }
}
