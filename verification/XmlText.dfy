/** Texts made of markup and character data, and the reader that takes the text of an element that occurs once. */
module XmlText {
  import opened Text
  import opened Search

  /** A piece of markup from '<' to '>', and the character data up to the next piece. */
  datatype Segment = Segment(mark: string, text: string)

  predicate IsMarkup(mark: string) {
    |mark| >= 2 && mark[0] == '<' && mark[|mark| - 1] == '>'
    && (forall i :: 1 <= i < |mark| ==> mark[i] != '<') && (forall i :: 0 <= i < |mark| - 1 ==> mark[i] != '>')
  }

  predicate WellFormed(segments: seq<Segment>) {
    forall i :: 0 <= i < |segments| ==> IsMarkup(segments[i].mark) && '<' !in segments[i].text
  }

  function Flat(segments: seq<Segment>): string {
    if segments == [] then "" else segments[0].mark + (segments[0].text + Flat(segments[1..]))
  }

  /** Where segment k starts in the text. */
  function Offset(segments: seq<Segment>, k: nat): nat
    requires k <= |segments|
  {
    if k == 0 then 0 else |segments[0].mark| + |segments[0].text| + Offset(segments[1..], k - 1)
  }

  /** unique_xml_text: the text between an opening mark that occurs once and the closing mark. */
  function UniqueXmlText(xml: string, open: string, close: string, maximum: nat): Result<string> {
    var first := Find(xml, open, 0);
    if first.None? || Find(xml, open, first.value + |open|).Some? then Err("invalid_wsd_job_response")
    else
      var begin := first.value + |open|;
      var end := Find(xml, close, begin);
      if end.None? || end.value == begin || end.value - begin > maximum
         || (Find(xml, "<", begin).Some? && Find(xml, "<", begin).value < end.value)
      then Err("invalid_wsd_job_response")
      else Ok(xml[begin..end.value])
  }

  // -------------------------------------------------------------- occurrences

  lemma MarkAtStart(mark: string, after: string, pattern: string)
    requires IsMarkup(mark) && IsMarkup(pattern)
    ensures OccursAt(mark + after, pattern, 0) <==> pattern == mark
  {
    var whole := mark + after;
    if OccursAt(whole, pattern, 0) {
      var m, p := |mark|, |pattern|;
      assert mark == whole[..m];
      OccursChar(whole, pattern, 0, p - 1);
      OccursChar(whole, pattern, 0, if m < p then m - 1 else p - 1);
      assert pattern == whole[..p];
    }
  }

  /** Inside a segment, past its first character, no markup starts. */
  lemma NoMarkInside(s: Segment, after: string, pattern: string, i: nat)
    requires IsMarkup(s.mark) && '<' !in s.text && IsMarkup(pattern) && 1 <= i < |s.mark| + |s.text|
    ensures !OccursAt(s.mark + (s.text + after), pattern, i)
  {
    hide OccursAt;
    var whole, m := s.mark + (s.text + after), |s.mark|;
    assert whole[i] == if i < m then s.mark[i] else s.text[i - m];
    assert whole[i] != '<';
    StartsWithOther(whole, pattern, i);
  }

  predicate StartsAt(segments: seq<Segment>, pattern: string, i: nat) {
    exists k :: 0 <= k < |segments| && Offset(segments, k) == i && segments[k].mark == pattern
  }

  lemma StartsAtStep(segments: seq<Segment>, pattern: string, i: nat)
    requires segments != [] && WellFormed(segments)
    ensures var size := |segments[0].mark| + |segments[0].text|;
            StartsAt(segments, pattern, i)
            <==> (i == 0 && segments[0].mark == pattern) || (i >= size && StartsAt(segments[1..], pattern, i - size))
  {
    var tail, size := segments[1..], |segments[0].mark| + |segments[0].text|;
    assert IsMarkup(segments[0].mark);
    hide IsMarkup;
    if i == 0 && segments[0].mark == pattern {
      assert Offset(segments, 0) == 0;
    }
    if i >= size && StartsAt(tail, pattern, i - size) {
      var k :| 0 <= k < |tail| && Offset(tail, k) == i - size && tail[k].mark == pattern;
      assert Offset(segments, k + 1) == i && segments[k + 1] == tail[k];
    }
    if k :| 0 < k < |segments| && Offset(segments, k) == i && segments[k].mark == pattern {
      assert Offset(tail, k - 1) == i - size && tail[k - 1] == segments[k];
    }
  }

  /** Markup occurs in the text exactly where a segment starts with it. */
  lemma {:induction false} OccursExactlyAtMarks(segments: seq<Segment>, pattern: string, i: nat)
    requires WellFormed(segments) && IsMarkup(pattern)
    ensures OccursAt(Flat(segments), pattern, i) <==> StartsAt(segments, pattern, i)
  {
    hide OccursAt, IsMarkup, Flat, StartsAt, WellFormed;
    if segments == [] {
      NothingInEmpty(pattern, i);
    } else {
      var s, tail := segments[0], segments[1..];
      var size := |s.mark| + |s.text|;
      FlatStep(segments);
      StartsAtStep(segments, pattern, i);
      if i == 0 {
        MarkAtStart(s.mark, s.text + Flat(tail), pattern);
      } else if i < size {
        NoMarkInside(s, Flat(tail), pattern, i);
      } else {
        OccursExactlyAtMarks(tail, pattern, i - size);
        OccursBehind(s.mark + s.text, Flat(tail), pattern, i - size);
      }
    }
  }

  lemma NothingInEmpty(pattern: string, i: nat)
    requires IsMarkup(pattern)
    ensures !OccursAt(Flat([]), pattern, i) && !StartsAt([], pattern, i)
  {
  }

  lemma FlatStep(segments: seq<Segment>)
    requires segments != [] && WellFormed(segments)
    ensures var s, rest := segments[0], Flat(segments[1..]);
            Flat(segments) == s.mark + (s.text + rest) && Flat(segments) == s.mark + s.text + rest
            && IsMarkup(s.mark) && |s.mark| >= 2 && '<' !in s.text && WellFormed(segments[1..])
  {
  }

  lemma LaterOffsets(segments: seq<Segment>)
    requires segments != []
    ensures forall k :: 0 < k <= |segments| ==> Offset(segments, k) >= |segments[0].mark| + |segments[0].text|
  {
  }

  lemma {:induction false} OffsetsAscend(segments: seq<Segment>, j: nat, k: nat)
    requires j < k <= |segments| && WellFormed(segments)
    ensures Offset(segments, j) + |segments[j].mark| + |segments[j].text| <= Offset(segments, k)
    ensures k == j + 1 ==> Offset(segments, j) + |segments[j].mark| + |segments[j].text| == Offset(segments, k)
  {
    if j > 0 {
      FlatStep(segments);
      OffsetsAscend(segments[1..], j - 1, k - 1);
    } else {
      LaterOffsets(segments);
      assert Offset(segments[1..], 0) == 0;
    }
  }

  lemma {:induction false} TextAt(segments: seq<Segment>, k: nat)
    requires k < |segments| && WellFormed(segments)
    ensures var begin := Offset(segments, k) + |segments[k].mark|;
            begin + |segments[k].text| <= |Flat(segments)|
            && Flat(segments)[begin..begin + |segments[k].text|] == segments[k].text
  {
    FlatStep(segments);
    if k > 0 {
      TextAt(segments[1..], k - 1);
    }
  }

  // ------------------------------------------------------------------ reading

  lemma OccursOne(s: string, c: char, i: nat)
    ensures OccursAt(s, [c], i) <==> i < |s| && s[i] == c
  {
  }

  lemma FindsChar(s: string, c: char, text: string, begin: nat)
    requires begin + |text| < |s| && s[begin..begin + |text|] == text && c !in text && s[begin + |text|] == c
    ensures Find(s, [c], begin) == Some(begin + |text|)
  {
    hide OccursAt, Find;
    forall i: nat | begin <= i <= begin + |text|
      ensures OccursAt(s, [c], i) <==> i == begin + |text|
    {
      OccursOne(s, c, i);
      assert i < begin + |text| ==> s[i] == s[begin..begin + |text|][i - begin];
    }
    FindIs(s, [c], begin, begin + |text|);
  }

  /** The first '<' behind a mark is the next segment's. */
  lemma NextAngle(segments: seq<Segment>, k: nat)
    requires k + 1 < |segments| && WellFormed(segments)
    ensures Find(Flat(segments), "<", Offset(segments, k) + |segments[k].mark|) == Some(Offset(segments, k + 1))
  {
    hide OccursAt, Find, IsMarkup, Flat, StartsAt;
    var xml, next := Flat(segments), segments[k + 1].mark;
    TextAt(segments, k);
    OffsetsAscend(segments, k, k + 1);
    MarkNotEmpty(segments, k + 1);
    StartsHere(segments, k + 1);
    OccursInRange(xml, next, Offset(segments, k + 1));
    OccursChar(xml, next, Offset(segments, k + 1), 0);
    FindsChar(xml, '<', segments[k].text, Offset(segments, k) + |segments[k].mark|);
  }

  lemma StartsHere(segments: seq<Segment>, k: nat)
    requires WellFormed(segments) && k < |segments|
    ensures OccursAt(Flat(segments), segments[k].mark, Offset(segments, k))
  {
    hide OccursAt, Flat;
    OccursExactlyAtMarks(segments, segments[k].mark, Offset(segments, k));
  }

  /** Segment k's mark comes nowhere else. */
  predicate OccursOnce(segments: seq<Segment>, k: nat) {
    k < |segments| && forall j :: 0 <= j < |segments| && segments[j].mark == segments[k].mark ==> j == k
  }

  lemma StartsOnce(segments: seq<Segment>, k: nat, i: nat)
    requires OccursOnce(segments, k)
    ensures StartsAt(segments, segments[k].mark, i) <==> i == Offset(segments, k)
  {
  }

  lemma MarkNotEmpty(segments: seq<Segment>, k: nat)
    requires WellFormed(segments) && k < |segments|
    ensures |segments[k].mark| >= 2 && segments[k].mark[0] == '<' && IsMarkup(segments[k].mark)
  {
    assert IsMarkup(segments[k].mark);
  }

  /** In the flat text, a mark that comes once is found once. */
  lemma FoundOnce(segments: seq<Segment>, k: nat)
    requires WellFormed(segments) && OccursOnce(segments, k)
    ensures Find(Flat(segments), segments[k].mark, 0) == Some(Offset(segments, k))
    ensures Find(Flat(segments), segments[k].mark, Offset(segments, k) + |segments[k].mark|) == None
  {
    hide OccursAt, Flat, Find, IsMarkup, StartsAt, WellFormed;
    var xml, open := Flat(segments), segments[k].mark;
    MarkNotEmpty(segments, k);
    forall i: nat
      ensures OccursAt(xml, open, i) <==> i == Offset(segments, k)
    {
      OccursExactlyAtMarks(segments, open, i);
      StartsOnce(segments, k, i);
    }
    FindIs(xml, open, 0, Offset(segments, k));
    FindNothing(xml, open, Offset(segments, k) + |open|);
  }

  /** Where an element's start mark comes once, the reader gives its text: exactly if the next mark is its end mark
      and the text is not empty or too long. */
  lemma ReadsUniqueText(segments: seq<Segment>, k: nat, close: string, maximum: nat)
    requires WellFormed(segments) && OccursOnce(segments, k) && k + 1 < |segments| && IsMarkup(close)
    ensures UniqueXmlText(Flat(segments), segments[k].mark, close, maximum)
            == if segments[k + 1].mark == close && 0 < |segments[k].text| <= maximum then Ok(segments[k].text)
               else Err("invalid_wsd_job_response")
  {
    hide OccursAt, Find, IsMarkup, Flat;
    var xml, begin, next := Flat(segments), Offset(segments, k) + |segments[k].mark|, Offset(segments, k + 1);
    FoundOnce(segments, k);
    TextAt(segments, k);
    OffsetsAscend(segments, k, k + 1);
    NextAngle(segments, k);
    CloseIsNotBefore(segments, k, close);
  }

  lemma CloseIsNotBefore(segments: seq<Segment>, k: nat, close: string)
    requires WellFormed(segments) && k + 1 < |segments| && IsMarkup(close)
    ensures var found := Find(Flat(segments), close, Offset(segments, k) + |segments[k].mark|);
            (segments[k + 1].mark == close ==> found == Some(Offset(segments, k + 1)))
            && (segments[k + 1].mark != close && found.Some? ==> found.value > Offset(segments, k + 1))
  {
    hide Flat, OccursAt, IsMarkup, Find;
    var xml, begin, next := Flat(segments), Offset(segments, k) + |segments[k].mark|, Offset(segments, k + 1);
    OffsetsAscend(segments, k, k + 1);
    MarkNotEmpty(segments, k);
    forall i: nat | begin <= i <= next && (i < next || segments[k + 1].mark != close)
      ensures !OccursAt(xml, close, i)
    {
      OccursExactlyAtMarks(segments, close, i);
      forall j | 0 <= j < |segments| && Offset(segments, j) == i && segments[j].mark == close
        ensures false
      {
        OffsetsDistinct(segments, j, k);
      }
    }
    if segments[k + 1].mark == close {
      OccursExactlyAtMarks(segments, close, next);
      FindIs(xml, close, begin, next);
    }
  }

  /** A segment that starts after segment k's mark and not after segment k + 1's is segment k + 1. */
  lemma OffsetsDistinct(segments: seq<Segment>, j: nat, k: nat)
    requires WellFormed(segments) && j < |segments| && k + 1 < |segments|
    requires Offset(segments, k) < Offset(segments, j) <= Offset(segments, k + 1)
    ensures j == k + 1
  {
    MarkNotEmpty(segments, k + 1);
    if j < k {
      OffsetsAscend(segments, j, k);
    } else if j > k + 1 {
      OffsetsAscend(segments, k + 1, j);
    }
  }
}
