/** The sentence split that feeds speech output in `speakText`: all matches of
    the pattern "one or more non-terminators, then any terminators" (the
    terminators being `.`, `!`, `?` and newline), or `[text]` when nothing
    matches. Terminators before the first match are dropped. */
module Sentences {

  predicate IsTerminator(c: char) {
    c == '.' || c == '!' || c == '?' || c == '\n'
  }

  predicate AllTerminators(s: string) {
    forall i | 0 <= i < |s| :: IsTerminator(s[i])
  }

  /** Length of the maximal prefix of `s` whose characters are (when `term`) or
      are not (when `!term`) terminators. */
  function Run(s: string, term: bool): (n: nat)
    ensures n <= |s|
    ensures forall i | 0 <= i < n :: IsTerminator(s[i]) == term
    ensures n == |s| || IsTerminator(s[n]) != term
  {
    if |s| > 0 && IsTerminator(s[0]) == term then 1 + Run(s[1..], term) else 0
  }

  /** The shape of one match: it starts with a non-terminator, and once a
      terminator appears only terminators follow. */
  predicate SegmentShape(seg: string) {
    && |seg| > 0
    && !IsTerminator(seg[0])
    && forall i, j | 0 <= i < j < |seg| :: IsTerminator(seg[i]) ==> IsTerminator(seg[j])
  }

  function Concat(segs: seq<string>): string {
    if |segs| == 0 then [] else segs[0] + Concat(segs[1..])
  }

  lemma ConcatCons(a: string, rest: seq<string>)
    ensures Concat([a] + rest) == a + Concat(rest)
  {
    assert ([a] + rest)[1..] == rest;
  }

  /** Length of the match at the start of `rest` (which starts with a non-terminator). */
  function MatchLen(rest: string): (n: nat)
    requires |rest| > 0 && !IsTerminator(rest[0])
    ensures 0 < n <= |rest|
  {
    var k := Run(rest, false);
    k + Run(rest[k..], true)
  }

  /** All matches of the sentence pattern in `s`, left to right. */
  function Segments(s: string): seq<string>
    decreases |s|
  {
    var rest := s[Run(s, true)..];
    if rest == [] then []
    else
      var n := MatchLen(rest);
      [rest[..n]] + Segments(rest[n..])
  }

  /** Whatever follows a match does not start with a terminator. */
  lemma AfterMatch(rest: string)
    requires |rest| > 0 && !IsTerminator(rest[0])
    ensures Run(rest[MatchLen(rest)..], true) == 0
    ensures MatchLen(rest) < |rest| ==> !IsTerminator(rest[MatchLen(rest)])
  {
    var k := Run(rest, false);
    var m := Run(rest[k..], true);
    if k + m < |rest| {
      assert rest[k..][m] == rest[k + m];
    }
  }

  /** One step of `Segments`: the first match, then the matches of what follows it. */
  lemma SegmentsStep(s: string, rest: string, n: nat)
    requires rest == s[Run(s, true)..] && rest != [] && n == MatchLen(rest)
    ensures Segments(s) == [rest[..n]] + Segments(rest[n..])
    ensures Run(rest[n..], true) == 0
  {
    AfterMatch(rest);
  }

  /** Concatenating the matches gives back the input minus its leading terminators. */
  lemma {:induction false} SegmentsConcat(s: string)
    ensures Concat(Segments(s)) == s[Run(s, true)..]
    decreases |s|
  {
    var rest := s[Run(s, true)..];
    if rest != [] {
      var n := MatchLen(rest);
      var tail := rest[n..];
      SegmentsStep(s, rest, n);
      SegmentsConcat(tail);
      assert tail[0..] == tail;
      ConcatStep(rest, n, Segments(tail));
    }
  }

  lemma ConcatStep(rest: string, n: nat, segs: seq<string>)
    requires n <= |rest| && Concat(segs) == rest[n..]
    ensures Concat([rest[..n]] + segs) == rest
  {
    ConcatCons(rest[..n], segs);
    assert rest[..n] + rest[n..] == rest;
  }

  /** Every match has the segment shape. */
  lemma {:induction false} SegmentsShape(s: string)
    ensures forall k | 0 <= k < |Segments(s)| :: SegmentShape(Segments(s)[k])
    decreases |s|
  {
    var rest := s[Run(s, true)..];
    if rest != [] {
      var n := MatchLen(rest);
      MatchShape(rest);
      SegmentsShape(rest[n..]);
      var r := Segments(s);
      assert r == [rest[..n]] + Segments(rest[n..]);
      forall k | 0 <= k < |r|
        ensures SegmentShape(r[k])
      {
        if k > 0 {
          assert r[k] == Segments(rest[n..])[k - 1];
        }
      }
    }
  }

  lemma MatchShape(rest: string)
    requires |rest| > 0 && !IsTerminator(rest[0])
    ensures SegmentShape(rest[..MatchLen(rest)])
  {
    var k := Run(rest, false);
    var seg := rest[..MatchLen(rest)];
    forall i, j | 0 <= i < j < |seg| && IsTerminator(seg[i])
      ensures IsTerminator(seg[j])
    {
      assert seg[j] == rest[k..][j - k];
    }
  }

  /** Every match except the last ends with a terminator: a match stops before
      a non-terminator only at the end of the text. */
  lemma {:induction false} SegmentsEndings(s: string)
    ensures forall k | 0 <= k < |Segments(s)| - 1 :: |Segments(s)[k]| > 0 && IsTerminator(Segments(s)[k][|Segments(s)[k]| - 1])
    decreases |s|
  {
    var rest := s[Run(s, true)..];
    if rest != [] {
      var n := MatchLen(rest);
      SegmentsStep(s, rest, n);
      var tail := Segments(rest[n..]);
      SegmentsEndings(rest[n..]);
      if n == |rest| {
        assert rest[n..] == [];
      }
      EndingsCons(rest, n, tail);
    }
  }

  lemma EndingsCons(rest: string, n: nat, tail: seq<string>)
    requires |rest| > 0 && !IsTerminator(rest[0]) && n == MatchLen(rest)
    requires tail != [] ==> n < |rest|
    requires forall k | 0 <= k < |tail| - 1 :: |tail[k]| > 0 && IsTerminator(tail[k][|tail[k]| - 1])
    ensures var r := [rest[..n]] + tail;
      forall k | 0 <= k < |r| - 1 :: |r[k]| > 0 && IsTerminator(r[k][|r[k]| - 1])
  {
    var r := [rest[..n]] + tail;
    if tail != [] {
      MatchEndsWithTerminator(rest);
    }
    forall k | 0 <= k < |r| - 1
      ensures |r[k]| > 0 && IsTerminator(r[k][|r[k]| - 1])
    {
      if k > 0 {
        assert r[k] == tail[k - 1];
      }
    }
  }

  /** A match that stops before the end of the text ends with a terminator. */
  lemma MatchEndsWithTerminator(rest: string)
    requires |rest| > 0 && !IsTerminator(rest[0])
    requires MatchLen(rest) < |rest|
    ensures IsTerminator(rest[..MatchLen(rest)][MatchLen(rest) - 1])
  {
    var k := Run(rest, false);
    var m := Run(rest[k..], true);
    assert IsTerminator(rest[k]);
    assert m > 0;
    assert rest[k..][m - 1] == rest[k + m - 1];
  }

  /** There is no match exactly when the text is made only of terminators. */
  lemma SegmentsEmpty(s: string)
    ensures Segments(s) == [] <==> AllTerminators(s)
  {
    var lead := Run(s, true);
    if lead < |s| {
      assert !IsTerminator(s[lead]);
      assert s[lead..] != [];
    } else {
      assert s[lead..] == [];
    }
  }

  /** The segments `speakText` queues: the matches, or the whole text when there are none. */
  function SentenceSplit(text: string): (r: seq<string>)
    ensures |r| >= 1
    ensures AllTerminators(text) ==> r == [text]
    ensures !AllTerminators(text) ==> Concat(r) == text[Run(text, true)..] && forall k | 0 <= k < |r| :: SegmentShape(r[k])
  {
    SegmentsConcat(text);
    SegmentsShape(text);
    SegmentsEmpty(text);
    var segs := Segments(text);
    if segs == [] then [text] else segs
  }

  /** Text that starts with a non-terminator is split without loss. */
  lemma SplitLossless(text: string)
    requires |text| > 0 && !IsTerminator(text[0])
    ensures Concat(SentenceSplit(text)) == text
  {
    assert Run(text, true) == 0;
  }

  /** `Run` is determined by its contract. */
  lemma RunIs(s: string, term: bool, n: nat)
    requires n <= |s|
    requires forall i | 0 <= i < n :: IsTerminator(s[i]) == term
    requires n == |s| || IsTerminator(s[n]) != term
    ensures Run(s, term) == n
  {
  }

  /** The white space after a terminator stays at the head of the next segment. */
  lemma ExampleSplit()
    ensures SentenceSplit("Hi. Go!") == ["Hi.", " Go!"]
  {
    var t := "Hi. Go!";
    var rest := " Go!";
    assert t[3..] == rest && t[..3] == "Hi." && t[2..] == ". Go!";
    RunIs(t, true, 0);
    RunIs(t, false, 2);
    RunIs(t[2..], true, 1);
    assert rest[3..] == "!";
    RunIs(rest, true, 0);
    RunIs(rest, false, 3);
    RunIs(rest[3..], true, 1);
    assert MatchLen(rest) == 4;
    assert rest[0..] == rest && rest[..4] == rest;
    assert Segments(rest[4..]) == [];
    assert Segments(rest) == [rest];
    assert MatchLen(t) == 3 && t[0..] == t;
    assert Segments(t) == [t[..3]] + Segments(rest);
  }
}
