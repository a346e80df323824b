/** `stripTimerTags` in `ChatInterface.tsx`: a global removal of the pattern
    `[` white space* `TIMER` (`_START`)? `:` digits+ `:` non-`]`+ white space* `]`,
    then every run of two or more white-space characters replaced by one space,
    then `trim`. The regular expressions are written out as scanners over
    positions of the input. */
module TimerTags {
  import opened Wrappers
  import opened Text
  import opened Numbers

  /* ---------------- the tag pattern ---------------- */

  /** Number of white-space characters from position `i` on. */
  function SpacesFrom(s: string, i: nat): (n: nat)
    requires i <= |s|
    ensures i + n <= |s|
    decreases |s| - i
  {
    if i < |s| && IsSpace(s[i]) then 1 + SpacesFrom(s, i + 1) else 0
  }

  /** Number of digits from position `i` on. */
  function DigitsFrom(s: string, i: nat): (n: nat)
    requires i <= |s|
    ensures i + n <= |s|
    decreases |s| - i
  {
    if i < |s| && IsDigit(s[i]) then 1 + DigitsFrom(s, i + 1) else 0
  }

  /** Position of the first `]` at or after `p`. */
  function CloseFrom(s: string, p: nat): (r: Option<nat>)
    requires p <= |s|
    ensures r.Some? ==> p <= r.value < |s| && s[r.value] == ']'
    decreases |s| - p
  {
    if p == |s| then None
    else if s[p] == ']' then Some(p)
    else CloseFrom(s, p + 1)
  }

  /** `SpacesFrom` counts the maximal run of white space at `i`. */
  lemma {:induction false} SpacesFromSpec(s: string, i: nat)
    requires i <= |s|
    ensures forall j | i <= j < i + SpacesFrom(s, i) :: IsSpace(s[j])
    ensures i + SpacesFrom(s, i) == |s| || !IsSpace(s[i + SpacesFrom(s, i)])
    decreases |s| - i
  {
    if i < |s| && IsSpace(s[i]) {
      SpacesFromSpec(s, i + 1);
    }
  }

  /** `DigitsFrom` counts the maximal run of digits at `i`. */
  lemma {:induction false} DigitsFromSpec(s: string, i: nat)
    requires i <= |s|
    ensures forall j | i <= j < i + DigitsFrom(s, i) :: IsDigit(s[j])
    ensures i + DigitsFrom(s, i) == |s| || !IsDigit(s[i + DigitsFrom(s, i)])
    decreases |s| - i
  {
    if i < |s| && IsDigit(s[i]) {
      DigitsFromSpec(s, i + 1);
    }
  }

  /** `CloseFrom` finds the first `]` at or after `p`, and None only when there is none. */
  lemma {:induction false} CloseFromSpec(s: string, p: nat)
    requires p <= |s|
    ensures CloseFrom(s, p).Some? ==> forall j | p <= j < CloseFrom(s, p).value :: s[j] != ']'
    ensures CloseFrom(s, p).None? ==> forall j | p <= j < |s| :: s[j] != ']'
    decreases |s| - p
  {
    if p < |s| && s[p] != ']' {
      CloseFromSpec(s, p + 1);
    }
  }

  /** The `n` characters at position `i` form one tag whose opening white space
      has `w` characters, whose keyword is `TIMER_START` when `start` (else
      `TIMER`), and whose duration has `d` digits. The label runs from after the
      second colon up to the closing bracket, which is the first `]` after it
      (the trailing white space of the pattern is part of the label). */
  predicate TagAt(s: string, i: nat, n: nat, w: nat, start: bool, d: nat) {
    var a := i + 1 + w;
    var b := a + 5 + (if start then 6 else 0);
    var c := b + 1 + d;
    var e := i + n - 1;
    && i + n <= |s|
    && c + 2 <= e
    && s[i] == '['
    && (forall j | i + 1 <= j < a :: IsSpace(s[j]))
    && OccursAt(s, "TIMER", a)
    && (start ==> OccursAt(s, "_START", a + 5))
    && s[b] == ':'
    && d > 0
    && (forall j | b + 1 <= j < c :: IsDigit(s[j]))
    && s[c] == ':'
    && (forall j | c + 1 <= j < e :: s[j] != ']')
    && s[e] == ']'
  }

  /** Some tag of length `n` starts at position `i`. */
  predicate IsTagAt(s: string, i: nat, n: nat) {
    exists w: nat, start: bool, d: nat {:trigger TagAt(s, i, n, w, start, d)} | w < n && d < n :: TagAt(s, i, n, w, start, d)
  }

  /** Length of the tag starting at position `i`, if one does. */
  function TagLen(s: string, i: nat): (r: Option<nat>)
    requires i <= |s|
    ensures r.Some? ==> 0 < r.value && i + r.value <= |s|
  {
    if i == |s| || s[i] != '[' then None
    else AfterOpen(s, i, i + 1 + SpacesFrom(s, i + 1))
  }

  /** The scan from the keyword, expected at `a`. */
  function AfterOpen(s: string, i: nat, a: nat): (r: Option<nat>)
    requires i < a <= |s|
    ensures r.Some? ==> 0 < r.value && i + r.value <= |s|
  {
    if !OccursAt(s, "TIMER", a) then None
    else AfterKind(s, i, if OccursAt(s, "_START", a + 5) then a + 11 else a + 5)
  }

  /** The scan from the first colon, expected at `b`. */
  function AfterKind(s: string, i: nat, b: nat): (r: Option<nat>)
    requires i < b <= |s|
    ensures r.Some? ==> 0 < r.value && i + r.value <= |s|
  {
    if b == |s| || s[b] != ':' then None
    else
      var c := b + 1 + DigitsFrom(s, b + 1);
      if c == b + 1 || c == |s| || s[c] != ':' then None
      else AfterDigits(s, i, c + 1)
  }

  /** The scan of the label: at least one character before the first `]`. */
  function AfterDigits(s: string, i: nat, p: nat): (r: Option<nat>)
    requires i < p <= |s|
    ensures r.Some? ==> 0 < r.value && i + r.value <= |s|
  {
    match CloseFrom(s, p)
    case None => None
    case Some(q) => if q == p then None else Some(q + 1 - i)
  }

  /** What the scanner accepts is a tag. */
  lemma TagLenSound(s: string, i: nat)
    requires i <= |s| && TagLen(s, i).Some?
    ensures IsTagAt(s, i, TagLen(s, i).value)
  {
    var n := TagLen(s, i).value;
    var w := SpacesFrom(s, i + 1);
    assert i < |s| && s[i] == '[' && AfterOpen(s, i, i + 1 + w) == Some(n);
    var start, d := SoundOpen(s, i, n, w);
    TagAtIsTag(s, i, n, w, start, d);
  }

  lemma SoundOpen(s: string, i: nat, n: nat, w: nat) returns (start: bool, d: nat)
    requires i < |s| && s[i] == '[' && w == SpacesFrom(s, i + 1)
    requires AfterOpen(s, i, i + 1 + w) == Some(n)
    ensures TagAt(s, i, n, w, start, d)
  {
    var a := i + 1 + w;
    SoundKind(s, i, a, n);
    start := OccursAt(s, "_START", a + 5);
    var b := if start then a + 11 else a + 5;
    SoundRest(s, i, n, w, start, b);
    d := DigitsFrom(s, b + 1);
  }

  lemma SoundRest(s: string, i: nat, n: nat, w: nat, start: bool, b: nat)
    requires i < |s| && s[i] == '[' && w == SpacesFrom(s, i + 1)
    requires OccursAt(s, "TIMER", i + 1 + w)
    requires start ==> OccursAt(s, "_START", i + 1 + w + 5)
    requires b == i + 1 + w + 5 + (if start then 6 else 0)
    requires b <= |s| && AfterKind(s, i, b) == Some(n)
    ensures TagAt(s, i, n, w, start, DigitsFrom(s, b + 1))
  {
    SoundDigits(s, i, b, n);
    var d := DigitsFrom(s, b + 1);
    SoundLabel(s, i, b + 1 + d + 1, n);
    Assemble(s, i, n, w, start, d);
  }

  lemma TagAtIsTag(s: string, i: nat, n: nat, w: nat, start: bool, d: nat)
    requires TagAt(s, i, n, w, start, d)
    ensures IsTagAt(s, i, n)
  {
  }

  lemma Assemble(s: string, i: nat, n: nat, w: nat, start: bool, d: nat)
    requires i < |s| && s[i] == '[' && w == SpacesFrom(s, i + 1)
    requires OccursAt(s, "TIMER", i + 1 + w)
    requires start ==> OccursAt(s, "_START", i + 1 + w + 5)
    requires var b := i + 1 + w + 5 + (if start then 6 else 0);
      && b < |s| && s[b] == ':' && d == DigitsFrom(s, b + 1) && d > 0
      && b + 1 + d < |s| && s[b + 1 + d] == ':'
      && b + 1 + d + 2 <= i + n - 1 < |s| && s[i + n - 1] == ']'
      && forall j | b + 1 + d + 1 <= j < i + n - 1 :: s[j] != ']'
    ensures TagAt(s, i, n, w, start, d)
  {
    SpacesFromSpec(s, i + 1);
    DigitsFromSpec(s, i + 1 + w + 5 + (if start then 6 else 0) + 1);
  }

  lemma SoundKind(s: string, i: nat, a: nat, n: nat)
    requires i < a <= |s| && AfterOpen(s, i, a) == Some(n)
    ensures OccursAt(s, "TIMER", a)
    ensures OccursAt(s, "_START", a + 5) ==> AfterKind(s, i, a + 11) == Some(n)
    ensures !OccursAt(s, "_START", a + 5) ==> AfterKind(s, i, a + 5) == Some(n)
  {
  }

  lemma SoundDigits(s: string, i: nat, b: nat, n: nat)
    requires i < b <= |s| && AfterKind(s, i, b) == Some(n)
    ensures b < |s| && s[b] == ':'
    ensures var c := b + 1 + DigitsFrom(s, b + 1);
      c > b + 1 && c < |s| && s[c] == ':' && AfterDigits(s, i, c + 1) == Some(n)
  {
  }

  lemma SoundLabel(s: string, i: nat, p: nat, n: nat)
    requires i < p <= |s| && AfterDigits(s, i, p) == Some(n)
    ensures p + 1 <= i + n - 1 < |s| && s[i + n - 1] == ']'
    ensures forall j | p <= j < i + n - 1 :: s[j] != ']'
  {
    CloseFromSpec(s, p);
  }

  /** Every tag is found by the scanner, with its full length. */
  lemma TagLenComplete(s: string, i: nat, n: nat, w: nat, start: bool, d: nat)
    requires TagAt(s, i, n, w, start, d)
    ensures TagLen(s, i) == Some(n)
  {
    var a := i + 1 + w;
    var b := a + 5 + (if start then 6 else 0);
    CompleteOpen(s, i, n, w, start, d);
    CompleteRest(s, i, n, w, start, d, b);
    CompleteKind(s, i, a, start, b, n);
    CompleteBracket(s, i, n);
  }

  lemma CompleteKind(s: string, i: nat, a: nat, start: bool, b: nat, n: nat)
    requires i < a <= |s| && OccursAt(s, "TIMER", a) && OccursAt(s, "_START", a + 5) == start
    requires b == a + 5 + (if start then 6 else 0)
    requires i < b <= |s| && AfterKind(s, i, b) == Some(n)
    ensures AfterOpen(s, i, a) == Some(n)
  {
  }

  lemma CompleteBracket(s: string, i: nat, n: nat)
    requires i < |s| && s[i] == '['
    requires AfterOpen(s, i, i + 1 + SpacesFrom(s, i + 1)) == Some(n)
    ensures TagLen(s, i) == Some(n)
  {
  }

  lemma CompleteOpen(s: string, i: nat, n: nat, w: nat, start: bool, d: nat)
    requires TagAt(s, i, n, w, start, d)
    ensures i < |s| && s[i] == '['
    ensures SpacesFrom(s, i + 1) == w
    ensures OccursAt(s, "TIMER", i + 1 + w)
    ensures OccursAt(s, "_START", i + 1 + w + 5) == start
  {
    var a := i + 1 + w;
    var b := a + 5 + (if start then 6 else 0);
    assert s[a..a + 5][0] == s[a];
    SpacesFromIs(s, i + 1, w);
    if !start {
      assert !OccursAt(s, "_START", a + 5) by {
        if a + 11 <= |s| {
          assert s[a + 5..a + 11][0] == s[b];
        }
      }
    }
  }

  lemma CompleteRest(s: string, i: nat, n: nat, w: nat, start: bool, d: nat, b: nat)
    requires TagAt(s, i, n, w, start, d)
    requires b == i + 1 + w + 5 + (if start then 6 else 0)
    ensures i < b <= |s| && AfterKind(s, i, b) == Some(n)
  {
    var c := b + 1 + d;
    DigitsFromIs(s, b + 1, d);
    CloseFromIs(s, c + 1, i + n - 1);
    assert AfterDigits(s, i, c + 1) == Some(n);
  }

  /** The scanner finds a tag exactly where the pattern matches. */
  lemma TagLenIff(s: string, i: nat, n: nat)
    requires i <= |s|
    ensures TagLen(s, i) == Some(n) <==> IsTagAt(s, i, n)
  {
    if TagLen(s, i) == Some(n) {
      TagLenSound(s, i);
    }
    if IsTagAt(s, i, n) {
      var w: nat, start: bool, d: nat :| w < n && d < n && TagAt(s, i, n, w, start, d);
      TagLenComplete(s, i, n, w, start, d);
    }
  }

  lemma {:induction false} SpacesFromIs(s: string, i: nat, n: nat)
    requires i + n <= |s|
    requires forall j | i <= j < i + n :: IsSpace(s[j])
    requires i + n == |s| || !IsSpace(s[i + n])
    ensures SpacesFrom(s, i) == n
    decreases n
  {
    if n > 0 {
      SpacesFromIs(s, i + 1, n - 1);
    }
  }

  lemma {:induction false} DigitsFromIs(s: string, i: nat, n: nat)
    requires i + n <= |s|
    requires forall j | i <= j < i + n :: IsDigit(s[j])
    requires i + n == |s| || !IsDigit(s[i + n])
    ensures DigitsFrom(s, i) == n
    decreases n
  {
    if n > 0 {
      DigitsFromIs(s, i + 1, n - 1);
    }
  }

  lemma {:induction false} CloseFromIs(s: string, p: nat, q: nat)
    requires p <= q < |s| && s[q] == ']'
    requires forall j | p <= j < q :: s[j] != ']'
    ensures CloseFrom(s, p) == Some(q)
    decreases q - p
  {
    if p < q {
      CloseFromIs(s, p + 1, q);
    }
  }

  /* ---------------- removal ---------------- */

  /** The global replacement of tags by nothing, from position `i`: scanning
      left to right, a tag starting here is dropped and the scan resumes after
      it; otherwise the character is kept. */
  function StripFrom(s: string, i: nat): (r: string)
    requires i <= |s|
    ensures |r| <= |s| - i
    decreases |s| - i, 1
  {
    if i == |s| then [] else StripWith(s, i, TagLen(s, i))
  }

  /** One step of the scan at `i`, given the length of the tag found there, if any. */
  function StripWith(s: string, i: nat, tag: Option<nat>): (r: string)
    requires i < |s| && (tag.Some? ==> 0 < tag.value && i + tag.value <= |s|)
    ensures |r| <= |s| - i
    decreases |s| - i, 0
  {
    match tag
    case Some(n) => StripFrom(s, i + n)
    case None => [s[i]] + StripFrom(s, i + 1)
  }

  function RemoveTags(s: string): string {
    StripFrom(s, 0)
  }

  /** A tag is dropped whole and the scan resumes right after it. */
  lemma TagDropped(s: string, i: nat, n: nat)
    requires i <= |s| && IsTagAt(s, i, n)
    ensures i + n <= |s| && StripFrom(s, i) == StripFrom(s, i + n)
  {
    var w: nat, start: bool, d: nat :| w < n && d < n && TagAt(s, i, n, w, start, d);
    TagLenComplete(s, i, n, w, start, d);
    StripAtTag(s, i, n);
  }

  lemma StripAtTag(s: string, i: nat, n: nat)
    requires i <= |s| && TagLen(s, i) == Some(n)
    ensures i + n <= |s| && StripFrom(s, i) == StripFrom(s, i + n)
  {
  }

  /** A character where no tag starts is kept. */
  lemma CharKept(s: string, i: nat)
    requires i < |s| && forall n: nat :: !IsTagAt(s, i, n)
    ensures StripFrom(s, i) == [s[i]] + StripFrom(s, i + 1)
  {
    if TagLen(s, i).Some? {
      TagLenSound(s, i);
    }
  }

  /** A stretch of text without an opening bracket passes unchanged. */
  lemma {:induction false} PlainRunKept(s: string, i: nat, j: nat)
    requires i <= j <= |s| && '[' !in s[i..j]
    ensures StripFrom(s, i) == s[i..j] + StripFrom(s, j)
    decreases j - i
  {
    if i < j {
      assert s[i] == s[i..j][0];
      assert s[i + 1..j] == s[i..j][1..];
      PlainRunKept(s, i + 1, j);
      assert s[i..j] == [s[i]] + s[i + 1..j];
    }
  }

  /* ---------------- white-space collapse ---------------- */

  /** No two white-space characters are adjacent. */
  predicate NoDoubleSpace(s: string) {
    forall k | 0 <= k < |s| - 1 :: !(IsSpace(s[k]) && IsSpace(s[k + 1]))
  }

  /** The non-white-space characters of `s`, in order. */
  function Words(s: string): (r: string)
    ensures NoSpace(r)
  {
    if |s| == 0 then []
    else if IsSpace(s[0]) then Words(s[1..])
    else [s[0]] + Words(s[1..])
  }

  /** `replace(/\s{2,}/g, ' ')`: every maximal run of two or more white-space
      characters becomes one space; a lone white-space character is kept as it is. */
  function Collapse(s: string): (r: string)
    ensures |r| <= |s|
    ensures |s| == 0 <==> |r| == 0
    ensures |s| > 0 ==> IsSpace(r[0]) == IsSpace(s[0])
    decreases |s|
  {
    if |s| == 0 then []
    else if |s| >= 2 && IsSpace(s[0]) && IsSpace(s[1]) then
      [' '] + Collapse(s[LeadingSpaces(s)..])
    else [s[0]] + Collapse(s[1..])
  }

  /** After a collapse no two white-space characters are adjacent. */
  lemma {:induction false} CollapseNoDouble(s: string)
    ensures NoDoubleSpace(Collapse(s))
    decreases |s|
  {
    if |s| > 0 {
      var r := Collapse(s);
      if |s| >= 2 && IsSpace(s[0]) && IsSpace(s[1]) {
        var rest := s[LeadingSpaces(s)..];
        CollapseNoDouble(rest);
        var x := Collapse(rest);
        assert r == [' '] + x;
        assert x == [] || !IsSpace(x[0]);
        forall k | 0 <= k < |r| - 1
          ensures !(IsSpace(r[k]) && IsSpace(r[k + 1]))
        {
          if k > 0 {
            assert r[k] == x[k - 1] && r[k + 1] == x[k];
          }
        }
      } else {
        CollapseNoDouble(s[1..]);
        var x := Collapse(s[1..]);
        assert r == [s[0]] + x;
        assert IsSpace(s[0]) ==> x == [] || !IsSpace(x[0]);
        forall k | 0 <= k < |r| - 1
          ensures !(IsSpace(r[k]) && IsSpace(r[k + 1]))
        {
          if k > 0 {
            assert r[k] == x[k - 1] && r[k + 1] == x[k];
          }
        }
      }
    }
  }

  /** Text without adjacent white space is left as it is. */
  lemma {:induction false} CollapseClean(s: string)
    requires NoDoubleSpace(s)
    ensures Collapse(s) == s
    decreases |s|
  {
    if |s| > 0 {
      assert !(|s| >= 2 && IsSpace(s[0]) && IsSpace(s[1]));
      assert NoDoubleSpace(s[1..]) by {
        forall k | 0 <= k < |s[1..]| - 1
          ensures !(IsSpace(s[1..][k]) && IsSpace(s[1..][k + 1]))
        {
          assert s[1..][k] == s[k + 1] && s[1..][k + 1] == s[k + 2];
        }
      }
      CollapseClean(s[1..]);
      assert s == [s[0]] + s[1..];
    }
  }

  /** The collapse can be split after a character that is not white space:
      no run of white space reaches across it. */
  lemma {:induction false} CollapseSplit(a: string, t: string)
    requires a == [] || !IsSpace(a[|a| - 1])
    ensures Collapse(a + t) == Collapse(a) + Collapse(t)
    decreases |a|
  {
    if a == [] {
      assert a + t == t;
    } else {
      if |a| >= 2 && IsSpace(a[0]) && IsSpace(a[1]) {
        CollapseSkip(a, t);
        var rest := a[LeadingSpaces(a)..];
        CollapseSplit(rest, t);
        AppendAssoc([' '], Collapse(rest), Collapse(t));
      } else {
        CollapseStep(a, t);
        CollapseSplit(a[1..], t);
        AppendAssoc([a[0]], Collapse(a[1..]), Collapse(t));
      }
    }
  }

  lemma AppendAssoc(x: string, y: string, z: string)
    ensures x + (y + z) == (x + y) + z
  {
  }

  /** A maximal run of white space, between text that does not end in white
      space and text that does not start with it, becomes one space when it is
      two or more characters long and is kept as it is when it is one; the text
      on either side is collapsed on its own. */
  lemma CollapseRun(a: string, w: string, b: string)
    requires |w| >= 1 && AllSpace(w)
    requires a == [] || !IsSpace(a[|a| - 1])
    requires b == [] || !IsSpace(b[0])
    ensures Collapse(a + w + b) == Collapse(a) + (if |w| >= 2 then " " else w) + Collapse(b)
  {
    AppendAssoc(a, w, b);
    CollapseSplit(a, w + b);
    CollapseRunAlone(w, b);
    AppendAssoc(Collapse(a), if |w| >= 2 then " " else w, Collapse(b));
  }

  lemma CollapseRunAlone(w: string, b: string)
    requires |w| >= 1 && AllSpace(w)
    requires b == [] || !IsSpace(b[0])
    ensures Collapse(w + b) == (if |w| >= 2 then " " else w) + Collapse(b)
  {
    var s := w + b;
    if |w| >= 2 {
      assert s[..|w|] == w;
      LeadingSpacesIs(s, |w|);
      assert s[|w|..] == b;
    } else {
      assert s[1..] == b;
    }
  }

  /** A leading run of two or more white-space characters that ends inside `a`. */
  lemma CollapseSkip(a: string, x: string)
    requires |a| >= 2 && IsSpace(a[0]) && IsSpace(a[1]) && !IsSpace(a[|a| - 1])
    ensures LeadingSpaces(a) < |a|
    ensures Collapse(a + x) == [' '] + Collapse(a[LeadingSpaces(a)..] + x)
    ensures Collapse(a) == [' '] + Collapse(a[LeadingSpaces(a)..])
  {
    var n := LeadingSpaces(a);
    var s := a + x;
    assert n < |a|;
    assert s[..n] == a[..n];
    LeadingSpacesIs(s, n);
    assert s[n..] == a[n..] + x;
  }

  /** A first character of `a` that does not start a run of two. */
  lemma CollapseStep(a: string, x: string)
    requires |a| >= 1 && !IsSpace(a[|a| - 1])
    requires !(|a| >= 2 && IsSpace(a[0]) && IsSpace(a[1]))
    ensures Collapse(a + x) == [a[0]] + Collapse(a[1..] + x)
    ensures Collapse(a) == [a[0]] + Collapse(a[1..])
  {
    var s := a + x;
    assert s[0] == a[0];
    assert |a| >= 2 ==> s[1] == a[1];
    assert s[1..] == a[1..] + x;
  }

  lemma CollapseIdempotent(s: string)
    ensures Collapse(Collapse(s)) == Collapse(s)
  {
    CollapseNoDouble(s);
    CollapseClean(Collapse(s));
  }

  lemma {:induction false} WordsAppend(a: string, b: string)
    ensures Words(a + b) == Words(a) + Words(b)
    decreases |a|
  {
    if |a| > 0 {
      assert (a + b)[0] == a[0] && (a + b)[1..] == a[1..] + b;
      WordsAppend(a[1..], b);
    } else {
      assert a + b == b;
    }
  }

  lemma {:induction false} WordsOfSpace(s: string)
    requires AllSpace(s)
    ensures Words(s) == []
    decreases |s|
  {
    if |s| > 0 {
      WordsOfSpace(s[1..]);
    }
  }

  /** The collapse changes only white space: the other characters are kept, in order. */
  lemma {:induction false} CollapseKeepsWords(s: string)
    ensures Words(Collapse(s)) == Words(s)
    decreases |s|
  {
    if |s| > 0 {
      if |s| >= 2 && IsSpace(s[0]) && IsSpace(s[1]) {
        var n := LeadingSpaces(s);
        var rest := s[n..];
        CollapseKeepsWords(rest);
        assert s == s[..n] + rest;
        WordsAppend(s[..n], rest);
        WordsOfSpace(s[..n]);
        assert Words([' '] + Collapse(rest)) == Words(Collapse(rest));
      } else {
        CollapseKeepsWords(s[1..]);
      }
    }
  }

  /** Trimming changes only white space. */
  lemma TrimKeepsWords(s: string)
    ensures Words(Trim(s)) == Words(s)
  {
    var a := LeadingSpaces(s);
    var r := Trim(s);
    var x, e := s[..a], s[a + |r|..];
    assert AllSpace(x) && AllSpace(e);
    assert r == s[a..a + |r|];
    assert s == x + (r + e);
    WordsBetweenSpace(x, r, e);
  }

  lemma WordsBetweenSpace(x: string, y: string, z: string)
    requires AllSpace(x) && AllSpace(z)
    ensures Words(x + (y + z)) == Words(y)
  {
    WordsAppend(x, y + z);
    WordsAppend(y, z);
    WordsOfSpace(x);
    WordsOfSpace(z);
  }

  lemma NoDoubleSlice(s: string, a: nat, b: nat)
    requires a <= b <= |s| && NoDoubleSpace(s)
    ensures NoDoubleSpace(s[a..b])
  {
    forall k | 0 <= k < b - a - 1
      ensures !(IsSpace(s[a..b][k]) && IsSpace(s[a..b][k + 1]))
    {
      assert s[a..b][k] == s[a + k] && s[a..b][k + 1] == s[a + k + 1];
    }
  }

  /* ---------------- stripTimerTags ---------------- */

  /** `stripTimerTags`: the result has no white space at either end and no two
      adjacent white-space characters, and it keeps every non-white-space
      character of the text left once the tags are removed. */
  function StripTimerTags(text: string): (r: string)
    ensures r == [] || (!IsSpace(r[0]) && !IsSpace(r[|r| - 1]))
    ensures NoDoubleSpace(r)
    ensures Words(r) == Words(RemoveTags(text))
  {
    var c := Collapse(RemoveTags(text));
    CollapseNoDouble(RemoveTags(text));
    CollapseKeepsWords(RemoveTags(text));
    TrimKeepsWords(c);
    NoDoubleSlice(c, LeadingSpaces(c), LeadingSpaces(c) + |Trim(c)|);
    Trim(c)
  }

  /** Clean text (no bracket, no doubled or surrounding white space) passes unchanged. */
  lemma CleanTextUnchanged(s: string)
    requires '[' !in s && NoDoubleSpace(s)
    requires s == [] || (!IsSpace(s[0]) && !IsSpace(s[|s| - 1]))
    ensures StripTimerTags(s) == s
  {
    PlainRunKept(s, 0, |s|);
    assert s[0..|s|] == s && StripFrom(s, |s|) == [];
    assert RemoveTags(s) == s;
    CollapseClean(s);
    TrimNoop(s);
  }

  /** Applying the filter twice gives the same result as applying it once when
      the first pass leaves no bracket behind. */
  lemma StripIdempotentWithoutBrackets(s: string)
    requires '[' !in StripTimerTags(s)
    ensures StripTimerTags(StripTimerTags(s)) == StripTimerTags(s)
  {
    CleanTextUnchanged(StripTimerTags(s));
  }

  /* ---------------- consequences ---------------- */

  /** Two pieces of clean text joined by white space are read as the two
      pieces with one space between them when the white space is two or more
      characters long; a single white-space character is kept as it is. */
  lemma StripSeparatesWords(u: string, w: string, v: string)
    requires |u| > 0 && !IsSpace(u[0]) && !IsSpace(u[|u| - 1]) && NoDoubleSpace(u) && '[' !in u
    requires |v| > 0 && !IsSpace(v[0]) && !IsSpace(v[|v| - 1]) && NoDoubleSpace(v) && '[' !in v
    requires |w| >= 1 && AllSpace(w)
    ensures StripTimerTags(u + w + v) == u + (if |w| >= 2 then " " else w) + v
  {
    var s := u + w + v;
    assert '[' !in w by {
      forall k | 0 <= k < |w|
        ensures w[k] != '['
      {
        assert IsSpace(w[k]);
      }
    }
    assert '[' !in s;
    PlainRunKept(s, 0, |s|);
    assert s[0..|s|] == s && StripFrom(s, |s|) == [];
    assert RemoveTags(s) == s;
    CollapseRun(u, w, v);
    CollapseClean(u);
    CollapseClean(v);
    var r := u + (if |w| >= 2 then " " else w) + v;
    assert r[0] == u[0] && r[|r| - 1] == v[|v| - 1];
    TrimNoop(r);
  }

  lemma InfixSlice(p: string, t: string, q: string, x: nat, y: nat)
    requires x <= y <= |t|
    ensures (p + t + q)[|p| + x..|p| + y] == t[x..y]
  {
    var s := p + t + q;
    forall k | 0 <= k < y - x
      ensures s[|p| + x..|p| + y][k] == t[x..y][k]
    {
      assert s[|p| + x + k] == t[x + k];
    }
  }

  /** A tag stays a tag whatever surrounds it. */
  lemma TagShift(p: string, t: string, q: string, n: nat, w: nat, start: bool, d: nat)
    requires TagAt(t, 0, n, w, start, d)
    ensures TagAt(p + t + q, |p|, n, w, start, d)
  {
    var s := p + t + q;
    var a := 1 + w;
    var b := a + 5 + (if start then 6 else 0);
    var c := b + 1 + d;
    var e := n - 1;
    assert forall k | 0 <= k < |t| :: s[|p| + k] == t[k];
    InfixSlice(p, t, q, a, a + 5);
    if start {
      InfixSlice(p, t, q, a + 5, a + 11);
    }
  }

  /** Text without white space is copied through the collapse. */
  lemma {:induction false} CollapseWordPrefix(a: string, b: string)
    requires NoSpace(a)
    ensures Collapse(a + b) == a + Collapse(b)
    decreases |a|
  {
    if |a| > 0 {
      var s := a + b;
      assert s[0] == a[0] && !IsSpace(a[0]);
      assert s[1..] == a[1..] + b;
      assert Collapse(s) == [a[0]] + Collapse(a[1..] + b);
      assert NoSpace(a[1..]) by {
        forall k | 0 <= k < |a| - 1
          ensures a[1..][k] == a[k + 1]
        {
        }
      }
      CollapseWordPrefix(a[1..], b);
      assert a == [a[0]] + a[1..];
    } else {
      assert a + b == b;
    }
  }

  lemma TagInside(p: string, t: string, q: string)
    requires IsTagAt(t, 0, |t|)
    ensures IsTagAt(p + t + q, |p|, |t|)
  {
    var w: nat, start: bool, d: nat :| w < |t| && d < |t| && TagAt(t, 0, |t|, w, start, d);
    TagShift(p, t, q, |t|, w, start, d);
    TagAtIsTag(p + t + q, |p|, |t|, w, start, d);
  }

  /** Once the scan reaches a tag followed by bracket-free text, only that text is left. */
  lemma StripFromTag(p: string, t: string, q: string)
    requires '[' !in q
    requires IsTagAt(t, 0, |t|)
    ensures StripFrom(p + t + q, |p|) == q
  {
    var s := p + t + q;
    TagInside(p, t, q);
    assert s[|p| + |t|..] == q;
    DropThenPlain(s, |p|, |t|);
  }

  lemma DropThenPlain(s: string, i: nat, n: nat)
    requires i <= |s| && IsTagAt(s, i, n)
    requires i + n <= |s| && '[' !in s[i + n..]
    ensures StripFrom(s, i) == s[i + n..]
  {
    TagDropped(s, i, n);
    PlainTail(s, i + n);
  }

  /** Bracket-free text at the end passes unchanged. */
  lemma PlainTail(s: string, m: nat)
    requires m <= |s| && '[' !in s[m..]
    ensures StripFrom(s, m) == s[m..]
  {
    assert s[m..|s|] == s[m..];
    PlainRunKept(s, m, |s|);
    assert StripFrom(s, |s|) == [];
  }

  /** A tag between two stretches of bracket-free text is removed and nothing else is. */
  lemma RemoveInside(p: string, t: string, q: string)
    requires '[' !in p && '[' !in q
    requires IsTagAt(t, 0, |t|)
    ensures RemoveTags(p + t + q) == p + q
  {
    var s := p + t + q;
    assert s[0..|p|] == p;
    PlainRunKept(s, 0, |p|);
    StripFromTag(p, t, q);
  }

  /** The removal is a single left-to-right pass: an opening bracket right
      before a tag is kept, and it may form a new tag with what follows. */
  lemma {:induction false} SinglePass(t: string, u: string)
    requires IsTagAt(t, 0, |t|) && '[' !in u
    ensures RemoveTags("[" + t + u) == "[" + u
  {
    var s := "[" + t + u;
    var w: nat, start: bool, d: nat :| w < |t| && d < |t| && TagAt(t, 0, |t|, w, start, d);
    assert s[1] == t[0] == '[';
    assert SpacesFrom(s, 1) == 0;
    assert !OccursAt(s, "TIMER", 1);
    assert TagLen(s, 0) == None;
    assert StripFrom(s, 0) == [s[0]] + StripFrom(s, 1);
    StripFromTag("[", t, u);
  }

  /** `[[TIMER:1:a]TIMER:2:b]` becomes the tag `[TIMER:2:b]`. */
  lemma ExampleSinglePass(t: string, u: string)
    requires t == "[TIMER:1:a]" && u == "TIMER:2:b]"
    ensures RemoveTags("[" + t + u) == "[" + u && IsTagAt("[" + u, 0, |u| + 1)
  {
    ExampleNestedTags(t, u);
    SinglePass(t, u);
  }

  /** A second pass can remove more: when a tag hides behind an opening
      bracket, the first pass leaves the outer tag and the second removes it. */
  lemma NestedTagTwoPasses(t: string, u: string)
    requires IsTagAt(t, 0, |t|) && '[' !in u && NoSpace(u) && IsTagAt("[" + u, 0, |u| + 1)
    ensures StripTimerTags("[" + t + u) == "[" + u
    ensures StripTimerTags("[" + u) == ""
  {
    SinglePass(t, u);
    assert NoSpace("[" + u) by {
      forall k | 0 < k < |u| + 1
        ensures ("[" + u)[k] == u[k - 1]
      {
      }
    }
    StripOfSpaceless("[" + t + u, "[" + u);
    StripWholeTag("[" + u);
  }

  /** When removing the tags leaves text free of white space, that text is the result. */
  lemma StripOfSpaceless(raw: string, shown: string)
    requires RemoveTags(raw) == shown && NoSpace(shown)
    ensures StripTimerTags(raw) == shown
  {
    CollapseClean(shown);
    TrimNoop(shown);
  }

  /** A text that is one whole tag strips to nothing. */
  lemma StripWholeTag(t: string)
    requires IsTagAt(t, 0, |t|)
    ensures StripTimerTags(t) == ""
  {
    RemoveInside("", t, "");
    assert "" + t + "" == t;
    CollapseClean("");
  }

  /** `[[TIMER:1:a]TIMER:2:b]` strips to `[TIMER:2:b]`, which strips to nothing. */
  lemma ExampleDoubleStrip(t: string, u: string)
    requires t == "[TIMER:1:a]" && u == "TIMER:2:b]"
    ensures StripTimerTags("[" + t + u) == "[" + u
    ensures StripTimerTags("[" + u) == ""
  {
    ExampleNestedTags(t, u);
    NestedTagTwoPasses(t, u);
  }

  lemma ExampleNestedTags(t: string, u: string)
    requires t == "[TIMER:1:a]" && u == "TIMER:2:b]"
    ensures IsTagAt(t, 0, |t|) && '[' !in u && NoSpace(u) && IsTagAt("[" + u, 0, |u| + 1)
  {
    var r := "[" + u;
    assert t[1..6] == "TIMER";
    assert TagAt(t, 0, 11, 0, false, 1);
    TagAtIsTag(t, 0, 11, 0, false, 1);
    assert r[1..6] == "TIMER";
    assert TagAt(r, 0, 11, 0, false, 1);
    TagAtIsTag(r, 0, 11, 0, false, 1);
  }

  /** A tag between two words, with a space on each side, leaves the two
      words separated by one space: the removal leaves two spaces and the
      collapse merges them. */
  lemma TagBetweenWords(u: string, t: string, v: string)
    requires |u| > 0 && |v| > 0 && NoSpace(u) && NoSpace(v)
    requires '[' !in u && '[' !in v
    requires IsTagAt(t, 0, |t|)
    ensures RemoveTags(u + " " + t + " " + v) == u + "  " + v
    ensures StripTimerTags(u + " " + t + " " + v) == u + " " + v
  {
    assert u + " " + t + " " + v == (u + " ") + t + (" " + v);
    RemoveInside(u + " ", t, " " + v);
    assert (u + " ") + (" " + v) == u + "  " + v;
    CollapseTwoSpaces(u, v);
    var r := u + " " + v;
    assert r[0] == u[0] && r[|r| - 1] == v[|v| - 1];
    TrimNoop(r);
  }

  lemma CollapseTwoSpaces(u: string, v: string)
    requires |v| > 0 && NoSpace(u) && NoSpace(v)
    ensures Collapse(u + "  " + v) == u + " " + v
  {
    var x := "  " + v;
    assert u + "  " + v == u + x;
    CollapseWordPrefix(u, x);
    assert x[1..][1..] == v && x[2] == v[0];
    assert LeadingSpaces(x) == 2;
    CollapseWordPrefix(v, []);
    assert v + [] == v;
  }

  /** `Boil [TIMER:300:pasta] now` is read aloud as `Boil now`. */
  lemma ExampleStrip(t: string)
    requires t == "[TIMER:300:pasta]"
    ensures StripTimerTags("Boil " + t + " now") == "Boil now"
  {
    ExampleTag(t);
    TagBetweenWords("Boil", t, "now");
    assert "Boil" + " " + t + " " + "now" == "Boil " + t + " now";
  }

  lemma ExampleTag(t: string)
    requires t == "[TIMER:300:pasta]"
    ensures IsTagAt(t, 0, |t|)
  {
    assert t[1..6] == "TIMER";
    assert TagAt(t, 0, 17, 0, false, 3);
    TagAtIsTag(t, 0, 17, 0, false, 3);
  }
}
