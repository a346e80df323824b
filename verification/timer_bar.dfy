/** The countdown bar (`TimerBar.tsx`): clock formatting, the remaining-time
    computation from wall-clock milliseconds, and the one-shot completion
    notification driven by the one-second interval. */
module TimerBar {
  import opened Wrappers
  import opened Numbers

  /* ---------------- clock formatting ---------------- */

  /** The hour, minute and second fields shown for a positive duration. */
  function ClockFields(totalSecs: int): (f: (nat, nat, nat))
    requires totalSecs > 0
    ensures 3600 * f.0 + 60 * f.1 + f.2 == totalSecs
    ensures f.1 < 60 && f.2 < 60
  {
    var h, rem := totalSecs / 3600, totalSecs % 3600;
    DivMod60(totalSecs, 60 * h + rem / 60, rem % 60);
    (h, rem / 60, totalSecs % 60)
  }

  /** `formatTime`: "DONE" once the time is up, `h:mm:ss` from one hour up, else `m:ss`. */
  function FormatClock(totalSecs: int): (r: string)
    ensures totalSecs <= 0 ==> r == "DONE"
    ensures totalSecs > 0 ==> |r| > 0 && IsDigit(r[0])
  {
    if totalSecs <= 0 then "DONE"
    else
      var (h, m, s) := ClockFields(totalSecs);
      if h > 0 then NatStr(h) + ":" + Pad2(m) + ":" + Pad2(s)
      else NatStr(m) + ":" + Pad2(s)
  }

  /** The display of a positive duration has two fields below one hour and three
      from one hour up; every field after the first is exactly two digits. */
  lemma FormatClockFields(totalSecs: int)
    requires totalSecs > 0
    ensures ClockFields(totalSecs).0 > 0 ==>
      Split(FormatClock(totalSecs), ':') == [NatStr(ClockFields(totalSecs).0), Pad2(ClockFields(totalSecs).1), Pad2(ClockFields(totalSecs).2)]
    ensures ClockFields(totalSecs).0 == 0 ==>
      Split(FormatClock(totalSecs), ':') == [NatStr(ClockFields(totalSecs).1), Pad2(ClockFields(totalSecs).2)]
  {
    var f := ClockFields(totalSecs);
    var hs, ms, mm, ss := NatStr(f.0), NatStr(f.1), Pad2(f.1), Pad2(f.2);
    NoSepInDigits(hs, ':');
    NoSepInDigits(ms, ':');
    NoSepInDigits(mm, ':');
    NoSepInDigits(ss, ':');
    if f.0 > 0 {
      Split3(hs, mm, ss, ':');
    } else {
      Split2(ms, ss, ':');
    }
  }

  /** Reads a clock display back: `m:ss` or `h:mm:ss` with two-digit padded fields. */
  function ParseClock(r: string): Option<int> {
    var f := Split(r, ':');
    if ClockShaped(f) then
      if |f| == 2 then Some(60 * ParseNat(f[0]) + ParseNat(f[1]))
      else if |f| == 3 then Some(3600 * ParseNat(f[0]) + 60 * ParseNat(f[1]) + ParseNat(f[2]))
      else None
    else None
  }

  /** Non-empty digit fields, all but the first exactly two digits wide. */
  predicate ClockShaped(f: seq<string>) {
    && (forall k | 0 <= k < |f| :: |f[k]| > 0 && AllDigits(f[k]))
    && (forall k | 1 <= k < |f| :: |f[k]| == 2)
  }

  /** Every positive duration is displayed so that it can be read back exactly;
      "DONE" reads back as nothing. */
  lemma FormatClockRoundTrip(totalSecs: int)
    ensures totalSecs > 0 ==> ParseClock(FormatClock(totalSecs)) == Some(totalSecs)
    ensures totalSecs <= 0 ==> ParseClock(FormatClock(totalSecs)).None?
  {
    if totalSecs > 0 {
      if ClockFields(totalSecs).0 > 0 {
        RoundTripWithHours(totalSecs);
      } else {
        RoundTripMinutes(totalSecs);
      }
    } else {
      SplitSingle("DONE", ':');
    }
  }

  lemma RoundTripWithHours(totalSecs: int)
    requires totalSecs > 0 && ClockFields(totalSecs).0 > 0
    ensures ParseClock(FormatClock(totalSecs)) == Some(totalSecs)
  {
    var f := ClockFields(totalSecs);
    ParseNatStr(f.0);
    FormatClockFields(totalSecs);
    var parts := Split(FormatClock(totalSecs), ':');
    assert parts == [NatStr(f.0), Pad2(f.1), Pad2(f.2)];
    assert ClockShaped(parts);
  }

  lemma RoundTripMinutes(totalSecs: int)
    requires totalSecs > 0 && ClockFields(totalSecs).0 == 0
    ensures ParseClock(FormatClock(totalSecs)) == Some(totalSecs)
  {
    var f := ClockFields(totalSecs);
    ParseNatStr(f.1);
    FormatClockFields(totalSecs);
    var parts := Split(FormatClock(totalSecs), ':');
    assert parts == [NatStr(f.1), Pad2(f.2)];
    assert ClockShaped(parts);
  }

  /* ---------------- remaining time ---------------- */

  /** Whole seconds since `startedAt`, `Math.floor((now - startedAt) / 1000)`;
      negative when the clock reads earlier than the start. */
  function ElapsedSecs(startedAt: int, now: int): (e: int)
    ensures 1000 * e <= now - startedAt < 1000 * e + 1000
  {
    (now - startedAt) / 1000
  }

  /** `Math.max(0, durationSeconds - elapsed)`. */
  function Remaining(durationSeconds: int, startedAt: int, now: int): (r: int)
    ensures r >= 0
    ensures r == 0 <==> ElapsedSecs(startedAt, now) >= durationSeconds
    ensures r > 0 ==> r + ElapsedSecs(startedAt, now) == durationSeconds
    ensures now >= startedAt && durationSeconds >= 0 ==> r <= durationSeconds
  {
    var e := ElapsedSecs(startedAt, now);
    if durationSeconds - e > 0 then durationSeconds - e else 0
  }

  /** As time passes the remaining time never grows. */
  lemma RemainingMonotone(durationSeconds: int, startedAt: int, now: int, later: int)
    requires now <= later
    ensures Remaining(durationSeconds, startedAt, later) <= Remaining(durationSeconds, startedAt, now)
  {
    var e1 := ElapsedSecs(startedAt, now);
    var e2 := ElapsedSecs(startedAt, later);
    assert 1000 * e1 < 1000 * (e2 + 1);
    assert e1 <= e2;
  }

  /* ---------------- completion notification ---------------- */

  datatype BarTimer = BarTimer(id: string, name: string, durationSeconds: int, startedAt: int, recipe: string, notified: bool)

  /** Whether one interval tick at `now` fires the completion callback for `t`. */
  predicate Fires(t: BarTimer, now: int, hasCallback: bool) {
    Remaining(t.durationSeconds, t.startedAt, now) == 0 && !t.notified && hasCallback
  }

  /** Indices `>= k` of the timers that fire at `now`, in list order. */
  function FiredFrom(timers: seq<BarTimer>, now: int, hasCallback: bool, k: nat): (r: seq<nat>)
    requires k <= |timers|
    ensures forall j | 0 <= j < |r| :: k <= r[j] < |timers| && Fires(timers[r[j]], now, hasCallback)
    ensures forall i | k <= i < |timers| :: Fires(timers[i], now, hasCallback) ==> i in r
    ensures forall a, b | 0 <= a < b < |r| :: r[a] < r[b]
    decreases |timers| - k
  {
    if k == |timers| then []
    else if Fires(timers[k], now, hasCallback) then [k] + FiredFrom(timers, now, hasCallback, k + 1)
    else FiredFrom(timers, now, hasCallback, k + 1)
  }

  /** One tick of the interval: every timer that reached zero and was not yet
      notified is marked notified and reported, in list order. */
  function Tick(timers: seq<BarTimer>, now: int, hasCallback: bool): (r: (seq<BarTimer>, seq<nat>))
    ensures |r.0| == |timers|
    ensures forall i | 0 <= i < |timers| ::
      r.0[i] == (if Fires(timers[i], now, hasCallback) then timers[i].(notified := true) else timers[i])
    ensures forall i | 0 <= i < |timers| :: i in r.1 <==> Fires(timers[i], now, hasCallback)
    ensures forall a, b | 0 <= a < b < |r.1| :: r.1[a] < r.1[b]
  {
    var next := seq(|timers|, i requires 0 <= i < |timers| =>
      if Fires(timers[i], now, hasCallback) then timers[i].(notified := true) else timers[i]);
    (next, FiredFrom(timers, now, hasCallback, 0))
  }

  /** A run of ticks at the clock readings `nows`; the fired indices of all ticks in order. */
  function Run(timers: seq<BarTimer>, nows: seq<int>, hasCallback: bool): (r: (seq<BarTimer>, seq<nat>))
    ensures |r.0| == |timers|
    decreases |nows|
  {
    if |nows| == 0 then (timers, [])
    else
      var (t1, f1) := Tick(timers, nows[0], hasCallback);
      var (t2, f2) := Run(t1, nows[1..], hasCallback);
      (t2, f1 + f2)
  }

  predicate Distinct(xs: seq<nat>) {
    forall a, b | 0 <= a < b < |xs| :: xs[a] != xs[b]
  }

  /** The completion callback fires at most once per timer over any run of ticks,
      and only for timers not already notified when the run began. */
  lemma {:induction false} NotifiesAtMostOnce(timers: seq<BarTimer>, nows: seq<int>, hasCallback: bool)
    decreases |nows|
    ensures Distinct(Run(timers, nows, hasCallback).1)
    ensures forall j | 0 <= j < |Run(timers, nows, hasCallback).1| ::
      var i := Run(timers, nows, hasCallback).1[j]; i < |timers| && !timers[i].notified
  {
    if |nows| > 0 {
      var (t1, f1) := Tick(timers, nows[0], hasCallback);
      NotifiesAtMostOnce(t1, nows[1..], hasCallback);
      var f2 := Run(t1, nows[1..], hasCallback).1;
      var f := f1 + f2;
      assert f == Run(timers, nows, hasCallback).1;
      forall j | 0 <= j < |f|
        ensures f[j] < |timers| && !timers[f[j]].notified
      {
        if j >= |f1| {
          assert f[j] == f2[j - |f1|];
        }
      }
      forall a, b | 0 <= a < b < |f|
        ensures f[a] != f[b]
      {
        if b >= |f1| && a < |f1| {
          assert f[b] == f2[b - |f1|];
          assert t1[f[a]].notified;
        } else if a >= |f1| {
          assert f[a] == f2[a - |f1|] && f[b] == f2[b - |f1|];
        }
      }
    }
  }

  /** Without a completion callback nothing is ever marked notified. */
  lemma NoCallbackNoNotify(timers: seq<BarTimer>, now: int)
    ensures Tick(timers, now, false).0 == timers
    ensures Tick(timers, now, false).1 == []
  {
    NothingFiresWithoutCallback(timers, now, 0);
  }

  lemma NothingFiresWithoutCallback(timers: seq<BarTimer>, now: int, k: nat)
    requires k <= |timers|
    ensures FiredFrom(timers, now, false, k) == []
    decreases |timers| - k
  {
    if k < |timers| {
      NothingFiresWithoutCallback(timers, now, k + 1);
    }
  }
}
