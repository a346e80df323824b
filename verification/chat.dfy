/** Response handling of the chat panel (`ChatInterface.tsx`): the spoken and
    clock renderings of durations, the classification of the backend's JSON
    reply into one of seven shapes, and what each shape appends to the
    conversation, says aloud, starts and reports. Callbacks to the page
    (`onTimerStarted`, `onAssistantMessage`, `onSessionsChanged`) and the
    timer persistence request are explicit `Output`s, in the order issued. */
module Chat {
  import opened Wrappers
  import opened Text
  import opened Numbers
  import opened Lists
  import opened TimerTags
  import Voice

  /* ---------------- spoken durations ---------------- */

  /** `Math.round(x / 60)` for `x >= 0`: the nearest whole minute, halves rounding up. */
  function RoundMinutes(x: nat): (m: nat)
    ensures 60 * m <= x + 30 < 60 * m + 60
  {
    (x + 30) / 60
  }

  /** A unit word, with an "s" only for counts above one. */
  function UnitWord(n: nat, word: string): string {
    if n > 1 then word + "s" else word
  }

  /** How `h` hours and `m` minutes are said: hours 0 is the minutes-only form,
      and no minutes are said after the hours when there are none. */
  function DurationText(h: nat, m: nat): string {
    Join(DurationWords(h, m), " ")
  }

  function DurationWords(h: nat, m: nat): seq<string> {
    if h == 0 then [NatStr(m), UnitWord(m, "minute")]
    else if m > 0 then [NatStr(h), UnitWord(h, "hour"), "and", NatStr(m), UnitWord(m, "minute")]
    else [NatStr(h), UnitWord(h, "hour")]
  }

  /** The hours and minutes `spokenDuration` says for `secs`, as written: below an
      hour the rounded minutes; from an hour up the whole hours and the rounded
      remainder, which can reach 60. */
  function SpokenCountsAsWritten(secs: nat): (c: (nat, nat))
    ensures secs < 3600 ==> c.0 == 0 && 60 * c.1 <= secs + 30 < 60 * c.1 + 60
    ensures secs >= 3600 ==> c.0 >= 1 && 3600 * c.0 <= secs < 3600 * c.0 + 3600
    ensures secs >= 3600 ==> 60 * c.1 <= secs - 3600 * c.0 + 30 < 60 * c.1 + 60
    ensures c.1 <= 60
  {
    if secs >= 3600 then (secs / 3600, RoundMinutes(secs % 3600)) else (0, RoundMinutes(secs))
  }

  /** `spokenDuration` as written. */
  function SpokenDurationAsWritten(secs: nat): string {
    DurationText(SpokenCountsAsWritten(secs).0, SpokenCountsAsWritten(secs).1)
  }

  /** The hours and minutes an announcement evidently means: from an hour up the
      duration is rounded to the minute first, so a full sixty minutes is carried
      into the hours. */
  function SpokenCounts(secs: nat): (c: (nat, nat))
    ensures secs < 3600 ==> c == SpokenCountsAsWritten(secs)
    ensures secs >= 3600 ==> c.0 >= 1 && c.1 < 60
    ensures secs >= 3600 ==> 3600 * c.0 + 60 * c.1 <= secs + 30 < 3600 * c.0 + 60 * c.1 + 60
  {
    if secs >= 3600 then
      var t := RoundMinutes(secs);
      DivMod60(t, t / 60, t % 60);
      (t / 60, t % 60)
    else (0, RoundMinutes(secs))
  }

  /** The corrected `spokenDuration`. The announcements keep the written one;
      this is the reference it is compared with. */
  function SpokenDuration(secs: nat): string {
    DurationText(SpokenCounts(secs).0, SpokenCounts(secs).1)
  }

  /** Wherever the written rounding stays below sixty minutes the correction
      changes nothing. */
  lemma SpokenCountsAgree(secs: nat)
    requires SpokenCountsAsWritten(secs).1 < 60
    ensures SpokenCounts(secs) == SpokenCountsAsWritten(secs)
  {
    if secs >= 3600 {
      var (h, m) := SpokenCountsAsWritten(secs);
      var r := secs - 3600 * h;
      var t := RoundMinutes(secs);
      DivMod60(secs + 30, 60 * h + m, r + 30 - 60 * m);
      DivMod60(t, h, m);
    }
  }

  /** A count: a non-empty run of decimal digits. */
  predicate IsCount(w: string) {
    |w| > 0 && AllDigits(w)
  }

  /** Reads a spoken duration back as (hours, minutes): "m minute[s]",
      "h hour[s]" or "h hour[s] and m minute[s]", each unit word agreeing in
      number with its count. */
  function ParseDuration(t: string): Option<(nat, nat)> {
    var w := Split(t, ' ');
    if |w| == 2 && IsCount(w[0]) then
      var n := ParseNat(w[0]);
      if w[1] == UnitWord(n, "minute") then Some((0, n))
      else if w[1] == UnitWord(n, "hour") && n > 0 then Some((n, 0))
      else None
    else if |w| == 5 && IsCount(w[0]) && IsCount(w[3]) && w[2] == "and" then
      var h, m := ParseNat(w[0]), ParseNat(w[3]);
      if h > 0 && m > 0 && w[1] == UnitWord(h, "hour") && w[4] == UnitWord(m, "minute") then Some((h, m))
      else None
    else None
  }

  lemma UnitWordNoSpace(n: nat, word: string)
    requires ' ' !in word
    ensures ' ' !in UnitWord(n, word)
  {
  }

  /** Every phrase reads back as the counts it was built from. */
  lemma DurationTextRoundTrip(h: nat, m: nat)
    ensures ParseDuration(DurationText(h, m)) == Some((h, m))
  {
    var ws := DurationWords(h, m);
    NoSepInDigits(NatStr(h), ' ');
    NoSepInDigits(NatStr(m), ' ');
    UnitWordNoSpace(h, "hour");
    UnitWordNoSpace(m, "minute");
    SplitJoined(ws, ' ');
    if h == 0 {
      ParseMinutes(DurationText(h, m), m);
    } else if m > 0 {
      ParseBoth(DurationText(h, m), h, m);
    } else {
      ParseHours(DurationText(h, m), h);
    }
  }

  lemma ParseMinutes(t: string, n: nat)
    requires Split(t, ' ') == [NatStr(n), UnitWord(n, "minute")]
    ensures ParseDuration(t) == Some((0, n))
  {
    ParseNatStr(n);
  }

  lemma ParseHours(t: string, n: nat)
    requires n > 0 && Split(t, ' ') == [NatStr(n), UnitWord(n, "hour")]
    ensures ParseDuration(t) == Some((n, 0))
  {
    ParseNatStr(n);
    assert UnitWord(n, "hour")[0] != UnitWord(n, "minute")[0];
  }

  lemma ParseBoth(t: string, h: nat, m: nat)
    requires h > 0 && m > 0
    requires Split(t, ' ') == [NatStr(h), UnitWord(h, "hour"), "and", NatStr(m), UnitWord(m, "minute")]
    ensures ParseDuration(t) == Some((h, m))
  {
    ParseNatStr(h);
    ParseNatStr(m);
  }

  /** The corrected announcement reads back as hours and minutes that are within
      half a minute of the duration, with the minutes below sixty. */
  lemma SpokenDurationMeaning(secs: nat)
    requires secs >= 3600
    ensures ParseDuration(SpokenDuration(secs)).Some?
    ensures var (h, m) := ParseDuration(SpokenDuration(secs)).value;
      m < 60 && 3600 * h + 60 * m <= secs + 30 < 3600 * h + 60 * m + 60
  {
    DurationTextRoundTrip(SpokenCounts(secs).0, SpokenCounts(secs).1);
  }

  /** As written, every duration whose remainder past the hour is within half a
      minute of the next hour is announced with sixty minutes. */
  lemma SixtyMinutesAsWritten(secs: nat)
    requires secs >= 3600 && secs % 3600 >= 3570
    ensures ParseDuration(SpokenDurationAsWritten(secs)) == Some((secs / 3600, 60))
  {
    var r := secs % 3600;
    DivMod60(r + 30, 60, r + 30 - 3600);
    assert SpokenCountsAsWritten(secs) == (secs / 3600, 60);
    DurationTextRoundTrip(secs / 3600, 60);
  }

  /** One hour, 59 minutes and 50 seconds is announced as "1 hour and 60 minutes";
      the correction says "2 hours". */
  lemma SixtyMinutesExample()
    ensures SpokenDurationAsWritten(7190) == "1 hour and 60 minutes"
    ensures SpokenDuration(7190) == "2 hours"
  {
    SixtyMinutesWords();
    TwoHoursWords();
  }

  lemma SixtyMinutesWords()
    ensures DurationWords(SpokenCountsAsWritten(7190).0, SpokenCountsAsWritten(7190).1) == ["1", "hour", "and", "60", "minutes"]
  {
    DivMod60(3620, 60, 20);
    assert SpokenCountsAsWritten(7190) == (1, 60);
    assert NatStr(1) == "1";
    assert NatStr(60) == NatStr(6) + [DigitChar(0)] == "60";
    assert UnitWord(1, "hour") == "hour";
    assert UnitWord(60, "minute") == "minutes";
  }

  lemma TwoHoursWords()
    ensures DurationWords(SpokenCounts(7190).0, SpokenCounts(7190).1) == ["2", "hours"]
  {
    DivMod60(7220, 120, 20);
    DivMod60(120, 2, 0);
    assert SpokenCounts(7190) == (2, 0);
    assert NatStr(2) == "2";
    assert UnitWord(2, "hour") == "hours";
  }

  /* ---------------- clock rendering in chat messages ---------------- */

  /** `formatTime` of the chat panel: "DONE" once the time is up, `m:ss` from a
      minute up (the minutes are not split into hours), and seconds with an "s"
      below a minute. */
  function FormatTime(totalSecs: int): (r: string)
    ensures totalSecs <= 0 ==> r == "DONE"
    ensures totalSecs > 0 ==> |r| > 0 && IsDigit(r[0])
  {
    if totalSecs <= 0 then "DONE"
    else if totalSecs / 60 > 0 then NatStr(totalSecs / 60) + ":" + Pad2(totalSecs % 60)
    else NatStr(totalSecs % 60) + "s"
  }

  /** Reads a chat clock back: digits followed by "s", or `m:ss`. */
  function ParseTime(r: string): Option<nat> {
    if |r| >= 2 && r[|r| - 1] == 's' && AllDigits(r[..|r| - 1]) then Some(ParseNat(r[..|r| - 1]))
    else
      var f := Split(r, ':');
      if |f| == 2 && IsCount(f[0]) && |f[1]| == 2 && AllDigits(f[1]) then Some(60 * ParseNat(f[0]) + ParseNat(f[1]))
      else None
  }

  /** Every positive duration reads back exactly; "DONE" reads back as nothing. */
  lemma FormatTimeRoundTrip(totalSecs: int)
    ensures totalSecs > 0 ==> ParseTime(FormatTime(totalSecs)) == Some(totalSecs)
    ensures totalSecs <= 0 ==> ParseTime(FormatTime(totalSecs)).None?
  {
    if totalSecs <= 0 {
      SplitSingle("DONE", ':');
    } else if totalSecs / 60 > 0 {
      MinutesRoundTrip(totalSecs, NatStr(totalSecs / 60), Pad2(totalSecs % 60));
    } else {
      SecondsRoundTrip(totalSecs, NatStr(totalSecs % 60));
    }
  }

  lemma MinutesRoundTrip(totalSecs: int, ms: string, ss: string)
    requires totalSecs / 60 > 0 && ms == NatStr(totalSecs / 60) && ss == Pad2(totalSecs % 60)
    ensures ParseTime(ms + ":" + ss) == Some(totalSecs)
  {
    var r := ms + ":" + ss;
    assert r[|r| - 1] == ss[1];
    NoSepInDigits(ms, ':');
    NoSepInDigits(ss, ':');
    Split2(ms, ss, ':');
    ParseNatStr(totalSecs / 60);
  }

  lemma SecondsRoundTrip(totalSecs: int, ss: string)
    requires 0 < totalSecs < 60 && ss == NatStr(totalSecs % 60)
    ensures ParseTime(ss + "s") == Some(totalSecs)
  {
    var r := ss + "s";
    assert r[..|r| - 1] == ss;
    ParseNatStr(totalSecs % 60);
  }

  /* ---------------- the response JSON ---------------- */

  /** A timer as the backend names it, before the recipe is attached. */
  datatype TimerSpec = TimerSpec(name: string, durationSeconds: nat)

  /** A timer as handed to `onTimerStarted`. */
  datatype Timer = Timer(name: string, durationSeconds: nat, recipe: string)

  datatype SessionOption = SessionOption(sessionId: nat, recipe: string)

  datatype RecipeOption = RecipeOption(recipeId: nat, title: string)

  /** The reply of the conversation endpoint. An absent string is "", an absent
      list is [], an absent flag is false and an absent id is 0, which is how
      JavaScript's truthiness tests treat them. */
  datatype Payload = Payload(
    error: string,
    expired: bool,
    disambiguation: bool,
    sessions: seq<SessionOption>,
    recipeDisambiguation: bool,
    pendingText: string,
    recipes: seq<RecipeOption>,
    sessionStarted: bool,
    firstStep: string,
    awaitingEndConfirmation: bool,
    sessionCompleted: bool,
    message: string,
    recipe: string,
    kitchenQA: bool,
    startedTimers: seq<TimerSpec>,
    suggestedTimers: seq<TimerSpec>,
    awaitingCompletion: bool,
    sessionId: nat)

  /** The seven shapes `handleResponse` tells apart. */
  datatype Branch =
    | ErrorReply
    | Disambiguation
    | RecipeDisambiguation
    | SessionStarted
    | AwaitingEndConfirmation
    | SessionCompleted
    | Normal

  /** The position of a branch's test in `handleResponse`. */
  function Rank(b: Branch): nat {
    match b
    case ErrorReply => 0
    case Disambiguation => 1
    case RecipeDisambiguation => 2
    case SessionStarted => 3
    case AwaitingEndConfirmation => 4
    case SessionCompleted => 5
    case Normal => 6
  }

  /** Whether the reply carries the marker of a branch (the last branch has none). */
  predicate Marked(d: Payload, b: Branch) {
    match b
    case ErrorReply => d.error != ""
    case Disambiguation => d.disambiguation
    case RecipeDisambiguation => d.recipeDisambiguation
    case SessionStarted => d.sessionStarted
    case AwaitingEndConfirmation => d.awaitingEndConfirmation
    case SessionCompleted => d.sessionCompleted
    case Normal => true
  }

  /** The branch `handleResponse` takes. */
  function Classify(d: Payload): Branch {
    if d.error != "" then ErrorReply
    else if d.disambiguation then Disambiguation
    else if d.recipeDisambiguation then RecipeDisambiguation
    else if d.sessionStarted then SessionStarted
    else if d.awaitingEndConfirmation then AwaitingEndConfirmation
    else if d.sessionCompleted then SessionCompleted
    else Normal
  }

  /** Exactly one branch is taken, and it is the first, in test order, whose
      marker the reply carries. */
  lemma ClassifyFirstMatch(d: Payload, b: Branch)
    ensures Classify(d) == b <==> Marked(d, b) && forall e: Branch | Rank(e) < Rank(b) :: !Marked(d, e)
  {
    if Marked(d, b) && forall e: Branch | Rank(e) < Rank(b) :: !Marked(d, e) {
      assert Rank(ErrorReply) == 0 && Rank(Disambiguation) == 1 && Rank(RecipeDisambiguation) == 2;
      assert Rank(SessionStarted) == 3 && Rank(AwaitingEndConfirmation) == 4 && Rank(SessionCompleted) == 5;
    }
    if Classify(d) == b {
      forall e: Branch | Rank(e) < Rank(b)
        ensures !Marked(d, e)
      {
      }
    }
  }

  /* ---------------- what a reply does ---------------- */

  datatype Role = User | Assistant | System

  /** A conversation entry. The empty string stands for an absent `recipeName`,
      an empty list for absent chips or suggestions, 0 for an absent session. */
  datatype ChatMessage = ChatMessage(
    id: string,
    text: string,
    role: Role,
    recipeName: string,
    sessionChoices: seq<SessionOption>,
    replayText: string,
    recipeChoices: seq<RecipeOption>,
    timerSuggestions: seq<Timer>,
    awaitingCompletion: bool,
    awaitingEndConfirmation: bool,
    sessionId: nat)

  function Plain(id: string, text: string, role: Role): ChatMessage {
    ChatMessage(id, text, role, "", [], "", [], [], false, false, 0)
  }

  /** The panel's calls out, in order: `onTimerStarted`, the timer persistence
      request, `voiceOut(text)` with a non-empty `text` (the page is handed
      `Spoken(text)`), and `onSessionsChanged`. */
  datatype Output =
    | TimerStarted(timer: Timer)
    | PersistTimer(sessionId: nat, timer: Timer)
    | Say(text: string)
    | SessionsChanged

  /** Free of white space at both ends and of doubled white space. */
  predicate Tidy(s: string) {
    (s == [] || (!IsSpace(s[0]) && !IsSpace(s[|s| - 1]))) && NoDoubleSpace(s)
  }

  /** What `onAssistantMessage` receives for `voiceOut(text)`: the text with
      timer tags stripped, which is always tidy. */
  function Spoken(text: string): (r: string)
    ensures Tidy(r)
  {
    StripTimerTags(text)
  }

  /** The single pending recipe choice: the text to resend and the candidates. */
  datatype Pending = Pending(text: string, recipes: seq<RecipeOption>)

  /** The effect of one reply: the entry appended, the new pending choice when
      the reply replaces it (None leaves it as it was), and the outputs. */
  datatype Handled = Handled(message: ChatMessage, replacePending: Option<Pending>, outputs: seq<Output>)

  /** `isVoiceMode`: a microphone state is known and it is not `disabled`. */
  predicate VoiceMode(mic: Option<Voice.MicState>) {
    mic.Some? && mic.value != Voice.Disabled
  }

  /** `voiceOut`: empty text is not passed on. */
  function VoiceOut(text: string): (r: seq<Output>)
    ensures r == [] <==> text == []
  {
    if text == [] then [] else [Say(text)]
  }

  /** What starting a timer may emit: never a sessions refresh, and persistence
      only for the given, truthy session. */
  predicate TimerOutput(o: Output, sessionId: nat) {
    && !o.SessionsChanged?
    && (o.PersistTimer? ==> o.sessionId == sessionId && sessionId > 0)
  }

  /** Every output is one a timer start may emit. */
  predicate TimerOutputs(outs: seq<Output>, sessionId: nat) {
    forall k | 0 <= k < |outs| :: TimerOutput(outs[k], sessionId)
  }

  predicate NoSpeech(outs: seq<Output>) {
    forall k | 0 <= k < |outs| :: !outs[k].Say?
  }

  lemma OutputsAppend(a: seq<Output>, b: seq<Output>, sessionId: nat)
    ensures TimerOutputs(a, sessionId) && TimerOutputs(b, sessionId) ==> TimerOutputs(a + b, sessionId)
    ensures NoSpeech(a) && NoSpeech(b) ==> NoSpeech(a + b)
  {
    forall k | |a| <= k < |a + b|
      ensures (a + b)[k] == b[k - |a|]
    {
    }
  }

  /** The announcement of a timer the panel starts, with `spokenDuration` as written. */
  function StartingLine(t: Timer): string {
    "Starting " + t.name + " timer for " + SpokenDurationAsWritten(t.durationSeconds) + "."
  }

  /** The announcement of a timer the backend already started. */
  function StartedLine(t: Timer): string {
    "Timer started: " + t.name + " for " + SpokenDurationAsWritten(t.durationSeconds) + "."
  }

  /** An announcement is `intro`, then a duration phrase, then a full stop; the
      phrase reads back as the hours and minutes `spokenDuration` computes. */
  predicate AnnouncesAs(line: string, intro: string, secs: nat) {
    && |intro| < |line| && line[..|intro|] == intro && line[|line| - 1] == '.'
    && ParseDuration(line[|intro|..|line| - 1]) == Some(SpokenCountsAsWritten(secs))
  }

  lemma PhraseBetween(intro: string, phrase: string)
    ensures var line := intro + phrase + ".";
      line[..|intro|] == intro && line[|intro|..|line| - 1] == phrase && line[|line| - 1] == '.'
  {
  }

  /** The panel's announcement names the timer and says the duration as
      `spokenDuration` writes it: whole hours, then the rounded remaining minutes. */
  lemma StartingLineSays(t: Timer)
    ensures AnnouncesAs(StartingLine(t), "Starting " + t.name + " timer for ", t.durationSeconds)
  {
    var c := SpokenCountsAsWritten(t.durationSeconds);
    DurationTextRoundTrip(c.0, c.1);
    PhraseBetween("Starting " + t.name + " timer for ", SpokenDurationAsWritten(t.durationSeconds));
  }

  /** The same for a timer the backend started. */
  lemma StartedLineSays(t: Timer)
    ensures AnnouncesAs(StartedLine(t), "Timer started: " + t.name + " for ", t.durationSeconds)
  {
    var c := SpokenCountsAsWritten(t.durationSeconds);
    DurationTextRoundTrip(c.0, c.1);
    PhraseBetween("Timer started: " + t.name + " for ", SpokenDurationAsWritten(t.durationSeconds));
  }

  /** One panel announcement per timer, in order. */
  function StartingLines(ts: seq<Timer>): (r: seq<string>)
    ensures |r| == |ts|
    decreases |ts|
  {
    if ts == [] then [] else [StartingLine(ts[0])] + StartingLines(ts[1..])
  }

  /** One backend announcement per timer, in order. */
  function StartedLines(ts: seq<Timer>): (r: seq<string>)
    ensures |r| == |ts|
    decreases |ts|
  {
    if ts == [] then [] else [StartedLine(ts[0])] + StartedLines(ts[1..])
  }

  /** `startTimerWithAnnounce`: start the timer, announce it in voice mode and ask
      for it to be persisted when there is a session. */
  function StartWithAnnounce(t: Timer, sessionId: nat, voice: bool): (r: seq<Output>)
    ensures TimerOutputs(r, sessionId)
    ensures !voice ==> NoSpeech(r)
    ensures StartedTimers(r) == [t]
    ensures PersistedTimers(r) == if sessionId > 0 then [t] else []
    ensures Speech(r) == if voice then [StartingLine(t)] else []
  {
    var say := if voice then VoiceOut(StartingLine(t)) else [];
    var persist := if sessionId > 0 then [PersistTimer(sessionId, t)] else [];
    OutputsAppend([TimerStarted(t)], say, sessionId);
    OutputsAppend([TimerStarted(t)] + say, persist, sessionId);
    CollectAppend([TimerStarted(t)], say);
    CollectAppend([TimerStarted(t)] + say, persist);
    [TimerStarted(t)] + say + persist
  }

  /** `startTimerWithAnnounce` for each timer in turn. */
  function AutoStart(ts: seq<Timer>, sessionId: nat, voice: bool): (r: seq<Output>)
    ensures TimerOutputs(r, sessionId)
    ensures !voice ==> NoSpeech(r)
    ensures StartedTimers(r) == ts
    ensures PersistedTimers(r) == if sessionId > 0 then ts else []
    ensures Speech(r) == if voice then StartingLines(ts) else []
    decreases |ts|
  {
    if ts == [] then []
    else
      var first, rest := StartWithAnnounce(ts[0], sessionId, voice), AutoStart(ts[1..], sessionId, voice);
      AutoStartCons(first, rest, ts, sessionId, voice);
      first + rest
  }

  /** The outputs of starting the first timer followed by those of the rest. */
  lemma AutoStartCons(first: seq<Output>, rest: seq<Output>, ts: seq<Timer>, sessionId: nat, voice: bool)
    requires ts != []
    requires TimerOutputs(first, sessionId) && TimerOutputs(rest, sessionId)
    requires !voice ==> NoSpeech(first) && NoSpeech(rest)
    requires StartedTimers(first) == [ts[0]] && StartedTimers(rest) == ts[1..]
    requires PersistedTimers(first) == (if sessionId > 0 then [ts[0]] else [])
    requires PersistedTimers(rest) == (if sessionId > 0 then ts[1..] else [])
    requires Speech(first) == (if voice then [StartingLine(ts[0])] else [])
    requires Speech(rest) == (if voice then StartingLines(ts[1..]) else [])
    ensures TimerOutputs(first + rest, sessionId)
    ensures !voice ==> NoSpeech(first + rest)
    ensures StartedTimers(first + rest) == ts
    ensures PersistedTimers(first + rest) == if sessionId > 0 then ts else []
    ensures Speech(first + rest) == if voice then StartingLines(ts) else []
  {
    OutputsAppend(first, rest, sessionId);
    CollectAppend(first, rest);
    assert [ts[0]] + ts[1..] == ts;
  }

  /** One timer the backend already started: reported, and announced in voice mode. */
  function AnnounceOne(t: Timer, voice: bool): (r: seq<Output>)
    ensures TimerOutputs(r, 0)
    ensures !voice ==> NoSpeech(r)
    ensures StartedTimers(r) == [t] && PersistedTimers(r) == []
    ensures Speech(r) == if voice then [StartedLine(t)] else []
  {
    var say := if voice then VoiceOut(StartedLine(t)) else [];
    OutputsAppend([TimerStarted(t)], say, 0);
    CollectAppend([TimerStarted(t)], say);
    [TimerStarted(t)] + say
  }

  /** The backend's already-started timers, each in turn. */
  function Announce(ts: seq<Timer>, voice: bool): (r: seq<Output>)
    ensures TimerOutputs(r, 0)
    ensures !voice ==> NoSpeech(r)
    ensures StartedTimers(r) == ts && PersistedTimers(r) == []
    ensures Speech(r) == if voice then StartedLines(ts) else []
    decreases |ts|
  {
    if ts == [] then []
    else
      var first, rest := AnnounceOne(ts[0], voice), Announce(ts[1..], voice);
      OutputsAppend(first, rest, 0);
      CollectAppend(first, rest);
      assert ts == [ts[0]] + ts[1..];
      first + rest
  }

  /** Suggested timers are started automatically only in voice mode. */
  function AutoStartIn(voice: bool, ts: seq<Timer>, sessionId: nat): (r: seq<Output>)
    ensures TimerOutputs(r, sessionId)
    ensures !voice ==> r == []
  {
    if voice && |ts| > 0 then AutoStart(ts, sessionId, voice) else []
  }

  /** Attaches the recipe to each timer. */
  function WithRecipe(ts: seq<TimerSpec>, recipe: string): (r: seq<Timer>)
    ensures |r| == |ts|
    ensures forall k | 0 <= k < |ts| :: r[k] == Timer(ts[k].name, ts[k].durationSeconds, recipe)
  {
    seq(|ts|, k requires 0 <= k < |ts| => Timer(ts[k].name, ts[k].durationSeconds, recipe))
  }

  /** With a non-empty separator the joined names are empty exactly when there is
      at most one name and it is empty. */
  lemma {:induction false} JoinEmptyIff(xs: seq<string>, sep: string)
    requires sep != ""
    ensures Join(xs, sep) == "" <==> |xs| <= 1 && forall k | 0 <= k < |xs| :: xs[k] == ""
  {
    if |xs| >= 2 {
      assert |Join(xs, sep)| >= |sep|;
    }
  }

  /** The sentence listing the candidates after a disambiguation question;
      empty when the joined names are. */
  function Options(names: seq<string>): string {
    var joined := Join(names, ", or ");
    if joined != "" then " Your options are: " + joined + "." else ""
  }

  /** The options sentence is left out exactly when there is at most one
      candidate and its name is empty. */
  lemma OptionsIff(names: seq<string>)
    ensures Options(names) == "" <==> |names| <= 1 && forall k | 0 <= k < |names| :: names[k] == ""
    ensures Options(names) != "" ==> Options(names) == " Your options are: " + Join(names, ", or ") + "."
  {
    JoinEmptyIff(names, ", or ");
  }

  function SessionNames(s: seq<SessionOption>): (r: seq<string>)
    ensures |r| == |s| && forall k | 0 <= k < |s| :: r[k] == s[k].recipe
  {
    seq(|s|, k requires 0 <= k < |s| => s[k].recipe)
  }

  function RecipeTitles(s: seq<RecipeOption>): (r: seq<string>)
    ensures |r| == |s| && forall k | 0 <= k < |s| :: r[k] == s[k].title
  {
    seq(|s|, k requires 0 <= k < |s| => s[k].title)
  }

  /** `a || b || c` on strings. */
  function FirstNonEmpty(a: string, b: string, c: string): string {
    if a != "" then a else if b != "" then b else c
  }

  /** The recipe attached to the timers of a normal reply. */
  function TimerRecipe(d: Payload): string {
    if d.recipe != "" then d.recipe else "Timer"
  }

  /** The suggested timers of a reply that can carry them, with their recipe. */
  function Suggested(d: Payload): seq<Timer> {
    match Classify(d)
    case SessionStarted => WithRecipe(d.suggestedTimers, d.recipe)
    case Normal => WithRecipe(d.suggestedTimers, TimerRecipe(d))
    case _ => []
  }

  /** The timers a normal reply reports as already started by the backend. */
  function BackendStarted(d: Payload): seq<Timer> {
    if Classify(d) == Normal then WithRecipe(d.startedTimers, TimerRecipe(d)) else []
  }

  /** The recipe label shown on the entry of a normal reply. */
  function NormalRecipeName(d: Payload): string {
    if d.recipe != "" then d.recipe else if d.kitchenQA then "Kitchen Q&A" else ""
  }

  /** The text a started session or a normal reply shows once cleaned. */
  function RawText(d: Payload): string {
    if Classify(d) == SessionStarted then FirstNonEmpty(d.message, d.firstStep, "Starting your recipe.") else d.message
  }

  /** `onSessionsChanged` followed by `voiceOut(text)`. */
  function RefreshThenSay(text: string): seq<Output> {
    [SessionsChanged] + VoiceOut(text)
  }

  /** The text of the entry `handleResponse` appends for reply `d`, where
      `clean` is `RawText(d)` with the timer tags stripped. */
  function Shown(d: Payload, clean: string): string {
    match Classify(d)
    case ErrorReply => d.error
    case SessionStarted => clean
    case Normal => clean
    case _ => d.message
  }

  /** The entry `handleResponse` appends for reply `d` to `originalText`, where
      `id` is the entry's id. Suggested timers are offered on the entry only
      outside voice mode. */
  function Entry(d: Payload, originalText: string, voice: bool, id: string, clean: string): ChatMessage {
    var offered := if voice then [] else Suggested(d);
    var text := Shown(d, clean);
    match Classify(d)
    case ErrorReply => Plain(id, text, System)
    case Disambiguation => ChatMessage(id, text, Assistant, "", d.sessions, originalText, [], [], false, false, 0)
    case RecipeDisambiguation => ChatMessage(id, text, Assistant, "", [], "", d.recipes, [], false, false, 0)
    case SessionStarted => ChatMessage(id, text, Assistant, d.recipe, [], "", [], offered, false, false, d.sessionId)
    case AwaitingEndConfirmation => ChatMessage(id, text, Assistant, "", [], "", [], [], false, true, d.sessionId)
    case SessionCompleted => Plain(id, text, Assistant)
    case Normal =>
      ChatMessage(id, text, Assistant, NormalRecipeName(d), [], "", [], offered, d.awaitingCompletion, false, d.sessionId)
  }

  /** The calls out `handleResponse` makes for reply `d`, in order. */
  function Effects(d: Payload, voice: bool, clean: string): seq<Output> {
    match Classify(d)
    case ErrorReply => if d.expired then [SessionsChanged] else []
    case Disambiguation => VoiceOut(d.message + Options(SessionNames(d.sessions)))
    case RecipeDisambiguation => VoiceOut(d.message + Options(RecipeTitles(d.recipes)))
    case SessionStarted => AutoStartIn(voice, Suggested(d), d.sessionId) + RefreshThenSay(clean)
    case AwaitingEndConfirmation => VoiceOut(d.message)
    case SessionCompleted => RefreshThenSay(d.message)
    case Normal =>
      Announce(BackendStarted(d), voice) + AutoStartIn(voice, Suggested(d), d.sessionId) + RefreshThenSay(clean)
  }

  /** `handleResponse` with the cleaned text given: the entry, the pending recipe
      choice a recipe question records, and the calls out. */
  function HandleWith(d: Payload, originalText: string, voice: bool, id: string, clean: string): Handled {
    var pending := if Classify(d) == RecipeDisambiguation then Some(Pending(d.pendingText, d.recipes)) else None;
    Handled(Entry(d, originalText, voice, id, clean), pending, Effects(d, voice, clean))
  }

  /** `handleResponse`. */
  function HandleResponse(d: Payload, originalText: string, voice: bool, id: string): Handled {
    HandleWith(d, originalText, voice, id, StripTimerTags(RawText(d)))
  }

  /* ---------------- the send round trip ---------------- */

  /** What the conversation endpoint request came back with. */
  datatype Reply =
    | Ok(data: Payload)
    | NotOk(error: string)
    | ConnectionFailed

  /** `doSend` once the request was made: a failed reply becomes a system entry,
      a good one is handled. */
  function Receive(reply: Reply, originalText: string, voice: bool, id: string): Handled {
    match reply
    case Ok(d) => HandleResponse(d, originalText, voice, id)
    case NotOk(e) => Handled(Plain(id, if e != "" then e else "Something went wrong.", System), None, [])
    case ConnectionFailed => Handled(Plain(id, "Failed to connect to the server.", System), None, [])
  }

  /* ---------------- what a reply does, proved ---------------- */

  /** The timers reported through `onTimerStarted`, in order. */
  function StartedTimers(outs: seq<Output>): seq<Timer>
    decreases |outs|
  {
    if outs == [] then []
    else (if outs[0].TimerStarted? then [outs[0].timer] else []) + StartedTimers(outs[1..])
  }

  /** The timers whose persistence is requested, in order. */
  function PersistedTimers(outs: seq<Output>): seq<Timer>
    decreases |outs|
  {
    if outs == [] then []
    else (if outs[0].PersistTimer? then [outs[0].timer] else []) + PersistedTimers(outs[1..])
  }

  /** The texts passed to `voiceOut`, in order. */
  function Speech(outs: seq<Output>): seq<string>
    decreases |outs|
  {
    if outs == [] then []
    else (if outs[0].Say? then [outs[0].text] else []) + Speech(outs[1..])
  }

  /** How many times `onSessionsChanged` is called. */
  function Refreshes(outs: seq<Output>): nat
    decreases |outs|
  {
    if outs == [] then 0
    else (if outs[0].SessionsChanged? then 1 else 0) + Refreshes(outs[1..])
  }

  /** Each view of the outputs distributes over concatenation. */
  lemma CollectAppend(a: seq<Output>, b: seq<Output>)
    ensures StartedTimers(a + b) == StartedTimers(a) + StartedTimers(b)
    ensures PersistedTimers(a + b) == PersistedTimers(a) + PersistedTimers(b)
    ensures Speech(a + b) == Speech(a) + Speech(b)
    ensures Refreshes(a + b) == Refreshes(a) + Refreshes(b)
  {
    StartedAppend(a, b);
    PersistedAppend(a, b);
    SpeechAppend(a, b);
    RefreshesAppend(a, b);
  }

  lemma {:induction false} StartedAppend(a: seq<Output>, b: seq<Output>)
    ensures StartedTimers(a + b) == StartedTimers(a) + StartedTimers(b)
    decreases |a|
  {
    if a == [] {
      assert a + b == b;
    } else {
      StartedAppend(a[1..], b);
      assert (a + b)[0] == a[0] && (a + b)[1..] == a[1..] + b;
    }
  }

  lemma {:induction false} PersistedAppend(a: seq<Output>, b: seq<Output>)
    ensures PersistedTimers(a + b) == PersistedTimers(a) + PersistedTimers(b)
    decreases |a|
  {
    if a == [] {
      assert a + b == b;
    } else {
      PersistedAppend(a[1..], b);
      assert (a + b)[0] == a[0] && (a + b)[1..] == a[1..] + b;
    }
  }

  lemma {:induction false} SpeechAppend(a: seq<Output>, b: seq<Output>)
    ensures Speech(a + b) == Speech(a) + Speech(b)
    decreases |a|
  {
    if a == [] {
      assert a + b == b;
    } else {
      SpeechAppend(a[1..], b);
      assert (a + b)[0] == a[0] && (a + b)[1..] == a[1..] + b;
    }
  }

  lemma {:induction false} RefreshesAppend(a: seq<Output>, b: seq<Output>)
    ensures Refreshes(a + b) == Refreshes(a) + Refreshes(b)
    decreases |a|
  {
    if a == [] {
      assert a + b == b;
    } else {
      RefreshesAppend(a[1..], b);
      assert (a + b)[0] == a[0] && (a + b)[1..] == a[1..] + b;
    }
  }

  /** The speech a `voiceOut(text)` call contributes. */
  function Said(text: string): seq<string> {
    if text == [] then [] else [text]
  }

  lemma CollectVoiceOut(text: string)
    ensures StartedTimers(VoiceOut(text)) == [] && PersistedTimers(VoiceOut(text)) == []
    ensures Refreshes(VoiceOut(text)) == 0 && Speech(VoiceOut(text)) == Said(text)
  {
  }

  /** Timer outputs never refresh the sessions; without voice they say nothing. */
  lemma {:induction false} TimerOutputsQuiet(outs: seq<Output>, sessionId: nat)
    requires TimerOutputs(outs, sessionId)
    ensures Refreshes(outs) == 0
    ensures NoSpeech(outs) ==> Speech(outs) == []
    ensures sessionId == 0 ==> PersistedTimers(outs) == []
    decreases |outs|
  {
    if outs != [] {
      assert TimerOutput(outs[0], sessionId);
      TimerOutputsQuiet(outs[1..], sessionId);
    }
  }

  lemma CollectAutoStartIn(voice: bool, ts: seq<Timer>, sessionId: nat)
    ensures StartedTimers(AutoStartIn(voice, ts, sessionId)) == if voice then ts else []
    ensures PersistedTimers(AutoStartIn(voice, ts, sessionId)) == if voice && sessionId > 0 then ts else []
    ensures Refreshes(AutoStartIn(voice, ts, sessionId)) == 0
    ensures Speech(AutoStartIn(voice, ts, sessionId)) == if voice then StartingLines(ts) else []
  {
    TimerOutputsQuiet(AutoStartIn(voice, ts, sessionId), sessionId);
  }

  /** The closing outputs of a reply that changes the sessions: one refresh,
      then the text spoken when there is any. */
  lemma CollectRefreshThenSay(text: string)
    ensures StartedTimers(RefreshThenSay(text)) == []
    ensures PersistedTimers(RefreshThenSay(text)) == []
    ensures Refreshes(RefreshThenSay(text)) == 1
    ensures Speech(RefreshThenSay(text)) == Said(text)
  {
    CollectAppend([SessionsChanged], VoiceOut(text));
  }

  /** The outputs of a started session: the suggested timers auto-started in
      voice mode, one refresh, then the cleaned text. */
  lemma CollectSessionStarted(ts: seq<Timer>, sessionId: nat, voice: bool, clean: string)
    ensures var outs := AutoStartIn(voice, ts, sessionId) + RefreshThenSay(clean);
      && StartedTimers(outs) == (if voice then ts else [])
      && PersistedTimers(outs) == (if voice && sessionId > 0 then ts else [])
      && Refreshes(outs) == 1
      && Speech(outs) == (if voice then StartingLines(ts) else []) + Said(clean)
  {
    CollectAppend(AutoStartIn(voice, ts, sessionId), RefreshThenSay(clean));
    CollectAutoStartIn(voice, ts, sessionId);
    CollectRefreshThenSay(clean);
  }

  /** The views of three consecutive groups of outputs. */
  lemma CollectAppend3(a: seq<Output>, b: seq<Output>, c: seq<Output>)
    ensures StartedTimers(a + b + c) == StartedTimers(a) + StartedTimers(b) + StartedTimers(c)
    ensures PersistedTimers(a + b + c) == PersistedTimers(a) + PersistedTimers(b) + PersistedTimers(c)
    ensures Speech(a + b + c) == Speech(a) + Speech(b) + Speech(c)
    ensures Refreshes(a + b + c) == Refreshes(a) + Refreshes(b) + Refreshes(c)
  {
    CollectAppend(a, b);
    CollectAppend(a + b, c);
  }

  /** The outputs of a normal reply: the backend's timers reported, the
      suggested ones auto-started in voice mode, one refresh, then the text. */
  lemma CollectNormal(started: seq<Timer>, ts: seq<Timer>, sessionId: nat, voice: bool, clean: string)
    ensures var outs := Announce(started, voice) + AutoStartIn(voice, ts, sessionId) + RefreshThenSay(clean);
      && StartedTimers(outs) == started + (if voice then ts else [])
      && PersistedTimers(outs) == (if voice && sessionId > 0 then ts else [])
      && Refreshes(outs) == 1
  {
    var a, b, c := Announce(started, voice), AutoStartIn(voice, ts, sessionId), RefreshThenSay(clean);
    CollectAppend3(a, b, c);
    TimerOutputsQuiet(a, 0);
    CollectAutoStartIn(voice, ts, sessionId);
    CollectRefreshThenSay(clean);
  }

  lemma CollectNormalSpeech(started: seq<Timer>, ts: seq<Timer>, sessionId: nat, voice: bool, clean: string)
    ensures var outs := Announce(started, voice) + AutoStartIn(voice, ts, sessionId) + RefreshThenSay(clean);
      Speech(outs) == (if voice then StartedLines(started) + StartingLines(ts) else []) + Said(clean)
  {
    var a, b, c := Announce(started, voice), AutoStartIn(voice, ts, sessionId), RefreshThenSay(clean);
    CollectAppend3(a, b, c);
    CollectAutoStartIn(voice, ts, sessionId);
    CollectRefreshThenSay(clean);
  }

  /** The timers a reply reports through `onTimerStarted`: the backend's
      already-started ones, then, in voice mode only, the suggested ones. The
      suggestions are offered on the entry exactly when they are not started,
      and persistence is requested for the started suggestions exactly when the
      reply names a session. */
  lemma ReplyTimers(d: Payload, originalText: string, voice: bool, id: string, clean: string)
    ensures var r := HandleWith(d, originalText, voice, id, clean);
      && StartedTimers(r.outputs) == BackendStarted(d) + (if voice then Suggested(d) else [])
      && r.message.timerSuggestions == (if voice then [] else Suggested(d))
      && PersistedTimers(r.outputs) == (if voice && d.sessionId > 0 then Suggested(d) else [])
  {
    match Classify(d)
    case ErrorReply =>
    case Disambiguation =>
      CollectVoiceOut(d.message + Options(SessionNames(d.sessions)));
    case RecipeDisambiguation =>
      CollectVoiceOut(d.message + Options(RecipeTitles(d.recipes)));
    case SessionStarted =>
      CollectSessionStarted(Suggested(d), d.sessionId, voice, clean);
    case AwaitingEndConfirmation =>
      CollectVoiceOut(d.message);
    case SessionCompleted =>
      CollectRefreshThenSay(d.message);
    case Normal =>
      CollectNormal(BackendStarted(d), Suggested(d), d.sessionId, voice, clean);
  }

  /** A reply refreshes the session list once when it reports an expired
      session, or when it is neither an error, nor a disambiguation question,
      nor an end-of-session confirmation (a started session wins over the
      latter); otherwise it does not refresh it at all. */
  lemma SessionsChangedIff(d: Payload, originalText: string, voice: bool, id: string, clean: string)
    ensures var n := Refreshes(HandleWith(d, originalText, voice, id, clean).outputs);
      && n <= 1
      && (n == 1 <==>
            if d.error != "" then d.expired
            else !d.disambiguation && !d.recipeDisambiguation && (d.sessionStarted || !d.awaitingEndConfirmation))
  {
    match Classify(d)
    case ErrorReply =>
    case Disambiguation =>
      CollectVoiceOut(d.message + Options(SessionNames(d.sessions)));
    case RecipeDisambiguation =>
      CollectVoiceOut(d.message + Options(RecipeTitles(d.recipes)));
    case SessionStarted =>
      CollectSessionStarted(Suggested(d), d.sessionId, voice, clean);
    case AwaitingEndConfirmation =>
      CollectVoiceOut(d.message);
    case SessionCompleted =>
      CollectRefreshThenSay(d.message);
    case Normal =>
      CollectNormal(BackendStarted(d), Suggested(d), d.sessionId, voice, clean);
  }

  /** Only a recipe disambiguation question replaces the pending choice, and it
      records the text to resend with the candidate recipes. */
  lemma PendingReplacedIff(d: Payload, originalText: string, voice: bool, id: string, clean: string)
    ensures var r := HandleWith(d, originalText, voice, id, clean);
      && (r.replacePending.Some? <==> d.error == "" && !d.disambiguation && d.recipeDisambiguation)
      && (r.replacePending.Some? ==> r.replacePending.value == Pending(d.pendingText, d.recipes))
  {
  }

  /** What a question says: nothing for an error, and for a disambiguation
      question its text followed by the options sentence. */
  lemma QuestionSpeech(d: Payload, voice: bool, clean: string)
    requires Classify(d) in {ErrorReply, Disambiguation, RecipeDisambiguation}
    ensures match Classify(d)
      case Disambiguation => Speech(Effects(d, voice, clean)) == Said(Shown(d, clean) + Options(SessionNames(d.sessions)))
      case RecipeDisambiguation => Speech(Effects(d, voice, clean)) == Said(Shown(d, clean) + Options(RecipeTitles(d.recipes)))
      case _ => Speech(Effects(d, voice, clean)) == []
  {
    if Classify(d) == Disambiguation {
      CollectVoiceOut(d.message + Options(SessionNames(d.sessions)));
    } else if Classify(d) == RecipeDisambiguation {
      CollectVoiceOut(d.message + Options(RecipeTitles(d.recipes)));
    }
  }

  /** What any other reply says: in voice mode an announcement per timer, the
      backend's first, then the auto-started ones; and last the displayed text
      whenever it is non-empty. */
  lemma AnswerSpeech(d: Payload, voice: bool, clean: string)
    requires Classify(d) !in {ErrorReply, Disambiguation, RecipeDisambiguation}
    ensures Speech(Effects(d, voice, clean))
      == (if voice then StartedLines(BackendStarted(d)) + StartingLines(Suggested(d)) else []) + Said(Shown(d, clean))
  {
    var lines := if voice then StartedLines(BackendStarted(d)) + StartingLines(Suggested(d)) else [];
    match Classify(d)
    case SessionStarted =>
      assert BackendStarted(d) == [];
      assert lines == if voice then StartingLines(Suggested(d)) else [];
      CollectSessionStarted(Suggested(d), d.sessionId, voice, clean);
    case AwaitingEndConfirmation =>
      assert BackendStarted(d) == [] && Suggested(d) == [] && lines == [];
      CollectVoiceOut(d.message);
    case SessionCompleted =>
      assert BackendStarted(d) == [] && Suggested(d) == [] && lines == [];
      CollectRefreshThenSay(d.message);
    case Normal =>
      CollectNormalSpeech(BackendStarted(d), Suggested(d), d.sessionId, voice, clean);
  }

  /** A started session or a normal reply shows its text with the timer tags
      stripped; `voiceOut` strips that text once more, which hands the page the
      displayed text itself unless an opening bracket survived the first pass. */
  lemma DisplayedThenSpoken(d: Payload, originalText: string, voice: bool, id: string)
    requires Classify(d) == SessionStarted || Classify(d) == Normal
    ensures var r := HandleResponse(d, originalText, voice, id);
      && r.message.text == StripTimerTags(RawText(d))
      && Tidy(r.message.text)
      && ('[' !in r.message.text ==> Spoken(r.message.text) == r.message.text)
  {
    ShowsCleanResponse(d, originalText, voice, id);
    CleanThenSpoken(RawText(d));
  }

  lemma CleanThenSpoken(raw: string)
    ensures Tidy(StripTimerTags(raw))
    ensures '[' !in StripTimerTags(raw) ==> Spoken(StripTimerTags(raw)) == StripTimerTags(raw)
  {
    if '[' !in StripTimerTags(raw) {
      StripIdempotentWithoutBrackets(raw);
    }
  }

  lemma ShowsCleanResponse(d: Payload, originalText: string, voice: bool, id: string)
    requires Classify(d) == SessionStarted || Classify(d) == Normal
    ensures HandleResponse(d, originalText, voice, id).message.text == StripTimerTags(RawText(d))
  {
    ShowsClean(d, originalText, voice, id, StripTimerTags(RawText(d)));
  }

  lemma ShowsClean(d: Payload, originalText: string, voice: bool, id: string, clean: string)
    requires Classify(d) == SessionStarted || Classify(d) == Normal
    ensures HandleWith(d, originalText, voice, id, clean).message.text == clean
  {
  }

  /** `[[TIMER:1:a]TIMER:2:b]` is displayed as `[TIMER:2:b]`, which the
      second pass removes, so nothing at all is spoken. */
  lemma DisplayedDiffersFromSpoken(t: string, u: string)
    requires t == "[TIMER:1:a]" && u == "TIMER:2:b]"
    ensures var shown := StripTimerTags("[" + t + u);
      shown == "[" + u && Spoken(shown) == ""
  {
    ExampleDoubleStrip(t, u);
  }

  /** A failed request adds one non-empty system entry (the server's error when
      it sent one) and has no other effect. */
  lemma ReceiveFailure(reply: Reply, originalText: string, voice: bool, id: string)
    requires !reply.Ok?
    ensures var r := Receive(reply, originalText, voice, id);
      && r.message.role == System && r.message.text != ""
      && (reply.NotOk? && reply.error != "" ==> r.message.text == reply.error)
      && r.replacePending.None? && r.outputs == []
  {
  }
}
