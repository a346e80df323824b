/** Properties of the voice controller's transition function. */
module VoiceLemmas {
  import opened Wrappers
  import opened Text
  import opened WakeWord
  import Sentences
  import opened Voice

  /* ---------------- state invariant ---------------- */

  /** `isSpeakingRef` is set exactly while a queue is playing, and the disabled
      state always goes with the mic being off. */
  predicate Inv(v: Voice) {
    && (v.speaking <==> v.speech.Playing?)
    && (v.micState == Disabled ==> !v.micEnabled)
  }

  lemma InitialInv()
    ensures Inv(Initial)
  {
  }

  lemma StepKeepsInv(v: Voice, e: Event)
    requires Inv(v)
    ensures Inv(Step(v, e).next)
  {
    if e.Result? {
      TranscriptKeepsInv(v, Trim(e.transcript), e.isFinal);
    }
  }

  lemma TranscriptKeepsInv(v: Voice, t: string, isFinal: bool)
    requires Inv(v)
    ensures Inv(OnTranscript(v, t, isFinal).next)
  {
  }

  lemma {:induction false} RunKeepsInv(v: Voice, events: seq<Event>)
    requires Inv(v)
    ensures Inv(Run(v, events).next)
    decreases |events|
  {
    if |events| > 0 {
      StepKeepsInv(v, events[0]);
      RunKeepsInv(Step(v, events[0]).next, events[1..]);
    }
  }

  /** Every state reachable from the initial one satisfies the invariant. */
  lemma ReachableInv(events: seq<Event>)
    ensures Inv(Run(Initial, events).next)
  {
    RunKeepsInv(Initial, events);
  }

  /* ---------------- speech queue ---------------- */

  function Ends(n: nat): seq<Event> {
    seq(n, _ => UtteranceEnd)
  }

  function Utterances(segs: seq<string>): (r: seq<Output>)
    ensures |r| == |segs|
    ensures forall i | 0 <= i < |segs| :: r[i] == Utter(Trim(segs[i]))
  {
    seq(|segs|, i requires 0 <= i < |segs| => Utter(Trim(segs[i])))
  }

  /** With `rest` queued, each completion starts the next segment, in order. */
  lemma {:induction false} QueueAdvancesInOrder(v: Voice, rest: seq<string>)
    requires v.speech == Playing(rest)
    ensures Run(v, Ends(|rest|)).next == v.(speech := Playing([]))
    ensures Run(v, Ends(|rest|)).outputs == Utterances(rest)
    decreases |rest|
  {
    if |rest| > 0 {
      var v1 := v.(speech := Playing(rest[1..]));
      var e := Ends(|rest|);
      assert e[0] == UtteranceEnd && e[1..] == Ends(|rest[1..]|);
      RunCons(v, e);
      QueueAdvancesInOrder(v1, rest[1..]);
      assert Utterances(rest) == [Utter(Trim(rest[0]))] + Utterances(rest[1..]);
    }
  }

  /** The last completion of a queue ends it. */
  lemma LastCompletion(v: Voice)
    requires v.speech == Playing([])
    ensures Run(v, [UtteranceEnd]) == Reaction(Done(v), [])
  {
    RunCons(v, [UtteranceEnd]);
  }

  /** `speakText` followed by one completion per segment: the segments are spoken
      trimmed and in order, after one cancel, and then the queue is done. */
  lemma SpeakPlaysAllSegments(v: Voice, text: string)
    requires text != []
    ensures var segs := Sentences.SentenceSplit(text);
      var r := Run(v, [SpeakText(text)] + Ends(|segs|));
      && r.outputs == [CancelSpeech] + Utterances(segs)
      && !r.next.speaking && r.next.speech == Silent
      && r.next.micState == (if v.micEnabled then Idle else Speaking)
  {
    var segs := Sentences.SentenceSplit(text);
    var v1 := SpeakStarts(v, text);
    var events := [SpeakText(text)] + Ends(|segs|);
    var ends := Ends(|segs[1..]|);
    assert events[0] == SpeakText(text) && events[1..] == ends + [UtteranceEnd];
    RunCons(v, events);
    RunAppend(v1, ends, [UtteranceEnd]);
    QueueAdvancesInOrder(v1, segs[1..]);
    LastCompletion(v1.(speech := Playing([])));
    UtterancesCons(segs);
  }

  /** The first step of `speakText`: cancel, speak the first segment, queue the rest. */
  lemma SpeakStarts(v: Voice, text: string) returns (v1: Voice)
    requires text != []
    ensures var segs := Sentences.SentenceSplit(text);
      && v1 == v.(speaking := true, micState := Speaking, speech := Playing(segs[1..]))
      && Step(v, SpeakText(text)) == Reaction(v1, [CancelSpeech, Utter(Trim(segs[0]))])
  {
    var segs := Sentences.SentenceSplit(text);
    v1 := v.(speaking := true, micState := Speaking, speech := Playing(segs[1..]));
  }

  lemma UtterancesCons(segs: seq<string>)
    requires |segs| > 0
    ensures [CancelSpeech, Utter(Trim(segs[0]))] + (Utterances(segs[1..]) + []) == [CancelSpeech] + Utterances(segs)
  {
    var a := [CancelSpeech, Utter(Trim(segs[0]))] + (Utterances(segs[1..]) + []);
    var b := [CancelSpeech] + Utterances(segs);
    forall k | 0 <= k < |a|
      ensures a[k] == b[k]
    {
      if k >= 2 {
        assert a[k] == Utterances(segs[1..])[k - 2];
      }
    }
  }

  /** A run splits at any point: the state carries over and the outputs concatenate. */
  lemma {:induction false} RunAppend(v: Voice, a: seq<Event>, b: seq<Event>)
    ensures Run(v, a + b).next == Run(Run(v, a).next, b).next
    ensures Run(v, a + b).outputs == Run(v, a).outputs + Run(Run(v, a).next, b).outputs
    decreases |a|
  {
    if |a| > 0 {
      var w := Step(v, a[0]).next;
      var o := Step(v, a[0]).outputs;
      assert (a + b)[0] == a[0] && (a + b)[1..] == a[1..] + b;
      RunAppend(w, a[1..], b);
      RunCons(v, a);
      RunCons(v, a + b);
      var ra := Run(w, a[1..]);
      var rb := Run(ra.next, b);
      assert o + (ra.outputs + rb.outputs) == (o + ra.outputs) + rb.outputs;
    } else {
      assert a + b == b;
    }
  }

  lemma RunCons(v: Voice, s: seq<Event>)
    requires |s| > 0
    ensures Run(v, s).next == Run(Step(v, s[0]).next, s[1..]).next
    ensures Run(v, s).outputs == Step(v, s[0]).outputs + Run(Step(v, s[0]).next, s[1..]).outputs
  {
  }

  /** Empty text is ignored entirely. */
  lemma SpeakEmptyIsNoop(v: Voice)
    ensures Step(v, SpeakText("")) == Reaction(v, [])
  {
  }

  /** `speakText` marks the controller speaking even when the mic is off. */
  lemma SpeakWhileMicOff(v: Voice, text: string)
    requires !v.micEnabled && text != []
    ensures Step(v, SpeakText(text)).next.speaking
    ensures Step(v, SpeakText(text)).next.micState == Speaking
  {
  }

  /** An utterance error ends the whole queue: nothing more is spoken, even
      though segments were still waiting, and later completions do nothing. */
  lemma ErrorEndsQueue(v: Voice, rest: seq<string>)
    requires v.speech == Playing(rest)
    ensures var r := Step(v, UtteranceError);
      && r.outputs == []
      && r.next.speech == Silent && !r.next.speaking
      && Step(r.next, UtteranceEnd) == Reaction(r.next, [])
  {
  }

  /** Queue completion clears `speaking`; the state becomes idle only when the
      mic is on, otherwise it is left as it was. */
  lemma CompletionSetsIdleOnlyWhenEnabled(v: Voice)
    requires v.speech == Playing([])
    ensures var r := Step(v, UtteranceEnd);
      && !r.next.speaking && r.next.speech == Silent && r.outputs == []
      && (v.micEnabled ==> r.next.micState == Idle)
      && (!v.micEnabled ==> r.next.micState == v.micState)
  {
  }

  /** Cancelling is idempotent: with nothing playing, the speech callbacks change nothing. */
  lemma SilentCallbacksAreNoops(v: Voice)
    requires v.speech == Silent
    ensures Step(v, UtteranceEnd) == Reaction(v, [])
    ensures Step(v, UtteranceError) == Reaction(v, [])
  {
  }

  /* ---------------- recognition results ---------------- */

  predicate HasWakePhrase(t: string) {
    exists j | 0 <= j < |WakePhrases| :: Contains(Lower(t), WakePhrases[j])
  }

  /** A command is extracted exactly when a wake phrase is heard; never from empty text. */
  lemma WakeIff(t: string)
    ensures ExtractCommand(t).Some? <==> HasWakePhrase(t)
    ensures t == [] ==> !HasWakePhrase(t)
  {
    ExtractCommandNone(t);
    if t == [] {
      forall j | 0 <= j < |WakePhrases|
        ensures !Contains(Lower(t), WakePhrases[j])
      {
        NoRoom(Lower(t), WakePhrases[j]);
      }
    }
  }

  /** A result whose transcript is only white space changes nothing. */
  lemma BlankResultIgnored(v: Voice, raw: string, isFinal: bool)
    requires AllSpace(raw)
    ensures Step(v, Result(raw, isFinal)) == Reaction(v, [])
  {
    BlankIffAllSpace(raw);
  }

  /** Interim results never send a command; they act only while speaking and
      when a wake phrase is heard: speech is cancelled and the state becomes
      listening (barge-in). */
  lemma InterimResult(v: Voice, t: string)
    ensures var r := OnTranscript(v, t, false);
      && (forall k | 0 <= k < |r.outputs| :: !r.outputs[k].SendCommand?)
      && (v.speaking && HasWakePhrase(t) ==>
            r == Reaction(v.(speaking := false, speech := Silent, micState := Listening), [CancelSpeech]))
      && (!(v.speaking && HasWakePhrase(t)) ==> r == Reaction(v, []))
  {
    WakeIff(t);
  }

  /** Barge-in leaves nothing of the cancelled queue to be spoken. */
  lemma BargeInSilencesQueue(v: Voice, t: string)
    requires v.speaking && HasWakePhrase(t)
    ensures var r := OnTranscript(v, t, false);
      Step(r.next, UtteranceEnd) == Reaction(r.next, [])
  {
    InterimResult(v, t);
  }

  /** While the follow-up window is open, the next final result is consumed as
      the command verbatim, whatever it says, and speech is left alone. */
  lemma FinalInFollowUp(v: Voice, t: string)
    requires v.followUp && t != []
    ensures OnTranscript(v, t, true) ==
      Reaction(v.(followUp := false, micState := Processing), [SendCommand(t)])
  {
  }

  /** A second bare wake phrase inside the window does not reopen it: it is sent
      as the command text. */
  lemma WakePhraseInFollowUpIsSent(v: Voice)
    requires v.followUp
    ensures Step(v, Result("hey sous", true)).outputs == [SendCommand("hey sous")]
    ensures !Step(v, Result("hey sous", true)).next.followUp
  {
    TrimNoop("hey sous");
    FinalInFollowUp(v, "hey sous");
  }

  /** Outside the window, a final result without a wake phrase is discarded. */
  lemma FinalWithoutWakePhrase(v: Voice, t: string)
    requires !v.followUp && !HasWakePhrase(t)
    ensures OnTranscript(v, t, true) == Reaction(v, [])
  {
    WakeIff(t);
  }

  /** Outside the window, a wake phrase with a non-empty remainder cancels any
      speech, moves to processing and sends the remainder. */
  lemma FinalWithCommand(v: Voice, t: string, command: string)
    requires !v.followUp && t != [] && ExtractCommand(t) == Some(command) && command != []
    ensures var r := OnTranscript(v, t, true);
      && r.next == v.(micState := Processing, speaking := false, speech := if v.speaking then Silent else v.speech)
      && r.outputs == (if v.speaking then [CancelSpeech] else []) + [SendCommand(command)]
  {
  }

  /** Outside the window, a bare wake phrase opens the follow-up window in the
      listening state, cancels any speech and sends nothing. */
  lemma FinalBareWakePhrase(v: Voice, t: string)
    requires !v.followUp && t != [] && ExtractCommand(t) == Some([])
    ensures var r := OnTranscript(v, t, true);
      && r.next == v.(micState := Listening, followUp := true, speaking := false, speech := if v.speaking then Silent else v.speech)
      && r.outputs == (if v.speaking then [CancelSpeech] else [])
  {
  }

  /** The follow-up timeout closes the window and returns to idle; once closed,
      a stray expiry does nothing (expiry happens at most once). */
  lemma FollowUpTimeoutOnce(v: Voice)
    requires v.followUp
    ensures var r := Step(v, FollowUpTimeout);
      && r == Reaction(v.(followUp := false, micState := Idle), [])
      && Step(r.next, FollowUpTimeout) == Reaction(r.next, [])
  {
  }

  /* ---------------- recognition errors and session end ---------------- */

  /** `no-speech` and `aborted` change nothing; any other code sets the error
      state and leaves the enabled flag and everything else as it was. */
  lemma RecognitionErrorEffect(v: Voice, code: string)
    ensures code == "no-speech" || code == "aborted" ==> Step(v, RecognitionError(code)) == Reaction(v, [])
    ensures code != "no-speech" && code != "aborted" ==>
      Step(v, RecognitionError(code)) == Reaction(v.(micState := Error), [])
  {
  }

  /** At session end recognition restarts exactly when the mic is on and nothing is spoken. */
  lemma SessionEndRestart(v: Voice)
    ensures Step(v, RecognitionEnd).next == v
    ensures Step(v, RecognitionEnd).outputs == [RestartRecognition] <==> v.micEnabled && !v.speaking
    ensures Step(v, RecognitionEnd).outputs == [] <==> !(v.micEnabled && !v.speaking)
  {
  }

  /* ---------------- toggling the mic ---------------- */

  lemma ToggleUnauthenticated(v: Voice, supported: bool, startSucceeds: bool)
    ensures Step(v, ToggleMic(false, supported, startSucceeds)) == Reaction(v, [])
  {
  }

  /** Turning off cancels speech, closes the follow-up window, aborts the
      recognizer and disables the mic. */
  lemma ToggleOff(v: Voice, supported: bool, startSucceeds: bool)
    requires v.micEnabled
    ensures var r := Step(v, ToggleMic(true, supported, startSucceeds));
      && r.next == Voice(Disabled, false, false, false, false, Silent)
      && r.outputs == [CancelSpeech] + (if v.hasRecognizer then [AbortRecognition] else [])
  {
  }

  /** Turning on: without the recognition API, or when `start()` throws, the
      state is error and the mic stays off; otherwise the state is idle with the
      mic on. */
  lemma ToggleOn(v: Voice, supported: bool, startSucceeds: bool)
    requires !v.micEnabled
    ensures var r := Step(v, ToggleMic(true, supported, startSucceeds));
      && (!supported ==> r.next.micState == Error && !r.next.micEnabled && r.outputs == [])
      && (supported && !startSucceeds ==> r.next.micState == Error && !r.next.micEnabled && r.outputs == [StartRecognition])
      && (supported && startSucceeds ==> r.next.micState == Idle && r.next.micEnabled && r.outputs == [StartRecognition])
      && r.next.speaking == v.speaking && r.next.followUp == v.followUp
  {
  }

  /** Toggling off and on again (with a working recognizer) leaves a fresh idle session. */
  lemma ToggleOffOn(v: Voice)
    requires v.micEnabled
    ensures Run(v, [ToggleMic(true, true, true), ToggleMic(true, true, true)]).next ==
      Voice(Idle, true, false, false, true, Silent)
  {
    assert [ToggleMic(true, true, true), ToggleMic(true, true, true)][1..] == [ToggleMic(true, true, true)];
  }
}
