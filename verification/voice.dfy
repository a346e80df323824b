/** The voice controller (`useVoiceController.ts`) as a pure transition
    function. Every browser callback and timer expiry is an `Event`; a step
    returns the next state and the commands issued to the speech engines and
    to the chat (`Output`). Each handler runs atomically. */
module Voice {
  import opened Wrappers
  import opened Text
  import opened WakeWord
  import opened Sentences

  datatype MicState = Disabled | Idle | Listening | Processing | Speaking | Error

  /** The speech queue of the latest `speakText` call: Silent when nothing of it
      is playing, otherwise the segments still waiting behind the current one. */
  datatype Speech = Silent | Playing(rest: seq<string>)

  /** The hook's state and refs: `micState`, `isMicEnabled`, `isSpeakingRef`,
      `isFollowUpRef` (the follow-up timer is armed exactly when it is set),
      whether `recognitionRef` holds a recognizer, and the speech queue. */
  datatype Voice = Voice(
    micState: MicState,
    micEnabled: bool,
    speaking: bool,
    followUp: bool,
    hasRecognizer: bool,
    speech: Speech)

  const Initial := Voice(Disabled, false, false, false, false, Silent)

  datatype Event =
    | ToggleMic(authenticated: bool, supported: bool, startSucceeds: bool)
    | SpeakText(text: string)
    | UtteranceEnd
    | UtteranceError
    | Result(transcript: string, isFinal: bool)
    | RecognitionError(code: string)
    | RecognitionEnd
    | FollowUpTimeout

  datatype Output =
    | CancelSpeech
    | Utter(text: string)
    | SendCommand(text: string)
    | StartRecognition
    | RestartRecognition
    | AbortRecognition

  datatype Reaction = Reaction(next: Voice, outputs: seq<Output>)

  function Unchanged(v: Voice): Reaction {
    Reaction(v, [])
  }

  /** `speechSynthesis.cancel()` together with clearing `isSpeakingRef`. */
  function CancelSpeaking(v: Voice): Voice {
    v.(speaking := false, speech := Silent)
  }

  /** `onDone`: the queue is over; the state returns to idle only if the mic is on. */
  function Done(v: Voice): Voice {
    v.(speaking := false, speech := Silent, micState := if v.micEnabled then Idle else v.micState)
  }

  /** `speakText`: cancel whatever is playing, mark speaking and start the first segment. */
  function Speak(v: Voice, text: string): Reaction {
    if text == [] then Unchanged(v)
    else
      var segs := SentenceSplit(text);
      Reaction(v.(speaking := true, micState := Speaking, speech := Playing(segs[1..])),
               [CancelSpeech, Utter(Trim(segs[0]))])
  }

  /** `utterance.onend` (`next`): start the following segment, or finish. */
  function OnUtteranceEnd(v: Voice): Reaction {
    match v.speech
    case Silent => Unchanged(v)
    case Playing(rest) =>
      if rest == [] then Unchanged(Done(v))
      else Reaction(v.(speech := Playing(rest[1..])), [Utter(Trim(rest[0]))])
  }

  /** `utterance.onerror` is `onDone`: the rest of the queue is abandoned. */
  function OnUtteranceError(v: Voice): Reaction {
    match v.speech
    case Silent => Unchanged(v)
    case Playing(_) => Unchanged(Done(v))
  }

  /** `recognition.onresult` for the latest result: its transcript is trimmed
      before anything else looks at it. */
  function OnResult(v: Voice, raw: string, isFinal: bool): Reaction {
    OnTranscript(v, Trim(raw), isFinal)
  }

  /** The body of `onresult` once the transcript is trimmed. */
  function OnTranscript(v: Voice, transcript: string, isFinal: bool): Reaction {
    if transcript == [] then Unchanged(v)
    else if !isFinal then
      if v.speaking && ExtractCommand(transcript).Some? then
        Reaction(CancelSpeaking(v).(micState := Listening), [CancelSpeech])
      else Unchanged(v)
    else if v.followUp then
      Reaction(v.(followUp := false, micState := Processing), [SendCommand(transcript)])
    else
      match ExtractCommand(transcript)
      case None => Unchanged(v)
      case Some(command) =>
        var (v1, cancel) := if v.speaking then (CancelSpeaking(v), [CancelSpeech]) else (v, []);
        if |command| > 0 then
          Reaction(v1.(micState := Processing), cancel + [SendCommand(command)])
        else
          Reaction(v1.(micState := Listening, followUp := true), cancel)
  }

  /** `recognition.onerror`: the two benign codes are ignored, anything else is an error. */
  function OnRecognitionError(v: Voice, code: string): Reaction {
    if code == "no-speech" || code == "aborted" then Unchanged(v)
    else Unchanged(v.(micState := Error))
  }

  /** `recognition.onend`: restart while the mic is on and nothing is spoken. */
  function OnRecognitionEnd(v: Voice): Reaction {
    if v.micEnabled && !v.speaking then Reaction(v, [RestartRecognition]) else Unchanged(v)
  }

  /** The follow-up timer fires (it is armed only while the follow-up flag is set). */
  function OnFollowUpTimeout(v: Voice): Reaction {
    if v.followUp then Unchanged(v.(followUp := false, micState := Idle)) else Unchanged(v)
  }

  /** `stopRecognition`: clear the follow-up window and abort the recognizer. */
  function StopRecognition(v: Voice): Reaction {
    Reaction(v.(followUp := false, hasRecognizer := false), if v.hasRecognizer then [AbortRecognition] else [])
  }

  /** `startRecognition`, given whether the API exists and whether `start()` succeeds. */
  function StartRecognitionWith(v: Voice, supported: bool, startSucceeds: bool): Reaction {
    if !supported then Unchanged(v.(micState := Error, micEnabled := false))
    else if startSucceeds then Reaction(v.(hasRecognizer := true, micState := Idle), [StartRecognition])
    else Reaction(v.(hasRecognizer := true, micState := Error, micEnabled := false), [StartRecognition])
  }

  /** `toggleMic`. */
  function Toggle(v: Voice, authenticated: bool, supported: bool, startSucceeds: bool): Reaction {
    if !authenticated then Unchanged(v)
    else if v.micEnabled then
      var stop := StopRecognition(CancelSpeaking(v));
      Reaction(stop.next.(micEnabled := false, micState := Disabled), [CancelSpeech] + stop.outputs)
    else
      StartRecognitionWith(v.(micEnabled := true), supported, startSucceeds)
  }

  function Step(v: Voice, e: Event): Reaction {
    match e
    case ToggleMic(a, s, ok) => Toggle(v, a, s, ok)
    case SpeakText(text) => Speak(v, text)
    case UtteranceEnd => OnUtteranceEnd(v)
    case UtteranceError => OnUtteranceError(v)
    case Result(t, f) => OnResult(v, t, f)
    case RecognitionError(code) => OnRecognitionError(v, code)
    case RecognitionEnd => OnRecognitionEnd(v)
    case FollowUpTimeout => OnFollowUpTimeout(v)
  }

  /** The final state and all outputs, in order, of a sequence of events. */
  function Run(v: Voice, events: seq<Event>): Reaction
    decreases |events|
  {
    if |events| == 0 then Unchanged(v)
    else
      var r := Step(v, events[0]);
      var rest := Run(r.next, events[1..]);
      Reaction(rest.next, r.outputs + rest.outputs)
  }
}
