# Souschef cooking assistant — a Dafny model of its client-side logic

This project models the deterministic core of the Souschef web client and its
waitlist endpoint. Each part is written as pure functions over immutable
records and proved correct against its own properties:

- **Voice controller** (`useVoiceController`): wake-phrase extraction, the
  sentence split, and the speech queue that reads replies aloud. The
  recognition and synthesis callbacks and `toggleMic` form one transition
  function, `Voice.Step(state, event) -> (state, outputs)`.
- **Chat panel** (`ChatInterface`):
  - the timer-tag filter `stripTimerTags`;
  - the spoken durations and the clock format;
  - the seven reply branches of `handleResponse`, with what each shows, says,
    starts and refreshes;
  - the single pending recipe choice and how a typed message resolves it;
  - the accept and dismiss handlers for timer suggestions.
- **Timer bar**: the `h:mm:ss` / `m:ss` countdown, the remaining-time
  computation, and the notify-once tick.
- **Profile panel**: diet toggles and the tag inputs.
- **Recipe grid**: the search filter and the import guard.
- **Waitlist endpoint**: the e-mail validator, the normalisation of the
  submitted row, and the status chosen for each outcome.

## Modules

| file | module | what it holds |
|---|---|---|
| wrappers.dfy | Wrappers | `Option` |
| text.dfy | Text | JavaScript white space, `trim`, ASCII `toLowerCase`, `includes`/`indexOf` |
| numbers.dfy | Numbers | `String(n)`, `padStart(2,'0')`, `split`, `join` and their parsers |
| lists.dfy | Lists | `filter`, `find`, subsequences, duplicate-freedom |
| wake_word.dfy | WakeWord | `extractCommand` and the wake phrases |
| sentences.dfy | Sentences | the sentence pattern `[^.!?\n]+[.!?\n]*` of `speakText` |
| voice.dfy | Voice | the controller state, its events, outputs and `Step` |
| voice_lemmas.dfy | VoiceLemmas | the controller's properties |
| timer_tags.dfy | TimerTags | `stripTimerTags`: tag scanner, global removal, white-space collapse, trim |
| chat.dfy | Chat | durations, clocks, reply classification and handling |
| chat_state.dfy | ChatState | sending, the pending recipe choice, suggestion chips |
| timer_bar.dfy | TimerBar | countdown format, remaining time, notify-once |
| profile.dfy | Profile | diet toggles, tag inputs |
| recipe_grid.dfy | RecipeGrid | search filter, import guard |
| waitlist.dfy | Waitlist | e-mail check, `POST` |

## Modelling choices

- **Strings and case**
  - Strings are `seq<char>`.
  - `\s` and `trim` use the ECMAScript WhiteSpace and LineTerminator set.
  - `toLowerCase` is modelled on ASCII letters only.
- **Regular expressions** are hand-written scanners. Each scanner comes with a
  lemma proving it accepts exactly the declarative language of its pattern:
  - `TimerTags.TagLenIff` for the timer-tag pattern;
  - `Waitlist.EmailScanIsPattern` for the e-mail pattern;
  - `Sentences.SentenceSplit` for the sentence pattern.
- **JSON reply** (`Chat.Payload`): an absent string is `""`, an absent list
  `[]`, an absent flag `false` and an absent id `0`. Wherever the source
  reads such a field through a truthiness test or a `|| default`, an absent
  value and these values behave alike. Two reads have no such guard; see the
  pending candidates under "Left out".
- **Timer label**: the field is called `name` in the model, because `label` is
  a Dafny keyword.
- **Browser callbacks and timers** become `Voice.Event`s.
- **Calls the panel makes** become `Chat.Output`s, in call order:
  - `onTimerStarted`;
  - the timer persistence request;
  - `onAssistantMessage`;
  - `onSessionsChanged`.
- **Clock**: wall-clock time is an integer parameter.
- **Network results** are parameters: `Chat.Reply`, `Waitlist.Upstream`, and
  whether the recognition API exists and whether `start()` throws.
- **Voice mode** is a boolean derived by `Chat.VoiceMode` from the
  microphone state.

### Quirks of the code the model keeps

- **Wake phrases** are tried in list order: "hey sous" found late beats
  "hey sue" found early (`WakeWord.ListOrderBeatsPosition`).
- **Speech queue**: an utterance error ends the whole queue instead of
  advancing it (`VoiceLemmas.ErrorEndsQueue`).
- **Recognition errors**:
  - A hard recognition error sets the error state but leaves the microphone
    enabled.
  - A failed automatic restart is ignored.
- **Follow-up window**: a second bare wake phrase inside the window is sent
  to the server as the command "hey sous". It does not reopen the window
  (`VoiceLemmas.WakePhraseInFollowUpIsSent`).
- **Options sentence**: the "Your options are" sentence is added when the
  joined names are non-empty. With one candidate whose name is empty it is
  therefore left out (`Chat.OptionsIff`).
- **Pending recipe match**: a candidate also matches when the message
  contains the first word of its title, not only when the title contains the
  message.
- **Spoken text is stripped twice**:
  - A started session or a normal reply shows `stripTimerTags(raw)`.
  - `voiceOut` strips that text again.
  - The second pass can remove a tag the first pass exposed, so the page can
    speak something different from what it shows
    (`Chat.DisplayedDiffersFromSpoken`).

## Model

| member | source | states |
|---|---|---|
| WakeWord.MatchedPhrase | src/app/app/useVoiceController.ts:82-86 | the index found is the first phrase, in list order, that occurs; None exactly when no phrase occurs |
| WakeWord.ExtractCommandSpec | src/app/app/useVoiceController.ts:80-87 | when phrase k is the first in list order to occur, first at position i, the command is the trimmed text after that occurrence |
| WakeWord.ExtractCommandNone | src/app/app/useVoiceController.ts:80-87 | no command exactly when none of the four phrases occurs in the lowercased transcript |
| WakeWord.CommandIsTrimmed | src/app/app/useVoiceController.ts:84 | an extracted command has no white space at either end |
| WakeWord.ListOrderBeatsPosition | src/app/app/useVoiceController.ts:23 | once "hey sous" occurs, the command follows it even if another phrase occurs earlier |
| WakeWord.BarePhrase | src/app/app/useVoiceController.ts:84 | a transcript that is only a wake phrase gives the empty command |
| WakeWord.MissingPhrase | src/app/app/useVoiceController.ts:86 | a transcript without a wake phrase gives no command |
| Sentences.SentenceSplit | src/app/app/useVoiceController.ts:101 | at least one segment; text made only of terminators is kept whole; otherwise the segments concatenate to the text minus its leading terminators and each segment is a run of non-terminators followed by terminators |
| Sentences.SegmentsConcat | src/app/app/useVoiceController.ts:101 | the matches concatenate to the input minus its leading terminator run |
| Sentences.SegmentsShape | src/app/app/useVoiceController.ts:101 | every match starts with a non-terminator and has no non-terminator after a terminator |
| Sentences.SegmentsEndings | src/app/app/useVoiceController.ts:101 | every match but the last ends with a terminator |
| Sentences.SegmentsEmpty | src/app/app/useVoiceController.ts:101 | there is no match exactly when the text is all terminators |
| Sentences.SplitLossless | src/app/app/useVoiceController.ts:101 | text starting with a non-terminator is split without losing any character |
| Sentences.ExampleSplit | src/app/app/useVoiceController.ts:101 | "Hi. Go!" splits into "Hi." and " Go!" |
| VoiceLemmas.ReachableInv | src/app/app/useVoiceController.ts:41-51 | in every reachable state `speaking` holds exactly while a queue plays, and a disabled state never has the mic on |
| VoiceLemmas.StepKeepsInv | src/app/app/useVoiceController.ts:91-260 | every event preserves that invariant |
| VoiceLemmas.SpeakPlaysAllSegments | src/app/app/useVoiceController.ts:91-128 | speaking a text then completing each utterance cancels once, utters every segment trimmed and in order, then clears `speaking` and goes idle only if the mic is on |
| VoiceLemmas.QueueAdvancesInOrder | src/app/app/useVoiceController.ts:111-125 | with segments queued, each completion utters the next one, in order |
| VoiceLemmas.LastCompletion | src/app/app/useVoiceController.ts:112-114 | the completion after the last segment only runs the done step |
| VoiceLemmas.SpeakEmptyIsNoop | src/app/app/useVoiceController.ts:92 | empty text changes nothing and outputs nothing |
| VoiceLemmas.SpeakWhileMicOff | src/app/app/useVoiceController.ts:95-96 | speaking sets `speaking` and the speaking state even with the mic off |
| VoiceLemmas.ErrorEndsQueue | src/app/app/useVoiceController.ts:123 | an utterance error ends the queue: nothing more is spoken and later completions do nothing |
| VoiceLemmas.CompletionSetsIdleOnlyWhenEnabled | src/app/app/useVoiceController.ts:104-109 | queue completion clears `speaking`; the state becomes idle only when the mic is on, else it is unchanged |
| VoiceLemmas.SilentCallbacksAreNoops | src/app/app/useVoiceController.ts:104-125 | with no queue playing, utterance callbacks change nothing |
| VoiceLemmas.WakeIff | src/app/app/useVoiceController.ts:80-87 | a command is extracted exactly when a wake phrase is heard, never from empty text |
| VoiceLemmas.BlankResultIgnored | src/app/app/useVoiceController.ts:161-163 | a blank transcript changes nothing |
| VoiceLemmas.InterimResult | src/app/app/useVoiceController.ts:166-174 | an interim result never sends; it cancels speech and listens exactly when speaking with a wake phrase, otherwise changes nothing |
| VoiceLemmas.BargeInSilencesQueue | src/app/app/useVoiceController.ts:167-172 | barge-in leaves no queued segment to be spoken |
| VoiceLemmas.FinalInFollowUp | src/app/app/useVoiceController.ts:180-189 | in follow-up, a final result closes the window, goes to processing and sends the transcript as heard |
| VoiceLemmas.WakePhraseInFollowUpIsSent | src/app/app/useVoiceController.ts:180-189 | a bare wake phrase inside the window is sent as a command and does not reopen it |
| VoiceLemmas.FinalWithoutWakePhrase | src/app/app/useVoiceController.ts:192-196 | outside follow-up, a final result without a wake phrase changes nothing |
| VoiceLemmas.FinalWithCommand | src/app/app/useVoiceController.ts:199-207 | a wake phrase with a command cancels speech, goes to processing and sends the command |
| VoiceLemmas.FinalBareWakePhrase | src/app/app/useVoiceController.ts:208-216 | a bare wake phrase listens and opens the follow-up window without sending |
| VoiceLemmas.FollowUpTimeoutOnce | src/app/app/useVoiceController.ts:212-215 | the timeout closes the window and goes idle |
| VoiceLemmas.RecognitionErrorEffect | src/app/app/useVoiceController.ts:219-224 | "no-speech" and "aborted" change nothing; any other code sets the error state and nothing else |
| VoiceLemmas.SessionEndRestart | src/app/app/useVoiceController.ts:226-231 | at session end recognition restarts exactly when the mic is on and nothing is spoken; the state is unchanged |
| VoiceLemmas.ToggleUnauthenticated | src/app/app/useVoiceController.ts:246 | toggling when signed out does nothing |
| VoiceLemmas.ToggleOff | src/app/app/useVoiceController.ts:132-142 | turning off cancels speech, aborts the recognizer when there is one, closes the follow-up window, clears `speaking` and disables the mic |
| VoiceLemmas.ToggleOn | src/app/app/useVoiceController.ts:144-151 | turning on gives idle and enabled, or error and disabled when the API is missing or `start()` throws |
| VoiceLemmas.ToggleOffOn | src/app/app/useVoiceController.ts:245-260 | off then on leaves a fresh idle, enabled, silent session |
| TimerTags.TagLenIff | src/app/app/ChatInterface.tsx:68 | the scanner reports a tag of length n at i exactly when the timer-tag pattern matches those n characters |
| TimerTags.StripTimerTags | src/app/app/ChatInterface.tsx:71-72 | the result has no white space at either end and no two adjacent white-space characters, and keeps every non-white-space character left once the tags are removed, in order |
| TimerTags.TagDropped | src/app/app/ChatInterface.tsx:72 | a tag found by the scan is dropped whole and the scan resumes after it |
| TimerTags.CharKept | src/app/app/ChatInterface.tsx:72 | a character where no tag starts is copied |
| TimerTags.RemoveInside | src/app/app/ChatInterface.tsx:72 | a tag between bracket-free texts is removed and nothing else is |
| TimerTags.SinglePass | src/app/app/ChatInterface.tsx:72 | the removal is one left-to-right pass: a tag exposed by removing another is left in place |
| TimerTags.NestedTagTwoPasses | src/app/app/ChatInterface.tsx:72 | such an exposed tag survives one pass and is removed by a second |
| TimerTags.CollapseNoDouble | src/app/app/ChatInterface.tsx:72 | after the white-space collapse no two white-space characters are adjacent |
| TimerTags.CollapseKeepsWords | src/app/app/ChatInterface.tsx:72 | the collapse keeps every other character, in order |
| TimerTags.CollapseClean | src/app/app/ChatInterface.tsx:72 | text without doubled white space is not changed by the collapse |
| TimerTags.CollapseSplit | src/app/app/ChatInterface.tsx:72 | after a non-white-space character the collapse of the whole is the collapse of each part |
| TimerTags.CollapseRun | src/app/app/ChatInterface.tsx:72 | a maximal run of two or more white-space characters becomes one space, a lone one is kept, and the text either side is collapsed on its own |
| TimerTags.StripSeparatesWords | src/app/app/ChatInterface.tsx:71-72 | two pieces of clean text joined by white space come out one space apart when the run is two or more long, unchanged when it is one character |
| TimerTags.TrimKeepsWords | src/app/app/ChatInterface.tsx:72 | trimming keeps every non-white-space character, in order |
| TimerTags.CleanTextUnchanged | src/app/app/ChatInterface.tsx:71-72 | text with no bracket, no doubled and no surrounding white space passes unchanged |
| TimerTags.StripIdempotentWithoutBrackets | src/app/app/ChatInterface.tsx:71-72 | without an opening bracket, stripping twice is stripping once |
| TimerTags.TagBetweenWords | src/app/app/ChatInterface.tsx:71-72 | a tag between two words with a space either side leaves the words one space apart |
| TimerTags.ExampleStrip | src/app/app/ChatInterface.tsx:71-72 | "Boil [TIMER:300:pasta] now" becomes "Boil now" |
| TimerTags.ExampleDoubleStrip | src/app/app/ChatInterface.tsx:71-72 | "[[TIMER:1:a]TIMER:2:b]" strips to "[TIMER:2:b]", which strips to nothing |
| Chat.RoundMinutes | src/app/app/ChatInterface.tsx:87 | the nearest whole minute, halves rounding up |
| Chat.SpokenCountsAsWritten | src/app/app/ChatInterface.tsx:84-92 | the counts `spokenDuration` says: rounded minutes below an hour; whole hours and the rounded remainder from an hour up, which can reach 60 |
| Chat.SixtyMinutesAsWritten | src/app/app/ChatInterface.tsx:85-88 | a duration within half a minute of the next hour is read back as h hours and 60 minutes |
| Chat.SixtyMinutesExample | src/app/app/ChatInterface.tsx:84-92 | 7190 seconds is said "1 hour and 60 minutes" as written and "2 hours" corrected |
| Chat.SpokenCounts | src/app/app/ChatInterface.tsx:84-92 | the corrected counts: below an hour as written; from an hour up, minutes below 60 and the total within half a minute of the duration |
| Chat.SpokenCountsAgree | src/app/app/ChatInterface.tsx:84-92 | wherever the written minutes stay below 60 the correction agrees with the written counts |
| Chat.DurationTextRoundTrip | src/app/app/ChatInterface.tsx:88-91 | every phrase reads back as the counts it was built from, plural only above one |
| Chat.SpokenDurationMeaning | src/app/app/ChatInterface.tsx:84-92 | the corrected phrase for an hour or more reads back as hours and minutes below 60 within half a minute of the duration |
| Chat.FormatTime | src/app/app/ChatInterface.tsx:617-623 | "DONE" for a non-positive time, otherwise text starting with a digit |
| Chat.FormatTimeRoundTrip | src/app/app/ChatInterface.tsx:617-623 | every positive time reads back exactly from its `m:ss` or `Ns` form; "DONE" reads back as nothing |
| Chat.ClassifyFirstMatch | src/app/app/ChatInterface.tsx:150-278 | the branch taken is b exactly when the reply carries b's marker and none of an earlier-tested branch |
| Chat.Spoken | src/app/app/ChatInterface.tsx:78-81 | what `onAssistantMessage` receives is tidy: no white space at the ends, none doubled |
| Chat.VoiceOut | src/app/app/ChatInterface.tsx:78-81 | nothing is passed on exactly when the text is empty |
| Chat.StartingLineSays | src/app/app/ChatInterface.tsx:84-98 | the panel's announcement is "Starting <label> timer for ", a phrase that reads back as the whole hours and rounded minutes `spokenDuration` computes as written, and a full stop |
| Chat.StartedLineSays | src/app/app/ChatInterface.tsx:249 | the backend timer's announcement is "Timer started: <label> for ", the same as-written duration phrase, and a full stop |
| Chat.StartWithAnnounce | src/app/app/ChatInterface.tsx:95-111 | starting a timer reports it once, asks for it to be persisted exactly when there is a truthy session, says its starting announcement only in voice mode, and issues no refresh itself |
| Chat.AutoStart | src/app/app/ChatInterface.tsx:196-198 | auto-starting reports every timer in order, persists each exactly when there is a truthy session, says one starting announcement per timer in voice mode only, and issues no refresh itself |
| Chat.Announce | src/app/app/ChatInterface.tsx:244-252 | the backend's timers are all reported in order, never persisted, and each announced as started in voice mode only; no refresh |
| Chat.AutoStartIn | src/app/app/ChatInterface.tsx:255-262 | outside voice mode no timer is auto-started |
| Chat.OptionsIff | src/app/app/ChatInterface.tsx:159-188 | the options sentence is empty exactly when the joined names are, and otherwise is " Your options are: " then the names joined by ", or " then "." |
| Chat.JoinEmptyIff | src/app/app/ChatInterface.tsx:161-162 | with a non-empty separator, the join is empty exactly when there are no names or a single empty one |
| Chat.ReplyTimers | src/app/app/ChatInterface.tsx:190-270 | a reply reports the backend's timers, then the suggested ones only in voice mode; suggestions are shown only outside voice mode; persistence only in voice mode with a session |
| Chat.SessionsChangedIff | src/app/app/ChatInterface.tsx:150-278 | the sessions are refreshed at most once, and once exactly for an expired error, a started session, a completed session or a normal reply |
| Chat.PendingReplacedIff | src/app/app/ChatInterface.tsx:176 | only a recipe disambiguation replaces the pending choice, with its text and candidates |
| Chat.QuestionSpeech | src/app/app/ChatInterface.tsx:151-188 | an error says nothing; a disambiguation question says its message and the options sentence |
| Chat.AnswerSpeech | src/app/app/ChatInterface.tsx:190-277 | any other reply says, in voice mode, one as-written announcement per backend timer, then one per auto-started timer, and last its shown text |
| Chat.DisplayedThenSpoken | src/app/app/ChatInterface.tsx:190-277 | a started session or normal reply shows its raw text stripped and tidy; without a bracket left, the page speaks exactly what it shows |
| Chat.DisplayedDiffersFromSpoken | src/app/app/ChatInterface.tsx:68-81 | "[[TIMER:1:a]TIMER:2:b]" is shown as "[TIMER:2:b]" and nothing is spoken |
| Chat.ReceiveFailure | src/app/app/ChatInterface.tsx:128-139 | a failed request adds one non-empty system entry, the server's error when given, and nothing else |
| ChatState.DoSend | src/app/app/ChatInterface.tsx:115-119 | a request is made exactly when the text is non-empty, carrying that text and the extra fields |
| ChatState.SendGuard | src/app/app/ChatInterface.tsx:281-282 | nothing happens when signed out or with no text to send |
| ChatState.SendShowsMessage | src/app/app/ChatInterface.tsx:281-288 | a sent message is appended as the user's entry, typed text is the trimmed input, and the input clears only without an override |
| ChatState.OverrideKeepsPending | src/app/app/ChatInterface.tsx:291 | a message from elsewhere skips the pending choice, keeps it, and is sent as it is |
| ChatState.PendingResolution | src/app/app/ChatInterface.tsx:290-305 | a typed message clears the pending choice; the first matching candidate in list order resends the pending text with its id, else the message is sent |
| ChatState.ExampleGarlicResolves | src/app/app/ChatInterface.tsx:292-299 | "garlic" against "Lemon Pasta" and "Garlic Pasta" resends "cook pasta" with the second recipe |
| ChatState.RecipeChipResends | src/app/app/ChatInterface.tsx:316-321 | a recipe chip without a pending choice does nothing; with one it clears it and resends its text with the recipe |
| ChatState.ArriveKeepsPending | src/app/app/ChatInterface.tsx:176 | an arriving reply other than a recipe question leaves the pending choice as it was |
| ChatState.RemoveSuggestionSpec | src/app/app/ChatInterface.tsx:366-370 | only that entry changes, and on it only its suggestions: exactly those with that label are dropped, the rest kept in order with every copy |
| ChatState.RemoveSuggestionIdempotent | src/app/app/ChatInterface.tsx:367-369 | dropping a label twice is dropping it once |
| ChatState.AcceptTimerEffects | src/app/app/ChatInterface.tsx:325-364 | accepting starts exactly that timer, persists it exactly for a session, issues no refresh itself, and appends the confirmation entry |
| ChatState.DismissOnlyFilters | src/app/app/ChatInterface.tsx:366-370 | dismissing keeps the input, the pending choice, every other entry, and every field of the matching entry but its suggestions |
| TimerBar.ClockFields | src/app/app/TimerBar.tsx:43-45 | hours, minutes and seconds recompose to the total with minutes and seconds below 60 |
| TimerBar.FormatClock | src/app/app/TimerBar.tsx:41-48 | "DONE" for a non-positive time, otherwise text starting with a digit |
| TimerBar.FormatClockFields | src/app/app/TimerBar.tsx:46-47 | from an hour up the form is h:mm:ss, below it m:ss, each padded field two digits |
| TimerBar.FormatClockRoundTrip | src/app/app/TimerBar.tsx:41-48 | every positive time reads back exactly; "DONE" reads back as nothing |
| TimerBar.ElapsedSecs | src/app/app/TimerBar.tsx:30 | the elapsed whole seconds bracket the elapsed milliseconds |
| TimerBar.Remaining | src/app/app/TimerBar.tsx:64-66 | never negative, zero exactly when the elapsed seconds reach the duration, otherwise the rest of the duration |
| TimerBar.RemainingMonotone | src/app/app/TimerBar.tsx:64-66 | the remaining time never grows as time passes |
| TimerBar.Tick | src/app/app/TimerBar.tsx:29-35 | a tick notifies, in order, exactly the timers that are done, unnotified and have a callback, and marks exactly those |
| TimerBar.NotifiesAtMostOnce | src/app/app/TimerBar.tsx:32-35 | over any run of ticks each timer is notified at most once |
| TimerBar.NoCallbackNoNotify | src/app/app/TimerBar.tsx:32 | without a callback a tick changes and notifies nothing |
| Profile.ToggleDietSpec | src/app/app/ProfilePanel.tsx:101-108 | a present diet is removed everywhere, the rest kept in order with every copy; an absent one is appended lowercased |
| Profile.ToggleTwice | src/app/app/ProfilePanel.tsx:101-108 | toggling an absent diet twice restores the list |
| Profile.ToggleKeepsDistinct | src/app/app/ProfilePanel.tsx:103-106 | toggling keeps a list free of duplicates |
| Profile.EnterSpec | src/app/app/ProfilePanel.tsx:117-123 | Enter on a blank input changes nothing; otherwise it adds the trimmed lowercased text if absent and clears the input |
| Profile.BackspaceSpec | src/app/app/ProfilePanel.tsx:124-126 | Backspace on an empty input drops exactly the last tag; otherwise nothing changes |
| Profile.TagKeyKeepsDistinct | src/app/app/ProfilePanel.tsx:117-126 | every key keeps the tag list free of duplicates |
| Profile.RemoveTagSpec | src/app/app/ProfilePanel.tsx:129-135 | removing a tag drops all its occurrences and keeps the others in order, each as often |
| Profile.EditsKeepDistinct | src/app/app/ProfilePanel.tsx:101-135 | any sequence of toggles, key presses and removals keeps a duplicate-free list duplicate-free |
| RecipeGrid.SearchSpec | src/app/app/RecipeGrid.tsx:27-30 | the shown list is an order-preserving subsequence keeping exactly the matching recipes, each as often |
| RecipeGrid.EmptyQueryShowsAll | src/app/app/RecipeGrid.tsx:27-30 | an empty query shows the whole library |
| RecipeGrid.SearchIgnoresCase | src/app/app/RecipeGrid.tsx:28-29 | the query's letter case does not matter |
| RecipeGrid.TypingNarrows | src/app/app/RecipeGrid.tsx:27-30 | extending the query can only narrow the list |
| RecipeGrid.Import | src/app/app/RecipeGrid.tsx:32-38 | an import passes the box's text as typed and clears the box; otherwise the box is kept |
| RecipeGrid.ImportIff | src/app/app/RecipeGrid.tsx:33 | the importer is called exactly when the box holds a non-white-space character |
| Waitlist.EmailScanIsPattern | src/app/waitlist-api/route.ts:6-8 | the scanner accepts exactly the language of the e-mail pattern |
| Waitlist.ValidEmailParts | src/app/waitlist-api/route.ts:7 | an accepted address has no white space and exactly one '@', with something before it |
| Waitlist.AcceptsShortDomain | src/app/waitlist-api/route.ts:7 | "a@b.co" is accepted |
| Waitlist.RejectsOneLetterEnding | src/app/waitlist-api/route.ts:7 | "a@b.c" is rejected |
| Waitlist.RejectsTwoAts | src/app/waitlist-api/route.ts:7 | "a@@b.co" is rejected |
| Waitlist.RejectsSpace | src/app/waitlist-api/route.ts:7 | "a b@c.de" is rejected |
| Waitlist.PostAnswers | src/app/waitlist-api/route.ts:10-49 | each error code and the success answer, with exactly the circumstances that produce them; a row is sent exactly when configured, parsed and valid; the status matches the answer |
| Waitlist.SentRow | src/app/waitlist-api/route.ts:17-37 | the stored e-mail is valid, trimmed and lowercased; a name is null exactly when absent or blank, otherwise trimmed; the source defaults to "waitlist-landing" |
| Waitlist.ResubmitSameEmail | src/app/waitlist-api/route.ts:18-25 | resubmitting the stored e-mail gives the same key, so the upsert merges |

## Left out

- Network, storage and authentication tokens:
  - `fetch` and `localStorage` become outcome parameters.
  - The timer persistence request is one output. The refresh it triggers
    when it succeeds (`.then(onSessionsChanged)`) is not modelled, because it
    happens asynchronously after the handler returns.
- The browser speech APIs become events and outputs.
- Voice selection (`pickVoice`) and the utterance rate are not modelled.
- Real time (`setTimeout`, `setInterval`, `Date.now`) becomes explicit events
  and integer inputs.
- The progress ratio of the timer bar (floating point) is not modelled.
- Asynchronous interleaving and React state batching: each handler is atomic.
  A late callback from a cancelled utterance is a no-op on a silent
  controller.
- Unicode case folding is not modelled: lowercasing is ASCII only.
- The end-of-session handlers (`handleConfirmEnd`, the dismissal of the
  confirmation prompt, `handleEndSession`) and the loading flag are not
  modelled. They are network calls and rendering state.
- `modelUsed` and other reply fields that only affect rendering are not
  modelled.
- The JavaScript rendering of an absent `message` in a string template
  (`"undefined"`) is not modelled: absent strings are `""`.
- Rendering, layouts, the landing page, `ContextStrip` and the page glue are
  not modelled.
- RecipeGrid's select and delete buttons are not modelled: they only forward
  to callbacks.
- The `isImporting` flag is not modelled.
- The waitlist storage request's URL, headers and `cache` option are not
  modelled: the row it carries is modelled, and its result is a parameter.
- Pending recipe candidates without `recipes` or without a `title`: the
  source stores `data.recipes` unguarded (ChatInterface.tsx:176) and then
  calls `.recipes.find` and `r.title.toLowerCase()` (lines 293-294). With
  either field absent, the next typed message is shown and then the handler
  throws: nothing is sent and the pending choice stays, for every later
  typed message too. The model reads the absent list as empty and an absent
  title as `""`, so it clears the choice and sends the text, or resends the
  pending text on the first message.
- Timer durations are whole non-negative seconds (`nat`). A JSON number can
  be fractional or negative, and `spokenDuration` and `formatTime` treat such
  values in ways the model does not cover.
- TimerTags.StripTimerTags: its own contract states tidiness and the kept
  non-white-space characters, not which single character separates two
  words. That is stated by `TimerTags.CollapseSplit`,
  `TimerTags.CollapseRun` and `TimerTags.StripSeparatesWords`.
- Chat.Spoken: states tidiness of the spoken text, not its full content. The
  content is given by `TimerTags.StripTimerTags` and the lemmas about it.
- Chat.AutoStartIn: states only the non-voice case. The voice case is
  `Chat.CollectAutoStartIn`.

## Findings

| source | as written | input that shows it | evidently intended | confidence | as-written member | corrected member |
|---|---|---|---|---|---|---|
| src/app/app/ChatInterface.tsx:85-88 | from an hour up, hours are `floor(secs/3600)` and minutes are `round((secs % 3600)/60)`, so the minutes can round up to 60 | 7190 seconds (1 h 59 min 50 s) is announced as "1 hour and 60 minutes" | round to the minute first, then carry 60 minutes into the hours: "2 hours" | not executed | Chat.SixtyMinutesAsWritten | Chat.SpokenDurationMeaning |

The announcements model the code as written: `Chat.StartingLine` and
`Chat.StartedLine` use `Chat.SpokenDurationAsWritten`. `Chat.SpokenDuration`
is the corrected reference. `Chat.SpokenCountsAgree` shows the two agree
wherever the written minutes stay below 60.
