/** The conversation state of the chat panel: the entries, the input box and the
    single pending recipe choice, with the user actions that change them
    (sending, the disambiguation chips, accepting and dismissing suggested
    timers) and the arrival of a handled reply. */
module ChatState {
  import opened Wrappers
  import opened Text
  import opened Lists
  import opened Chat

  datatype State = State(messages: seq<ChatMessage>, input: string, pending: Option<Pending>)

  /** A `doSend(text, extraBody)` call that passes its guard: the request text
      and the optional `resolvedRecipeId` and `sessionId` of the body. */
  datatype Request = Request(text: string, resolvedRecipeId: Option<nat>, sessionId: Option<nat>)

  /** The state after an action and the request it makes, if any. */
  datatype Sent = Sent(state: State, request: Option<Request>)

  /** `doSend`'s guard on an authenticated panel: empty text sends nothing. */
  function DoSend(text: string, resolvedRecipeId: Option<nat>, sessionId: Option<nat>): (r: Option<Request>)
    ensures r.Some? <==> text != []
    ensures r.Some? ==> r.value == Request(text, resolvedRecipeId, sessionId)
  {
    if text == [] then None else Some(Request(text, resolvedRecipeId, sessionId))
  }

  /** The free-text test of a pending recipe candidate: the lowercased title
      contains the lowercased message, or the message contains the title's
      first word. */
  predicate Matches(title: string, message: string) {
    var lower := Lower(message);
    Contains(Lower(title), lower) || Contains(lower, FirstField(Lower(title), ' '))
  }

  /** `handleSendMessage(overrideText)`; an empty `overrideText` stands for none. */
  function SendMessage(st: State, overrideText: string, authenticated: bool, id: string): Sent {
    var text := if overrideText != [] then overrideText else Trim(st.input);
    if text == [] || !authenticated then Sent(st, None)
    else
      var shown := st.(messages := st.messages + [Plain(id, text, User)],
                       input := if overrideText == [] then [] else st.input);
      if st.pending.Some? && overrideText == [] then
        var p := st.pending.value;
        match FindIndex(p.recipes, (r: RecipeOption) => Matches(r.title, text))
        case Some(i) => Sent(shown.(pending := None), DoSend(p.text, Some(p.recipes[i].recipeId), None))
        case None => Sent(shown.(pending := None), DoSend(text, None, None))
      else Sent(shown, DoSend(text, None, None))
  }

  /** `handleRecipeChip`: resend the pending text with the chosen recipe. */
  function RecipeChip(st: State, recipeId: nat): Sent {
    match st.pending
    case None => Sent(st, None)
    case Some(p) => Sent(st.(pending := None), DoSend(p.text, Some(recipeId), None))
  }

  /** `handleSessionChip`: resend the original text to the chosen session. */
  function SessionChip(st: State, sessionId: nat, originalText: string): Sent {
    Sent(st, DoSend(originalText, None, Some(sessionId)))
  }

  /** A handled reply arrives: its entry is appended and the pending choice is
      replaced when the reply says so. */
  function Arrive(st: State, h: Handled): State {
    st.(messages := st.messages + [h.message],
        pending := if h.replacePending.Some? then h.replacePending else st.pending)
  }

  /** The suggestion filter of the accept and dismiss handlers: on the entry
      with the given id, drop the suggestions with the given label. */
  function RemoveSuggestion(ms: seq<ChatMessage>, msgId: string, name: string): (r: seq<ChatMessage>)
    ensures |r| == |ms|
  {
    seq(|ms|, k requires 0 <= k < |ms| =>
      if ms[k].id == msgId
      then ms[k].(timerSuggestions := Filter(ms[k].timerSuggestions, (t: Timer) => t.name != name))
      else ms[k])
  }

  /** `handleDismissTimer`. */
  function DismissTimer(st: State, msgId: string, name: string): State {
    st.(messages := RemoveSuggestion(st.messages, msgId, name))
  }

  /** The system entry that confirms an accepted timer. */
  function AcceptedLine(t: Timer): string {
    "Timer started: " + t.name + " (" + FormatTime(t.durationSeconds) + ")"
  }

  /** `handleAcceptTimer`: start the timer, drop its suggestion from the entry,
      confirm it, and ask for it to be persisted when there is a session. */
  function AcceptTimer(st: State, msgId: string, t: Timer, sessionId: nat, id: string): (State, seq<Output>) {
    var ms := RemoveSuggestion(st.messages, msgId, t.name) + [Plain(id, AcceptedLine(t), System)];
    (st.(messages := ms), [TimerStarted(t)] + (if sessionId > 0 then [PersistTimer(sessionId, t)] else []))
  }

  /* ---------------- sending ---------------- */

  /** Nothing happens when there is no text to send or no user signed in. */
  lemma SendGuard(st: State, overrideText: string, authenticated: bool, id: string)
    ensures var text := if overrideText != [] then overrideText else Trim(st.input);
      (text == [] || !authenticated) <==> SendMessage(st, overrideText, authenticated, id) == Sent(st, None)
  {
  }

  /** A message that is sent appears as the user's entry, the input box is
      emptied unless the text came from elsewhere, and the text typed is the
      trimmed input. */
  lemma SendShowsMessage(st: State, overrideText: string, id: string)
    requires overrideText != [] || !IsBlank(st.input)
    ensures var r := SendMessage(st, overrideText, true, id);
      var text := if overrideText != [] then overrideText else Trim(st.input);
      && r.state.messages == st.messages + [Plain(id, text, User)]
      && r.state.input == (if overrideText == [] then [] else st.input)
  {
  }

  /** A message from elsewhere (a chip, the voice controller) skips the pending
      choice, leaves it in place and is sent as it is. */
  lemma OverrideKeepsPending(st: State, overrideText: string, id: string)
    requires overrideText != []
    ensures var r := SendMessage(st, overrideText, true, id);
      r.state.pending == st.pending && r.request == Some(Request(overrideText, None, None))
  {
  }

  /** A typed message while a recipe choice is pending clears the choice either
      way. The first candidate, in list order, that matches the message wins:
      the pending text is resent with that recipe. Without a match the message
      itself is sent. */
  lemma PendingResolution(st: State, id: string)
    requires st.pending.Some? && !IsBlank(st.input)
    ensures var r := SendMessage(st, [], true, id);
      var text := Trim(st.input);
      var p := st.pending.value;
      && r.state.pending.None?
      && (forall i | 0 <= i < |p.recipes| ::
            (Matches(p.recipes[i].title, text) && forall j | 0 <= j < i :: !Matches(p.recipes[j].title, text))
            ==> r.request == DoSend(p.text, Some(p.recipes[i].recipeId), None))
      && ((forall i | 0 <= i < |p.recipes| :: !Matches(p.recipes[i].title, text))
            ==> r.request == DoSend(text, None, None))
  {
    var text := Trim(st.input);
    var p := st.pending.value;
    var found := FindIndex(p.recipes, (r: RecipeOption) => Matches(r.title, text));
    if found.Some? {
      forall i | 0 <= i < |p.recipes| &&
          Matches(p.recipes[i].title, text) && forall j | 0 <= j < i :: !Matches(p.recipes[j].title, text)
        ensures i == found.value
      {
      }
    }
  }

  /** A recipe chip without a pending choice does nothing; with one, it clears
      the choice and resends its text with the chosen recipe. */
  lemma RecipeChipResends(st: State, recipeId: nat)
    ensures st.pending.None? ==> RecipeChip(st, recipeId) == Sent(st, None)
    ensures st.pending.Some? ==>
      && RecipeChip(st, recipeId).state == st.(pending := None)
      && RecipeChip(st, recipeId).request == DoSend(st.pending.value.text, Some(recipeId), None)
  {
  }

  /** Only a recipe disambiguation question replaces the pending choice; any
      other reply leaves it as it was. */
  lemma ArriveKeepsPending(st: State, d: Payload, originalText: string, voice: bool, id: string, clean: string)
    ensures var after := Arrive(st, HandleWith(d, originalText, voice, id, clean));
      && |after.messages| == |st.messages| + 1
      && after.input == st.input
      && (Classify(d) == RecipeDisambiguation ==> after.pending == Some(Pending(d.pendingText, d.recipes)))
      && (Classify(d) != RecipeDisambiguation ==> after.pending == st.pending)
  {
    PendingReplacedIff(d, originalText, voice, id, clean);
  }

  /* ---------------- suggested timers ---------------- */

  /** Only the entry with the given id changes, and on it exactly the
      suggestions with the given label are dropped, the rest kept in order and
      with every copy. */
  lemma RemoveSuggestionSpec(ms: seq<ChatMessage>, msgId: string, name: string)
    ensures var r := RemoveSuggestion(ms, msgId, name);
      forall k | 0 <= k < |ms| ::
        && (ms[k].id != msgId ==> r[k] == ms[k])
        && (ms[k].id == msgId ==>
              && r[k] == ms[k].(timerSuggestions := r[k].timerSuggestions)
              && IsSubseq(r[k].timerSuggestions, ms[k].timerSuggestions)
              && (forall t :: t in r[k].timerSuggestions <==> t in ms[k].timerSuggestions && t.name != name)
              && (forall t: Timer :: t.name != name ==>
                    multiset(r[k].timerSuggestions)[t] == multiset(ms[k].timerSuggestions)[t]))
  {
    var r := RemoveSuggestion(ms, msgId, name);
    forall k | 0 <= k < |ms| && ms[k].id == msgId
      ensures IsSubseq(r[k].timerSuggestions, ms[k].timerSuggestions)
      ensures forall t :: t in r[k].timerSuggestions <==> t in ms[k].timerSuggestions && t.name != name
      ensures forall t: Timer :: t.name != name ==> multiset(r[k].timerSuggestions)[t] == multiset(ms[k].timerSuggestions)[t]
    {
      FilterSpec(ms[k].timerSuggestions, (t: Timer) => t.name != name);
    }
  }

  /** Dropping a label twice is the same as dropping it once. */
  lemma RemoveSuggestionIdempotent(ms: seq<ChatMessage>, msgId: string, name: string)
    ensures RemoveSuggestion(RemoveSuggestion(ms, msgId, name), msgId, name) == RemoveSuggestion(ms, msgId, name)
  {
    var r := RemoveSuggestion(ms, msgId, name);
    forall k | 0 <= k < |ms| && ms[k].id == msgId
      ensures Filter(r[k].timerSuggestions, (t: Timer) => t.name != name) == r[k].timerSuggestions
    {
      FilterAll(r[k].timerSuggestions, (t: Timer) => t.name != name);
    }
  }

  /** Accepting a timer starts exactly that timer, asks for it to be persisted
      exactly when there is a session, never refreshes the sessions itself, and
      confirms it in a system entry after the filtered entries. */
  lemma AcceptTimerEffects(st: State, msgId: string, t: Timer, sessionId: nat, id: string)
    ensures var (after, outs) := AcceptTimer(st, msgId, t, sessionId, id);
      && StartedTimers(outs) == [t]
      && PersistedTimers(outs) == (if sessionId > 0 then [t] else [])
      && Refreshes(outs) == 0 && Speech(outs) == []
      && after.messages == RemoveSuggestion(st.messages, msgId, t.name) + [Plain(id, AcceptedLine(t), System)]
      && after.input == st.input && after.pending == st.pending
  {
    var persist := if sessionId > 0 then [PersistTimer(sessionId, t)] else [];
    CollectAppend([TimerStarted(t)], persist);
  }

  /** Dismissing touches nothing but the suggestions of the one entry. */
  lemma DismissOnlyFilters(st: State, msgId: string, name: string)
    ensures var after := DismissTimer(st, msgId, name);
      && after.input == st.input && after.pending == st.pending
      && |after.messages| == |st.messages|
      && forall k | 0 <= k < |st.messages| ::
           && (st.messages[k].id != msgId ==> after.messages[k] == st.messages[k])
           && (st.messages[k].id == msgId ==>
                 after.messages[k] == st.messages[k].(timerSuggestions := after.messages[k].timerSuggestions))
  {
  }

  /* ---------------- an example ---------------- */

  /** A needle with a character the haystack lacks does not occur in it. */
  lemma MissingChar(hay: string, needle: string, c: char)
    requires c in needle && c !in hay
    ensures !Contains(hay, needle)
  {

  }

  /** With "Lemon Pasta" and "Garlic Pasta" pending, "garlic" matches only the
      second: the first title neither contains "garlic" nor has its first word
      in it. */
  lemma ExampleGarlic(lemon: string, garlic: string, msg: string)
    requires lemon == "Lemon Pasta" && garlic == "Garlic Pasta" && msg == "garlic"
    ensures !Matches(lemon, msg) && Matches(garlic, msg)
  {
    LemonLower(lemon);
    GarlicLower(garlic, msg);
    MissingChar("lemon pasta", msg, 'g');
    LemonFirstWord("lemon pasta");
    MissingChar(msg, "lemon", 'm');
    assert OccursAt("garlic pasta", msg, 0);
  }

  lemma LemonLower(x: string)
    requires x == "Lemon Pasta"
    ensures Lower(x) == "lemon pasta"
  {
  }

  lemma GarlicLower(x: string, msg: string)
    requires x == "Garlic Pasta" && msg == "garlic"
    ensures Lower(x) == "garlic pasta" && Lower(msg) == msg
  {
  }

  lemma LemonFirstWord(x: string)
    requires x == "lemon pasta"
    ensures FirstField(x, ' ') == "lemon"
  {
    assert x[5] == ' ' && x[..5] == "lemon";
    assert forall k | 0 <= k < 5 :: x[k] != ' ';
  }

  /** Typing "garlic" with those two recipes pending for "cook pasta" resends
      "cook pasta" with the second recipe's id. */
  lemma ExampleGarlicResolves(st: State, id: string)
    requires st.input == "garlic"
    requires st.pending == Some(Pending("cook pasta", [RecipeOption(1, "Lemon Pasta"), RecipeOption(2, "Garlic Pasta")]))
    ensures SendMessage(st, [], true, id).request == Some(Request("cook pasta", Some(2), None))
  {
    var p := st.pending.value;
    ExampleGarlic(p.recipes[0].title, p.recipes[1].title, st.input);
    TrimNoop(st.input);
    PendingResolution(st, id);
    assert Matches(p.recipes[1].title, Trim(st.input)) && !Matches(p.recipes[0].title, Trim(st.input));
  }
}
