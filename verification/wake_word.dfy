/** Wake-phrase detection (`extractCommand` in `useVoiceController.ts`). */
module WakeWord {
  import opened Wrappers
  import opened Text

  /** The accepted spellings of the wake phrase, tried in this order. */
  const WakePhrases: seq<string> := ["hey sous", "hey sue", "hey souz", "hey soos"]

  /** Milliseconds the follow-up window stays open after a bare wake phrase. */
  const FollowUpTimeoutMs: nat := 6000

  /** `k` is the first phrase in list order that occurs in `lower` (its position
      in `lower` plays no part). */
  predicate FirstInListOrder(phrases: seq<string>, lower: string, k: int) {
    && 0 <= k < |phrases|
    && Contains(lower, phrases[k])
    && forall j | 0 <= j < k :: !Contains(lower, phrases[j])
  }

  /** Index of the first phrase of `phrases`, in list order, contained in `lower`. */
  function MatchedPhrase(phrases: seq<string>, lower: string): (r: Option<nat>)
    ensures r.Some? ==> FirstInListOrder(phrases, lower, r.value)
    ensures r.None? <==> forall j | 0 <= j < |phrases| :: !Contains(lower, phrases[j])
  {
    if |phrases| == 0 then None
    else if Contains(lower, phrases[0]) then Some(0)
    else match MatchedPhrase(phrases[1..], lower)
      case None => None
      case Some(k) => Some(k + 1)
  }

  /** The trimmed text after the first of `phrases` (in list order) found in the
      lower-cased transcript, or None when none of them occurs. */
  function ExtractWith(phrases: seq<string>, transcript: string): Option<string> {
    var lower := Lower(transcript);
    match MatchedPhrase(phrases, lower)
    case None => None
    case Some(k) =>
      var i := IndexOf(lower, phrases[k]).value;
      Some(Trim(transcript[i + |phrases[k]|..]))
  }

  /** `extractCommand`: the wake-phrase extraction with the fixed phrase list. */
  function ExtractCommand(transcript: string): Option<string> {
    ExtractWith(WakePhrases, transcript)
  }

  /** `MatchedPhrase` finds exactly the first phrase in list order. */
  lemma MatchedPhraseIs(phrases: seq<string>, lower: string, k: nat)
    requires FirstInListOrder(phrases, lower, k)
    ensures MatchedPhrase(phrases, lower) == Some(k)
  {
    var m := MatchedPhrase(phrases, lower);
    assert m.Some?;
  }

  /** `IndexOf` finds exactly the first occurrence. */
  lemma IndexOfIs(hay: string, needle: string, i: nat)
    requires OccursAt(hay, needle, i) && forall j | 0 <= j < i :: !OccursAt(hay, needle, j)
    ensures IndexOf(hay, needle) == Some(i)
  {
    var m := IndexOf(hay, needle);
    assert Contains(hay, needle);
    assert m.Some?;
  }

  /** Characterisation: when phrase `k` is the first in list order that occurs and
      `i` is its first position, the command is the trimmed text after it. */
  lemma ExtractWithSpec(phrases: seq<string>, transcript: string, k: nat, i: nat)
    requires FirstInListOrder(phrases, Lower(transcript), k)
    requires OccursAt(Lower(transcript), phrases[k], i)
    requires forall j | 0 <= j < i :: !OccursAt(Lower(transcript), phrases[k], j)
    ensures ExtractWith(phrases, transcript) == Some(Trim(transcript[i + |phrases[k]|..]))
  {
    MatchedPhraseIs(phrases, Lower(transcript), k);
    IndexOfIs(Lower(transcript), phrases[k], i);
    ExtractWithUnfold(phrases, transcript, k, i);
  }

  lemma ExtractWithUnfold(phrases: seq<string>, transcript: string, k: nat, i: nat)
    requires MatchedPhrase(phrases, Lower(transcript)) == Some(k)
    requires IndexOf(Lower(transcript), phrases[k]) == Some(i)
    ensures ExtractWith(phrases, transcript) == Some(Trim(transcript[i + |phrases[k]|..]))
  {
  }

  /** `extractCommand` returns None exactly when no wake phrase occurs in the
      lower-cased transcript; otherwise the trimmed text after the first phrase
      in list order, cut at that phrase's first occurrence. */
  lemma ExtractCommandSpec(transcript: string, k: nat, i: nat)
    requires FirstInListOrder(WakePhrases, Lower(transcript), k)
    requires OccursAt(Lower(transcript), WakePhrases[k], i)
    requires forall j | 0 <= j < i :: !OccursAt(Lower(transcript), WakePhrases[k], j)
    ensures ExtractCommand(transcript) == Some(Trim(transcript[i + |WakePhrases[k]|..]))
    ensures ExtractCommand(transcript).Some?
  {
    ExtractWithSpec(WakePhrases, transcript, k, i);
  }

  /** No command exactly when no wake phrase occurs. */
  lemma ExtractCommandNone(transcript: string)
    ensures ExtractCommand(transcript).None? <==> forall j | 0 <= j < |WakePhrases| :: !Contains(Lower(transcript), WakePhrases[j])
  {
    var m := MatchedPhrase(WakePhrases, Lower(transcript));
    assert ExtractCommand(transcript).None? <==> m.None?;
  }

  /** A command never has white space at either end. */
  lemma CommandIsTrimmed(transcript: string)
    requires ExtractCommand(transcript).Some?
    ensures Trim(ExtractCommand(transcript).value) == ExtractCommand(transcript).value
  {
    var lower := Lower(transcript);
    var k := MatchedPhrase(WakePhrases, lower).value;
    var i := IndexOf(lower, WakePhrases[k]).value;
    ExtractWithUnfold(WakePhrases, transcript, k, i);
    TrimIdempotent(transcript[i + |WakePhrases[k]|..]);
  }

  /** The phrases are tried in list order, not by earliest position: once
      "hey sous" occurs, the command follows its first occurrence even when
      another spelling ("hey sue, hey sous stir") occurs earlier. */
  lemma ListOrderBeatsPosition(transcript: string, i: nat)
    requires OccursAt(Lower(transcript), WakePhrases[0], i)
    requires forall j | 0 <= j < i :: !OccursAt(Lower(transcript), WakePhrases[0], j)
    ensures ExtractCommand(transcript) == Some(Trim(transcript[i + |WakePhrases[0]|..]))
  {
    assert FirstInListOrder(WakePhrases, Lower(transcript), 0);
    ExtractCommandSpec(transcript, 0, i);
  }

  /** A bare wake phrase yields the empty command. */
  lemma BarePhrase()
    ensures ExtractCommand("Hey Sous") == Some("")
  {
    assert Lower("Hey Sous") == "hey sous";
    assert OccursAt("hey sous", WakePhrases[0], 0);
    assert FirstInListOrder(WakePhrases, "hey sous", 0);
    ExtractCommandSpec("Hey Sous", 0, 0);
  }

  /** Text without a wake phrase yields no command. */
  lemma MissingPhrase()
    ensures ExtractCommand("stir") == None
  {
    var t := Lower("stir");
    NoRoom(t, "hey sous");
    NoRoom(t, "hey sue");
    NoRoom(t, "hey souz");
    NoRoom(t, "hey soos");
    ExtractCommandNone("stir");
  }
}
