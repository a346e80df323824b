/** The list editing of the profile panel: the dietary toggles, the tag inputs
    (Enter adds, Backspace on an empty input drops the last tag) and the tag
    remove buttons. */
module Profile {
  import opened Text
  import opened Lists

  /** `toggleDiet`: the lowercased diet is removed (every occurrence) when the
      list has it, and appended otherwise. */
  function ToggleDiet(diets: seq<string>, diet: string): seq<string> {
    var n := Lower(diet);
    if n in diets then Filter(diets, (d: string) => d != n) else diets + [n]
  }

  datatype Key = Enter | Backspace | OtherKey

  /** A tag input and the list it edits. */
  datatype TagField = TagField(input: string, tags: seq<string>)

  /** `handleTagKeyDown`. */
  function TagKeyDown(f: TagField, key: Key): TagField {
    if key == Enter && !IsBlank(f.input) then
      var v := Lower(Trim(f.input));
      TagField([], if v in f.tags then f.tags else f.tags + [v])
    else if key == Backspace && f.input == [] && |f.tags| > 0 then
      TagField(f.input, f.tags[..|f.tags| - 1])
    else f
  }

  /** `removeTag`. */
  function RemoveTag(tags: seq<string>, tag: string): seq<string> {
    Filter(tags, (t: string) => t != tag)
  }

  /* ---------------- toggling ---------------- */

  /** A present diet is removed everywhere and the rest keep their order and
      their number of copies; an absent one is appended in lower case. */
  lemma ToggleDietSpec(diets: seq<string>, diet: string)
    ensures var n := Lower(diet);
      var r := ToggleDiet(diets, diet);
      && (n in diets ==> IsSubseq(r, diets) && forall x :: x in r <==> x in diets && x != n)
      && (n in diets ==> forall x :: x != n ==> multiset(r)[x] == multiset(diets)[x])
      && (n !in diets ==> r == diets + [n])
  {
    var n := Lower(diet);
    if n in diets {
      FilterSpec(diets, (d: string) => d != n);
    }
  }

  /** Toggling an absent diet twice restores the list. */
  lemma ToggleTwice(diets: seq<string>, diet: string)
    requires Lower(diet) !in diets
    ensures ToggleDiet(ToggleDiet(diets, diet), diet) == diets
  {
    var n := Lower(diet);
    var keep := (d: string) => d != n;
    assert n in diets + [n];
    FilterAppend(diets, [n], keep);
    FilterAll(diets, keep);
    assert Filter([n], keep) == [];
  }

  /** Toggling keeps a list free of duplicates. */
  lemma ToggleKeepsDistinct(diets: seq<string>, diet: string)
    requires NoDuplicates(diets)
    ensures NoDuplicates(ToggleDiet(diets, diet))
  {
    var n := Lower(diet);
    if n in diets {
      FilterSpec(diets, (d: string) => d != n);
      SubseqKeepsDistinct(ToggleDiet(diets, diet), diets);
    } else {
      AppendAbsent(diets, n);
    }
  }

  lemma AppendAbsent(s: seq<string>, x: string)
    requires NoDuplicates(s) && x !in s
    ensures NoDuplicates(s + [x])
  {
    var r := s + [x];
    forall i, j | 0 <= i < j < |r|
      ensures r[i] != r[j]
    {
      if j == |s| {
        assert r[i] == s[i];
      }
    }
  }

  /* ---------------- tag inputs ---------------- */

  /** Enter with a non-blank input adds its trimmed, lowercased text unless the
      list has it, and empties the input either way; Enter with a blank input
      changes nothing. */
  lemma EnterSpec(f: TagField)
    ensures var r := TagKeyDown(f, Enter);
      var v := Lower(Trim(f.input));
      && (AllSpace(f.input) ==> r == f)
      && (!AllSpace(f.input) ==> r.input == [] && r.tags == (if v in f.tags then f.tags else f.tags + [v]))
  {
    BlankIffAllSpace(f.input);
  }

  /** Backspace drops exactly the last tag when the input is empty and the list
      is not; otherwise it changes nothing. */
  lemma BackspaceSpec(f: TagField)
    ensures var r := TagKeyDown(f, Backspace);
      && (f.input == [] && |f.tags| > 0 ==> r.input == [] && r.tags + [f.tags[|f.tags| - 1]] == f.tags)
      && (f.input != [] || f.tags == [] ==> r == f)
  {
  }

  /** Every key keeps the tag list free of duplicates. */
  lemma TagKeyKeepsDistinct(f: TagField, key: Key)
    requires NoDuplicates(f.tags)
    ensures NoDuplicates(TagKeyDown(f, key).tags)
  {
    if key == Enter && !IsBlank(f.input) {
      var v := Lower(Trim(f.input));
      if v !in f.tags {
        AppendAbsent(f.tags, v);
      }
    }
  }

  /** Removing a tag drops all its occurrences and keeps the others, each as
      often as before and in order. */
  lemma RemoveTagSpec(tags: seq<string>, tag: string)
    ensures var r := RemoveTag(tags, tag);
      && IsSubseq(r, tags)
      && tag !in r
      && forall x :: x != tag ==> multiset(r)[x] == multiset(tags)[x]
  {
    FilterSpec(tags, (t: string) => t != tag);
  }

  /* ---------------- lists built by editing ---------------- */

  /** The edits a tag or diet list goes through. */
  datatype Edit = Toggle(diet: string) | Press(input: string, key: Key) | Remove(tag: string)

  function ApplyEdit(tags: seq<string>, e: Edit): seq<string> {
    match e
    case Toggle(diet) => ToggleDiet(tags, diet)
    case Press(input, key) => TagKeyDown(TagField(input, tags), key).tags
    case Remove(tag) => RemoveTag(tags, tag)
  }

  function ApplyEdits(tags: seq<string>, es: seq<Edit>): seq<string>
    decreases |es|
  {
    if es == [] then tags else ApplyEdits(ApplyEdit(tags, es[0]), es[1..])
  }

  /** A list built from nothing by any sequence of edits has no duplicates. */
  lemma {:induction false} EditsKeepDistinct(tags: seq<string>, es: seq<Edit>)
    requires NoDuplicates(tags)
    ensures NoDuplicates(ApplyEdits(tags, es))
    decreases |es|
  {
    if es != [] {
      match es[0] {
        case Toggle(diet) => ToggleKeepsDistinct(tags, diet);
        case Press(input, key) => TagKeyKeepsDistinct(TagField(input, tags), key);
        case Remove(tag) =>
          RemoveTagSpec(tags, tag);
          SubseqKeepsDistinct(RemoveTag(tags, tag), tags);
      }
      EditsKeepDistinct(ApplyEdit(tags, es[0]), es[1..]);
    }
  }
}
