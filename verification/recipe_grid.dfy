/** The recipe library grid: the search box's filter and the import box. */
module RecipeGrid {
  import opened Wrappers
  import opened Text
  import opened Lists

  /** A saved recipe; an absent cuisine is the empty string, which JavaScript
      treats as false just like `undefined`. */
  datatype Recipe = Recipe(id: string, title: string, cuisine: string, steps: nat)

  /** The search box keeps a recipe whose title, or whose cuisine when it has
      one, contains the query, ignoring case. */
  predicate Shows(r: Recipe, query: string) {
    || Contains(Lower(r.title), Lower(query))
    || (r.cuisine != [] && Contains(Lower(r.cuisine), Lower(query)))
  }

  /** `filteredRecipes`. */
  function Search(recipes: seq<Recipe>, query: string): seq<Recipe> {
    Filter(recipes, (r: Recipe) => Shows(r, query))
  }

  /** The list shown is the library in its own order, keeping exactly the
      recipes that match, each once per occurrence. */
  lemma SearchSpec(recipes: seq<Recipe>, query: string)
    ensures var r := Search(recipes, query);
      && IsSubseq(r, recipes)
      && (forall x :: x in r <==> x in recipes && Shows(x, query))
      && (forall x | Shows(x, query) :: multiset(r)[x] == multiset(recipes)[x])
  {
    FilterSpec(recipes, (r: Recipe) => Shows(r, query));
  }

  /** An empty search box shows the whole library. */
  lemma EmptyQueryShowsAll(recipes: seq<Recipe>)
    ensures Search(recipes, []) == recipes
  {
    forall k | 0 <= k < |recipes|
      ensures Shows(recipes[k], [])
    {
      ContainsEmpty(Lower(recipes[k].title));
    }
    FilterAll(recipes, (r: Recipe) => Shows(r, []));
  }

  /** The search ignores the case of the query. */
  lemma SearchIgnoresCase(recipes: seq<Recipe>, query: string)
    ensures Search(recipes, query) == Search(recipes, Lower(query))
  {
    LowerIdempotent(query);
    FilterCongruent(recipes, (r: Recipe) => Shows(r, query), (r: Recipe) => Shows(r, Lower(query)));
  }

  /** Typing more characters into the search box can only narrow the list. */
  lemma TypingNarrows(recipes: seq<Recipe>, query: string, more: string)
    ensures IsSubseq(Search(recipes, query + more), Search(recipes, query))
  {
    forall x | Shows(x, query + more)
      ensures Shows(x, query)
    {
      assert Lower(query + more) == Lower(query) + Lower(more);
      if Contains(Lower(x.title), Lower(query + more)) {
        ContainsPrefix(Lower(x.title), Lower(query), Lower(more));
      } else {
        ContainsPrefix(Lower(x.cuisine), Lower(query), Lower(more));
      }
    }
    FilterMonotone(recipes, (r: Recipe) => Shows(r, query + more), (r: Recipe) => Shows(r, query));
  }

  lemma ContainsPrefix(hay: string, a: string, b: string)
    requires Contains(hay, a + b)
    ensures Contains(hay, a)
  {
    var i :| 0 <= i <= |hay| && OccursAt(hay, a + b, i);
    assert hay[i..i + |a|] == (a + b)[..|a|];
    assert OccursAt(hay, a, i);
  }

  /* ---------------- import ---------------- */

  /** The import box: the URL handed to the importer (if any) and what the box
      holds afterwards. */
  datatype ImportStep = ImportStep(requested: Option<string>, box: string)

  /** `handleImport`: a blank box does nothing; otherwise the URL is passed on
      as typed (untrimmed) and the box is cleared. */
  function Import(box: string): (r: ImportStep)
    ensures r.requested.Some? ==> r.requested.value == box && r.box == []
    ensures r.requested.None? ==> r.box == box
  {
    if IsBlank(box) then ImportStep(None, box) else ImportStep(Some(box), [])
  }

  /** The importer is called exactly when the box holds something other than
      white space. */
  lemma ImportIff(box: string)
    ensures Import(box).requested.Some? <==> !AllSpace(box)
  {
    BlankIffAllSpace(box);
  }
}
