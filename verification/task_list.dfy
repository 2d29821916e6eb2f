/** The task list's pure rules: the category menu, the search-and-category
    filter, and the category checkbox toggle. */
module TaskList {
  import opened Seqs
  import opened Text
  import opened TaskModel

  /** The category column of `tasks`, in order. */
  function CategoryColumn(tasks: seq<Task>): (r: seq<string>)
    ensures |r| == |tasks|
    ensures forall i :: 0 <= i < |r| ==> r[i] == tasks[i].category
  {
    seq(|tasks|, i requires 0 <= i < |tasks| => tasks[i].category)
  }

  /** The position of the first occurrence of `x` in `s`. */
  function FirstIndex(s: seq<string>, x: string): (r: nat)
    requires x in s
    ensures r < |s| && s[r] == x
    ensures forall k :: 0 <= k < r ==> s[k] != x
  {
    if s[0] == x then 0 else 1 + FirstIndex(s[1..], x)
  }

  /** A value not seen before position `i` first occurs at `i`. */
  lemma FirstIndexAt(s: seq<string>, i: nat)
    requires i < |s| && s[i] !in s[..i]
    ensures FirstIndex(s, s[i]) == i
  {
    assert forall k :: 0 <= k < i ==> s[..i][k] == s[k];
  }

  /** `Array.from(new Set(tasks.map(t => t.category)))`: every category that
      occurs, once, in the order of first occurrence. */
  method Categories(tasks: seq<Task>) returns (cats: seq<string>)
    ensures NoDuplicates(cats)
    ensures forall c :: c in cats <==> c in CategoryColumn(tasks)
    ensures forall c :: c in cats <==> exists i :: 0 <= i < |tasks| && tasks[i].category == c
    ensures forall a, b :: 0 <= a < b < |cats| ==>
              FirstIndex(CategoryColumn(tasks), cats[a]) < FirstIndex(CategoryColumn(tasks), cats[b])
  {
    var column := CategoryColumn(tasks);
    cats := [];
    var i := 0;
    while i < |column|
      invariant 0 <= i <= |column|
      invariant NoDuplicates(cats)
      invariant forall c :: c in cats <==> c in column[..i]
      invariant forall a :: 0 <= a < |cats| ==> cats[a] in column && FirstIndex(column, cats[a]) < i
      invariant forall a, b :: 0 <= a < b < |cats| ==> FirstIndex(column, cats[a]) < FirstIndex(column, cats[b])
    {
      var c := column[i];
      if c !in cats {
        FirstIndexAt(column, i);
        cats := cats + [c];
      }
      assert column[..i + 1] == column[..i] + [c];
      i := i + 1;
    }
    assert column[..i] == column;
    forall c | c in cats ensures exists j :: 0 <= j < |tasks| && tasks[j].category == c {
      var j := FirstIndex(column, c);
      assert tasks[j].category == c;
    }
  }

  /** The search half of the filter: the lowered query occurs in the lowered
      title, or in the lowered description when there is a non-empty one. */
  function MatchesSearch(t: Task, query: string): (r: bool)
    ensures r <==> (exists k :: OccursAt(Lower(t.title), Lower(query), k))
                   || (t.description.Some? && t.description.value != ""
                       && exists k :: OccursAt(Lower(t.description.value), Lower(query), k))
  {
    Includes(Lower(t.title), Lower(query))
    || (t.description.Some? && t.description.value != "" && Includes(Lower(t.description.value), Lower(query)))
  }

  /** The category half of the filter: no selection, or the task's category is selected. */
  predicate MatchesCategory(t: Task, selected: seq<string>): (r: bool)
    ensures r <==> |selected| == 0 || exists i :: 0 <= i < |selected| && selected[i] == t.category
  {
    |selected| == 0 || t.category in selected
  }

  /** `filteredTasks`: the tasks passing both halves, in list order. */
  function FilteredTasks(tasks: seq<Task>, query: string, selected: seq<string>): (r: seq<Task>)
    ensures SubsequenceOf(r, tasks)
    ensures forall i :: 0 <= i < |r| ==> MatchesSearch(r[i], query) && MatchesCategory(r[i], selected)
    ensures forall t :: multiset(r)[t] == if MatchesSearch(t, query) && MatchesCategory(t, selected) then multiset(tasks)[t] else 0
  {
    var keep := (t: Task) => MatchesSearch(t, query) && MatchesCategory(t, selected);
    FilterMultiset(tasks, keep);
    Filter(tasks, keep)
  }

  /** Without a selection the category half keeps everything: only the search decides. */
  lemma EmptySelectionIsSearchOnly(tasks: seq<Task>, query: string)
    ensures FilteredTasks(tasks, query, []) == Filter(tasks, (t: Task) => MatchesSearch(t, query))
  {
    FilterCongruent(tasks, (t: Task) => MatchesSearch(t, query) && MatchesCategory(t, []),
                    (t: Task) => MatchesSearch(t, query));
  }

  /** With an empty query and no selection every task is shown, in order. */
  lemma NoFilterShowsAll(tasks: seq<Task>)
    ensures FilteredTasks(tasks, "", []) == tasks
  {
    forall i | 0 <= i < |tasks| ensures MatchesSearch(tasks[i], "") {
      IncludesEmpty(Lower(tasks[i].title));
    }
    FilterKeepsAll(tasks, (t: Task) => MatchesSearch(t, "") && MatchesCategory(t, []));
  }

  /** The search ignores ASCII case in the query. */
  lemma SearchIgnoresQueryCase(t: Task, query: string)
    ensures MatchesSearch(t, Lower(query)) == MatchesSearch(t, query)
  {
    LowerIdempotent(query);
  }

  /** The checkbox handler: checking appends the category, unchecking removes
      every occurrence of it. */
  function ToggleCategory(selected: seq<string>, category: string, checked: bool): (r: seq<string>)
    ensures checked ==> r == selected + [category]
    ensures !checked ==> category !in r && SubsequenceOf(r, selected)
    ensures !checked ==> forall c :: c != category ==> multiset(r)[c] == multiset(selected)[c]
  {
    if checked then selected + [category]
    else
      FilterMultiset(selected, (c: string) => c != category);
      Filter(selected, (c: string) => c != category)
  }

  /** Checking a category that was not selected and unchecking it again restores the selection. */
  lemma ToggleRoundTrip(selected: seq<string>, category: string)
    requires category !in selected
    ensures ToggleCategory(ToggleCategory(selected, category, true), category, false) == selected
  {
    var p := (c: string) => c != category;
    FilterAppend(selected, [category], p);
    FilterKeepsAll(selected, p);
  }

  /** After checking a category, its tasks pass the category half of the filter;
      after unchecking it they pass only when nothing else stays selected. */
  lemma ToggleAndCategoryFilter(t: Task, selected: seq<string>)
    ensures MatchesCategory(t, ToggleCategory(selected, t.category, true))
    ensures MatchesCategory(t, ToggleCategory(selected, t.category, false))
            <==> |ToggleCategory(selected, t.category, false)| == 0
  {
  }
}
