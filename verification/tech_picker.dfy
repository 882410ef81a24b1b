/** The technology picker shared by the submission form (which can also create a
    technology) and the list filters: the selected list, the search box and the
    suggestion list. */
module TechPicker {
  import opened Common
  import opened Seqs
  import opened Text
  import opened Store
  import TechCreate

  /** The picker's state: the selection, the search text and whether the popover is open. */
  datatype Picker = Picker(selected: seq<Technology>, query: string, open: bool)

  predicate IsSelected(selected: seq<Technology>, id: Id) {
    exists t :: t in selected && t.id == id
  }

  /** No technology is selected twice. */
  predicate DistinctIds(selected: seq<Technology>) {
    forall i, j :: 0 <= i < j < |selected| ==> selected[i].id != selected[j].id
  }

  /** `handleTechnologySelect`: an already-selected id changes nothing; otherwise the
      technology goes to the end, the search text is cleared and the popover closes. */
  function Select(p: Picker, t: Technology): (r: Picker)
    ensures IsSelected(p.selected, t.id) ==> r == p
    ensures !IsSelected(p.selected, t.id) ==>
      && r.selected == p.selected + [t]
      && r.query == ""
      && !r.open
    ensures IsSelected(r.selected, t.id)
  {
    if IsSelected(p.selected, t.id) then p
    else
      assert t in p.selected + [t];
      Picker(p.selected + [t], "", false)
  }

  function Without(id: Id): Technology -> bool {
    (t: Technology) => t.id != id
  }

  /** `handleTechnologyRemove`: drops every entry with that id, keeping the others in
      order; the search text and popover are untouched. */
  function Remove(p: Picker, id: Id): (r: Picker)
    ensures !IsSelected(r.selected, id)
    ensures forall t :: t in r.selected <==> t in p.selected && t.id != id
    ensures r.query == p.query && r.open == p.open
  {
    p.(selected := Filter(p.selected, Without(id)))
  }

  /** `filteredSuggestions`: the search results minus the selected technologies; no
      results (the search is disabled or has not answered) means no suggestions. */
  function Suggestions(selected: seq<Technology>, results: Option<seq<Technology>>): (r: seq<Technology>)
    ensures forall t :: t in r <==> t in results.GetOr([]) && !IsSelected(selected, t.id)
  {
    Filter(results.GetOr([]), (t: Technology) => !IsSelected(selected, t.id))
  }

  predicate SameName(t: Technology, query: string) {
    Lower(t.name) == Lower(query)
  }

  /** The position of the first entry at or after `i` whose name equals `query` up to case. */
  function FirstSameName(s: seq<Technology>, query: string, i: nat): (r: Option<nat>)
    requires i <= |s|
    ensures r.Some? ==> i <= r.value < |s| && SameName(s[r.value], query)
    ensures r.Some? ==> forall k :: i <= k < r.value ==> !SameName(s[k], query)
    ensures r.None? ==> forall k :: i <= k < |s| ==> !SameName(s[k], query)
    decreases |s| - i
  {
    if i == |s| then None
    else if SameName(s[i], query) then Some(i)
    else FirstSameName(s, query, i + 1)
  }

  /** `exactMatch`: the first suggestion whose name equals the search text up to case;
      the search text is not trimmed. */
  function ExactMatch(suggestions: seq<Technology>, query: string): (r: Option<Technology>)
    ensures r.Some? ==> r.value in suggestions && SameName(r.value, query)
    ensures r.None? <==> forall t :: t in suggestions ==> !SameName(t, query)
    ensures r.Some? ==>
      exists k :: 0 <= k < |suggestions| && suggestions[k] == r.value &&
        (forall i :: 0 <= i < k ==> !SameName(suggestions[i], query))
  {
    match FirstSameName(suggestions, query, 0)
    case Some(k) => Some(suggestions[k])
    case None =>
      assert forall t :: t in suggestions ==> !SameName(t, query) by {
        forall t | t in suggestions
          ensures !SameName(t, query)
        {
          var k :| 0 <= k < |suggestions| && suggestions[k] == t;
        }
      }
      None
  }

  /** `showCreateOption`: a non-blank search text, no exact match among the suggestions
      and no search in flight. */
  predicate ShowCreateOption(p: Picker, results: Option<seq<Technology>>, searching: bool) {
    Trim(p.query) != "" && ExactMatch(Suggestions(p.selected, results), p.query).None? && !searching
  }

  /** `handleCreateTechnology`: the name sent to the server, if any. */
  function CreateName(query: string): (r: Option<string>)
    ensures r.None? <==> forall k :: 0 <= k < |query| ==> IsWhitespace(query[k])
    ensures r.Some? ==> r.value == Trim(query) && r.value != "" && Trim(r.value) == r.value
  {
    TrimIdempotent(query);
    if Trim(query) != "" then Some(Trim(query)) else None
  }

  /** The create mutation's success handler: the new technology is appended with no
      duplicate check, and the search text and popover reset. */
  function CreateSucceeded(p: Picker, t: Technology): (r: Picker)
    ensures r.selected == p.selected + [t]
    ensures |r.selected| == |p.selected| + 1
    ensures r.query == "" && !r.open
  {
    Picker(p.selected + [t], "", false)
  }

  // ------------------------------------------------------------------ properties

  /** Selection and removal keep the selected list free of repeated ids. */
  lemma SelectionStaysDistinct(p: Picker, t: Technology, id: Id)
    requires DistinctIds(p.selected)
    ensures DistinctIds(Select(p, t).selected)
    ensures DistinctIds(Remove(p, id).selected)
  {
    var s := Select(p, t).selected;
    if !IsSelected(p.selected, t.id) {
      forall i, j | 0 <= i < j < |s|
        ensures s[i].id != s[j].id
      {
        if j == |p.selected| {
          assert s[i] in p.selected;
        }
      }
    }
    DistinctAfterFilter(p.selected, Without(id));
  }

  /** Filtering a list with distinct ids keeps the ids distinct. */
  lemma {:induction false} DistinctAfterFilter(s: seq<Technology>, f: Technology -> bool)
    requires DistinctIds(s)
    ensures DistinctIds(Filter(s, f))
  {
    if |s| > 0 {
      var rest := Filter(s[1..], f);
      assert DistinctIds(s[1..]) by {
        forall i, j | 0 <= i < j < |s[1..]|
          ensures s[1..][i].id != s[1..][j].id
        {
          assert s[1..][i] == s[i + 1] && s[1..][j] == s[j + 1];
        }
      }
      DistinctAfterFilter(s[1..], f);
      if f(s[0]) {
        var r := [s[0]] + rest;
        forall i, j | 0 <= i < j < |r|
          ensures r[i].id != r[j].id
        {
          if i == 0 {
            assert r[j] in s[1..];
            var k :| 0 <= k < |s[1..]| && s[1..][k] == r[j];
            assert s[k + 1] == r[j];
          }
        }
      }
    }
  }

  /** Removing an id nobody in the selection has changes nothing. */
  lemma RemoveAbsentKeepsAll(selected: seq<Technology>, id: Id)
    requires !IsSelected(selected, id)
    ensures Filter(selected, Without(id)) == selected
  {
    forall i | 0 <= i < |selected|
      ensures Without(id)(selected[i])
    {
      assert selected[i] in selected;
    }
    FilterAll(selected, Without(id));
  }

  /** Removing what was just selected restores the previous selection, order included. */
  lemma RemoveUndoesSelect(p: Picker, t: Technology)
    requires !IsSelected(p.selected, t.id)
    ensures Remove(Select(p, t), t.id).selected == p.selected
  {
    var f := Without(t.id);
    FilterAppend(p.selected, [t], f);
    RemoveAbsentKeepsAll(p.selected, t.id);
    FilterNone([t], f);
  }

  /** Removal keeps relative order: removing from a concatenation removes from each part. */
  lemma RemoveKeepsOrder(a: seq<Technology>, b: seq<Technology>, id: Id, query: string, open: bool)
    ensures Remove(Picker(a + b, query, open), id).selected
         == Remove(Picker(a, query, open), id).selected + Remove(Picker(b, query, open), id).selected
  {
    FilterAppend(a, b, Without(id));
  }

  /** No suggestion is already selected. */
  lemma SuggestionsDisjoint(selected: seq<Technology>, results: Option<seq<Technology>>)
    ensures forall t :: t in Suggestions(selected, results) ==> !(exists u :: u in selected && u.id == t.id)
  {
  }

  /** Because the exact match is looked for among the suggestions only, typing the name
      of an already-selected technology still offers to create it. */
  lemma SelectedNameOffersCreate(t: Technology, query: string)
    requires Trim(query) != "" && SameName(t, query)
    ensures ShowCreateOption(Picker([t], query, true), Some([t]), false)
  {
    assert t in [t];
    assert Suggestions([t], Some([t])) == [];
  }

  /** The create option compares with the untrimmed text, so a trailing blank hides the
      exact match and offers to create a name that exists. */
  lemma TrailingBlankOffersCreate()
    ensures var go := Technology(1, "go", 0);
      ShowCreateOption(Picker([], "go ", true), Some([go]), false)
  {
    var go := Technology(1, "go", 0);
    assert Lower("go ") == "go ";
    assert Lower("go") == "go";
    assert !IsWhitespace('g');
    assert Trim("go ") != "";
  }

  /** The name the picker sends is trimmed and non-blank, so the server's create keeps
      technology names unique up to case. */
  lemma PickerCreateKeepsNamesUnique(db: Db, query: string, now: int)
    requires TechCreate.NamesUnique(db)
    requires CreateName(query).Some?
    ensures TechCreate.NamesUnique(TechCreate.CreateTechnology(db, CreateName(query).value, now).0)
  {
    TechCreate.TrimmedCreateKeepsNamesUnique(db, CreateName(query).value, now);
  }

  /** The success handler does not look at the selection: appending a technology whose
      id is already selected breaks the no-repeat property Select keeps. */
  lemma CreateSucceededCanRepeat(t: Technology)
    ensures !DistinctIds(CreateSucceeded(Picker([t], "", true), t).selected)
  {
    var s := CreateSucceeded(Picker([t], "", true), t).selected;
    assert s[0].id == s[1].id;
  }
}
