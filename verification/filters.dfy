/** The listing's filter state, held both by the filters context and by the list page:
    draft inputs the user edits, the applied query parameters, and the transitions
    apply, clear, page change and sort change, plus the pagination controls. */
module Filters {
  import opened Common
  import opened Store
  import opened ClientQueries

  /** What the user is editing before applying: search text, salary slider, technologies. */
  datatype Drafts = Drafts(searchInput: string, salaryLow: int, salaryHigh: int, selected: seq<Technology>)

  datatype FilterState = FilterState(filters: Params, drafts: Drafts)

  /** The applied parameters a fresh page starts with. */
  function InitialParams(): Params {
    Params(Some(1), Some(20), Some(0), Some(50000), Some(""), Some([]), None, Some(Recent))
  }

  function InitialDrafts(): Drafts {
    Drafts("", 0, 50000, [])
  }

  function Initial(): FilterState {
    FilterState(InitialParams(), InitialDrafts())
  }

  /** `applyFilters` / `handleApplyFilters`: the drafts become the applied search,
      salary bounds and technology ids (in selection order) and the page goes back to
      1; everything else is kept. */
  function Apply(st: FilterState): (r: FilterState)
    ensures r.drafts == st.drafts
    ensures r.filters.page == Some(1)
    ensures r.filters.searchQuery == Some(st.drafts.searchInput)
    ensures r.filters.salaryMin == Some(st.drafts.salaryLow) && r.filters.salaryMax == Some(st.drafts.salaryHigh)
    ensures r.filters.technologyIds.Some? && |r.filters.technologyIds.value| == |st.drafts.selected|
    ensures forall i :: 0 <= i < |st.drafts.selected| ==> r.filters.technologyIds.value[i] == st.drafts.selected[i].id
  {
    var d := st.drafts;
    st.(filters := st.filters.(searchQuery := Some(d.searchInput), salaryMin := Some(d.salaryLow),
                               salaryMax := Some(d.salaryHigh), technologyIds := Some(IdsOf(d.selected)),
                               page := Some(1)))
  }

  /** Applying keeps the page size and both sort settings. */
  lemma ApplyKeepsOtherFields(st: FilterState)
    ensures var f := Apply(st).filters;
      f.perPage == st.filters.perPage && f.sort == st.filters.sort && f.sortSalary == st.filters.sortSalary
  {
  }

  /** Applying twice without editing the drafts is the same as applying once. */
  lemma ApplyIdempotent(st: FilterState)
    ensures Apply(Apply(st)) == Apply(st)
  {
  }

  /** `clearFilters` in the filters context: it resets the drafts and writes the
      applied parameters out again, ending in exactly the initial state. */
  function ClearContext(st: FilterState): (r: FilterState)
    ensures r == Initial()
    ensures r.drafts.searchInput == "" && r.drafts.salaryLow == 0 && r.drafts.salaryHigh == 50000 && r.drafts.selected == []
  {
    FilterState(Params(Some(1), Some(20), Some(0), Some(50000), Some(""), Some([]), None, Some(Recent)),
                Drafts("", 0, 50000, []))
  }

  /** `clearFilters` on the list page: the drafts reset as in the context, but the
      applied parameters ask for the older salary sort, descending, instead of
      "recent". */
  function ClearList(st: FilterState): (r: FilterState)
    ensures r.drafts == InitialDrafts()
    ensures r.filters == InitialParams().(sortSalary := Some(Desc), sort := None)
  {
    FilterState(Params(Some(1), Some(20), Some(0), Some(50000), Some(""), Some([]), Some(Desc), None), InitialDrafts())
  }

  /** `filters.sort ?? "recent"`: what the sort selector shows. */
  function SelectorValue(p: Params): (v: SortOption)
    ensures p.sort.Some? ==> v == p.sort.value
    ensures p.sort.None? ==> v == Recent
  {
    p.sort.GetOr(Recent)
  }

  /** After the list page's clear, the selector shows "recent" but the listing comes back
      highest salary first; the context's clear gives most recent first. */
  lemma ClearedListSortsBySalary(st: FilterState)
    ensures var p := ClearList(st).filters;
      && ChooseOrder(p.sort, p.sortSalary) == OrderSpec(Salary, false)
      && SelectorValue(p) == Recent
      && ChooseOrder(Some(SelectorValue(p)), None) == OrderSpec(CreatedAt, false)
    ensures var p := ClearContext(st).filters;
      ChooseOrder(p.sort, p.sortSalary) == OrderSpec(CreatedAt, false)
  {
  }

  /** `handlePageChange`: only the page changes. */
  function PageChange(st: FilterState, newPage: int): (r: FilterState)
    ensures r.filters.page == Some(newPage)
    ensures r.filters.(page := st.filters.page) == st.filters && r.drafts == st.drafts
  {
    st.(filters := st.filters.(page := Some(newPage)))
  }

  /** The sort selector's change handler: the chosen sort applies from page 1. */
  function SortChange(st: FilterState, s: SortOption): (r: FilterState)
    ensures r.filters.sort == Some(s) && r.filters.page == Some(1)
    ensures r.filters.(sort := st.filters.sort, page := st.filters.page) == st.filters && r.drafts == st.drafts
  {
    st.(filters := st.filters.(sort := Some(s), page := Some(1)))
  }

  /** Once a sort is chosen the older salary setting no longer matters. */
  lemma ChosenSortOverridesSalarySort(st: FilterState, s: SortOption, d: Option<Direction>)
    ensures var p := SortChange(st, s).filters;
      ChooseOrder(p.sort, p.sortSalary) == ChooseOrder(Some(s), d)
  {
  }

  // ---------------------------------------------------------------- pagination

  /** The pagination bar is shown only when there is more than one page. */
  predicate ShowPagination(totalPages: int) {
    totalPages > 1
  }

  predicate PreviousEnabled(page: int) {
    page != 1
  }

  predicate NextEnabled(page: int, totalPages: int) {
    page != totalPages
  }

  /** From a page within range, the enabled buttons lead to a page within range. */
  lemma PaginationStaysInRange(page: int, totalPages: int)
    requires 1 <= page <= totalPages
    ensures PreviousEnabled(page) ==> 1 <= page - 1 <= totalPages
    ensures NextEnabled(page, totalPages) ==> 1 <= page + 1 <= totalPages
    ensures !ShowPagination(totalPages) ==> !PreviousEnabled(page) && !NextEnabled(page, totalPages)
  {
  }

  /** A page number the pagination can show starts its range within the rows. */
  lemma {:induction false} ShownPageStartsWithin(n: int, perPage: int, total: nat)
    requires perPage >= 1 && 1 <= n <= TotalPages(total, perPage)
    ensures !OutOfRange(RangeOf(n, perPage).0, total)
  {
    var t := TotalPages(total, perPage);
    if n > 1 {
      assert (t - 1) * perPage < total;
      assert (n - 1) * perPage <= (t - 1) * perPage by {
        assert (t - 1) * perPage - (n - 1) * perPage == (t - n) * perPage;
      }
    }
  }

  /** Every page the pagination reports can be fetched: its range starts within the
      selected rows, so the query does not fail. */
  lemma ReportedPagesFetch(db: Db, p: Params, n: int)
    requires FetchSubmissions(db, p).Success?
    requires 1 <= n <= FetchSubmissions(db, p).value.totalPages
    ensures FetchSubmissions(db, p.(page := Some(n))).Success?
  {
    var perPage := PositiveOr(p.perPage, 20);
    var total := SelectedCount(db, p);
    assert FetchSubmissions(db, p).value.totalPages == TotalPages(total, perPage);
    var p' := p.(page := Some(n));
    assert WhereOf(p') == WhereOf(p);
    assert SelectedCount(db, p') == total;
    ShownPageStartsWithin(n, perPage, total);
  }

  /** With the initial filters every listed salary is at most 50000 cents. */
  lemma InitialFiltersCapSalary(db: Db, i: int)
    requires WellFormed(db)
    requires FetchSubmissions(db, InitialParams()).Success?
    requires 0 <= i < |FetchSubmissions(db, InitialParams()).value.items|
    ensures 0 <= FetchSubmissions(db, InitialParams()).value.items[i].salary <= 50000
  {
    FetchedSatisfyFilters(db, InitialParams(), i);
  }
}
