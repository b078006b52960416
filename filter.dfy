/** The filter view: a four-field filter over the fetched figures, then the shared
    sort and page window over what matches. */
module Filter {
  import opened Wrappers
  import opened Figures
  import opened Text
  import opened Sorting
  import Paging
  import opened FetchData

  /** The values of the four inputs of the form; an unmounted input reads as "". */
  datatype FilterInputs = FilterInputs(name: string, birthYear: string, gender: string, skinColor: string)

  /** All four inputs empty, as they are when the view mounts. */
  const NoFilter := FilterInputs("", "", "", "")

  /** The inputs as `handleFilter` holds them once read: the name lowered, the rest as typed. */
  datatype Query = Query(name: string, birthYear: string, gender: string, skinColor: string)

  /** Reading the inputs: only the name is lowered, so it holds no upper-case letter. */
  function ReadQuery(inputs: FilterInputs): (q: Query)
    ensures q.name == ToLower(inputs.name)
    ensures forall i :: 0 <= i < |q.name| ==> !IsUpper(q.name[i])
    ensures q.birthYear == inputs.birthYear && q.gender == inputs.gender && q.skinColor == inputs.skinColor
  {
    Query(ToLower(inputs.name), inputs.birthYear, inputs.gender, inputs.skinColor)
  }

  /** The figure's name as compared by the filter, lowered. */
  function LoweredName(fig: Figure): string {
    ToLower(fig.name)
  }

  /** The filter predicate: the lowered name contains the (lowered) name query, the birth
      year contains the birth-year query, and gender and skin colour equal their queries
      unless those are empty. */
  predicate Matches(fig: Figure, q: Query)
    ensures Matches(fig, q) <==>
      (exists i :: OccursAt(LoweredName(fig), q.name, i)) &&
      (exists j :: OccursAt(fig.birthYear, q.birthYear, j)) &&
      (q.gender == "" || fig.gender == q.gender) &&
      (q.skinColor == "" || fig.skinColor == q.skinColor)
  {
    && Includes(LoweredName(fig), q.name)
    && Includes(fig.birthYear, q.birthYear)
    && (q.gender == "" || fig.gender == q.gender)
    && (q.skinColor == "" || fig.skinColor == q.skinColor)
  }

  /** `data.filter(...)`: every matching figure, as often as it occurs, and nothing else. */
  function FilterFigures(data: seq<Figure>, q: Query): (r: seq<Figure>)
    ensures forall x :: multiset(r)[x] == if Matches(x, q) then multiset(data)[x] else 0
    ensures forall x :: x in r <==> x in data && Matches(x, q)
  {
    if data == [] then []
    else
      assert data == [data[0]] + data[1..];
      (if Matches(data[0], q) then [data[0]] else []) + FilterFigures(data[1..], q)
  }

  /** `a` is `b` with some elements left out, the rest in their original order. */
  predicate IsSubsequence(a: seq<Figure>, b: seq<Figure>)
    decreases |b|
  {
    if a == [] then true
    else if b == [] then false
    else (a[0] == b[0] && IsSubsequence(a[1..], b[1..])) || IsSubsequence(a, b[1..])
  }

  lemma {:induction false} FilterIsSubsequence(data: seq<Figure>, q: Query)
    ensures IsSubsequence(FilterFigures(data, q), data)
    decreases |data|
  {
    if data != [] {
      FilterIsSubsequence(data[1..], q);
      var r := FilterFigures(data, q);
      var rest := FilterFigures(data[1..], q);
      if Matches(data[0], q) {
        assert r == [data[0]] + rest;
        assert r[1..] == rest;
      } else {
        assert r == rest;
      }
    }
  }

  /** Empty inputs keep every figure: the result is the data, in its order. */
  lemma {:induction false} NoFilterKeepsAll(data: seq<Figure>)
    ensures FilterFigures(data, ReadQuery(NoFilter)) == data
    decreases |data|
  {
    if data != [] {
      EmptyIncludedEverywhere(LoweredName(data[0]));
      EmptyIncludedEverywhere(data[0].birthYear);
      assert ReadQuery(NoFilter) == Query("", "", "", "");
      assert Matches(data[0], ReadQuery(NoFilter));
      NoFilterKeepsAll(data[1..]);
      assert data == [data[0]] + data[1..];
    }
  }

  /** Filtering twice with the same inputs is filtering once. */
  lemma {:induction false} FilterIdempotent(data: seq<Figure>, q: Query)
    ensures FilterFigures(FilterFigures(data, q), q) == FilterFigures(data, q)
    decreases |data|
  {
    if data != [] {
      FilterIdempotent(data[1..], q);
      var rest := FilterFigures(data[1..], q);
      if Matches(data[0], q) {
        var r := [data[0]] + rest;
        assert r[0] == data[0] && r[1..] == rest;
        assert FilterFigures(data, q) == r;
        assert FilterFigures(r, q) == [data[0]] + FilterFigures(rest, q);
      } else {
        assert FilterFigures(data, q) == rest;
      }
    }
  }

  /** The filter component's state; the page number lives in the shared store. */
  class FilterView {
    const store: Store
    var filteredData: seq<Figure>
    var sortField: Option<string>
    var sortDirection: Direction

    ghost predicate Valid()
      reads this
    {
      sortField.Some? ==> IsField(sortField.value)
    }

    /** Mounting: unsorted and ascending, and the mount effect filters at once with the
        still empty inputs, which keeps every figure and goes back to page 1. */
    constructor (store: Store)
      modifies store`currentPage
      ensures this.store == store && Valid()
      ensures filteredData == store.data && sortField == None && sortDirection == Asc
      ensures store.currentPage == 1
    {
      this.store := store;
      NoFilterKeepsAll(store.data);
      filteredData := FilterFigures(store.data, ReadQuery(NoFilter));
      sortField := None;
      sortDirection := Asc;
      new;
      store.SetCurrentPage(1);
    }

    /** `handleFilter`: recompute the matches from the store's data and go back to page 1,
        which is always a page of the new range. */
    method HandleFilter(inputs: FilterInputs)
      requires Valid()
      modifies this`filteredData, store`currentPage
      ensures Valid()
      ensures filteredData == FilterFigures(store.data, ReadQuery(inputs))
      ensures store.currentPage == 1
      ensures Paging.InRange(store.currentPage, TotalPages())
    {
      filteredData := FilterFigures(store.data, ReadQuery(inputs));
      store.SetCurrentPage(1);
    }

    /** `handleSort` for one of the four sort arrows. */
    method HandleSort(field: string)
      requires Valid() && IsField(field)
      modifies this`sortField, this`sortDirection
      ensures Valid()
      ensures sortField == Some(field)
      ensures sortDirection == SelectDirection(old(sortField), old(sortDirection), field)
    {
      sortDirection := SelectDirection(sortField, sortDirection, field);
      sortField := Some(field);
    }

    /** `getSortedData`: the matches as they are while no field is chosen, otherwise the
        matches reordered by the chosen field and direction. */
    function SortedData(): (r: seq<Figure>)
      reads this
      requires Valid()
      ensures sortField == None ==> r == filteredData
      ensures multiset(r) == multiset(filteredData)
      ensures sortField.Some? ==> Sorted(r, sortField.value, sortDirection)
    {
      SortedBy(filteredData, sortField, sortDirection)
    }

    /** `totalPages`: sorting keeps the count, so the pages are those of the matches. */
    function TotalPages(): (r: nat)
      reads this
      requires Valid()
      ensures r == Paging.TotalPages(|filteredData|)
    {
      Paging.TotalPages(|SortedData()|)
    }

    /** `getPaginatedData`: at most PageSize of the sorted matches, from the current page's window. */
    function PaginatedData(): (r: seq<Figure>)
      reads this, store
      requires Valid()
      ensures |r| <= Paging.PageSize
      ensures store.currentPage >= 1 ==>
        r == SortedData()[Paging.Min((store.currentPage - 1) * Paging.PageSize, |filteredData|)
                          ..Paging.Min(store.currentPage * Paging.PageSize, |filteredData|)]
    {
      Paging.PageWindow(SortedData(), store.currentPage)
    }

    /** `handlePrevious`: only the page changes, and only when past page 1. */
    method HandlePrevious()
      requires Valid()
      modifies store`currentPage
      ensures store.currentPage == Paging.PreviousPage(old(store.currentPage))
      ensures Paging.InRange(old(store.currentPage), TotalPages()) ==>
        Paging.InRange(store.currentPage, TotalPages())
    {
      if store.currentPage > 1 {
        store.SetCurrentPage(store.currentPage - 1);
      }
    }

    /** `handleNext`: only the page changes, and only when before the last page. */
    method HandleNext()
      requires Valid()
      modifies store`currentPage
      ensures store.currentPage == Paging.NextPage(old(store.currentPage), TotalPages())
      ensures Paging.InRange(old(store.currentPage), TotalPages()) ==>
        Paging.InRange(store.currentPage, TotalPages())
    {
      if store.currentPage < TotalPages() {
        store.SetCurrentPage(store.currentPage + 1);
      }
    }
  }
}
