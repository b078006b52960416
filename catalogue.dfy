/** The catalogue view: every fetched figure, optionally sorted, one page at a time. */
module Catalogue {
  import opened Wrappers
  import opened Figures
  import opened Sorting
  import Paging
  import opened FetchData

  /** The values of the "Sort by" options: "None" is the empty string. */
  predicate IsOption(value: string) {
    value == "" || IsField(value)
  }

  /** The select reports a change only when the chosen option differs from the one shown,
      and the one shown is the last chosen ("None" before any): so choosing from it always
      sorts ascending, and descending is reached only through the direction button. */
  lemma SelectChangeAscends(current: Option<string>, dir: Direction, value: string)
    requires current == None ==> value != ""
    requires current.Some? ==> value != current.value
    ensures SelectDirection(current, dir, value) == Asc
  {
  }

  /** The catalogue component's state; the data and the page number live in the shared store. */
  class CatalogueView {
    const store: Store
    var sortField: Option<string>
    var sortDirection: Direction

    ghost predicate Valid()
      reads this
    {
      sortField.Some? ==> IsOption(sortField.value)
    }

    /** Mounting: unsorted, ascending. */
    constructor (store: Store)
      ensures this.store == store && Valid()
      ensures sortField == None && sortDirection == Asc
    {
      this.store := store;
      sortField := None;
      sortDirection := Asc;
    }

    /** `handleSort` with the value of the chosen option, "None" included. */
    method HandleSort(value: string)
      requires Valid() && IsOption(value)
      modifies this`sortField, this`sortDirection
      ensures Valid()
      ensures sortField == Some(value)
      ensures sortDirection == SelectDirection(old(sortField), old(sortDirection), value)
    {
      sortDirection := SelectDirection(sortField, sortDirection, value);
      sortField := Some(value);
    }

    /** The direction button: the direction swaps, the chosen field stays. */
    method ToggleDirection()
      modifies this`sortDirection
      ensures sortDirection == Flipped(old(sortDirection))
    {
      sortDirection := Flipped(sortDirection);
    }

    /** `getSortedData`: the data as fetched while no field or "None" is chosen, otherwise
        the data reordered by the chosen field and direction. */
    function SortedData(): (r: seq<Figure>)
      reads this, store
      requires Valid()
      ensures !SortActive(sortField) ==> r == store.data
      ensures multiset(r) == multiset(store.data)
      ensures SortActive(sortField) ==> Sorted(r, sortField.value, sortDirection)
    {
      SortedBy(store.data, sortField, sortDirection)
    }

    /** `totalPages`: the same whatever the sort state, since sorting keeps the count. */
    function TotalPages(): (r: nat)
      reads this, store
      requires Valid()
      ensures r == Paging.TotalPages(|store.data|)
    {
      Paging.TotalPages(|SortedData()|)
    }

    /** `getPaginatedData`: at most PageSize of the sorted data, from the current page's window. */
    function PaginatedData(): (r: seq<Figure>)
      reads this, store
      requires Valid()
      ensures |r| <= Paging.PageSize
      ensures store.currentPage >= 1 ==>
        r == SortedData()[Paging.Min((store.currentPage - 1) * Paging.PageSize, |store.data|)
                          ..Paging.Min(store.currentPage * Paging.PageSize, |store.data|)]
    {
      Paging.PageWindow(SortedData(), store.currentPage)
    }

    /** `handlePrevious`: only the page changes, and only when past page 1. */
    method HandlePrevious()
      requires Valid()
      modifies store`currentPage
      ensures store.currentPage == Paging.PreviousPage(old(store.currentPage))
      ensures Paging.InRange(old(store.currentPage), TotalPages()) ==>
        Paging.InRange(store.currentPage, TotalPages())
    {
      if store.currentPage > 1 {
        store.SetCurrentPage(store.currentPage - 1);
      }
    }

    /** `handleNext`: only the page changes, and only when before the last page. */
    method HandleNext()
      requires Valid()
      modifies store`currentPage
      ensures store.currentPage == Paging.NextPage(old(store.currentPage), TotalPages())
      ensures Paging.InRange(old(store.currentPage), TotalPages()) ==>
        Paging.InRange(store.currentPage, TotalPages())
    {
      if store.currentPage < TotalPages() {
        store.SetCurrentPage(store.currentPage + 1);
      }
    }
  }
}
