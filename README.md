# Star Wars figures catalogue — a Dafny model of its list logic

The application fetches every page of a paginated list of figures, then shows the figures in two views:

- The catalogue shows them sorted by one chosen field, ten per page.
- The filter view first narrows them with four text inputs, then sorts and pages what matches.

This project models the logic behind both views and the fetch loop, and proves what that logic promises.

- `Figures` (`figures.dfy`): the figure record, the four sortable properties, and JavaScript's string `<` as lexicographic order on characters, proved a strict total order.
- `Text` (`text.dfy`): ASCII `toLowerCase` and `includes`. `includes` is proved equal to "occurs at some index".
- `Sorting` (`sorting.dfy`): the sort comparator both views use, proved consistent. It also has:
  - the sort itself, proved to give a permutation ordered by the comparator;
  - the `handleSort` toggle and the direction button;
  - a proof that, with distinct keys, the descending sort is the ascending sort reversed.
- `Paging` (`paging.dfy`): `Math.ceil(n / 10)`, ECMAScript `slice`, and the page window. It proves that pages 1 to `totalPages` laid end to end give back the whole list. It also covers the guarded previous and next moves and the buttons' `disabled` conditions.
- `Debounce` (`debounce.dfy`): the single-slot debounce, as a class and as a trace of call and elapse events. A burst of calls runs the function once, with the last call's arguments.
- `FetchData` (`fetch.dfy`): the shared store (`data`, `loading`, `error`, `currentPage`) and the `fetchAllData` loop. The loop is proved against a specification function (`Follow`), whose properties are proved as lemmas.
- `Filter` (`filter.dfy`) and `Catalogue` (`catalogue.dfy`): the two view components. Each is a class holding its sort state and a reference to the shared store.

The network is a parameter: a function from locator to response. A response is either a rejection with a message or an `ok` flag with the parsed `{ results, next }`.

## Model

| member | source | states |
|---|---|---|
| Figures.Key | src/components/Filter.tsx:73-74 | `a[sortField]` is the figure record's entry under that property name |
| Figures.Less | src/components/Filter.tsx:73-74 | `a < b` holds exactly when, at the first index where they differ, `a` has ended or has the smaller character |
| Figures.LessIrreflexive | src/components/Filter.tsx:73-74 | no string is less than itself |
| Figures.LessAsymmetric | src/components/Filter.tsx:73-74 | `a < b` and `b < a` never both hold |
| Figures.LessTotal | src/components/Filter.tsx:73-74 | any two strings are equal or one is less than the other |
| Figures.LessTransitive | src/components/Filter.tsx:73-74 | string `<` is transitive |
| Text.LowerChar | src/components/Filter.tsx:44 | a lowered character is never an upper-case ASCII letter; a character that is not upper-case is unchanged |
| Text.ToLower | src/components/Filter.tsx:37 | lowering keeps the length and lowers each character in place |
| Text.Includes | src/components/Filter.tsx:44-45 | `includes` is true exactly when the substring occurs at some index |
| Text.EmptyIncludedEverywhere | src/components/Filter.tsx:37-38 | an empty name or birth-year input is contained in every string |
| Sorting.Compare | src/components/Filter.tsx:72-76 | the comparator answers -1, 0 or 1; negative exactly when `a`'s key is less (ascending) or greater (descending) than `b`'s, positive in the mirrored case |
| Sorting.CompareAntisymmetric | src/components/Filter.tsx:72-76 | swapping the comparator's arguments negates its answer |
| Sorting.CompareZeroIffSameKey | src/components/Filter.tsx:75 | the comparator answers 0 exactly for equal keys |
| Sorting.CompareTransitive | src/components/Filter.tsx:72-76 | the "goes no later than" relation of the comparator is transitive |
| Sorting.CompareDescMirrorsAsc | src/components/Filter.tsx:73-74 | the descending comparator is the ascending one with arguments swapped |
| Sorting.Insert | src/components/Filter.tsx:72 | inserting adds exactly one element to the multiset |
| Sorting.InsertSorted | src/components/Filter.tsx:72-76 | inserting into a sorted list keeps it sorted |
| Sorting.SortFigures | src/components/Filter.tsx:72 | the sort of a copy gives a permutation of its input |
| Sorting.SortFiguresSorted | src/components/Filter.tsx:72-76 | in the sorted list, no element comes after one the comparator puts behind it |
| Sorting.SortedBy | src/components/Catalogue.tsx:20-29 | with no field, or the empty "None" field, the list is unchanged; otherwise it is a sorted permutation |
| Sorting.SelectDirection | src/components/Catalogue.tsx:13-17 | the new direction is descending exactly when the same field is re-selected while ascending |
| Sorting.ReselectAlternates | src/components/Filter.tsx:63-67 | selecting the field just selected again always reverses the direction |
| Sorting.Flipped | src/components/Catalogue.tsx:73 | the direction button always changes the direction |
| Sorting.FlipTwiceIsIdentity | src/components/Catalogue.tsx:73 | pressing the direction button twice restores the direction |
| Sorting.SortedUnique | src/components/Filter.tsx:72-76 | with distinct keys, two sorted permutations of one list are equal |
| Sorting.ReverseOfAscIsDesc | src/components/Filter.tsx:73-74 | an ascending list read backwards is descending |
| Sorting.DescIsReversedAsc | src/components/Catalogue.tsx:24-28 | with distinct keys, sorting descending gives exactly the ascending result reversed |
| Paging.TotalPages | src/components/Filter.tsx:89 | the page count is the fewest pages of 10 that hold all items |
| Paging.TotalPagesZeroIffEmpty | src/components/Catalogue.tsx:34 | there are no pages exactly when there are no items |
| Paging.ResolveIndex | src/components/Filter.tsx:85 | a `slice` index is counted from the end when negative and clamped to the length |
| Paging.Slice | src/components/Filter.tsx:85 | a slice is never longer than the list; for indices from 0 up it is the items from `start` to before `end`, both clamped to the length, and empty when `end` does not pass `start` |
| Paging.PageWindow | src/components/Filter.tsx:82-86 | a page has at most 10 items; page `p >= 1` is `[(p-1)*10, p*10)` clipped to the list |
| Paging.PageSizes | src/components/Catalogue.tsx:37-42 | every page before the last is full, the last is not empty, pages beyond it are empty |
| Paging.PagesArePrefix | src/components/Catalogue.tsx:37-42 | the first k pages together are the list's first `min(10k, n)` items |
| Paging.PagesCoverAll | src/components/Catalogue.tsx:34-42 | pages 1 to `totalPages` together are exactly the list, in order |
| Paging.PreviousPage | src/components/Filter.tsx:92-96 | moves back one page only past page 1, and keeps the page within `1..max(1, totalPages)` |
| Paging.NextPage | src/components/Filter.tsx:99-103 | moves on one page only before `totalPages`, and keeps the page within `1..max(1, totalPages)` |
| Paging.PreviousDisabled | src/components/Filter.tsx:148 | "Previous" is disabled exactly on a page from 1 up where going back would not move |
| Paging.NextDisabled | src/components/Filter.tsx:152 | "Next" is disabled exactly when going on would not move |
| Paging.DisabledIffNoMove | src/components/Filter.tsx:148-152 | on a page in range, each button is disabled exactly when its move would do nothing |
| Paging.EmptyListDisablesBoth | src/components/Catalogue.tsx:84-88 | with no items there are no pages and both buttons are disabled on page 1 |
| Debounce.Step | src/components/Filter.tsx:11-19 | a call leaves its own arguments pending and runs nothing; an elapsed timer runs its arguments once, after the earlier runs, and leaves nothing pending |
| Debounce.RunAppend | src/components/Filter.tsx:9-21 | running two event sequences one after the other is running their concatenation |
| Debounce.BurstArmsLast | src/components/Filter.tsx:11-19 | a burst of calls runs nothing and leaves only the last call's arguments pending |
| Debounce.BurstCoalesces | src/components/Filter.tsx:9-21 | a burst of calls followed by one elapsed delay runs the function exactly once, with the last arguments |
| Debounce.OnlyCalledArgumentsRun | src/components/Filter.tsx:9-21 | runs only append, at most one per elapsed delay, and each run uses arguments some call passed |
| Debounce.LatestCallPending | src/components/Filter.tsx:12-19 | after a call its arguments, and only they, are pending; nothing has run |
| Debounce.Debouncer.constructor | src/components/Filter.tsx:9-10 | a new debounced function has no timer pending and has run nothing |
| Debounce.Debouncer.Call | src/components/Filter.tsx:11-20 | a call replaces any pending timer with one carrying its arguments |
| Debounce.Debouncer.TimerElapsed | src/components/Filter.tsx:16-19 | when the delay passes, the pending arguments run once and nothing stays pending |
| FetchData.Truthy | src/hooks/useFetchData.tsx:18 | a locator is followed exactly when it is neither null nor the empty string |
| FetchData.FailureOf | src/hooks/useFetchData.tsx:20-33 | no failure exactly for an ok response; a rejection records its own message, a response that is not ok the fixed not-ok message |
| FetchData.Follow | src/hooks/useFetchData.tsx:18-28 | a cycle requests something iff the initial locator is truthy, that locator comes first, and no requested locator is empty |
| FetchData.FollowRequestsChain | src/hooks/useFetchData.tsx:18-28 | each requested page before the last was ok, and its `next` is the next locator requested, which is not empty |
| FetchData.FollowContinuesIffTruthyNext | src/hooks/useFetchData.tsx:18-28 | after an ok page the cycle requests another locator exactly when that page's `next` is truthy |
| FetchData.FollowCompletedItems | src/hooks/useFetchData.tsx:26-30 | a completed cycle saw only ok pages, collected their `results` concatenated in request order, and ended on a falsy `next` |
| FetchData.FollowFailedStops | src/hooks/useFetchData.tsx:19-23 | a failed cycle stops at the first failing response, and records that response's message |
| FetchData.FollowFuelIrrelevant | src/hooks/useFetchData.tsx:18 | the result of a cycle does not depend on the termination bound |
| FetchData.FollowUnfold | src/hooks/useFetchData.tsx:19-28 | one request either ends the cycle with its failure or continues from the page's `next` |
| FetchData.Store.constructor | src/hooks/useFetchData.tsx:4-7 | initial state: no data, loading, no error, page 1 |
| FetchData.Store.SetCurrentPage | src/hooks/useFetchData.tsx:7 | sets the page without clamping and changes nothing else |
| FetchData.Store.FetchAllData | src/hooks/useFetchData.tsx:11-40 | on success `data` is the concatenation of all pages and `error` is untouched; on failure `data` is kept and `error` is the message; `loading` ends false; the page is untouched |
| FetchData.ThreePageCycle | src/hooks/useFetchData.tsx:15-30 | three linked pages of 2, 2 and 1 figures give all 5 in page order, no error, not loading, after 3 requests |
| FetchData.FirstPageNotOk | src/hooks/useFetchData.tsx:20-22 | a non-ok first page leaves no data, records the not-ok message, ends loading, and makes no second request |
| Filter.ReadQuery | src/components/Filter.tsx:37-40 | the name input is read lowered, so it holds no upper-case letter; the other three are read as typed |
| Filter.Matches | src/components/Filter.tsx:43-48 | a figure matches exactly when its lowered name contains the name query, its birth year contains the birth-year query, and gender and skin colour equal their queries unless those are empty |
| Filter.FilterFigures | src/components/Filter.tsx:42-49 | a figure is kept iff all four field tests hold, as often as it occurs in the data |
| Filter.FilterIsSubsequence | src/components/Filter.tsx:42-49 | the matches are a subsequence of the data, in the data's order |
| Filter.NoFilterKeepsAll | src/components/Filter.tsx:37-47 | with all four inputs empty the result is the data itself |
| Filter.FilterIdempotent | src/components/Filter.tsx:42-49 | filtering the matches again with the same inputs changes nothing |
| Filter.FilterView.constructor | src/components/Filter.tsx:25-60 | on mount there is no sort field and the direction is ascending; the mount effect filters with the empty inputs, so the matches are the data and the page is 1 |
| Filter.FilterView.HandleFilter | src/components/Filter.tsx:36-53 | the matches are recomputed from the store's data and the page is reset to 1, which is in range |
| Filter.FilterView.HandleSort | src/components/Filter.tsx:63-67 | the field becomes the clicked one and the direction follows the toggle rule |
| Filter.FilterView.SortedData | src/components/Filter.tsx:70-77 | unsorted matches while no field is chosen, otherwise a sorted permutation of them |
| Filter.FilterView.TotalPages | src/components/Filter.tsx:89 | the page count is that of the matches, whatever the sort |
| Filter.FilterView.PaginatedData | src/components/Filter.tsx:82-86 | at most 10 sorted matches, the current page's window |
| Filter.FilterView.HandlePrevious | src/components/Filter.tsx:92-96 | only the page changes, back one when past page 1, staying in range |
| Filter.FilterView.HandleNext | src/components/Filter.tsx:99-103 | only the page changes, on one when before the last page, staying in range |
| Catalogue.CatalogueView.constructor | src/components/Catalogue.tsx:9-10 | on mount no sort field is chosen and the direction is ascending |
| Catalogue.SelectChangeAscends | src/components/Catalogue.tsx:66 | choosing an option other than the one shown always sorts ascending |
| Catalogue.CatalogueView.HandleSort | src/components/Catalogue.tsx:13-17 | the field becomes the selected option and the direction follows the toggle rule |
| Catalogue.CatalogueView.ToggleDirection | src/components/Catalogue.tsx:73 | the direction flips and the sort field is left unchanged |
| Catalogue.CatalogueView.SortedData | src/components/Catalogue.tsx:20-29 | the data unchanged for no field or "None", otherwise a sorted permutation of it |
| Catalogue.CatalogueView.TotalPages | src/components/Catalogue.tsx:34 | the page count is that of the data, whatever the sort |
| Catalogue.CatalogueView.PaginatedData | src/components/Catalogue.tsx:37-42 | at most 10 sorted figures, the current page's window |
| Catalogue.CatalogueView.HandlePrevious | src/components/Catalogue.tsx:45-49 | only the page changes, back one when past page 1, staying in range |
| Catalogue.CatalogueView.HandleNext | src/components/Catalogue.tsx:52-56 | only the page changes, on one when before the last page, staying in range |

## Left out

- Rendering: the JSX, CSS classes, arrow glyphs, the match count line and the loading and error status lines.
- React plumbing (`useState`, `useEffect`, `useCallback`, refs, the context provider). Their state is modelled as class fields.
  - `Filter.FilterView.HandleFilter` stands for both the debounced change handler and the effect's immediate recomputation when the data changes; the same effect's first run, on mount, is part of `Filter.FilterView.constructor`.
  - The debounce is re-created on every render. It is modelled as one standalone `Debouncer` object that is not wired to the form.
- The context accessor's throw when used outside its provider, and the routing and navigation links. These hold no list logic.
- Real `fetch`, `response.json()` and awaiting. The network is a parameter, and a page's body is given already parsed.
  - A body that fails to parse, or whose `results` is not an array, is not modelled.
  - A rejected fetch records its own message. The `'Error'` fallback for a thrown non-`Error` value cannot arise from `fetch`.
  - `loading` is set to true at the start of the cycle. The model runs the cycle without suspending at each await, so the in-flight `loading == true`, during which the views show their loading line, cannot be observed in it; only the final false value is.
- `FetchData.Store.FetchAllData`: a chain of `next` locators that never ends (a cycle) makes the original loop run forever. The model requires the chain to end within a ghost bound (`ChainEnds`), and `FollowFuelIrrelevant` shows that the bound does not affect the result.
- Wall-clock timing of `setTimeout` and `clearTimeout` and the 300 ms delay. A debounce is modelled as discrete call and elapse events.
- Full Unicode `toLowerCase` and UTF-16 string comparison. Lower-casing covers ASCII letters only, and strings compare by Unicode scalar value, which differs from UTF-16 order only above U+FFFF.
- Equal keys: the order the sort leaves them in is not stated, because the source does not promise one. The model's sort happens to be stable.
- The catalogue's select is not controlled: `Catalogue.CatalogueView.HandleSort` can only be reached with an option other than the one shown, so it always sorts ascending there (`Catalogue.SelectChangeAscends`) and descending is reached only through the direction button. The shown option itself is not modelled as state.
- Sorting by a property outside the four named ones, or by an option value outside the select's list, is excluded by `Valid()` and the `requires` of `HandleSort`. The callers never pass such a value.
