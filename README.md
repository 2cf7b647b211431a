# Ticket ordering, title filter and accordion open-state engine

A Dafny model of the core of a small ticket-triage page: tickets are ordered by business
priority and recency, filtered by a case-insensitive title search, and shown as accordion
panels whose open state is kept by a store in one of two modes.

- `priority.dfy` (`Priorities`): the `Priority` enum and `PriorityWeight`.
- `ticket.dfy` (`Tickets`): the `Ticket` record; `updatedAt` is an `int` of milliseconds,
  the value of `getTime()`.
- `ticket_sorter.dfy` (`TicketSorter`): `compareTickets` and `sortTickets`. The sort is a
  stable insertion sort. It is proved to be a sorted permutation that keeps ties in input
  order, and to be the only sequence with those properties. So it is the result of any
  stable sort with this comparator, `Array.prototype.sort` among them.
- `js_string.dfy` (`JsString`): `trim` over the ECMAScript white-space and line-terminator
  code points, `toLowerCase` for ASCII letters, and `includes`.
- `title_filter.dfy` (`TitleFilter`): `FilterTicketsByTitle.execute`.
- `js_set.dfy` (`JsSet`): a JavaScript `Set<string>`, kept as a duplicate-free sequence in
  insertion order. That is the order `for...of` visits it in, and single mode depends on it.
- `open_state.dfy` (`OpenState`): the open-state rules, as functions of the shown list, the
  mode and the remembered ids. It also holds the `for...of` scan behind `visibleOpenIds` as a
  method proved against its function.
- `tickets_store.dfy` (`Store`): the store as a class with fields `all`, `query`,
  `openIds` and `mode`.
  - The getters are functions reading those fields.
  - The actions are methods. Each states its whole new state through the `OpenState`
    functions.
  - Each action keeps the invariant `Valid()`: `openIds` has no duplicates, and in single
    mode, if any ticket is shown, some remembered id is shown.
  - The loops of `setOpenIndices` and `closeAllVisible` carry invariants that tie them to
    those functions.
- `store_properties.dfy` (`StoreProperties`): properties that span several actions, such as
  the sticky round trip in single mode and hidden ids surviving in multiple mode.
- `seed_scenario.dfy` (`SeedScenario`): the six seed tickets of the in-memory repository.
  It gives their sorted order, and the store's state after loading them and after toggling
  in multiple mode.

Switching to single mode with several remembered ids, one of them shown, leaves `openIds`
as it is (`useTicketsStore.ts:207-215`). Only `visibleOpenIds` reports one id: the first
shown one in insertion order, as `StoreProperties.SwitchToSingle` states. The test at
`tests/tickets.store.spec.ts:388-406` covers less than its title says: its first toggle closes
the panel that loading opened, so only one id is remembered at the switch, and it checks only
that one id is reported.

## Model

| member | source | states |
|---|---|---|
| `Priorities.Weight` | src/domain/value-objects/Priority.ts:3-7 | every weight lies in 1..3 |
| `Priorities.WeightTable` | src/domain/value-objects/Priority.ts:3-7 | high weighs 3, medium 2, low 1, and the weights are strictly ordered high > medium > low |
| `Priorities.WeightInjective` | src/domain/value-objects/Priority.ts:3-7 | equal weights exactly when the priorities are equal, which the weight-difference test of the comparator relies on |
| `TicketSorter.CompareTickets` | src/domain/services/ticketSorter.ts:9-18 | a higher-weight ticket sorts first whatever the dates; with equal priority, `a` sorts first exactly when it was updated later; zero exactly when priority and timestamp both agree |
| `TicketSorter.CompareAntisymmetric` | src/domain/services/ticketSorter.ts:9-18 | `compare(a,b) == -compare(b,a)` |
| `TicketSorter.CompareTransitive` | src/domain/services/ticketSorter.ts:9-18 | `<= 0` is transitive, and strictly so when either step is strict |
| `TicketSorter.Insert` | src/domain/services/ticketSorter.ts:21 | one insertion step of the sort adds exactly the one ticket: the multiset grows by it and the length by one |
| `TicketSorter.InsertKeepsSorted` | src/domain/services/ticketSorter.ts:21 | inserting into a sorted sequence keeps it sorted |
| `TicketSorter.SortTickets` | src/domain/services/ticketSorter.ts:20-22 | the result is a permutation of the input (as a multiset), every pair in order compares `<= 0`, and priority weights never increase along it; the input is a value and is not changed |
| `TicketSorter.InsertTies` | src/domain/services/ticketSorter.ts:21 | insertion places a tying ticket in front of the tickets it ties with and leaves other tie classes alone |
| `TicketSorter.SortStable` | src/domain/services/ticketSorter.ts:21 | for every key, the tickets with that priority and timestamp appear in the sorted result in their input order |
| `TicketSorter.SortedTiesDetermine` | src/domain/services/ticketSorter.ts:21 | two sorted sequences with the same tie classes in the same orders are equal |
| `TicketSorter.SortIsUniqueStableSort` | src/domain/services/ticketSorter.ts:21 | any sorted sequence that keeps every tie class of the input in input order equals `SortTickets` of the input, so every stable sort with this comparator gives the same answer |
| `JsString.TrimStart` | src/application/use-cases/FilterTicketsByTitle.ts:5-9 | the front half of `trim`: a suffix of the string with only white space before it, starting with a non-white-space code point when non-empty |
| `JsString.TrimEnd` | src/application/use-cases/FilterTicketsByTitle.ts:5-9 | the back half of `trim`: a prefix of the string with only white space after it, ending with a non-white-space code point when non-empty |
| `JsString.Trim` | src/application/use-cases/FilterTicketsByTitle.ts:5-9 | the trimmed query is a slice of the query with only white space before and after it; it is empty exactly when the query is all white space; otherwise it starts and ends with a non-white-space code point |
| `JsString.ToLowerChar` | src/application/use-cases/FilterTicketsByTitle.ts:9-12 | an upper-case ASCII letter becomes the lower-case letter at the same place in the alphabet; every other code point is kept; no upper-case ASCII letter comes out; white space stays white space |
| `JsString.ToLower` | src/application/use-cases/FilterTicketsByTitle.ts:9-12 | `toLowerCase` keeps the length and lowers each code point in place, leaves no upper-case ASCII letter, and keeps a string all white space exactly when it was |
| `JsString.ToLowerIdempotent` | src/application/use-cases/FilterTicketsByTitle.ts:9-12 | lowering twice is lowering once |
| `JsString.IncludesBounds` | src/application/use-cases/FilterTicketsByTitle.ts:12 | `includes` finds the empty string in every string, and finds nothing longer than the string |
| `JsString.IncludesSlice` | src/application/use-cases/FilterTicketsByTitle.ts:12 | every slice of a string is found by `includes` in it, and in any string built around it |
| `JsString.TrimIgnoresPadding` | src/application/use-cases/FilterTicketsByTitle.ts:5-9 | white space in front of and behind a string does not change its trimmed form |
| `TitleFilter.NormalizedQuery` | src/application/use-cases/FilterTicketsByTitle.ts:9 | the normalised query is no longer than the query, empty exactly for a blank query, otherwise without white space at either end, and holds no upper-case ASCII letter |
| `TitleFilter.KeepMatching` | src/application/use-cases/FilterTicketsByTitle.ts:11-13 | `Array.filter` by title: a subsequence of the input holding exactly the input tickets whose lowercased title contains the needle, each matching ticket as many times as in the input |
| `TitleFilter.FilterTicketsByTitle` | src/application/use-cases/FilterTicketsByTitle.ts:4-14 | a blank query returns the input unchanged; otherwise a ticket is kept exactly when its lowercased title contains the trimmed, lowercased query (sound and complete), as many times as in the input; always a subsequence of the input, no longer than it |
| `TitleFilter.FilterIdempotent` | src/application/use-cases/FilterTicketsByTitle.ts:11-13 | filtering the filtered list with the same query changes nothing |
| `TitleFilter.FilterIgnoresPadding` | src/application/use-cases/FilterTicketsByTitle.ts:5-9 | white space around the query does not change the result |
| `TitleFilter.FilteredIdsAreIds` | src/application/use-cases/FilterTicketsByTitle.ts:11-13 | every id shown after filtering is an id of the unfiltered list |
| `JsSet.Add` | src/ui/stores/useTicketsStore.ts:155-160 | `Set.add`: the members become the old ones plus `x`; the old members keep their order at the front; an existing member changes nothing; no duplicates arise |
| `JsSet.Delete` | src/ui/stores/useTicketsStore.ts:180-183 | `Set.delete`: exactly `x` leaves, the others keep their relative order, an absent `x` changes nothing, no duplicates arise |
| `JsSet.DeleteAppend` | src/ui/stores/useTicketsStore.ts:180-183 | deleting a value the front part does not hold only affects the back part |
| `OpenState.FirstShownIndex` | src/ui/stores/useTicketsStore.ts:65-70 | the position, in insertion order, of the first remembered id that is shown; every earlier one is hidden; it is past the end exactly when no remembered id is shown |
| `OpenState.OpenShown` | src/ui/stores/useTicketsStore.ts:55-58 | the filter-then-map of multiple mode: a subsequence of the shown ids (so in display order) holding exactly the remembered ids that are shown, each as many times as it is shown |
| `OpenState.AnyShownReportsOpen` | src/ui/stores/useTicketsStore.ts:208-210 | the `some` test that a remembered id is shown holds exactly when multiple mode reports some panel open |
| `OpenState.VisibleOpen` | src/ui/stores/useTicketsStore.ts:52-74 | `visibleOpenIds` holds only shown ids. In multiple mode it is exactly the remembered shown ids, in display order, each as many times as it is shown. In single mode it is empty exactly when nothing is shown; otherwise it is one id: the first shown id in insertion order, or `filtered[0].id` when none is shown |
| `OpenState.ScanVisibleOpenIds` | src/ui/stores/useTicketsStore.ts:60-73 | the `for...of` scan with early return computes `VisibleOpen` |
| `OpenState.SingleModeOneOpen` | src/ui/stores/useTicketsStore.ts:60-73 | in a settled single-mode state with tickets shown, exactly one panel is reported open, and it is a remembered id |
| `OpenState.FindIndex` | src/ui/stores/useTicketsStore.ts:82 | `findIndex`: -1 exactly when no shown ticket carries the id; otherwise the first position carrying it |
| `OpenState.PanelIndices` | src/ui/stores/useTicketsStore.ts:81-83 | map-then-filter keeps only valid positions, at most one per id; when every id is shown, one position per id in the same order, each showing that id, and it is exactly the `findIndex` of each id (`FindIndices`) |
| `OpenState.PanelIndicesSound` | src/ui/stores/useTicketsStore.ts:81-83 | every kept position shows a ticket whose id is among the ids asked for |
| `OpenState.PanelIndicesComplete` | src/ui/stores/useTicketsStore.ts:81-83 | for every asked-for id that is shown, its first position (`findIndex`) is kept |
| `OpenState.OpenPanelIndices` | src/ui/stores/useTicketsStore.ts:79-84 | one valid position into `filtered` per reported open id, in the same order, each showing that id (nothing is dropped), and each the first position that shows it (`findIndex`) |
| `OpenState.ReconcileIds` | src/ui/stores/useTicketsStore.ts:192-222 | multiple mode keeps `openIds`; single mode clears it for an empty list, keeps it when a remembered id is shown (sticky), and otherwise makes `[filtered[0].id]`; the reported panels never change, the result is settled, and duplicates never arise |
| `OpenState.ToggleIds` | src/ui/stores/useTicketsStore.ts:120-136 | an id that is not shown changes nothing; in single mode a shown id becomes the only one; in multiple mode only that id's membership flips: a new id goes last, after the others in their order, and deleting one keeps the others in order |
| `OpenState.CloseShownIds` | src/ui/stores/useTicketsStore.ts:174-185 | the shown ids are removed and the hidden ones stay, in order; multiple mode then reports nothing open |
| `OpenState.NothingShownReportsNothing` | src/ui/stores/useTicketsStore.ts:55-58 | multiple mode reports nothing when no remembered id is shown |
| `OpenState.CloseShownAppend` | src/ui/stores/useTicketsStore.ts:180-184 | closing the shown ids of a concatenation closes each part, which lets the loop go one id at a time |
| `OpenState.CloseShownSingle` | src/ui/stores/useTicketsStore.ts:181-183 | one remembered id is deleted exactly when it is shown |
| `OpenState.IdsAtOne` | src/ui/stores/useTicketsStore.ts:154-162 | a single position names its ticket's id when it is in range, and nothing otherwise |
| `OpenState.SetOneIndex` | src/ui/stores/useTicketsStore.ts:154-168 | a single index in range opens exactly its ticket; one out of range opens nothing in multiple mode and reconciles in single mode |
| `OpenState.OneOpenPanel` | src/ui/stores/useTicketsStore.ts:79-84 | with one open shown ticket, single mode reports its `findIndex`; when no two tickets share an id, either mode reports exactly its position |
| `OpenState.OneShown` | src/ui/stores/useTicketsStore.ts:47-73 | one open shown ticket is the only reported id in single mode, and in multiple mode when no other ticket carries its id |
| `OpenState.PanelOfOne` | src/ui/stores/useTicketsStore.ts:79-84 | a single reported id gives a single panel, its `findIndex` |
| `OpenState.FindIndexUnique` | src/ui/stores/useTicketsStore.ts:82 | when no two tickets share an id, `findIndex` of a ticket's id is that ticket's position |
| `OpenState.SetPanelRoundTrip` | src/ui/stores/useTicketsStore.ts:141-169 | the `v-model` round trip: setting one index in range and reading `openPanelIndices` back gives that index, when no two tickets share an id |
| `OpenState.IdsAtIndices` | src/ui/stores/useTicketsStore.ts:154-162 | the ids at the in-range positions of the index array, each once, with out-of-range positions dropped; all of them shown; ordered by the first position in the index array that names each id, which is `Set` insertion order |
| `JsSet.AddFollowsFirstOccurrences` | src/ui/stores/useTicketsStore.ts:158-160 | adding the next named id to a set that holds the first occurrences so far, in order, gives the first occurrences of the longer list, in order |
| `OpenState.SetIndicesIds` | src/ui/stores/useTicketsStore.ts:141-169 | with `undefined`, multiple mode clears and single mode reconciles; with indices the open ids are those at the in-range positions, and single mode reconciles when that is empty; the result is settled, and in single mode it is non-empty whenever tickets are shown |
| `Store.TicketsStore.constructor` | src/ui/stores/useTicketsStore.ts:25-31 | the initial state: no tickets, empty query, single mode, nothing open, and the store invariant holds |
| `Store.TicketsStore.SortedTickets` | src/ui/stores/useTicketsStore.ts:37-39 | the getter `sorted` is a sorted permutation of `all` |
| `Store.ShownTickets` | src/ui/stores/useTicketsStore.ts:44-47 | what the store shows is always in business order, no longer than the loaded list; every loaded ticket for a blank query, otherwise exactly the matching loaded tickets, each as many times as loaded |
| `Store.SubsequenceSorted` | src/ui/stores/useTicketsStore.ts:44-47 | filtering a sorted list keeps it sorted |
| `Store.TicketsStore.Filtered` | src/ui/stores/useTicketsStore.ts:44-47 | the getter `filtered` is a sorted subsequence of `sorted`, equal to it for a blank query |
| `Store.TicketsStore.VisibleOpenIds` | src/ui/stores/useTicketsStore.ts:52-74 | the getter reports `VisibleOpen` of the fields: only shown ids, and a valid single-mode store with tickets shown reports exactly one remembered id |
| `Store.TicketsStore.OpenPanelIndices` | src/ui/stores/useTicketsStore.ts:79-84 | one valid position into `filtered` per reported id, showing that id, and each the first position that shows it (`findIndex`) |
| `Store.TicketsStore.EnsureOpenWhenListChanges` | src/ui/stores/useTicketsStore.ts:192-222 | `openIds` becomes `ReconcileIds` of the old one, the other fields are unchanged, and the invariant holds afterwards |
| `Store.TicketsStore.Load` | src/ui/stores/useTicketsStore.ts:91-99 | `all` is replaced, then `openIds` is reconciled against the new list |
| `Store.TicketsStore.SetQuery` | src/ui/stores/useTicketsStore.ts:104-107 | `query` is replaced, then `openIds` is reconciled against the new list |
| `Store.TicketsStore.SetMode` | src/ui/stores/useTicketsStore.ts:112-115 | `mode` is replaced, then `openIds` is reconciled under the new mode |
| `Store.TicketsStore.ToggleOpen` | src/ui/stores/useTicketsStore.ts:120-136 | `openIds` becomes `ToggleIds` of the old one, and nothing else changes |
| `Store.TicketsStore.SetOpenIndices` | src/ui/stores/useTicketsStore.ts:141-169 | `openIds` becomes `SetIndicesIds` of the old one, and nothing else changes |
| `Store.TicketsStore.StoreIndexIds` | src/ui/stores/useTicketsStore.ts:164-168 | the collected ids become `openIds`, and in single mode an empty collection is reconciled instead; the store stays valid |
| `Store.TicketsStore.CloseAllVisible` | src/ui/stores/useTicketsStore.ts:174-185 | single mode changes nothing; multiple mode leaves `CloseShownIds` of the old `openIds`, so the hidden ids stay and nothing shown remains open |
| `Store.CollectIndexIds` | src/ui/stores/useTicketsStore.ts:155-162 | the `forEach` loop builds `IdsAtIndices` of the index array |
| `Store.DeleteVisited` | src/ui/stores/useTicketsStore.ts:180-183 | deleting a visited shown id advances the closing loop by one step |
| `Store.KeepVisited` | src/ui/stores/useTicketsStore.ts:180-183 | skipping a visited hidden id advances the closing loop by one step |
| `StoreProperties.SortKeepsIds` | src/ui/stores/useTicketsStore.ts:37-39 | sorting keeps the set of ids |
| `StoreProperties.BlankQueryShowsAll` | src/ui/stores/useTicketsStore.ts:44-47 | with a blank query every loaded ticket is shown |
| `StoreProperties.ShownAreLoaded` | src/ui/stores/useTicketsStore.ts:44-47 | only loaded tickets are shown |
| `StoreProperties.ToggleReportsId` | src/ui/stores/useTicketsStore.ts:124-135 | after toggling a shown id, single mode reports exactly it, and multiple mode reports it exactly when it was not remembered before |
| `StoreProperties.ToggleTwiceRestores` | src/ui/stores/useTicketsStore.ts:129-134 | in multiple mode, toggling the same id twice leaves the same remembered ids |
| `StoreProperties.SingleStickyRoundTrip` | src/ui/stores/useTicketsStore.ts:207-215 | single mode: toggle a shown X, set a query that still shows X, clear the query, and X is the one remembered and reported id |
| `StoreProperties.SingleHiddenSelectionIsReplaced` | src/ui/stores/useTicketsStore.ts:217-221 | single mode: a query that hides the one open ticket (and shows others) replaces it by the first shown ticket, and clearing the query does not bring it back |
| `StoreProperties.MultipleKeepsHidden` | src/ui/stores/useTicketsStore.ts:195-199 | multiple mode: a remembered id survives a query change, and after the query is cleared it is reported exactly when it is a loaded ticket |
| `StoreProperties.CloseKeepsHiddenOpen` | src/ui/stores/useTicketsStore.ts:174-185 | a loaded id hidden by the query when `closeAllVisible` runs is reported open again once the query is cleared |
| `StoreProperties.SwitchToSingle` | src/ui/stores/useTicketsStore.ts:207-221 | switching to single mode keeps every remembered id when one is shown and reports the first shown one in insertion order; otherwise it reports the first shown ticket |
| `StoreProperties.StickyRoundTrip` | src/ui/stores/useTicketsStore.ts:104-107 | the sticky round trip driven through `toggleOpen` and `setQuery`: X ends as the only remembered id and the only reported one |
| `SeedScenario.SeedSortOrder` | src/infrastructure/repositories/InMemoryTicketRepository.ts:5-54 | the seed sorts as 4, 1, 5, 2, 3, 6 |
| `SeedScenario.SortSix` | src/domain/services/ticketSorter.ts:9-22 | any six tickets a..f that compare as the seed tickets 1..6 do sort to d, a, e, b, c, f |
| `SeedScenario.SeedShownUnfiltered` | src/infrastructure/repositories/InMemoryTicketRepository.ts:5-54 | with the empty query the shown list is the sorted seed |
| `SeedScenario.LoadedStore` | src/ui/stores/useTicketsStore.ts:25-31 | a new store after `load`: single mode, empty query, the loaded tickets, and `openIds` reconciled from the empty set |
| `SeedScenario.LoadSeed` | src/ui/stores/useTicketsStore.ts:91-99 | loading the seed in single mode opens ticket 4, reported as panel 0 |
| `SeedScenario.FirstOpenReported` | src/ui/stores/useTicketsStore.ts:79-84 | when the only remembered id is the first shown one, single mode reports it as panel 0 |
| `SeedScenario.SeedMultipleToggles` | src/ui/stores/useTicketsStore.ts:112-135 | after load and a switch to multiple mode, ticket 4 is still open. So toggling tickets 4 and 1 closes 4 and opens 1, leaving one remembered id |
| `SeedScenario.SeedInMultipleMode` | src/ui/stores/useTicketsStore.ts:112-115 | the loaded seed switched to multiple mode still has ticket 4 open, and tickets 4 and 1 are shown |
| `SeedScenario.ToggleAway` | src/ui/stores/useTicketsStore.ts:120-136 | in multiple mode with only `a` open, toggling `a` and then another shown `b` leaves only `b` remembered and reported |
| `SeedScenario.CloseFirstOpenSecond` | src/ui/stores/useTicketsStore.ts:129-134 | in multiple mode, toggling the one open id and then another shown id leaves only the other |
| `SeedScenario.OneOpenReported` | src/ui/stores/useTicketsStore.ts:55-58 | multiple mode reports a single remembered id exactly when it is shown |

## Left out

- Asynchronous loading: the `await` on the repository, the `loading` flag and its
  `try/finally` (`useTicketsStore.ts:91-99`). `Load` only replaces `all` and reconciles. Promises and re-entrancy are not modelled.
- The repository and its simulated network delay. The seed data is used only as a concrete
  scenario. Each date is written in by hand as UTC midnight in milliseconds, which is what
  `new Date` gives for a date-only ISO string. The descriptions are left empty because
  nothing in the engine reads them.
- The mapper (`ticketMapper.ts`): its date parsing depends on the host `Date` parser and on
  the current time. `updatedAt` is taken as an integer count of milliseconds. An invalid date
  (`NaN`) is not modelled.
- The comparator works with doubles in JavaScript. Subtracting two finite doubles gives a
  result with the sign of the exact difference, and the sort uses only that sign, so the
  integer model orders tickets as the code does.
- Strings are sequences of code points. JavaScript strings are sequences of UTF-16 code
  units, so a character outside the Basic Multilingual Plane is one element here and two in
  JavaScript. Lengths and positions are counted in code points, and a string holding a lone
  surrogate, which `includes` can match against half of a pair in JavaScript, is not
  modelled.
- `toLowerCase` lowers only the ASCII letters. Unicode case mapping, including mappings that
  change the length of a string, is not modelled. `trim` covers the ECMAScript white-space and
  line-terminator sets in full.
- `setOpenIndices` takes integer indices. A non-integer or `NaN` index also reads as
  `undefined` in JavaScript and is dropped, but such indices are not modelled.
- Object identity of the `Set`: the model reassigns the `openIds` field where the code calls
  `clear`, `add` and `delete` on one `Set` object. No other code holds that object, so
  aliasing is not observable.
- `closeAllVisible` deletes from the `Set` while iterating over it. The model iterates over a
  copy taken before the loop. A `Set` iterator visits every member that was present at the
  start and not yet deleted. The loop only deletes the member it is visiting. So both visit
  the same ids.
- Pinia reactivity, the `defineStore` wiring and the module-level use-case singletons.
- `PriorityLabel` and `PriorityColor`, which are display strings.
- The one-line use cases `SortTickets` and `LoadTickets`, and the Vue bootstrap.
- These tests expect behaviour the code does not have, and the model follows the code:
  - `tests/tickets.store.spec.ts:256-335` expects multiple-mode filtering to prune hidden
    ids (see `StoreProperties.MultipleKeepsHidden`).
  - `tests/tickets.store.spec.ts:337-367` expects auto-open in multiple mode.
  - `tests/tickets.store.spec.ts:161-185`, `187-210`, `212-233` and `235-254` expect counts
    that ignore the panel already opened by `load`. Each loads, switches to multiple mode and
    toggles `sorted[0]` first, which closes it. So one panel is open where the tests expect
    2 (`:200`, `:225`, `:252-253`), and two where `:181` expects 3 (see
    `SeedScenario.SeedMultipleToggles`).
- `SeedScenario.SeedMultipleToggles`: it states the reported panels as a set of ids, not as
  a sequence.
