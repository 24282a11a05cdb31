# simple-nice-todo-js: the task store, in Dafny

A Dafny model of the state logic of a browser todo list. The whole
application state is one `Store` record: a `hideComplete` flag, a `sortType`
string and an ordered list of `TaskRecord`s (`createdAt`, `complete`, `id`,
`title`). The UI calls the store operations `addTask`, `updateTask`,
`removeTask`, `setSortType` and `setHideComplete`. It then redraws the list
that `render` builds: `getSortedTasks(sortType, filteredTasks(tasks, hideComplete))`.

The model replaces mutation of the module-level `store` with pure functions
that return a new `Store`. The thrown errors become `Result` values:
`TaskNotFound` from `updateTask` and `UnknownSortType` from
`getSortComparator`.

- `wrappers.dfy` (`Wrappers`): `Option` and `Result`.
- `seqs.dfy` (`Seqs`): the runtime's `Array.prototype.filter` (`Filter`) and
  `Array.prototype.sort` with a comparator. The sort is a stable insertion
  sort (`Insert`, `SortBy`). This file also defines the order-preserving
  subsequence relation and adjacent sortedness for a JavaScript-style
  comparator.
- `tasks.dfy` (`Tasks`): the data model and the record store operations, plus
  lemmas that the operations preserve unique ids.
- `query.dfy` (`Query`): the four sort strategies, `filteredTasks`,
  `getSortComparator`, `getSortedTasks` and the composed display list.
- `initial.dfy` (`InitialState`): `createInitialStore` and the two start-up
  scenarios.

Inputs the source takes from the environment are parameters:
- `Date.now()` readings are `createdAt`, `now…` and `later`.
- `generateId()` results are `id` arguments.
- `String.prototype.localeCompare` is `collate: (string, string) -> int`.

Id freshness is never assumed by an operation. The source does not check it:
`generateId` is random. Freshness appears only as a precondition of lemmas:
the unique-id lemmas and `Tasks.AddTaskThenFind`. Without it a lookup after
`addTask` finds the older record with that id (`Tasks.AddTaskThenFindExisting`).

Choices the code makes that a reader might not expect:
- `addTask` copies `complete` and `title` from its argument and overwrites
  only `createdAt` and `id`. The form always passes `complete: false`, but
  the operation itself does not force it.
- The stored sort type spellings are `createdAt-down`, `createdAt-up`,
  `name-down` and `name-up`. `Store.sortType` is a plain string, because the
  source stores the select-box value and loaded data without checking them.
  An unknown value fails only when the list is sorted.
- `updateTask` takes a `Partial<TaskRecord>`, so the model's `TaskUpdates`
  also has `id` and `createdAt` entries. They are ignored. Only the first
  record with the id is changed.
- An `updateTask` on a missing id throws before any field is written. In
  the model it returns `Failure` and there is no new store.
- `getSortedTasks` copies before sorting. In the model every sequence is a
  value, so the caller's list is unchanged trivially.

## Model

| member | source | states |
|---|---|---|
| `Seqs.Filter` | scripts.js:448 | The result is an order-preserving subsequence of the input. Every element passes the test. Each value occurs as often as in the input if it passes, and not at all otherwise. When every element passes, the input comes back unchanged. |
| `Seqs.FilterIdempotent` | scripts.js:418 | Filtering a second time with the same test changes nothing. |
| `Seqs.Insert` | scripts.js:459 | Inserting adds exactly one occurrence of the element; the multiset grows by `{x}`. The head is either the new element or the old head. |
| `Seqs.InsertSorted` | scripts.js:459 | Inserting into a list with no adjacent pair out of order keeps it that way, when any two values can be ordered by the comparator. |
| `Seqs.SortBy` | scripts.js:459 | Sorting returns a permutation of the input, the same multiset. That permutation is in comparator order whenever the comparator can order any two values. |
| `Tasks.FirstIndex` | scripts.js:380 | The search for an id is `None` exactly when no record has it. Otherwise it is the position of the first record with that id. |
| `Tasks.FindTaskById` | scripts.js:379-381 | `findTaskById` is absent exactly when no record has the id. Otherwise it returns the first record carrying it. |
| `Tasks.AddTask` | scripts.js:387-391 | `addTask` appends one record and keeps the earlier records and both preferences. The new record has the input's `complete` and `title` and the supplied `createdAt` and `id`. |
| `Tasks.AddTaskThenFind` | scripts.js:379-391 | After adding under a fresh id, looking that id up returns the new record. |
| `Tasks.AddTaskThenFindExisting` | scripts.js:379-391 | Adding under an id the store already holds leaves the lookup of that id unchanged: `find` still stops at the older record. |
| `Tasks.AddTaskKeepsIdsUnique` | scripts.js:387-391 | Adding under a fresh id keeps all ids distinct. |
| `Tasks.UpdateTask` | scripts.js:398-411 | `updateTask` fails with `TaskNotFound(id)` exactly when no record has the id. Otherwise only the first matching record changes. It takes `complete` and `title` from the update when present, and keeps the record's own values when absent. Ids, timestamps, every other record, the order and the preferences stay the same. |
| `Tasks.UpdateTaskIdempotent` | scripts.js:398-411 | Applying the same update twice gives the same store as applying it once. |
| `Tasks.UpdateTaskThenFind` | scripts.js:398-411 | After a successful update, looking the id up returns the record found before, with the update's `complete` and `title` applied. |
| `Tasks.UpdateTaskKeepsIdsUnique` | scripts.js:398-411 | An update keeps all ids distinct. |
| `Tasks.RemoveTask` | scripts.js:417-420 | `removeTask` keeps exactly the records whose id differs, in their original order and with their multiplicities. No record with the id remains. The preferences are unchanged. When no record has the id, the store is unchanged. |
| `Tasks.RemoveTaskIdempotent` | scripts.js:417-420 | Removing the same id twice equals removing it once. |
| `Tasks.SubsequenceKeepsIdsUnique` | scripts.js:418 | Any order-preserving selection of records with distinct ids still has distinct ids. |
| `Tasks.RemoveTaskKeepsIdsUnique` | scripts.js:417-420 | Removal keeps all ids distinct. |
| `Tasks.SetSortType` | scripts.js:426-428 | `setSortType` replaces the sort type and nothing else. |
| `Tasks.SetHideComplete` | scripts.js:434-436 | `setHideComplete` replaces the hide flag and nothing else. |
| `Tasks.PreferenceSettersIndependent` | scripts.js:426-436 | The two setters commute. For each setter, the later of two calls wins. |
| `Query.FilteredTasks` | scripts.js:443-450 | With the flag off, the list comes back unchanged. With it on, the result is the incomplete records only, in their original order, each as often as in the input. |
| `Query.Comparator` | scripts.js:469-480 | Under `createdAt-down` the comparator keeps `v` before `u` exactly when `v` is at least as new. Under `createdAt-up`, exactly when `v` is at least as old. Both tie exactly on equal timestamps. The name comparators pass the two titles to the collation: in order for `name-up`, swapped for `name-down`. |
| `Query.DescendingReversesAscending` | scripts.js:469-480 | Each descending comparator gives, for `(v, u)`, what its ascending partner gives for `(u, v)`. |
| `Query.GetSortComparator` | scripts.js:468-484 | The selector succeeds exactly for the four spellings `createdAt-down`, `createdAt-up`, `name-down` and `name-up`. The strategy it returns has that spelling. Any other value fails with `UnknownSortType`. |
| `Query.SortTypeNameRoundTrip` | scripts.js:27-32 | Each strategy's stored spelling is accepted and selects that same strategy. |
| `Query.ComparatorStronglyConnected` | scripts.js:469-480 | The createdAt comparators can order any two records. The name comparators can too, when the collation orders any two titles. |
| `Query.GetSortedTasks` | scripts.js:457-460 | An unknown sort type fails. Otherwise the result is a permutation of the input. Under `createdAt-down` each adjacent pair is non-increasing in `createdAt`, and under `createdAt-up` non-decreasing. The name sorts are ordered by the collation, reversed for `name-down`, when the collation is total. |
| `Query.DisplaySnapshot` | scripts.js:191-192 | The rendered list fails exactly for an unknown sort type. Otherwise it holds each record as often as the store does, except that completed ones are dropped when hidden. With hiding on, no shown task is complete. Under `createdAt-down` it is newest first. |
| `Query.NewestFirstHead` | scripts.js:469-471 | In a list that is non-increasing in `createdAt` between neighbours, the head is at least as new as every element. |
| `Query.NewestShownFirst` | scripts.js:191-192 | Under `createdAt-down` the first task shown is at least as new as every task shown. |
| `InitialState.InitialStore` | scripts.js:345-372 | The default store has `hideComplete` false, sort type `createdAt-down` and three seed tasks with the three generated ids. Exactly one seed is incomplete: the first one. |
| `InitialState.InitialStoreDistinctTimes` | scripts.js:351-370 | With three separate clock readings, the seed timestamps are pairwise distinct exactly when no two readings cancel the offsets `-2` and `-1`. |
| `InitialState.InitialStoreClockTickCollides` | scripts.js:353-369 | Suppose the clock ticks once between the first and third reading. Then the first and third seeds get the same `createdAt`. |
| `InitialState.InitialStoreAt` | scripts.js:345-372 | The default store built from one clock reading `now` has the same preferences, ids and single open task. Its timestamps are strictly ordered: hello seed < sushi seed < open seed = `now`. |
| `InitialState.InitialStoreAtAgrees` | scripts.js:345-372 | When the three readings coincide, the source's default store equals the one-reading store. |
| `InitialState.InitialStoreIdsUnique` | scripts.js:351-370 | Three distinct generated ids make the seed ids unique. |
| `InitialState.DefaultHideCompleteShowsOne` | scripts.js:191-192 | After `setHideComplete(true)` on the default store, the display list is exactly the one open seed task. |
| `InitialState.DefaultAddShowsNewestFirst` | scripts.js:191-192 | Take the default store built from three successive clock readings and add a task at a later time. The display then shows four tasks, with the new task first. |
| `InitialState.DefaultAtAddShowsNewestFirst` | scripts.js:191-192 | The same scenario for the one-reading default store: a task added after that reading is shown first among four. |

## Left out

- `save`/`load` (scripts.js:319-339) are not modelled. They wrap `JSON.stringify`/`JSON.parse` and `window.localStorage`, which are foreign library and I/O calls. So the persistence round trip is not stated. `load` also installs whatever parses, without checking its shape.
- The DOM and event code is not modelled: `main`, the `on*` handlers, `render*`, `createElTask`, `getNewTaskInput`, `resetNewTaskForm` and `$`. It covers UI wiring, `window.prompt` and `window.confirm`. The non-empty-title rule lives there, so it is not modelled either.
- `generateId` (random, floating point) and `Date.now()` are parameters instead.
- `printError`/`console.error` are not modelled, since they only log.
- Query.GetSortedTasks: the name orders are promised only when `collate` can order any two titles (`StronglyConnected(collate)`). `localeCompare` is an uninterpreted parameter, and locale-aware collation is not modelled.
- Seqs.SortBy: stability is not stated. The body is a stable insertion sort, so records the comparator ties keep their input order, as `Array.prototype.sort` does, but no contract promises it.
- Query.GetSortedTasks: stability of `Array.prototype.sort` is not stated, although `Seqs.SortBy` is a stable insertion sort. The contract gives permutation plus order only.
- Query.DisplaySnapshot: the ordering is stated only for `createdAt-down`, the one strategy the scenarios need. The other strategies' orders are given by `Query.GetSortedTasks`, which the snapshot applies to the filtered list.
- Tasks.UpdateTask: a key present in the update object but holding `undefined` is modelled as an absent key. The source would write `undefined` into the field.
- `createdAt` is an unbounded integer. JavaScript numbers represent epoch milliseconds exactly, so the comparator subtraction is exact.

## Findings

| source | as written | input that shows it | evidently intended | confidence | as-written member | corrected member |
|---|---|---|---|---|---|---|
| scripts.js:353-365 | `createInitialStore` calls `Date.now()` once per seed task and subtracts 0, 2 and 1 from the separate readings. | Readings `t`, `t`, `t + 1`: the clock ticks between the first and third call. Then seeds 0 and 2 both get `createdAt = t`, so the three seeds no longer have distinct timestamps. | One reading `now`, with seeds at `now`, `now - 2` and `now - 1`: distinct and in a fixed order. | low; not executed | `InitialState.InitialStore` (with `InitialState.InitialStoreClockTickCollides`) | `InitialState.InitialStoreAt` |
