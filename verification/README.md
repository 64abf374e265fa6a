# To-do list state core, modelled in Dafny

This project models the state core of a single-page to-do list (`app.js`).
The page keeps an ordered list of tasks. Each task has an id, a text, a
priority (high, medium or low) and a completed flag. The page also keeps a
filter (all, high, completed) and a search query. Five parts are modelled:

- the selector `getVisibleTasks`, which filters by the active filter and then
  by a case-insensitive substring search, keeping store order;
- the mutators `addTask` (trim, reject empty, append), `deleteTask`,
  `toggleTask` and `clearCompleted`;
- the two handlers that set the filter and the search query;
- the counters of `updateStats`;
- the choice of placeholder text in `renderTasks`.

The page's module-level variables become one immutable `Store.State`. Every
mutator is a pure function from state to state.

Files and modules:

- `text.dfy` (`Text`): the runtime string helpers the app relies on.
  `Trim` is `String.prototype.trim`. `Lower` is `toLowerCase` on ASCII
  letters. `Contains` is `includes`. `Trim` and `Contains` each have a
  separate declarative reference meaning (`IsTrimOf`, `Occurs`) and a lemma
  linking the function to it (`TrimUnique`, `ContainsIffOccurs`). `Lower`
  has no separate reference definition. Its contract, character by
  character, is the reference.
- `seqs.dfy` (`Seqs`): `Keep` (`Array.prototype.filter`) and `Map`
  (`Array.prototype.map`). `SelectedBy` is the reference meaning of
  filtering: the result is the subsequence of the input taken at exactly the
  positions that pass, in increasing order. `KeepSelects` and
  `SelectedByUnique` show that `Keep` meets this meaning and is the only
  sequence that does.
- `store.dfy` (`Store`): the data model, the mutators, and the store
  invariant `WellFormed` (unique ids; texts non-empty and trimmed).
- `selector.dfy` (`Selector`): `VisibleTasks` and its properties, plus the
  starting store seen under each filter and under one search.
- `view.dfy` (`View`): the counters, the placeholder text and `Render`.

Three behaviours of the code are easy to misread. The model follows the
code in each:

- Delete removes *every* task with the given id, not just "the" task.
- Toggle flips *every* task with the given id.
- Ids are not guaranteed unique, because they come from `Date.now()`. The
  model takes the new id as a parameter. No operation requires unique ids.
  A lemma assumes something about ids only where it needs to:
  - `AddThenDelete` and `AddPreservesWellFormed` assume the new id is not
    yet in the store.
  - `DeleteCount` assumes the store's ids are unique.
  - The `...PreservesWellFormed` lemmas for add, delete, toggle and clear
    assume the store invariant `WellFormed`, which includes unique ids.

## Model

| member | source | states |
|---|---|---|
| Text.Trim | app.js:103 | The result appears inside the input with only white space on either side. It neither starts nor ends with white space. It is empty exactly when the input is all white space. |
| Text.TrimUnique | app.js:103 | Any string meeting that description of trimming equals `Trim(s)`, so the description fixes the result. |
| Text.TrimIdempotent | app.js:103 | Trimming a trimmed text changes nothing. |
| Text.Lower | app.js:35 | Lower-casing keeps the length and leaves no ASCII capital. Each character is unchanged or is a capital shifted to its lower-case letter. |
| Text.LowerIdempotent | app.js:35 | Lower-casing twice equals lower-casing once. |
| Text.ContainsIffOccurs | app.js:35 | `includes` holds exactly when the query occurs at some offset of the text. |
| Seqs.KeepSelects | app.js:27-36 | A filtered array is the subsequence of the input at exactly the positions whose element passes, in original order. |
| Seqs.SelectedByUnique | app.js:27-36 | Only one sequence selects the passing positions in order, and it is the filter's result. |
| Seqs.KeepKeep | app.js:27-36 | Chaining two filters equals one filter by the conjunction of the two predicates. |
| Seqs.KeepIdempotent | app.js:132 | Filtering twice by the same predicate equals filtering once. |
| Seqs.KeepCount | app.js:138 | The length of a filtered array equals the number of positions whose element passes. |
| Store.AddTask | app.js:103-111 | Input that is all white space leaves the tasks unchanged. Any other input appends exactly one task at the end. That task has the given id and priority, is not completed, and its text is the trim of the input. The earlier tasks, the filter and the query are unchanged. |
| Store.AddRejectsIff | app.js:103-104 | The store is unchanged after add if and only if the input is empty or all white space. |
| Store.AddThenDelete | app.js:102-121 | Adding a task with a fresh id and then deleting that id gives back the original state. |
| Store.AddPreservesWellFormed | app.js:103-111 | Adding with a fresh id keeps ids unique and every text non-empty and trimmed. |
| Store.DeleteTask | app.js:119 | After delete, no remaining task carries the id. The result is a subsequence of the old tasks. The filter and query are unchanged. |
| Store.DeleteSelects | app.js:119 | Delete keeps exactly the tasks whose id differs, in their original order. |
| Store.DeleteAbsent | app.js:119 | Deleting an id that no task carries leaves the state unchanged. |
| Store.DeleteIdempotent | app.js:119 | Deleting the same id twice equals deleting it once. |
| Store.DeleteCount | app.js:119 | With unique ids, delete removes one task if the id is present and none otherwise. |
| Store.DeletePreservesWellFormed | app.js:119 | Delete keeps the store invariant. |
| Store.ToggleTask | app.js:124-127 | Toggle keeps the length and order. At every position the id, text and priority are unchanged. `completed` flips exactly where the id matches. |
| Store.ToggleTwice | app.js:124-127 | Toggling the same id twice gives back the original state. |
| Store.ToggleAbsent | app.js:124-127 | Toggling an id that no task carries leaves the state unchanged. |
| Store.ToggleOnlyMatches | app.js:124-127 | Once the matching tasks are deleted, the toggled and untoggled stores are equal. So toggle changes nothing else. |
| Store.TogglePreservesWellFormed | app.js:124-127 | Toggle keeps the store invariant. |
| Store.ClearCompleted | app.js:132 | After clear-completed, no task is completed. The result is a subsequence of the old tasks. The filter and query are unchanged. |
| Store.ClearSelects | app.js:132 | Clear-completed keeps exactly the tasks that are not completed, in their original order. |
| Store.ClearIdempotent | app.js:132 | Clearing completed tasks twice equals clearing them once. |
| Store.ClearCount | app.js:132 | Clear-completed removes exactly as many tasks as were completed. |
| Store.ClearPreservesWellFormed | app.js:132 | Clear-completed keeps the store invariant. |
| Store.InitialWellFormed | app.js:4-8 | The three starting tasks have unique ids and trimmed, non-empty texts. |
| Store.SetFilter | app.js:156 | A filter click sets only the filter. The tasks and query are unchanged. |
| Store.SetSearch | app.js:148 | Typing in the search box sets only the query. The tasks and filter are unchanged. |
| Selector.VisibleTasks | app.js:26-37 | The visible list is no longer than the store. Every visible task passes both the filter predicate and the search predicate. |
| Selector.VisibleIsOneFilter | app.js:26-37 | Filtering and then searching equals one filter by "passes both". |
| Selector.VisibleSelects | app.js:26-37 | For every filter and query, the visible list is the subsequence of the store at exactly the positions that pass both predicates, in store order. |
| Selector.VisibleMembers | app.js:28-36 | A task is visible if and only if it is in the store and passes both the filter and the search. |
| Selector.VisibleUnfiltered | app.js:26-37 | With filter `all` and an empty query, the visible list is the whole store. |
| Selector.SearchPassMeans | app.js:34-35 | A task passes the search exactly when the lower-cased query occurs in its lower-cased text. This covers the empty query, which passes every task. |
| Selector.SearchIgnoresCase | app.js:35 | Lower-casing the query does not change the visible list. |
| Selector.FilterNarrows | app.js:28-32 | Under any filter, the visible list is a subsequence of the list shown under `all` with the same query. |
| Selector.SearchFindsInfix | app.js:35 | A query passes on any task whose text contains a part equal to the query up to ASCII letter case. |
| Selector.SearchMissesLetter | app.js:34-35 | A non-empty query fails on any task whose text lacks the query's first letter in both cases. |
| Selector.InitialCompletedView | app.js:4-37 | The completed filter on the starting store shows only the first task. |
| Selector.InitialHighView | app.js:4-37 | The high filter on the starting store shows the first two tasks. |
| Selector.InitialSearchView | app.js:4-37 | The query "JAVA" on the starting store shows only "Learn JavaScript Functions". |
| View.UpdateStats | app.js:136-139 | The total is the store size. The high count is the number of store positions holding a high-priority task. Neither depends on the filter or the query. The visible list is never longer than the total. Under the high filter it is never longer than the high count. |
| View.EmptyMessage | app.js:86-91 | There is no placeholder while some task is visible. "No tasks yet — add one above!" appears exactly when the store is empty, the filter is `all` and the query is empty. "No matching tasks." appears exactly when nothing is visible and the filter is not `all` or the query is not empty. |
| View.Render | app.js:82-100 | The rows are the subsequence of the store at exactly the positions whose task passes the filter and the search, in store order, so every visible task is rendered. A placeholder appears exactly when there are no rows, and it is one of the two fixed texts. "No tasks yet — add one above!" appears exactly when the store is empty, the filter is `all` and the query is empty. "No matching tasks." appears exactly when there are no rows and the filter is not `all` or the query is not empty. The total counter is the store size, and the high counter is the number of high-priority positions. |
| View.StatsIgnoreView | app.js:136-139 | Changing the filter or the query leaves both counters unchanged. |
| View.ToggleKeepsStats | app.js:136-139 | Toggling leaves both counters unchanged. |
| View.ClearThenCompletedView | app.js:86-91 | After clear-completed, the completed filter shows nothing, and the placeholder is "No matching tasks.". |

## Left out

- Row markup in `createTaskElement` (app.js:39-80) is not modelled. This covers CSS classes, aria labels and the SVG icon. It is presentation only. A row is modelled as the `Task` it shows.
- Event wiring in `initEventListeners` and `init` (app.js:141-169) is not modelled. This covers the Enter key, button clicks and the active-class styling. A filter or search event is `SetFilter` or `SetSearch`, and the re-render that follows any change is `Render` applied to the new state.
- Element lookups, focus and clearing the input field (app.js:13-23, app.js:113-114) are not modelled, because they are DOM I/O. The input text and the selected priority are parameters of `AddTask`.
- `Date.now()` (app.js:107) is not modelled, because it is a clock. The new id is a parameter of `AddTask`.
- Filter and priority values arrive as strings from the page. In the model they are the enumerations `Filter` and `Priority`. An unknown `data-filter` string, which the selector would treat like `all` while the placeholder shows "No matching tasks.", cannot be expressed.
- Text.Lower: folds only ASCII capitals. Full Unicode `toLowerCase` belongs to the JavaScript runtime, so search is case-insensitive in the model only for ASCII letters.
- Text.Trim: uses ECMAScript's fixed white-space and line-terminator set. Characters later added to Unicode's space-separator category are not included. JavaScript strings are UTF-16 code units while Dafny characters are Unicode scalar values; the two agree on every white-space character, since all of them lie in the Basic Multilingual Plane.
