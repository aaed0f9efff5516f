# To-do list store, modelled in Dafny

The page in `js/style.js` is a browser to-do list. It keeps two module-level
variables: `todos`, a list of records (`id`, `text`, `date`, `completed`,
`createdAt`), and `currentFilter`, one of `'all'`, `'active'` and
`'completed'`. The form and the buttons run handlers that reassign those
variables. Those handlers are `addTodo`, `deleteTodo`, `toggleComplete`,
`resetTodos` and `toggleFilter`. `renderTodos` then picks the records to show
under the filter, or an empty-state message.

This project models that store:

- `filtering.dfy` (module `Filtering`) models `Array.prototype.filter` as
  `Keep`. Lemmas state that it keeps the selected elements with their
  multiplicity and order, and that two complementary tests split a list.
- `text.dfy` (module `Text`) models `String.prototype.trim`. It strips the
  ECMAScript WhiteSpace and LineTerminator code points from both ends.
- `todos.dfy` (module `Todos`) holds the record and filter types and the pure
  parts of the handlers: delete by id, toggle by id, the next filter, the
  filtered view and the empty-state choice. The lemmas about them are here too.
- `store.dfy` (module `Store`) holds the class `TodoStore`. Its fields
  `todos` and `filter` stand for the two globals, and each handler is a method
  that reassigns them. Each method's `ensures` ties the new state to the
  functions of `Todos`. Two example methods replay short sessions against
  those contracts.

The clock readings (`Date.now()` for the id, `new Date().toISOString()` for
`createdAt`), the form's input values and the answer to `confirm(...)` are
parameters. Ids are not assumed unique, because two records created in the
same millisecond would share one. Delete and toggle are therefore stated for
every record whose id matches.

Two more facts about the code shape the model:

- `toggleFilter` returns nothing, and neither does `ToggleFilter`.
- The initial load (js/style.js:2) falls back to `[]` whenever the stored
  value parses to something falsy: a missing key (`null`), but also a stored
  `0`, `false` or `""`. A stored value that is not valid JSON makes
  `JSON.parse` throw instead. Loading is not modelled; the constructor takes
  the loaded list.

## Model

| member | source | states |
|---|---|---|
| Filtering.Keep | js/style.js:69 | the result holds exactly the input's elements that pass the test, and is no longer than the input |
| Filtering.KeepCount | js/style.js:124-126 | each passing element occurs in the result as often as in the input; no other element occurs |
| Filtering.KeepIsSubsequence | js/style.js:124-126 | the selection keeps the input's order (it is a subsequence of the input) |
| Filtering.KeepAllIff | js/style.js:69 | the selection equals the input exactly when every element passes the test |
| Filtering.KeepSplit | js/style.js:124-126 | two complementary tests split a list: the lengths and the multisets of the two selections add up to the list's |
| Text.Trim | js/style.js:36 | the trimmed text is a contiguous piece of the input with no whitespace at either end, and everything cut off is whitespace |
| Text.TrimEmptyIff | js/style.js:36-39 | the text trims to empty exactly when every character is whitespace |
| Text.TrimIdempotent | js/style.js:36 | trimming the trimmed text changes nothing |
| Todos.NewTodo | js/style.js:45-51 | the new record has the given id, text and timestamp, is not completed, and its date is the due date when one was given and "No date set" otherwise, so it is never blank |
| Todos.RemoveById | js/style.js:68-69 | the result keeps, in order and with their multiplicity, exactly the records whose id differs; with no matching id it is the list itself |
| Todos.RemoveByIdTwice | js/style.js:68-69 | deleting the same id again is a no-op |
| Todos.RemoveAfterAppend | js/style.js:54-69 | deleting the id of a just-appended record whose id no earlier record has gives back the earlier list |
| Todos.ToggleById | js/style.js:75-81 | same length; matching records have `completed` negated; all other fields and all other records are unchanged |
| Todos.ToggleTwice | js/style.js:75-81 | toggling the same id twice restores the list |
| Todos.ToggleAbsent | js/style.js:75-81 | toggling an id no record has leaves the list unchanged |
| Todos.NextFilter | js/style.js:102-113 | the filter always changes |
| Todos.FilterCycle | js/style.js:102-113 | three presses return to the start, and the cycle visits all three filters |
| Todos.View | js/style.js:121-129 | under all the view is the list itself; otherwise it is the order-preserving subsequence of the records the filter shows, each with its multiplicity |
| Todos.ViewsPartition | js/style.js:123-126 | the active and completed views split the list: lengths and multisets add up, and each record is in exactly one of them |
| Todos.ViewAppend | js/style.js:54-129 | an appended record appears at the end of every view that shows it, and the rest of the view is unchanged |
| Todos.EmptyMessage | js/style.js:133-140 | under active and completed the message is that filter's fixed text; under all it is the no-todos text exactly when the list is empty, and blank otherwise |
| Todos.EmptyViewShowsNothing | js/style.js:132 | an empty view means no record of the list belongs under the filter |
| Todos.Render | js/style.js:121-140 | records are shown exactly when the view is non-empty. Otherwise the message is never blank and is fixed per filter: under all the list is empty; under active every record is completed; under completed none is |
| Todos.ToggleFirstOfTwo | js/style.js:75-129 | with two distinct new records, completing the first makes the completed view show just it and the active view just the second |
| Store.TodoStore.constructor | js/style.js:2-3 | the store starts with the loaded list and the filter showing all |
| Store.TodoStore.AddTodo | js/style.js:35-54 | blank text after trimming is refused and nothing changes. Otherwise the list grows by one record at the end: the given id, the trimmed text, the due date or the placeholder, not completed, the given timestamp |
| Store.TodoStore.DeleteTodo | js/style.js:68-69 | the new list is the old one with every record of that id removed |
| Store.TodoStore.ToggleComplete | js/style.js:75-81 | the new list is the old one with every record of that id toggled |
| Store.TodoStore.ResetTodos | js/style.js:88-98 | an empty list is refused and unchanged; a non-empty list is emptied when confirmed and unchanged when declined |
| Store.TodoStore.ToggleFilter | js/style.js:102-113 | the filter moves all, active, completed, all; the list is unchanged |
| Store.TodoStore.RenderTodos | js/style.js:119-140 | the screen chosen is the one `Render` describes for the current list and filter |

## Left out

- Drawing the list: the DOM look-ups, the HTML each record becomes and the `innerHTML` writes (js/style.js:5-11, 142-167). These are user interface with no logic to verify. `Render` stops at the choice between the records and the message.
- Event wiring on page load (js/style.js:18-32). This is browser plumbing. The methods stand for the handlers it installs.
- `localStorage` and JSON: the initial load and `saveTodos` (js/style.js:2, 57, 70, 83, 96, 171-173). These are calls into the browser that cannot be seen from here. The constructor takes the loaded list as a parameter, and saving after each change is not modelled.
- `alert` and `confirm` (js/style.js:40, 90, 94). The refusals are the results `EmptyText` and `NothingToClear`. The user's answer to the confirmation is the `confirmed` parameter.
- The clock: `Date.now()`, `new Date().toISOString()`, and the date picker's `min` attribute and form reset (js/style.js:14-15, 46, 50, 63-64). The id and timestamp are parameters. The store never checks due dates, so neither does the model.
- The filter button's label text (js/style.js:106, 109, 112). It is cosmetic.
- `currentFilter` is a string in the page. The model uses the three-valued type `Filter`. The variable only ever holds `'all'`, `'active'` or `'completed'`, so the `else` branch of `toggleFilter` is reached only from `'completed'`. The `else` case of the empty-message chain (an empty string) would only be reached with an empty view under `'all'` and a non-empty list, which cannot happen; `Render` proves its message is never blank.
- `renderTodos` runs again after each change (js/style.js:60, 71, 84, 97, 115). `RenderTodos` is a separate method. Calling it after any other method gives the new screen.
