# Civic Ledger task list, modelled in Dafny

Civic Ledger is a one-page browser task list for "civic actions". Each task has
an id, a title, a "why it matters" line, a domain, a start date and a completion
flag. The page keeps the whole ordered task sequence under one storage key
(`civicLedgerTasks`). Every user action reloads that sequence, changes it, saves
it back and re-renders the list. There are three handlers:

- the initial render;
- adding a task from the form;
- toggling a task's checkbox.

This project models `script.js` in Dafny:

- `wrappers.dfy`, module `Wrappers`: the `Option` datatype.
- `text.dfy`, module `Text`: JavaScript's `String.prototype.trim`, over a
  concrete whitespace predicate (the ECMAScript WhiteSpace and LineTerminator
  code points). `IsTrimOf` is an independent definition of trimming, and
  `TrimOfIff` proves that `Trim` matches it.
- `tasks.dfy`, module `Tasks`: the task record, the record `handleAddTask`
  builds (`NewTask`), and the `tasks.map(...)` of `toggleTaskComplete` (`Toggle`).
  These are pure functions, as in the source.
- `render.dfy`, module `Render`: `renderTasks` as a function `View` from the
  task sequence to the container's children. A child is either the placeholder
  or a task item. A task item has a class, a heading, three labelled text lines,
  a checkbox state, the label " Mark complete" and the id its checkbox toggles.
  `TasksOfView` reads a display back into tasks. It is the partner `View` is
  proved against: it round-trips, so the display shows every field of every task.
- `ledger.dfy`, module `Ledger`: the class `TaskLedger`. It has two fields:
  - `stored`: the value under the storage key, `None` before the first save;
  - `displayed`: the container's children.

  Its methods are `LoadTasks`, `SaveTasks`, `RenderTasks` (the clearing and the
  `forEach` loop), `Initialize`, `ToggleTaskComplete` and `HandleAddTask`. Each
  is specified against the functions above.
- `scenarios.dfy`, module `Scenarios`: the documented walk-through. It covers a
  first visit with empty storage, adding "Attend town hall", toggling it, the
  save/load round trip, and rendering twice. It is driven through the class's
  methods.

The id that `crypto.randomUUID()` produces is a parameter of `HandleAddTask`.
Its freshness is the hypothesis of the uniqueness postcondition.

## Model

| member | source | states |
|---|---|---|
| `Text.TrimStartSpec` | script.js:99-101 | dropping leading whitespace leaves the longest suffix of the input that does not start with whitespace, and only whitespace was removed |
| `Text.TrimEndSpec` | script.js:99-101 | dropping trailing whitespace leaves the longest prefix of the input that does not end with whitespace, and only whitespace was removed |
| `Text.TrimSpec` | script.js:99-101 | `Trim(s)` neither starts nor ends with whitespace, and `s` is whitespace + `Trim(s)` + whitespace |
| `Text.TrimOfDecomposition` | script.js:99-101 | for any trimmed core with whitespace on both sides, trimming returns exactly that core |
| `Text.TrimOfIff` | script.js:99-101 | `r` is a trim of `s` (definition `IsTrimOf`) if and only if `r == Trim(s)` |
| `Text.TrimIdempotent` | script.js:99-101 | trimming an already trimmed string changes nothing |
| `Tasks.NewTask` | script.js:97-104 | the new record has the given id, is not completed, keeps the start date exactly as typed, and its title, why and domain are the trims of the inputs |
| `Tasks.Toggle` | script.js:82-84 | same length and order; a record's `completed` flips exactly when its id equals `taskId`; every other field of every record is unchanged |
| `Tasks.ToggleIdentityIff` | script.js:82-84 | toggling leaves the sequence unchanged if and only if no record has the id |
| `Tasks.ToggleTwice` | script.js:82-84 | toggling the same id twice restores the original sequence |
| `Tasks.ToggleKeepsIds` | script.js:82-84 | toggling keeps the id sequence, hence the multiset of ids, and keeps ids unique exactly when they were |
| `Tasks.ToggleTouchesOne` | script.js:82-84 | with unique ids, toggling a present id changes only that record's flag |
| `Tasks.IdsAppend` | script.js:106-107 | appending a record appends its id to the id sequence |
| `Tasks.AppendUniqueIff` | script.js:98-107 | appending to a sequence with unique ids keeps them unique if and only if the new id is fresh |
| `Render.ItemOf` | script.js:42-72 | a task's item toggles that task's id; its checkbox is checked iff the task is completed; its class is "task-item completed" iff completed and "task-item" iff not |
| `Render.Items` | script.js:41-73 | one item per task, in task order |
| `Render.View` | script.js:29-74 | the empty sequence renders as exactly the placeholder "No tasks yet. Add your first civic action above."; a non-empty one as exactly one task item per task, in order, and no placeholder |
| `Render.ItemRoundTrip` | script.js:42-72 | a task can be read back from its item: the heading and the "Why It Matters: ", "Domain: " and "Start Date: " lines carry the fields, and the checkbox and id carry the rest |
| `Render.ItemsRoundTrip` | script.js:41-73 | the run of task items can be read back into the task sequence |
| `Render.ViewRoundTrip` | script.js:29-74 | every rendered display reads back into the task sequence it was rendered from |
| `Render.ViewInjective` | script.js:29-74 | two task sequences render to the same display if and only if they are equal |
| `Ledger.ItemsAppend` | script.js:41-73 | rendering one more task appends exactly its item |
| `Ledger.TaskLedger.constructor` | script.js:1-6 | a page starts with whatever storage and container content it is given |
| `Ledger.TaskLedger.LoadTasks` | script.js:12-15 | returns the empty sequence when nothing has been stored, and otherwise the stored sequence |
| `Ledger.TaskLedger.SaveTasks` | script.js:21-23 | overwrites the stored value with the given sequence and touches nothing else |
| `Ledger.TaskLedger.RenderTasks` | script.js:29-74 | after clearing and rebuilding, the container holds exactly `View(tasks)`, whatever it held before; so rendering twice gives the same display |
| `Ledger.TaskLedger.Initialize` | script.js:117 | the first render shows the loaded sequence and leaves storage alone |
| `Ledger.TaskLedger.ToggleTaskComplete` | script.js:80-88 | the stored sequence becomes `Toggle` of the loaded one. The display shows exactly that stored sequence. Ids and their uniqueness are kept. An unknown id changes nothing stored |
| `Ledger.TaskLedger.HandleAddTask` | script.js:93-113 | the stored sequence grows by exactly one and keeps the old sequence as a prefix. The new last record is `NewTask` of the inputs, not completed. The display shows exactly the stored sequence. Ids stay unique when they were unique and the id is fresh |
| `Scenarios.AddThenToggleItems` | script.js:93-109 | for inputs without surrounding whitespace, the added record holds the inputs as typed. Its item is unchecked with class "task-item" and the four labelled lines; after a toggle it is checked with class "task-item completed" |

## Left out

- DOM construction and event wiring are not modelled; the container is a sequence of abstract items. This covers `document.getElementById`, `createElement`, `innerHTML`, `append`, `addEventListener`, `event.preventDefault()` and `taskForm.reset()`. It also covers the element kinds (`li`, `h3`, `p`, `label`, `input`) and the fixed `task-meta` and `complete-toggle` classes.
- `localStorage` and JSON are foreign browser and library calls, so storage is one `Option<seq<Task>>` field. The JSON round trip, a malformed stored value (where `JSON.parse` throws) and storage quota failures are not modelled. A stored empty string, which `loadTasks` treats like an absent key, cannot occur here, because every save writes a sequence.
- `crypto.randomUUID()` is platform randomness. The id is a parameter, and its freshness is a hypothesis.
- `FormData` extraction and `.toString()` are not modelled; the four form inputs arrive as strings. A missing form field, where `.toString()` on `null` throws, is not represented.
- JavaScript strings are UTF-16 code units, while Dafny strings here are sequences of Unicode scalar values. Every character `trim` strips lies in the Basic Multilingual Plane, so trimming agrees on well-formed text. Lone surrogates are not represented.
- Several tabs writing the same key at once can race. That is concurrency outside the script.
- `Ledger.TaskLedger.HandleAddTask`: it states uniqueness of ids only under the hypothesis that the given id is fresh, because the model does not produce UUIDs.
