# To-do list state of testapp101

This project models the in-memory to-do list of the `testapp101` Android app
(`MainActivity.kt`). The screen holds two pieces of state: the observable list
`todoList` of `TodoItem(id, text, isEditing)` rows and the text of the
"Add a task…" field. Four button handlers change them:

- **Add** trims the field's text. If the trimmed text is empty, nothing happens.
  Otherwise an item with that text, a new id and edit mode off is appended, and
  the field is cleared.
- **Edit** finds the first item with the row's id (`indexOfFirst`) and switches
  it to edit mode.
- **Save** finds the first item with the row's id and stores the row's edited
  text in it, untrimmed and unchecked (an empty text is accepted). It also
  switches edit mode off.
- **Delete** removes every item with the row's id (`removeAll`).

The Dafny model has three modules:

- `Text` (text.dfy) models Kotlin's `String.trim()` as a pure function over a
  whitespace predicate. A lemma states an independent characterisation: the
  result is the middle of any whitespace/content/whitespace split.
- `Todo` (todo.dfy) holds the `TodoItem` record, Kotlin's `Long` as a
  newtype, and one pure function per handler: `IndexOfFirst`, `Edited`,
  `Saved` and `Without`. Lemmas prove the handlers' properties: no-ops on
  absent ids, idempotence, order preservation, counting, and that the row keys
  stay distinct.
- `TodoScreen` (todo_list.dfy) holds the class `TodoList`. Its fields are
  `items` and `pendingInput`, and it has one method per handler. `IndexOf` is
  the `indexOfFirst` scan and `Delete` is the `removeAll` filter, both written
  as loops. Each method's postcondition ties the new state to the pure function
  of the old state. Three client methods replay the add/edit/save/delete
  scenarios against those postconditions. Four more client methods compose each
handler with its key lemma and show that the screen's row keys stay distinct.

The source takes each new id from `System.nanoTime()`. Here the caller
supplies the id to `Add`. The source never checks that an id is fresh, so
`Add` does not require it either. Key uniqueness is proved separately, with
freshness as a hypothesis. The list rows are keyed by `id`
(MainActivity.kt:81), so each operation keeps keys distinct when that holds.

Delete removes every item with the id (MainActivity.kt:94), and so does
`Without`; with distinct keys (`WithoutKeepsDistinct`) that is at most one
item. Save stores `newVal` unchecked (MainActivity.kt:90), so an empty text is
accepted, as `Saved` states and `EditWalkthrough` replays.

## Model

| member | source | states |
|---|---|---|
| `Todo.NewItem` | testapp101/app/src/main/java/com/example/testapp101/MainActivity.kt:48-52 | a new item is the `TodoItem` data class's three fields (`id: Long`, `text`, `isEditing`) with the given id and text and `isEditing` false; the id parameter replaces the `System.nanoTime()` default, and `Add` supplies it |
| `Text.IsWhitespace` | testapp101/app/src/main/java/com/example/testapp101/MainActivity.kt:70 | Kotlin's `Char.isWhitespace`, the predicate `trim()` strips by: the ASCII controls TAB to CR and U+001C..U+001F, and the Unicode space, line and paragraph separators |
| `Text.LeadingWhitespace` | testapp101/app/src/main/java/com/example/testapp101/MainActivity.kt:70 | the result is the length of the longest all-whitespace prefix: everything before it is whitespace, and the character at it, if any, is not |
| `Text.TrailingWhitespace` | testapp101/app/src/main/java/com/example/testapp101/MainActivity.kt:70 | the result is the length of the longest all-whitespace suffix: everything after the cut is whitespace, and the character before it, if any, is not |
| `Text.Trim` | testapp101/app/src/main/java/com/example/testapp101/MainActivity.kt:70 | `trim()` gives an empty result exactly when the input is all whitespace; a non-empty result starts and ends with non-whitespace; it sits in the input right after the leading whitespace, and only whitespace follows it |
| `Text.TrimUnique` | testapp101/app/src/main/java/com/example/testapp101/MainActivity.kt:70 | for any split of the input into whitespace, a part that is empty or bounded by non-whitespace, and whitespace, `Trim` returns that part (an independent definition of trimming) |
| `Text.TrimIdempotent` | testapp101/app/src/main/java/com/example/testapp101/MainActivity.kt:70 | trimming an already trimmed text changes nothing |
| `Todo.IndexOfFirst` | testapp101/app/src/main/java/com/example/testapp101/MainActivity.kt:85 | `indexOfFirst { it.id == id }` is -1 exactly when no item has the id; otherwise it is an index whose item has the id and no earlier item has it |
| `Todo.Edited` | testapp101/app/src/main/java/com/example/testapp101/MainActivity.kt:84-87 | Edit keeps the length and the sequence of ids; it is a no-op when the id is absent; it changes only the first match, which keeps its id and text and gets `isEditing == true` |
| `Todo.Saved` | testapp101/app/src/main/java/com/example/testapp101/MainActivity.kt:88-91 | Save keeps the length and the sequence of ids; it is a no-op when the id is absent; it changes only the first match, which keeps its id, gets the new text as given (even empty) and `isEditing == false` |
| `Todo.Count` | testapp101/app/src/main/java/com/example/testapp101/MainActivity.kt:94 | the number of items matching the `removeAll` predicate is at most the length, and it is zero exactly when the id is absent |
| `Todo.Without` | testapp101/app/src/main/java/com/example/testapp101/MainActivity.kt:92-95 | after `removeAll { it.id == id }` no item has the id, and the length has dropped by exactly the number of matches |
| `Todo.IndexOfFirstByIds` | testapp101/app/src/main/java/com/example/testapp101/MainActivity.kt:85-90 | the position Edit and Save act on depends only on the sequence of ids, so a list rewritten by Edit or Save is looked up in the same place |
| `Todo.DistinctByIds` | testapp101/app/src/main/java/com/example/testapp101/MainActivity.kt:81 | whether the row keys are distinct depends only on the sequence of ids |
| `Todo.OnlyMatch` | testapp101/app/src/main/java/com/example/testapp101/MainActivity.kt:81-90 | with distinct keys, the first match that Edit and Save act on is the only item with the id |
| `Todo.EditIdempotent` | testapp101/app/src/main/java/com/example/testapp101/MainActivity.kt:84-87 | pressing Edit twice is the same as pressing it once |
| `Todo.SaveAfterEdit` | testapp101/app/src/main/java/com/example/testapp101/MainActivity.kt:84-91 | Edit followed by Save is the same as Save alone: the item Save acts on ends in viewing mode with the saved text, whatever edit mode it was in |
| `Todo.EditSaveKeepDistinct` | testapp101/app/src/main/java/com/example/testapp101/MainActivity.kt:81-91 | Edit and Save keep distinct row keys distinct |
| `Todo.AppendFreshKeepsDistinct` | testapp101/app/src/main/java/com/example/testapp101/MainActivity.kt:72 | appending an item whose id is not yet present keeps the row keys distinct |
| `Todo.WithoutAbsent` | testapp101/app/src/main/java/com/example/testapp101/MainActivity.kt:94 | Delete on an id that no item has leaves the list unchanged |
| `Todo.WithoutIdempotent` | testapp101/app/src/main/java/com/example/testapp101/MainActivity.kt:94 | deleting the same id twice is the same as deleting it once |
| `Todo.CountIsMultiplicity` | testapp101/app/src/main/java/com/example/testapp101/MainActivity.kt:94 | the number of items `removeAll` matches is the multiplicity of the id among the item ids |
| `Todo.WithoutSingle` | testapp101/app/src/main/java/com/example/testapp101/MainActivity.kt:94 | on a single item, Delete drops it if it has the id and keeps it otherwise |
| `Todo.WithoutConcat` | testapp101/app/src/main/java/com/example/testapp101/MainActivity.kt:94 | Delete on a concatenation is the concatenation of the Deletes on the parts; with `WithoutSingle` this makes Delete the filter that keeps the remaining items in their relative order |
| `Todo.WithoutMultiset` | testapp101/app/src/main/java/com/example/testapp101/MainActivity.kt:94 | Delete drops every occurrence of the items with the id and keeps every other item exactly as often as it occurred |
| `Todo.WithoutKeepsDistinct` | testapp101/app/src/main/java/com/example/testapp101/MainActivity.kt:94 | Delete keeps distinct row keys distinct |
| `TodoScreen.TodoList.constructor` | testapp101/app/src/main/java/com/example/testapp101/MainActivity.kt:56-57 | the screen starts with no items and an empty input field |
| `TodoScreen.TodoList.SetInput` | testapp101/app/src/main/java/com/example/testapp101/MainActivity.kt:64 | typing replaces the input field's text and changes nothing else |
| `TodoScreen.TodoList.IndexOf` | testapp101/app/src/main/java/com/example/testapp101/MainActivity.kt:85 | the forward scan returns `IndexOfFirst` of the current items, and -1 exactly when the id is absent |
| `TodoScreen.TodoList.Add` | testapp101/app/src/main/java/com/example/testapp101/MainActivity.kt:69-74 | if the trimmed input is empty, the items and the input stay unchanged; otherwise exactly one item is appended after the unchanged old items, with the given id, the trimmed text and edit mode off, and the input becomes "" |
| `TodoScreen.TodoList.Edit` | testapp101/app/src/main/java/com/example/testapp101/MainActivity.kt:84-87 | the new items are `Edited` of the old, and the input field is untouched |
| `TodoScreen.TodoList.Save` | testapp101/app/src/main/java/com/example/testapp101/MainActivity.kt:88-91 | the new items are `Saved` of the old with the row's edited text, and the input field is untouched |
| `TodoScreen.TodoList.Delete` | testapp101/app/src/main/java/com/example/testapp101/MainActivity.kt:92-95 | the new items are `Without` of the old, built by a filtering loop, and the input field is untouched |
| `TodoScreen.AddKeepingKeys` | testapp101/app/src/main/java/com/example/testapp101/MainActivity.kt:69-74 | on a screen whose row keys are distinct, Add with an id not yet present leaves them distinct |
| `TodoScreen.EditKeepingKeys` | testapp101/app/src/main/java/com/example/testapp101/MainActivity.kt:84-87 | on a screen whose row keys are distinct, Edit leaves them distinct |
| `TodoScreen.SaveKeepingKeys` | testapp101/app/src/main/java/com/example/testapp101/MainActivity.kt:88-91 | on a screen whose row keys are distinct, Save leaves them distinct |
| `TodoScreen.DeleteKeepingKeys` | testapp101/app/src/main/java/com/example/testapp101/MainActivity.kt:92-95 | on a screen whose row keys are distinct, Delete leaves them distinct |

## Left out

- The Compose layout (`onCreate`, `Column`, `Row`, `LazyColumn`, `TodoItemRow`) is rendering, not list logic. So are recomposition and change notification. Each row's `editedText` buffer is UI state; its value enters the model as Save's `newVal` argument.
- The share button's `Intent` is a fire-and-forget platform call with no effect on the list.
- `NetworkSection` is not modelled: it is an OkHttp request run on coroutine dispatchers, which is network I/O and concurrency.
- `ContactsSection` is not modelled: it is a runtime permission flow, activity-result callbacks, a `ContentResolver` query and toasts.
- `System.nanoTime()` is a clock read. The id is a parameter of `Add`, and distinct keys are proved under the hypothesis that each id is fresh.
- `TextFieldValue` cursor and selection are left out; only its text is modelled, as `pendingInput`.
- `Text.IsWhitespace` lists the JVM's whitespace and space-separator characters without checking them against a Unicode table. No lemma of module `Text` depends on which characters it names; only the walkthrough literals in `TodoScreen` do (a space is whitespace, the letters of "buy milk" are not). Dafny's `char` is a Unicode scalar value, while Kotlin's `Char` is a UTF-16 code unit; surrogate pairs are not modelled.
- `TodoScreen.TodoList.Add`, `Edit`, `Save`, `Delete`: the method contracts do not repeat the key-uniqueness property. It is proved on the functions they are equal to (`AppendFreshKeepsDistinct`, `EditSaveKeepDistinct`, `WithoutKeepsDistinct`) and, for the screen, by the `...KeepingKeys` client methods.
- The `SnapshotStateList` is modelled as a `seq` field that each handler reassigns. Kotlin's in-place `removeAll` compaction is modelled as a loop that builds the kept items and then assigns them.
