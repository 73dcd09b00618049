# Task manager core, modelled in Dafny

This project models a small single-user to-do application written as React
components. It covers the following parts:

- **The task list of the `App` component** (`src/App.jsx`). The list is an
  ordered sequence of tasks `{id, text, completed}`. Five handlers change it:
  add, toggle, edit, delete and clear-completed. It also has a current filter
  (all, active or completed), a filtered view and an active-task counter.
  The list is persisted to local storage under the key `"tasks"`. A
  one-shot `isFirstRender` latch skips the first run of the save effect, so
  that mounting does not overwrite the stored list with the empty initial
  one.
- **The inline editor of `TaskItem`** (`src/components/TaskItem.jsx`). Its
  state is the pair `(isEditing, editText)`. It handles double-click, the
  edit button, typing, save (blur or the save button), Enter and Escape. It
  reports `onEdit`, `onToggle` and `onDelete` to its parent.
- **The add form of `TaskForm`** (`src/components/TaskForm.jsx`). It holds one
  draft string. A submit of a non-blank draft hands the untrimmed draft to
  the App and clears the draft.
- **The rules of `TaskFilters`** (`src/components/TaskFilters.jsx`). These
  are the singular or plural counter suffix, the highlighted filter button
  and the intents its buttons emit.

Files and modules:

| file | module | models |
|---|---|---|
| `trimming.dfy` | `Trimming` | `String.prototype.trim`, over the exact ECMAScript set of white-space and line-terminator characters |
| `task_store.dfy` | `TaskStore` | the list operations of `App.jsx` as pure functions, their lemmas, and the filter they share (`Keep`, for `Array.prototype.filter`) |
| `app.dfy` | `AppComponent` | class `App` (its `tasks`, `filter` and `isFirstRender` state, the load and save effects, the handlers), class `LocalStorage` |
| `task_item.dfy` | `TaskItemComponent` | the transition function `Step` of the inline editor, lemmas about it, and class `TaskItem`, whose handlers are proved against `Step` |
| `task_form.dfy` | `TaskFormComponent` | class `TaskForm` |
| `task_filters.dfy` | `TaskFiltersComponent` | counter, highlight and click rules |
| `optional.dfy` | `Optional` | `Option`, for "a callback was or was not invoked" |

Each handler is one atomic, synchronous step. A call a component makes to
its parent's callback is returned as an intent value. The `App` class routes
these intents to its handlers (`OnItemIntent`, `OnFiltersIntent`).

The model follows the code's exact behaviour, including where it differs
from what the application's design intends:

- Toggle, edit and delete act on **every** task carrying the id, because
  they are written with `map` and `filter`. They do not stop at one task.
  With distinct ids this makes no difference. `DeleteCount` proves the
  rule "the length drops by one exactly when the id is present" for any
  list with distinct ids.
- A missing or unparsable stored list leaves `tasks` **as it was**. It is
  not reset to an empty list. At mount `tasks` is empty, so the result is
  the same.
- Nothing checks a loaded list. Distinct ids and trimmed, non-empty texts
  (`WellFormed`) are therefore proved to be *preserved* by every handler.
  They are not proved to hold after a load.
- `App.jsx` never passes the translation prop `t` to `TaskForm`, `TaskList`
  or `TaskFilters`, which all read labels from it. `TaskFilters.test.jsx`
  omits `t` as well. The labels are display strings and are modelled only
  as abstract tokens (`CounterLabel`). That wiring gap is not part of the
  model.

## Model

| member | source | states |
|---|---|---|
| Trimming.TrimStart | src/App.jsx:55 | the result is the longest suffix not starting with white space; everything dropped is white space |
| Trimming.TrimEnd | src/App.jsx:55 | the result is the longest prefix not ending with white space; everything dropped is white space |
| Trimming.Trim | src/App.jsx:51-55 | the trimmed text neither starts nor ends with white space, and it is empty exactly when the input is all white space |
| Trimming.TrimIsSlice | src/App.jsx:55 | the trimmed text is a contiguous slice of the input with only white space before and after it |
| Trimming.IsBlank | src/App.jsx:51 | a text is blank (`text.trim() === ''`) exactly when every character is white space |
| Trimming.TrimIdempotent | src/App.jsx:84 | trimming a trimmed text changes nothing |
| TaskStore.Keep | src/App.jsx:106-110 | `filter` keeps exactly the elements satisfying the predicate, each as many times as in the input and in its original relative order (a subsequence) |
| TaskStore.Add | src/App.jsx:49-60 | blank text leaves the list identical; otherwise exactly one task is appended with the given id, the trimmed text and `completed = false`, and every earlier task keeps its position |
| TaskStore.AddWellFormed | src/App.jsx:53-59 | with a fresh id, adding keeps ids distinct and texts trimmed and non-empty, and adds exactly that id |
| TaskStore.Toggle | src/App.jsx:67-71 | length, order, ids and texts are kept; `completed` flips exactly on the tasks carrying the id |
| TaskStore.ToggleTwice | src/App.jsx:67-71 | toggling the same id twice restores the list |
| TaskStore.ToggleAbsent | src/App.jsx:67-71 | toggling an id no task has leaves the list unchanged |
| TaskStore.ToggleWellFormed | src/App.jsx:67-71 | toggling keeps the set of ids and the well-formedness of the list |
| TaskStore.Edit | src/App.jsx:79-86 | blank text leaves the list identical; otherwise the tasks carrying the id get the trimmed text, and ids, flags, positions and all other tasks are kept |
| TaskStore.EditAbsent | src/App.jsx:79-86 | editing an id no task has leaves the list unchanged |
| TaskStore.EditWellFormed | src/App.jsx:79-86 | editing keeps the set of ids and the well-formedness of the list |
| TaskStore.Delete | src/App.jsx:93-95 | the result holds exactly the tasks not carrying the id, each as many times as before, in their original order; the id is gone |
| TaskStore.DeleteCount | src/App.jsx:93-95 | with distinct ids, the length drops by 1 if the id was present and by 0 otherwise; a well-formed list stays well formed |
| TaskStore.ClearCompleted | src/App.jsx:101-103 | the result holds exactly the non-completed tasks, each as many times as before, in their original order |
| TaskStore.ClearCompletedIdempotent | src/App.jsx:101-103 | clearing twice equals clearing once; the result is the 'active' view; well-formedness is kept |
| TaskStore.Shows | src/App.jsx:106-110 | 'all' shows every task; 'active' shows exactly the tasks not completed and 'completed' exactly the completed ones |
| TaskStore.View | src/App.jsx:106-110 | a filtered view holds exactly the tasks the filter shows, each as many times as in the list, in list order |
| TaskStore.ViewAll | src/App.jsx:106-110 | the 'all' view is the whole list |
| TaskStore.ViewsPartition | src/App.jsx:106-110 | the 'active' and 'completed' views are disjoint and together hold every task with its multiplicity |
| TaskStore.ActiveCount | src/App.jsx:113 | the count never exceeds the number of tasks |
| TaskStore.ActiveCountIsActiveView | src/App.jsx:112-113 | the count equals the length of the 'active' view and the number of tasks minus the completed ones; it is 0 exactly when every task is completed |
| TaskStore.TwoTasksScenario | src/App.jsx:49-71 | after adding two non-blank tasks to an empty list and toggling the first, the 'completed' view is exactly the first task (completed, trimmed text) and one task is active |
| TaskFiltersComponent.CounterFor | src/components/TaskFilters.jsx:17 | the counter shows the count itself, with the singular suffix exactly when the count is 1 (0 is plural) |
| TaskFiltersComponent.Click | src/components/TaskFilters.jsx:22-46 | a filter button emits a filter change with its own value; the clear button emits the clear request |
| TaskFiltersComponent.Highlighted | src/components/TaskFilters.jsx:23-35 | a control is highlighted exactly when it is the filter button of the current filter |
| TaskFiltersComponent.ExactlyOneHighlighted | src/components/TaskFilters.jsx:22-39 | for every filter, the highlighted filter buttons are exactly the button of that filter; the clear button is never highlighted |
| TaskFiltersComponent.FilterButtonsEmitEveryFilter | src/components/TaskFilters.jsx:24-36 | every filter value has a rendered button that emits it, and no two filter buttons emit the same intent |
| TaskFiltersComponent.CounterForList | src/App.jsx:132-137 | the counter the App renders shows the length of the 'active' view, singular exactly when it is 1 |
| TaskFormComponent.TaskForm.constructor | src/components/TaskForm.jsx:11 | the draft starts empty |
| TaskFormComponent.TaskForm.HandleSubmit | src/components/TaskForm.jsx:13-26 | a blank draft emits nothing and stays; otherwise the untrimmed draft is emitted once and the draft becomes empty |
| TaskFormComponent.TaskForm.HandleInputChange | src/components/TaskForm.jsx:28-30 | the draft becomes the input value, nothing else changes |
| TaskFormComponent.SubmittedDraftIsAdded | src/App.jsx:49-60 | a draft the form emits makes the App append exactly one task with the trimmed draft; a draft it keeps would have left the list unchanged |
| TaskItemComponent.Offered | src/components/TaskItem.jsx:51-110 | the checkbox and the delete button are always offered; double-click and the edit button exactly when not editing; typing, save and keys exactly when editing |
| TaskItemComponent.SaveReaction | src/components/TaskItem.jsx:23-32 | saving always leaves edit mode; it emits `onEdit(id, draft)` exactly when the draft is not blank; a blank draft reverts to the task's text, otherwise the draft is kept |
| TaskItemComponent.Step | src/components/TaskItem.jsx:17-49 | every intent names the item's own task; an emitted edit is never blank; save, Enter and Escape leave edit mode; toggle and delete leave the editor state unchanged |
| TaskItemComponent.StartEditing | src/components/TaskItem.jsx:17-20 | double-click and the edit button both enter editing with the draft reset to the task's text, emitting nothing |
| TaskItemComponent.SaveRule | src/components/TaskItem.jsx:23-32 | save emits `onEdit(id, draft)` with the untrimmed draft exactly when it is not blank and leaves edit mode; a blank draft reverts to the task's text |
| TaskItemComponent.KeyRules | src/components/TaskItem.jsx:35-43 | Enter behaves as save; Escape reverts the draft and leaves edit mode without emitting; other keys change nothing |
| TaskItemComponent.TypingRule | src/components/TaskItem.jsx:64-73 | typing replaces the draft and stays in edit mode |
| TaskItemComponent.RunReportsOwnTask | src/components/TaskItem.jsx:51-110 | over any sequence of user events, every reported intent names the item's task and no reported edit is blank |
| TaskItemComponent.SaveMatchesStore | src/App.jsx:79-86 | a blank draft is dropped by both the item and the App; a reported edit sets the task's text to the trimmed, non-empty draft |
| TaskItemComponent.TaskItem.constructor | src/components/TaskItem.jsx:13-14 | not editing, draft equal to the task's text |
| TaskItemComponent.TaskItem.HandleDoubleClick | src/components/TaskItem.jsx:17-20 | the new state and the (absent) intent are those `Step` gives for a double-click |
| TaskItemComponent.TaskItem.HandleEditClick | src/components/TaskItem.jsx:46-49 | the new state is the one `Step` gives for the edit button |
| TaskItemComponent.TaskItem.HandleChange | src/components/TaskItem.jsx:69 | the new state is the one `Step` gives for typing |
| TaskItemComponent.TaskItem.HandleSave | src/components/TaskItem.jsx:23-32 | the new state and emitted intent are those `Step` gives for save |
| TaskItemComponent.TaskItem.HandleKeyDown | src/components/TaskItem.jsx:35-43 | the new state and emitted intent are those `Step` gives for the key |
| TaskItemComponent.TaskItem.HandleCheckboxChange | src/components/TaskItem.jsx:59 | emits `onToggle(task.id)` in either mode without changing the editor state |
| TaskItemComponent.TaskItem.HandleDeleteClick | src/components/TaskItem.jsx:104-106 | emits `onDelete(task.id)` in either mode without changing the editor state |
| AppComponent.LocalStorage.SetItem | src/App.jsx:37-41 | a write stores the value under the key, or fails and changes nothing |
| AppComponent.App.constructor | src/App.jsx:9-14 | no tasks, filter 'all', latch set |
| AppComponent.App.LoadEffect | src/App.jsx:17-26 | a parsable stored list replaces the tasks; a missing or malformed one leaves them as they were |
| AppComponent.App.SaveEffect | src/App.jsx:30-42 | the first run clears the latch without writing; every later run writes the whole list under "tasks" unless the write fails |
| AppComponent.App.Mount | src/App.jsx:12-42 | mounting loads the stored list, clears the latch and leaves storage exactly as it was |
| AppComponent.App.Commit | src/App.jsx:30-42 | `setTasks(next)`: the list becomes `next` and the save effect runs once (skipped on the first run, a failing write ignored) |
| AppComponent.App.AddTask | src/App.jsx:49-60 | the list becomes `Add` of the old one; a blank text saves nothing; otherwise the save effect runs; well-formedness is kept |
| AppComponent.App.ToggleTask | src/App.jsx:67-71 | the list becomes `Toggle` of the old one, the save effect runs, well-formedness is kept |
| AppComponent.App.EditTask | src/App.jsx:79-86 | the list becomes `Edit` of the old one; a blank text saves nothing; well-formedness is kept |
| AppComponent.App.DeleteTask | src/App.jsx:93-95 | the list becomes `Delete` of the old one; with distinct ids it is one task shorter exactly when the id was present; the save effect runs; well-formedness is kept |
| AppComponent.App.ClearCompletedTasks | src/App.jsx:101-103 | the list becomes `ClearCompleted` of the old one and the save effect runs |
| AppComponent.App.SetFilter | src/App.jsx:10 | the filter becomes the given value and nothing else changes |
| AppComponent.App.FilteredTasks | src/App.jsx:106-110 | the view holds exactly the tasks the current filter shows, in order; under 'all' the whole list |
| AppComponent.App.ActiveTaskCount | src/App.jsx:113 | the count equals the length of the 'active' view, and with the 'completed' view it adds up to the list length |
| AppComponent.App.OnItemIntent | src/App.jsx:123-129 | an item's toggle, edit or delete intent runs the matching handler; a blank edit touches neither the latch nor storage |
| AppComponent.App.OnFiltersIntent | src/App.jsx:132-137 | a filter change only sets the filter, leaving the list, the latch and storage as they were; a clear request clears the completed tasks and saves |
| AppComponent.SaveThenReload | src/App.jsx:17-42 | after a save, a new App mounted on the same storage loads exactly the saved list: same order, ids, texts and flags |

## Left out

- JSON encoding and parsing are abstracted. A stored entry is either a
  serialized task list or malformed text. JSON that parses but is not a task
  array (`"null"`, an object) is not modelled.
- `console.error` logging of load and save failures is not modelled. The
  failures themselves are: a malformed entry is ignored, and a failing
  write (`quotaExceeded`) leaves storage unchanged.
- `crypto.randomUUID()` is modelled as the `freshId` parameter of `AddTask`.
  Its precondition says that no task already has that id.
- React scheduling is not modelled: batching, effect ordering beyond the
  mount sequence in `Mount`, StrictMode's double-invoked effects, and stale
  closures over `tasks`. Each handler is one atomic update of the current
  state. `setTasks` is followed immediately by the save effect it triggers.
- The `task` prop of `TaskItem` is fixed for the life of an item. Later
  re-renders that pass a new prop are not modelled, and neither is the
  `TaskList` key that remounts items when the filter changes.
- Rendering is not modelled: `src/components/TaskList.jsx` (the empty-state
  message, mapping tasks to items), JSX markup, CSS classes, aria-labels and
  `autoFocus`.
- `src/translations.js` and language selection are not modelled. They are
  a static string table; labels appear only as the `CounterLabel` tokens.
- `e.preventDefault()` in `TaskForm` is not modelled. It only stops a page
  reload.
- A click on the save button is modelled as one `Save` event. In a browser
  the click first blurs the edit input, which already saves and closes the
  editor. The click can then land on the edit button rendered in the save
  button's place and reopen the editor (`[Save, EditClick]` in `Run`). That
  blur and the element reuse behind it are not modelled.
- The `!text` guards for `null` or `undefined` are not modelled, because
  every input is a string. For a string, `!text` is covered by the blank
  test.
- TaskStore.ActiveCount: its own contract only bounds the count by the list
  length. The equality with the 'active' view is stated in
  `ActiveCountIsActiveView`.
