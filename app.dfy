/** The App component: it owns the task list and the current filter, loads
    the list from the browser's local storage when it mounts, and writes it
    back every time the list changes, except on the first run of that save
    effect. */
module AppComponent {
  import opened Trimming
  import opened TaskStore
  import opened TaskItemComponent
  import opened TaskFiltersComponent

  /** The storage key the list is kept under. */
  const TasksKey: string := "tasks"

  /** What a storage entry holds for the App: the JSON text of a task list,
      or text that does not parse. */
  datatype Stored = Malformed | Serialized(tasks: seq<Task>)

  /** The browser's local storage, as far as the App uses it. */
  class LocalStorage {
    var items: map<string, Stored>
    /** Whether a write currently fails (the storage quota is used up). */
    var quotaExceeded: bool

    constructor (items: map<string, Stored>, quotaExceeded: bool)
      ensures this.items == items && this.quotaExceeded == quotaExceeded
    {
      this.items := items;
      this.quotaExceeded := quotaExceeded;
    }

    /** `setItem(key, value)`: stores the value, or fails and changes nothing. */
    method SetItem(key: string, value: Stored) returns (ok: bool)
      modifies this`items
      ensures ok == !quotaExceeded
      ensures items == if ok then old(items)[key := value] else old(items)
    {
      ok := !quotaExceeded;
      if ok {
        items := items[key := value];
      }
    }
  }

  class App {
    var tasks: seq<Task>
    var filter: Filter
    /** The `isFirstRender` ref: set until the save effect has run once. */
    var isFirstRender: bool
    const storage: LocalStorage

    /** The first render: no tasks, the 'all' filter, the latch set. */
    constructor (storage: LocalStorage)
      ensures tasks == [] && filter == All && isFirstRender && this.storage == storage
    {
      tasks := [];
      filter := All;
      isFirstRender := true;
      this.storage := storage;
    }

    /** What one run of the save effect leaves behind, given the latch and the
        storage contents before it: the latch is cleared, and the current list
        is written under "tasks" unless this was the first run or the write
        failed. */
    ghost predicate SaveRan(wasFirst: bool, before: map<string, Stored>)
      reads this, storage
    {
      && !isFirstRender
      && storage.items == if wasFirst || storage.quotaExceeded then before else before[TasksKey := Serialized(tasks)]
    }

    /** The load effect: a stored list that parses replaces the tasks; a
        missing or malformed entry leaves them as they are. Returns whether
        the list was replaced. */
    method LoadEffect() returns (loaded: bool)
      modifies this`tasks
      ensures loaded <==> TasksKey in storage.items && storage.items[TasksKey].Serialized?
      ensures tasks == if loaded then storage.items[TasksKey].tasks else old(tasks)
    {
      loaded := false;
      if TasksKey in storage.items {
        match storage.items[TasksKey]
        case Serialized(saved) =>
          tasks := saved;
          loaded := true;
        case Malformed =>
      }
    }

    /** The save effect: its first run only clears the latch; every later run
        writes the whole list under "tasks" (a failing write is ignored). */
    method SaveEffect()
      modifies this`isFirstRender, storage`items
      ensures SaveRan(old(isFirstRender), old(storage.items))
    {
      if isFirstRender {
        isFirstRender := false;
        return;
      }
      var _ := storage.SetItem(TasksKey, Serialized(tasks));
    }

    /** Mounting: both effects run once for the first render (so the save is
        skipped), and when the load replaced the list, the save effect runs
        again for the render showing it. The stored list is never clobbered
        by the empty initial one. */
    method Mount()
      requires isFirstRender
      modifies this`tasks, this`isFirstRender, storage`items
      ensures !isFirstRender
      ensures storage.items == old(storage.items)
      ensures tasks == if TasksKey in storage.items && storage.items[TasksKey].Serialized?
                       then storage.items[TasksKey].tasks else old(tasks)
    {
      var loaded := LoadEffect();
      SaveEffect();
      if loaded {
        SaveEffect();
        assert storage.items == old(storage.items)[TasksKey := Serialized(tasks)] || storage.quotaExceeded;
      }
    }

    /** `setTasks(next)` followed by the save effect the new list triggers. */
    method Commit(next: seq<Task>)
      modifies this`tasks, this`isFirstRender, storage`items
      ensures tasks == next
      ensures SaveRan(old(isFirstRender), old(storage.items))
    {
      tasks := next;
      SaveEffect();
    }

    /** `addTask(text)`, with `freshId` the id `crypto.randomUUID()` returns,
        which no task has yet. A blank text returns before `setTasks`, so
        nothing is saved either. */
    method AddTask(text: string, freshId: TaskId)
      requires freshId !in Ids(tasks)
      modifies this`tasks, this`isFirstRender, storage`items
      ensures tasks == Add(old(tasks), text, freshId)
      ensures IsBlank(text) ==> isFirstRender == old(isFirstRender) && storage.items == old(storage.items)
      ensures !IsBlank(text) ==> SaveRan(old(isFirstRender), old(storage.items))
      ensures WellFormed(old(tasks)) ==> WellFormed(tasks)
    {
      if IsBlank(text) {
        return;
      }
      if WellFormed(tasks) {
        AddWellFormed(tasks, text, freshId);
      }
      Commit(Add(tasks, text, freshId));
    }

    /** `toggleTask(id)`. */
    method ToggleTask(id: TaskId)
      modifies this`tasks, this`isFirstRender, storage`items
      ensures tasks == Toggle(old(tasks), id)
      ensures SaveRan(old(isFirstRender), old(storage.items))
      ensures WellFormed(old(tasks)) ==> WellFormed(tasks)
    {
      if WellFormed(tasks) {
        ToggleWellFormed(tasks, id);
      }
      Commit(Toggle(tasks, id));
    }

    /** `editTask(id, newText)`. A blank text returns before `setTasks`. */
    method EditTask(id: TaskId, newText: string)
      modifies this`tasks, this`isFirstRender, storage`items
      ensures tasks == Edit(old(tasks), id, newText)
      ensures IsBlank(newText) ==> isFirstRender == old(isFirstRender) && storage.items == old(storage.items)
      ensures !IsBlank(newText) ==> SaveRan(old(isFirstRender), old(storage.items))
      ensures WellFormed(old(tasks)) ==> WellFormed(tasks)
    {
      if IsBlank(newText) {
        return;
      }
      if WellFormed(tasks) {
        EditWellFormed(tasks, id, newText);
      }
      Commit(Edit(tasks, id, newText));
    }

    /** `deleteTask(id)`. */
    method DeleteTask(id: TaskId)
      modifies this`tasks, this`isFirstRender, storage`items
      ensures tasks == Delete(old(tasks), id)
      ensures SaveRan(old(isFirstRender), old(storage.items))
      ensures WellFormed(old(tasks)) ==> WellFormed(tasks)
      ensures DistinctIds(old(tasks)) ==> |tasks| == if id in Ids(old(tasks)) then |old(tasks)| - 1 else |old(tasks)|
    {
      if DistinctIds(tasks) {
        DeleteCount(tasks, id);
      }
      Commit(Delete(tasks, id));
    }

    /** `clearCompleted()`. */
    method ClearCompletedTasks()
      modifies this`tasks, this`isFirstRender, storage`items
      ensures tasks == ClearCompleted(old(tasks))
      ensures SaveRan(old(isFirstRender), old(storage.items))
      ensures WellFormed(old(tasks)) ==> WellFormed(tasks)
    {
      ClearCompletedIdempotent(tasks);
      Commit(ClearCompleted(tasks));
    }

    /** `setFilter(f)`: the list, and so the storage, is untouched. */
    method SetFilter(f: Filter)
      modifies this`filter
      ensures filter == f
    {
      filter := f;
    }

    /** `filteredTasks`: the tasks the current filter shows, in list order;
        under 'all', the whole list. */
    function FilteredTasks(): (r: seq<Task>)
      reads this
      ensures forall t :: t in r <==> t in tasks && Shows(filter, t)
      ensures IsSubsequence(r, tasks)
      ensures filter == All ==> r == tasks
    {
      ViewAll(tasks);
      View(tasks, filter)
    }

    /** `activeTaskCount`: the length of the 'active' view. */
    function ActiveTaskCount(): (n: nat)
      reads this
      ensures n == |View(tasks, Active)|
      ensures n + |View(tasks, Completed)| == |tasks|
    {
      ActiveCountIsActiveView(tasks);
      ActiveCount(tasks)
    }

    /** The `onToggle`, `onEdit` and `onDelete` props the App hands to each item. */
    method OnItemIntent(intent: ItemIntent)
      modifies this`tasks, this`isFirstRender, storage`items
      ensures tasks == match intent
        case OnToggle(id) => Toggle(old(tasks), id)
        case OnEdit(id, text) => Edit(old(tasks), id, text)
        case OnDelete(id) => Delete(old(tasks), id)
      ensures intent.OnEdit? && IsBlank(intent.text) ==>
        isFirstRender == old(isFirstRender) && storage.items == old(storage.items)
      ensures !(intent.OnEdit? && IsBlank(intent.text)) ==> SaveRan(old(isFirstRender), old(storage.items))
    {
      match intent
      case OnToggle(id) => ToggleTask(id);
      case OnEdit(id, text) => EditTask(id, text);
      case OnDelete(id) => DeleteTask(id);
    }

    /** The `onFilterChange` and `onClearCompleted` props of the filters. */
    method OnFiltersIntent(intent: FiltersIntent)
      modifies this`tasks, this`filter, this`isFirstRender, storage`items
      ensures intent.FilterChange? ==>
        && filter == intent.f && tasks == old(tasks)
        && isFirstRender == old(isFirstRender) && storage.items == old(storage.items)
      ensures intent.ClearCompletedRequest? ==>
        filter == old(filter) && tasks == ClearCompleted(old(tasks)) && SaveRan(old(isFirstRender), old(storage.items))
    {
      match intent
      case FilterChange(f) => SetFilter(f);
      case ClearCompletedRequest => ClearCompletedTasks();
    }
  }

  /** A session ends with the list in storage; the next session's mount loads
      exactly that list, in order, with the same ids, texts and flags. */
  method SaveThenReload(app: App) returns (next: App)
    requires !app.isFirstRender && !app.storage.quotaExceeded
    modifies app`isFirstRender, app.storage`items
    ensures next.storage == app.storage && next.tasks == app.tasks
    ensures app.storage.items == old(app.storage.items)[TasksKey := Serialized(app.tasks)]
  {
    app.SaveEffect();
    next := new App(app.storage);
    next.Mount();
  }
}
