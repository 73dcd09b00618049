/** The TaskItem component: one task shown with a checkbox, its text and
    edit and delete buttons, and edited inline. Its state is the pair of
    hooks `isEditing` and `editText`; it reports what the user did through
    the `onToggle`, `onEdit` and `onDelete` callbacks. */
module TaskItemComponent {
  import opened Trimming
  import opened TaskStore
  import opened Optional

  /** The calls the component makes to its parent's callbacks. */
  datatype ItemIntent = OnToggle(id: TaskId) | OnEdit(id: TaskId, text: string) | OnDelete(id: TaskId)

  /** The component's state: whether the edit input is shown, and its draft. */
  datatype Editor = Editor(isEditing: bool, editText: string)

  /** What the user can do to an item. `Save` is a blur of the edit input or
      a click on the save button, taken as one event; `KeyDown` carries the
      key's name. */
  datatype Event =
    | DoubleClick
    | EditClick
    | Change(value: string)
    | Save
    | KeyDown(key: string)
    | CheckboxChange
    | DeleteClick

  /** Whether the rendered item has the element that produces the event: the
      text span and the edit button exist only while not editing, the edit
      input and the save button only while editing, the checkbox and the
      delete button always. */
  predicate Offered(s: Editor, e: Event)
    ensures e.CheckboxChange? || e.DeleteClick? ==> Offered(s, e)
    ensures e.DoubleClick? || e.EditClick? ==> (Offered(s, e) <==> !s.isEditing)
    ensures e.Change? || e.Save? || e.KeyDown? ==> (Offered(s, e) <==> s.isEditing)
  {
    match e
    case DoubleClick => !s.isEditing
    case EditClick => !s.isEditing
    case Change(_) => s.isEditing
    case Save => s.isEditing
    case KeyDown(_) => s.isEditing
    case CheckboxChange => true
    case DeleteClick => true
  }

  /** The state after an event and the callback it invoked, if any. */
  datatype Reaction = Reaction(after: Editor, emitted: Option<ItemIntent>)

  /** `handleSave`: a draft that is not blank is reported as
      `onEdit(task.id, editText)`, untrimmed; a blank one is dropped and the
      draft reverts to the task's text. Either way editing ends. */
  function SaveReaction(task: Task, s: Editor): (r: Reaction)
    ensures !r.after.isEditing
    ensures r.emitted.Some? <==> !IsBlank(s.editText)
    ensures r.emitted.Some? ==> r.emitted.value == OnEdit(task.id, s.editText)
    ensures r.after.editText == if IsBlank(s.editText) then task.text else s.editText
  {
    if !IsBlank(s.editText) then
      Reaction(s.(isEditing := false), Some(OnEdit(task.id, s.editText)))
    else
      Reaction(Editor(false, task.text), None)
  }

  /** One event handled by the item showing `task` in state `s`. */
  function Step(task: Task, s: Editor, e: Event): (r: Reaction)
    requires Offered(s, e)
    ensures r.emitted.Some? ==> r.emitted.value.id == task.id
    ensures r.emitted.Some? && r.emitted.value.OnEdit? ==> !IsBlank(r.emitted.value.text)
    ensures e.Save? || e == KeyDown("Enter") || e == KeyDown("Escape") ==> !r.after.isEditing
    ensures e == CheckboxChange || e == DeleteClick ==> r.after == s
  {
    match e
    case DoubleClick => Reaction(Editor(true, task.text), None)
    case EditClick => Reaction(Editor(true, task.text), None)
    case Change(v) => Reaction(s.(editText := v), None)
    case Save => SaveReaction(task, s)
    case KeyDown(k) =>
      if k == "Enter" then SaveReaction(task, s)
      else if k == "Escape" then Reaction(Editor(false, task.text), None)
      else Reaction(s, None)
    case CheckboxChange => Reaction(s, Some(OnToggle(task.id)))
    case DeleteClick => Reaction(s, Some(OnDelete(task.id)))
  }

  /** Double-click and the edit button both open the editor on a fresh copy
      of the task's text, and report nothing. */
  lemma StartEditing(task: Task, s: Editor)
    requires !s.isEditing
    ensures Step(task, s, DoubleClick) == Step(task, s, EditClick)
    ensures Step(task, s, DoubleClick) == Reaction(Editor(true, task.text), None)
  {
  }

  /** Saving reports the untrimmed draft exactly when it is not blank; a
      blank draft reverts to the task's text. */
  lemma SaveRule(task: Task, s: Editor)
    requires s.isEditing
    ensures Step(task, s, Save).emitted.Some? <==> !IsBlank(s.editText)
    ensures !IsBlank(s.editText) ==>
      Step(task, s, Save) == Reaction(Editor(false, s.editText), Some(OnEdit(task.id, s.editText)))
    ensures IsBlank(s.editText) ==> Step(task, s, Save).after == Editor(false, task.text)
  {
  }

  /** Enter saves; Escape drops the draft, reverting it to the task's text,
      and reports nothing; any other key changes nothing. */
  lemma KeyRules(task: Task, s: Editor, key: string)
    requires s.isEditing
    ensures Step(task, s, KeyDown("Enter")) == Step(task, s, Save)
    ensures Step(task, s, KeyDown("Escape")) == Reaction(Editor(false, task.text), None)
    ensures key != "Enter" && key != "Escape" ==> Step(task, s, KeyDown(key)) == Reaction(s, None)
  {
  }

  /** Typing replaces the draft and leaves the editor open. */
  lemma TypingRule(task: Task, s: Editor, value: string)
    requires s.isEditing
    ensures Step(task, s, Change(value)) == Reaction(Editor(true, value), None)
  {
  }

  /** The events of a session in order, each handled if the item currently
      offers it (an event it does not offer cannot reach it); the final state
      and the callbacks invoked, in order. */
  function Run(task: Task, s: Editor, events: seq<Event>): (Editor, seq<ItemIntent>)
    decreases |events|
  {
    if events == [] then (s, [])
    else
      var e := events[0];
      var (s', out) := if Offered(s, e) then
          var r := Step(task, s, e);
          (r.after, if r.emitted.Some? then [r.emitted.value] else [])
        else (s, []);
      var (final, rest) := Run(task, s', events[1..]);
      (final, out + rest)
  }

  /** Whatever the user does, the item only ever reports about its own task,
      and never reports a blank edit. */
  lemma {:induction false} RunReportsOwnTask(task: Task, s: Editor, events: seq<Event>)
    ensures forall i :: 0 <= i < |Run(task, s, events).1| ==>
      && Run(task, s, events).1[i].id == task.id
      && (Run(task, s, events).1[i].OnEdit? ==> !IsBlank(Run(task, s, events).1[i].text))
    decreases |events|
  {
    if events != [] {
      var e := events[0];
      var s' := if Offered(s, e) then Step(task, s, e).after else s;
      RunReportsOwnTask(task, s', events[1..]);
    }
  }

  /** What an item reports on save is what the App applies: a reported edit
      sets the text of the item's task to the trimmed draft, never empty,
      and a draft the item drops would have been refused by the App too. */
  lemma SaveMatchesStore(ts: seq<Task>, task: Task, s: Editor, k: nat)
    requires s.isEditing && k < |ts| && ts[k].id == task.id
    ensures IsBlank(s.editText) ==> Step(task, s, Save).emitted == None && Edit(ts, task.id, s.editText) == ts
    ensures Step(task, s, Save).emitted.Some? ==>
      var d := Step(task, s, Save).emitted.value.text;
      Edit(ts, task.id, d)[k].text == Trim(d) && Trim(d) != []
  {
  }

  class TaskItem {
    /** The `task` prop. */
    const task: Task
    var isEditing: bool
    var editText: string

    function State(): Editor
      reads this
    {
      Editor(isEditing, editText)
    }

    /** Mounting shows the text, with the draft initialised to it. */
    constructor (task: Task)
      ensures this.task == task && !isEditing && editText == task.text
    {
      this.task := task;
      isEditing := false;
      editText := task.text;
    }

    /** `handleDoubleClick`, on the text span. */
    method HandleDoubleClick()
      requires !isEditing
      modifies this
      ensures Step(task, old(State()), DoubleClick) == Reaction(State(), None)
    {
      isEditing := true;
      editText := task.text;
    }

    /** `handleEditClick`, on the edit button. */
    method HandleEditClick()
      requires !isEditing
      modifies this
      ensures Step(task, old(State()), EditClick) == Reaction(State(), None)
    {
      isEditing := true;
      editText := task.text;
    }

    /** The edit input's `onChange`. */
    method HandleChange(value: string)
      requires isEditing
      modifies this
      ensures Step(task, old(State()), Change(value)) == Reaction(State(), None)
    {
      editText := value;
    }

    /** `handleSave`, on blur of the edit input and on the save button. */
    method HandleSave() returns (emitted: Option<ItemIntent>)
      requires isEditing
      modifies this
      ensures Step(task, old(State()), Save) == Reaction(State(), emitted)
    {
      emitted := None;
      if !IsBlank(editText) {
        emitted := Some(OnEdit(task.id, editText));
        isEditing := false;
      } else {
        editText := task.text;
        isEditing := false;
      }
    }

    /** `handleKeyDown`, on the edit input. */
    method HandleKeyDown(key: string) returns (emitted: Option<ItemIntent>)
      requires isEditing
      modifies this
      ensures Step(task, old(State()), KeyDown(key)) == Reaction(State(), emitted)
    {
      emitted := None;
      if key == "Enter" {
        emitted := HandleSave();
      } else if key == "Escape" {
        editText := task.text;
        isEditing := false;
      }
    }

    /** The checkbox's `onChange`: reports `onToggle(task.id)` in either mode
        and leaves the editor as it is. */
    method HandleCheckboxChange() returns (intent: ItemIntent)
      ensures Step(task, State(), CheckboxChange) == Reaction(State(), Some(intent))
    {
      intent := OnToggle(task.id);
    }

    /** The delete button: reports `onDelete(task.id)` in either mode and
        leaves the editor as it is. */
    method HandleDeleteClick() returns (intent: ItemIntent)
      ensures Step(task, State(), DeleteClick) == Reaction(State(), Some(intent))
    {
      intent := OnDelete(task.id);
    }
  }
}
