/** The TaskForm component: one draft string, a text input that replaces it
    and a submit that hands the draft to the App. */
module TaskFormComponent {
  import opened Trimming
  import opened TaskStore
  import opened Optional

  class TaskForm {
    /** The `taskText` state of the component. */
    var taskText: string

    /** The draft starts empty. */
    constructor ()
      ensures taskText == ""
    {
      taskText := "";
    }

    /** `handleSubmit`: a blank draft is rejected and kept as it is; any other
        draft is emitted as `onAddTask(taskText)`, untrimmed, and cleared. */
    method HandleSubmit() returns (added: Option<string>)
      modifies this
      ensures IsBlank(old(taskText)) ==> added == None && taskText == old(taskText)
      ensures !IsBlank(old(taskText)) ==> added == Some(old(taskText)) && taskText == ""
    {
      if IsBlank(taskText) {
        return None;
      }
      added := Some(taskText);
      taskText := "";
    }

    /** `handleInputChange`: the draft becomes the input's value. */
    method HandleInputChange(value: string)
      modifies this
      ensures taskText == value
    {
      taskText := value;
    }
  }

  /** The form and the store apply the same test: a draft the form emits is
      never refused by `Add`, which appends exactly one task holding the
      trimmed draft, and a draft the form keeps would have left the list as
      it was. */
  lemma SubmittedDraftIsAdded(ts: seq<Task>, draft: string, freshId: TaskId)
    ensures !IsBlank(draft) <==> |Add(ts, draft, freshId)| == |ts| + 1
    ensures !IsBlank(draft) ==> Add(ts, draft, freshId) == ts + [Task(freshId, Trim(draft), false)]
    ensures IsBlank(draft) ==> Add(ts, draft, freshId) == ts
  {
    if !IsBlank(draft) {
      var r := Add(ts, draft, freshId);
      assert r == r[..|ts|] + [r[|ts|]];
    }
  }
}
