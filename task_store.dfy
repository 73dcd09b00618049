/** The task list of the application as a value: the new lists that the
    handlers of the App component build with spread, `map` and `filter`, and
    the views it derives from the list for display. */
module TaskStore {
  import opened Trimming

  /** Task ids come from `crypto.randomUUID()` and are opaque strings. */
  type TaskId = string

  datatype Task = Task(id: TaskId, text: string, completed: bool)

  /** The three values the `filter` state takes: 'all', 'active', 'completed'. */
  datatype Filter = All | Active | Completed

  function Ids(ts: seq<Task>): set<TaskId> {
    set t | t in ts :: t.id
  }

  ghost predicate DistinctIds(ts: seq<Task>) {
    forall i, j :: 0 <= i < |ts| && 0 <= j < |ts| && i != j ==> ts[i].id != ts[j].id
  }

  /** The list the handlers maintain: pairwise distinct ids, and every text
      already trimmed and not empty. */
  ghost predicate WellFormed(ts: seq<Task>) {
    && DistinctIds(ts)
    && forall t :: t in ts ==> t.text != [] && Trim(t.text) == t.text
  }

  /** `r` is `s` with some elements deleted and the rest kept in order
      (the first element of `r` is matched at its earliest position in `s`). */
  ghost predicate IsSubsequence(r: seq<Task>, s: seq<Task>)
    decreases |s|
  {
    if r == [] then true
    else if s == [] then false
    else if r[0] == s[0] then IsSubsequence(r[1..], s[1..])
    else IsSubsequence(r, s[1..])
  }

  /** `Array.prototype.filter`: the elements of `s` that satisfy `keep`, in order. */
  function Keep(s: seq<Task>, keep: Task -> bool): (r: seq<Task>)
    ensures |r| <= |s|
    ensures forall x :: x in r <==> x in s && keep(x)
    ensures forall x :: multiset(r)[x] == if keep(x) then multiset(s)[x] else 0
    ensures IsSubsequence(r, s)
  {
    if s == [] then []
    else
      var rest := Keep(s[1..], keep);
      assert s == [s[0]] + s[1..];
      if keep(s[0]) then
        [s[0]] + rest
      else
        assert rest != [] ==> rest[0] in rest;
        rest
  }

  /** `addTask(text)`, with `freshId` standing for what `crypto.randomUUID()`
      returns. A blank text leaves the list as it is; otherwise one new,
      not yet completed task holding the trimmed text is appended. */
  function Add(ts: seq<Task>, text: string, freshId: TaskId): (r: seq<Task>)
    ensures IsBlank(text) ==> r == ts
    ensures !IsBlank(text) ==> |r| == |ts| + 1 && r[..|ts|] == ts
    ensures !IsBlank(text) ==> r[|ts|].id == freshId && r[|ts|].text == Trim(text) && !r[|ts|].completed
  {
    if IsBlank(text) then ts
    else ts + [Task(freshId, Trim(text), false)]
  }

  /** `toggleTask(id)`: flips `completed` on the tasks carrying `id` and on no
      other, keeping length, order, ids and texts. */
  function Toggle(ts: seq<Task>, id: TaskId): (r: seq<Task>)
    ensures |r| == |ts|
    ensures forall i :: 0 <= i < |ts| ==>
      && r[i].id == ts[i].id
      && r[i].text == ts[i].text
      && (r[i].completed <==> (ts[i].completed != (ts[i].id == id)))
  {
    seq(|ts|, i requires 0 <= i < |ts| =>
      if ts[i].id == id then ts[i].(completed := !ts[i].completed) else ts[i])
  }

  /** `editTask(id, newText)`: a blank text leaves the list as it is; otherwise
      the tasks carrying `id` get the trimmed text, and nothing else changes. */
  function Edit(ts: seq<Task>, id: TaskId, newText: string): (r: seq<Task>)
    ensures IsBlank(newText) ==> r == ts
    ensures |r| == |ts|
    ensures forall i :: 0 <= i < |ts| ==>
      && r[i].id == ts[i].id
      && r[i].completed == ts[i].completed
      && r[i].text == (if ts[i].id == id && !IsBlank(newText) then Trim(newText) else ts[i].text)
  {
    if IsBlank(newText) then ts
    else
      seq(|ts|, i requires 0 <= i < |ts| =>
        if ts[i].id == id then ts[i].(text := Trim(newText)) else ts[i])
  }

  /** `deleteTask(id)`: exactly the tasks not carrying `id`, in their order. */
  function Delete(ts: seq<Task>, id: TaskId): (r: seq<Task>)
    ensures forall t :: t in r <==> t in ts && t.id != id
    ensures forall t :: multiset(r)[t] == if t.id != id then multiset(ts)[t] else 0
    ensures id !in Ids(r)
    ensures IsSubsequence(r, ts)
  {
    Keep(ts, (t: Task) => t.id != id)
  }

  /** A task still to do: the test shared by `clearCompleted`,
      `activeTaskCount` and the 'active' filter. */
  predicate IsActive(t: Task) {
    !t.completed
  }

  /** `clearCompleted()`: exactly the tasks not completed, in their order. */
  function ClearCompleted(ts: seq<Task>): (r: seq<Task>)
    ensures forall t :: t in r <==> t in ts && !t.completed
    ensures forall t :: multiset(r)[t] == if !t.completed then multiset(ts)[t] else 0
    ensures IsSubsequence(r, ts)
  {
    Keep(ts, IsActive)
  }

  /** Whether a task is shown under a filter: 'active' shows the tasks not
      completed, 'completed' the completed ones, 'all' every task. */
  predicate Shows(f: Filter, t: Task)
    ensures f == All ==> Shows(f, t)
    ensures f != All ==> (Shows(f, t) <==> t.completed == (f == Completed))
  {
    match f
    case Active => IsActive(t)
    case Completed => t.completed
    case All => true
  }

  /** `filteredTasks`: the tasks the filter shows, in list order. */
  function View(ts: seq<Task>, f: Filter): (r: seq<Task>)
    ensures forall t :: t in r <==> t in ts && Shows(f, t)
    ensures forall t :: multiset(r)[t] == if Shows(f, t) then multiset(ts)[t] else 0
    ensures IsSubsequence(r, ts)
  {
    Keep(ts, t => Shows(f, t))
  }

  /** `activeTaskCount`: the number of tasks not completed. */
  function ActiveCount(ts: seq<Task>): (n: nat)
    ensures n <= |ts|
  {
    |Keep(ts, IsActive)|
  }

  // ---------------------------------------------------------------------------
  // Lemmas about `Keep`, the one list filter every handler and view uses.

  /** Filtering with two predicates that agree gives the same list. */
  lemma {:induction false} KeepAgreeing(s: seq<Task>, p: Task -> bool, q: Task -> bool)
    requires forall x :: x in s ==> p(x) == q(x)
    ensures Keep(s, p) == Keep(s, q)
  {
    if s != [] {
      KeepAgreeing(s[1..], p, q);
    }
  }

  /** A filter that every element passes returns the list itself. */
  lemma {:induction false} KeepEverything(s: seq<Task>, p: Task -> bool)
    requires forall x :: x in s ==> p(x)
    ensures Keep(s, p) == s
  {
    if s != [] {
      KeepEverything(s[1..], p);
    }
  }

  /** Filtering again with the same predicate changes nothing. */
  lemma KeepIdempotent(s: seq<Task>, p: Task -> bool)
    ensures Keep(Keep(s, p), p) == Keep(s, p)
  {
    KeepEverything(Keep(s, p), p);
  }

  /** A predicate and its negation split a list: every element lands in
      exactly one of the two filtered lists, with its multiplicity. */
  lemma KeepSplits(s: seq<Task>, p: Task -> bool, q: Task -> bool)
    requires forall x :: q(x) == !p(x)
    ensures multiset(Keep(s, p)) + multiset(Keep(s, q)) == multiset(s)
    ensures |Keep(s, p)| + |Keep(s, q)| == |s|
  {
    var a, b := Keep(s, p), Keep(s, q);
    assert multiset(a) + multiset(b) == multiset(s) by {
      forall x ensures (multiset(a) + multiset(b))[x] == multiset(s)[x] {
        assert q(x) == !p(x);
      }
    }
    assert |multiset(a) + multiset(b)| == |multiset(s)|;
  }

  lemma DistinctIdsCons(t: Task, ts: seq<Task>)
    requires DistinctIds(ts) && t.id !in Ids(ts)
    ensures DistinctIds([t] + ts)
  {
    var s := [t] + ts;
    forall i, j | 0 <= i < |s| && 0 <= j < |s| && i != j
      ensures s[i].id != s[j].id
    {
      if i == 0 {
        assert s[j] in ts;
      } else if j == 0 {
        assert s[i] in ts;
      } else {
        assert s[i] == ts[i - 1] && s[j] == ts[j - 1];
      }
    }
  }

  /** Filtering keeps ids distinct. */
  lemma {:induction false} KeepDistinct(ts: seq<Task>, p: Task -> bool)
    requires DistinctIds(ts)
    ensures DistinctIds(Keep(ts, p))
  {
    if ts != [] {
      var rest := ts[1..];
      assert DistinctIds(rest) by {
        forall i, j | 0 <= i < |rest| && 0 <= j < |rest| && i != j
          ensures rest[i].id != rest[j].id
        {
          assert rest[i] == ts[i + 1] && rest[j] == ts[j + 1];
        }
      }
      KeepDistinct(rest, p);
      if p(ts[0]) {
        assert ts[0].id !in Ids(Keep(rest, p)) by {
          forall t | t in Keep(rest, p) ensures t.id != ts[0].id {
            var k :| 0 <= k < |rest| && rest[k] == t;
            assert ts[k + 1] == t;
          }
        }
        DistinctIdsCons(ts[0], Keep(rest, p));
      }
    }
  }

  /** Filtering keeps every per-task property of the list. */
  lemma KeepWellFormed(ts: seq<Task>, p: Task -> bool)
    requires WellFormed(ts)
    ensures WellFormed(Keep(ts, p))
  {
    KeepDistinct(ts, p);
  }

  /** With distinct ids, removing one id drops exactly one task when the id
      is present and none when it is not. */
  lemma {:induction false} KeepOtherIds(ts: seq<Task>, id: TaskId)
    requires DistinctIds(ts)
    ensures |Delete(ts, id)| == if id in Ids(ts) then |ts| - 1 else |ts|
  {
    if ts != [] {
      var rest := ts[1..];
      assert DistinctIds(rest) by {
        forall i, j | 0 <= i < |rest| && 0 <= j < |rest| && i != j
          ensures rest[i].id != rest[j].id
        {
          assert rest[i] == ts[i + 1] && rest[j] == ts[j + 1];
        }
      }
      assert Ids(ts) == {ts[0].id} + Ids(rest) by {
        assert forall t :: t in ts <==> t == ts[0] || t in rest;
      }
      if ts[0].id == id {
        assert id !in Ids(rest) by {
          forall t | t in rest ensures t.id != id {
            var k :| 0 <= k < |rest| && rest[k] == t;
            assert ts[k + 1] == t;
          }
        }
        KeepEverything(rest, (t: Task) => t.id != id);
      } else {
        KeepOtherIds(rest, id);
      }
    }
  }

  // ---------------------------------------------------------------------------
  // What the handlers promise.

  lemma AppendIds(ts: seq<Task>, t: Task)
    ensures Ids(ts + [t]) == Ids(ts) + {t.id}
  {
    assert forall x :: x in ts + [t] <==> x in ts || x == t;
  }

  lemma DistinctIdsSnoc(ts: seq<Task>, t: Task)
    requires DistinctIds(ts) && t.id !in Ids(ts)
    ensures DistinctIds(ts + [t])
  {
    var r := ts + [t];
    forall i, j | 0 <= i < |r| && 0 <= j < |r| && i != j
      ensures r[i].id != r[j].id
    {
      if i == |ts| {
        assert r[j] == ts[j] && ts[j] in ts;
      } else if j == |ts| {
        assert r[i] == ts[i] && ts[i] in ts;
      } else {
        assert r[i] == ts[i] && r[j] == ts[j];
      }
    }
  }

  /** Adding under a fresh id keeps the list well formed and adds exactly
      that id. */
  lemma AddWellFormed(ts: seq<Task>, text: string, freshId: TaskId)
    requires WellFormed(ts) && freshId !in Ids(ts)
    ensures WellFormed(Add(ts, text, freshId))
    ensures Ids(Add(ts, text, freshId)) == if IsBlank(text) then Ids(ts) else Ids(ts) + {freshId}
  {
    if !IsBlank(text) {
      var t := Task(freshId, Trim(text), false);
      TrimIdempotent(text);
      AppendIds(ts, t);
      DistinctIdsSnoc(ts, t);
      assert forall x :: x in ts + [t] ==> x in ts || x == t;
    }
  }

  /** Toggling the same id twice restores the list. */
  lemma ToggleTwice(ts: seq<Task>, id: TaskId)
    ensures Toggle(Toggle(ts, id), id) == ts
  {
    var r := Toggle(Toggle(ts, id), id);
    assert forall i :: 0 <= i < |ts| ==> r[i] == ts[i];
  }

  /** Toggling an id no task carries changes nothing. */
  lemma ToggleAbsent(ts: seq<Task>, id: TaskId)
    requires id !in Ids(ts)
    ensures Toggle(ts, id) == ts
  {
    var r := Toggle(ts, id);
    forall i | 0 <= i < |ts| ensures r[i] == ts[i] {
      assert ts[i] in ts;
    }
  }

  /** Toggling keeps the ids and the well-formedness of the list. */
  lemma ToggleWellFormed(ts: seq<Task>, id: TaskId)
    requires WellFormed(ts)
    ensures WellFormed(Toggle(ts, id)) && Ids(Toggle(ts, id)) == Ids(ts)
  {
    var r := Toggle(ts, id);
    forall k | 0 <= k < |r| ensures r[k].text != [] && Trim(r[k].text) == r[k].text {
      assert ts[k] in ts;
    }
    TextsTrimmed(r);
    SameIdsPointwise(ts, r);
  }

  /** Editing an id no task carries changes nothing. */
  lemma EditAbsent(ts: seq<Task>, id: TaskId, newText: string)
    requires id !in Ids(ts)
    ensures Edit(ts, id, newText) == ts
  {
    var r := Edit(ts, id, newText);
    forall i | 0 <= i < |ts| ensures r[i] == ts[i] {
      assert ts[i] in ts;
    }
  }

  /** Editing keeps the ids and the well-formedness of the list. */
  lemma EditWellFormed(ts: seq<Task>, id: TaskId, newText: string)
    requires WellFormed(ts)
    ensures WellFormed(Edit(ts, id, newText)) && Ids(Edit(ts, id, newText)) == Ids(ts)
  {
    var r := Edit(ts, id, newText);
    if !IsBlank(newText) {
      var u := Trim(newText);
      TrimIdempotent(newText);
      SameIdsPointwise(ts, r);
      forall k | 0 <= k < |r| ensures r[k].text != [] && Trim(r[k].text) == r[k].text {
        if ts[k].id == id {
          assert r[k].text == u;
        } else {
          assert ts[k] in ts && r[k].text == ts[k].text;
        }
      }
      TextsTrimmed(r);
    }
  }

  lemma TextsTrimmed(r: seq<Task>)
    requires forall k :: 0 <= k < |r| ==> r[k].text != [] && Trim(r[k].text) == r[k].text
    ensures forall t :: t in r ==> t.text != [] && Trim(t.text) == t.text
  {
  }

  lemma SameIdsPointwise(ts: seq<Task>, r: seq<Task>)
    requires |r| == |ts| && forall i :: 0 <= i < |ts| ==> r[i].id == ts[i].id
    ensures Ids(r) == Ids(ts) && (DistinctIds(ts) ==> DistinctIds(r))
  {
    forall x | x in Ids(r) ensures x in Ids(ts) {
      var t :| t in r && t.id == x;
      var k :| 0 <= k < |r| && r[k] == t;
      assert ts[k] in ts;
    }
    forall x | x in Ids(ts) ensures x in Ids(r) {
      var t :| t in ts && t.id == x;
      var k :| 0 <= k < |ts| && ts[k] == t;
      assert r[k] in r;
    }
  }

  /** With distinct ids, deleting shortens the list by one exactly when the id
      is present, and keeps the list well formed. */
  lemma DeleteCount(ts: seq<Task>, id: TaskId)
    requires DistinctIds(ts)
    ensures |Delete(ts, id)| == if id in Ids(ts) then |ts| - 1 else |ts|
    ensures WellFormed(ts) ==> WellFormed(Delete(ts, id))
  {
    KeepOtherIds(ts, id);
    if WellFormed(ts) {
      KeepWellFormed(ts, (t: Task) => t.id != id);
    }
  }

  /** Clearing the completed tasks keeps the list well formed, gives the
      'active' view, and a second clear changes nothing. */
  lemma ClearCompletedIdempotent(ts: seq<Task>)
    ensures ClearCompleted(ClearCompleted(ts)) == ClearCompleted(ts)
    ensures ClearCompleted(ts) == View(ts, Active)
    ensures WellFormed(ts) ==> WellFormed(ClearCompleted(ts))
  {
    KeepIdempotent(ts, IsActive);
    KeepAgreeing(ts, IsActive, t => Shows(Active, t));
    if WellFormed(ts) {
      KeepWellFormed(ts, IsActive);
    }
  }

  /** The 'all' view is the whole list. */
  lemma ViewAll(ts: seq<Task>)
    ensures View(ts, All) == ts
  {
    KeepEverything(ts, t => Shows(All, t));
  }

  /** The 'active' and 'completed' views split the list: disjoint, and
      together holding every task as often as the list does. */
  lemma ViewsPartition(ts: seq<Task>)
    ensures multiset(View(ts, Active)) + multiset(View(ts, Completed)) == multiset(ts)
    ensures |View(ts, Active)| + |View(ts, Completed)| == |ts|
    ensures forall t :: t in View(ts, Active) ==> t !in View(ts, Completed)
  {
    KeepSplits(ts, t => Shows(Active, t), t => Shows(Completed, t));
  }

  /** The counter counts the 'active' view, i.e. the tasks not shown as completed. */
  lemma ActiveCountIsActiveView(ts: seq<Task>)
    ensures ActiveCount(ts) == |View(ts, Active)|
    ensures ActiveCount(ts) == |ts| - |View(ts, Completed)|
    ensures ActiveCount(ts) == 0 <==> forall t :: t in ts ==> t.completed
  {
    KeepAgreeing(ts, IsActive, t => Shows(Active, t));
    ViewsPartition(ts);
    if ActiveCount(ts) != 0 {
      assert Keep(ts, IsActive)[0] in Keep(ts, IsActive);
    }
  }

  /** Starting empty: add a first task (say "Buy milk"), add a second ("Walk
      dog"), toggle the first; the 'completed' view holds just the first task,
      now completed, and one task is active. */
  lemma TwoTasksScenario(first: string, second: string, id1: TaskId, id2: TaskId)
    requires !IsBlank(first) && !IsBlank(second) && id1 != id2
    ensures var ts := Toggle(Add(Add([], first, id1), second, id2), id1);
      && View(ts, Completed) == [Task(id1, Trim(first), true)]
      && ActiveCount(ts) == 1
  {
    var one := Add([], first, id1);
    assert one == [Task(id1, Trim(first), false)];
    var two := Add(one, second, id2);
    assert two == [Task(id1, Trim(first), false), Task(id2, Trim(second), false)];
    var ts := Toggle(two, id1);
    assert ts == [Task(id1, Trim(first), true), Task(id2, Trim(second), false)];
    assert View(ts[1..], Completed) == [];
    assert Keep(ts[1..], IsActive) == [ts[1]];
  }
}
