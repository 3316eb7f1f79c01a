/**
 * The task list's data and the pure rules behind its operations: the task
 * record, lookup by id, the updates that toggle, edit and delete tasks, the
 * pending/completed views and the progress statistics.
 */
module Tasks {
  import opened Wrappers
  import opened JsText
  import opened Sequences

  /** One to-do item as the list stores it. `id` is the creation time in
      milliseconds; `createdAt` is its ISO-8601 rendering. */
  datatype Task = Task(
    id: int,
    text: string,
    completed: bool,
    priority: string,
    category: string,
    dueDate: string,
    notes: string,
    createdAt: string)

  /** The five fields of the task details dialog. */
  datatype Details = Details(
    title: string,
    dueDate: string,
    priority: string,
    category: string,
    notes: string)

  /** The view selector of the filter bar. */
  datatype Filter = All | Pending | Completed

  /** What the progress panel shows. */
  datatype Stats = Stats(total: nat, completed: nat, percentage: nat)

  /** A task as `addTask` creates it: not completed, medium priority, in the
      work category, with no due date and no notes. */
  function NewTask(id: int, text: string, createdAt: string): Task {
    Task(id, text, false, "medium", "work", "", "", createdAt)
  }

  /** The values `editTask` loads into the details dialog. */
  function DetailsOf(t: Task): Details {
    Details(t.text, t.dueDate, t.priority, t.category, t.notes)
  }

  /** A new task is pending, and its editable fields are the defaults the
      details dialog opens with (`showTaskModal`). Putting it in front adds it
      to the front of the pending view, leaves the completed view as it was,
      and adds one to the total but not to the completed count. */
  lemma AddSpec(ts: seq<Task>, id: int, text: string, createdAt: string)
    ensures var t := NewTask(id, text, createdAt);
            && IsPending(t) && t.id == id && t.text == text && t.createdAt == createdAt
            && DetailsOf(t) == Details(text, "", "medium", "work", "")
            && View([t] + ts, Pending) == [t] + View(ts, Pending)
            && View([t] + ts, Completed) == View(ts, Completed)
            && StatsOf([t] + ts).total == StatsOf(ts).total + 1
            && StatsOf([t] + ts).completed == StatsOf(ts).completed
  {
    var t := NewTask(id, text, createdAt);
    assert ([t] + ts)[1..] == ts;
  }

  /** `t` with the dialog's values spread over it, the title already trimmed. */
  function WithDetails(t: Task, title: string, d: Details): (r: Task)
    ensures r.id == t.id && r.completed == t.completed && r.createdAt == t.createdAt
    ensures DetailsOf(r) == d.(title := title)
  {
    t.(text := title, dueDate := d.dueDate, priority := d.priority,
       category := d.category, notes := d.notes)
  }

  /** Loading a task into the dialog and spreading the loaded values back
      over it gives the task back; with `WithDetails`'s contract, the two are
      inverses on the five editable fields. */
  lemma DetailsRoundTrip(t: Task)
    ensures WithDetails(t, DetailsOf(t).title, DetailsOf(t)) == t
  {
  }

  predicate IsCompleted(t: Task) { t.completed }

  predicate IsPending(t: Task) { !t.completed }

  /** The filter `deleteTask` applies: keep tasks whose id differs. */
  function NotId(id: int): Task -> bool {
    (t: Task) => t.id != id
  }

  /** Its negation: the tasks `deleteTask` removes. */
  function HasId(id: int): Task -> bool {
    (t: Task) => t.id == id
  }

  /** `a` and `b` carry the same ids at the same positions. */
  ghost predicate SameIds(a: seq<Task>, b: seq<Task>) {
    |a| == |b| && forall j :: 0 <= j < |a| ==> a[j].id == b[j].id
  }

  /** No two tasks share an id. The list does not enforce this itself. */
  ghost predicate UniqueIds(ts: seq<Task>) {
    forall i, j :: 0 <= i < j < |ts| ==> ts[i].id != ts[j].id
  }

  // ---------------------------------------------------------------------
  // Lookup

  /** `tasks.findIndex(task => task.id === id)`, with `None` for -1: the
      first position holding a task with that id. */
  function IndexOf(ts: seq<Task>, id: int): (r: Option<nat>)
    ensures r.Some? ==> r.value < |ts| && ts[r.value].id == id
    ensures r.Some? ==> forall j :: 0 <= j < r.value ==> ts[j].id != id
    ensures r.None? <==> forall j :: 0 <= j < |ts| ==> ts[j].id != id
  {
    if ts == [] then None
    else if ts[0].id == id then Some(0)
    else match IndexOf(ts[1..], id)
      case None => None
      case Some(k) => Some(k + 1)
  }

  // ---------------------------------------------------------------------
  // Updating the first task with a given id

  /** Apply `f` to the first task whose id is `id`; no change if there is none. */
  function UpdateFirst(ts: seq<Task>, id: int, f: Task -> Task): (r: seq<Task>)
    ensures |r| == |ts|
    ensures forall j :: 0 <= j < |ts| && ts[j].id != id ==> r[j] == ts[j]
    ensures forall j :: 0 <= j < |ts| && r[j] != ts[j] ==> r[j] == f(ts[j])
  {
    if ts == [] then []
    else if ts[0].id == id then [f(ts[0])] + ts[1..]
    else [ts[0]] + UpdateFirst(ts[1..], id, f)
  }

  /** Updating the first match is assigning at the index `IndexOf` finds. */
  lemma {:induction false} UpdateFirstAt(ts: seq<Task>, id: int, f: Task -> Task)
    ensures IndexOf(ts, id).None? ==> UpdateFirst(ts, id, f) == ts
    ensures IndexOf(ts, id).Some? ==>
              var i := IndexOf(ts, id).value;
              UpdateFirst(ts, id, f) == ts[i := f(ts[i])]
  {
    if ts != [] && ts[0].id != id {
      UpdateFirstAt(ts[1..], id, f);
      assert ts == [ts[0]] + ts[1..];
    }
  }

  function Flip(t: Task): Task {
    t.(completed := !t.completed)
  }

  /** The list after `toggleTaskComplete(id)`. */
  function Toggled(ts: seq<Task>, id: int): (r: seq<Task>)
    ensures SameIds(r, ts)
  {
    UpdateFirst(ts, id, Flip)
  }

  function Editor(title: string, d: Details): Task -> Task {
    (t: Task) => WithDetails(t, title, d)
  }

  /** The list after the details of the first task with `id` are replaced. */
  function Edited(ts: seq<Task>, id: int, title: string, d: Details): (r: seq<Task>)
    ensures SameIds(r, ts)
  {
    UpdateFirst(ts, id, Editor(title, d))
  }

  /** The outcome of `saveTaskDetails`: `None` when it returns early and
      changes nothing, otherwise the new list. */
  function Saved(ts: seq<Task>, editing: Option<int>, d: Details): (r: Option<seq<Task>>)
    ensures editing.None? ==> r.None?
    ensures r.Some? ==> SameIds(r.value, ts)
  {
    var title := Trim(d.title);
    if title == [] || editing.None? || IndexOf(ts, editing.value).None? then None
    else Some(Edited(ts, editing.value, title, d))
  }

  /** The list after `deleteTask(id)`. */
  function WithoutId(ts: seq<Task>, id: int): (r: seq<Task>)
    ensures |r| <= |ts|
    ensures IndexOf(r, id).None?
  {
    Keep(ts, NotId(id))
  }

  // ---------------------------------------------------------------------
  // Views and statistics

  /** The tasks `renderTasks` shows under a filter. */
  function View(ts: seq<Task>, f: Filter): (r: seq<Task>)
    ensures |r| <= |ts|
    ensures forall k :: 0 <= k < |r| ==>
              r[k] in ts && (f == Pending ==> !r[k].completed) && (f == Completed ==> r[k].completed)
  {
    match f
    case All => ts
    case Pending => Keep(ts, IsPending)
    case Completed => Keep(ts, IsCompleted)
  }

  /** `tasks.filter(task => task.completed).length`. */
  function CountCompleted(ts: seq<Task>): (c: nat)
    ensures c <= |ts|
    ensures c == 0 <==> forall k :: 0 <= k < |ts| ==> !ts[k].completed
  {
    var kept := Keep(ts, IsCompleted);
    assert kept != [] ==> IsCompleted(kept[0]) && kept[0] in ts;
    |kept|
  }

  /** `Math.round(completed / total * 100)`, or 0 for an empty list, over exact
      rationals: the nearest integer percentage, ties rounded up. */
  function RoundedPercent(completed: nat, total: nat): (p: nat)
    requires completed <= total
    ensures p <= 100
    ensures total == 0 ==> p == 0
    ensures completed == 0 ==> p == 0
    ensures total > 0 && completed == total ==> p == 100
    ensures total > 0 ==> total * (2 * p - 1) <= 200 * completed < total * (2 * p + 1)
  {
    if total == 0 then 0
    else
      var a, b := 200 * completed + total, 2 * total;
      var p := a / b;
      DivBounds(a, b);
      assert p <= 100 by {
        if p > 100 {
          MulMonotone(b, 101, p);
        }
      }
      assert completed == 0 ==> p == 0 by {
        if completed == 0 {
          assert 0 <= a < b;
        }
      }
      assert completed == total ==> p == 100 by {
        if completed == total && p < 100 {
          MulMonotone(b, p, 99);
        }
      }
      Nearest(completed, total, p);
      p
  }

  lemma Nearest(completed: nat, total: nat, p: nat)
    requires completed <= total && total > 0
    requires 2 * total * p <= 200 * completed + total < 2 * total * p + 2 * total
    ensures total * (2 * p - 1) <= 200 * completed < total * (2 * p + 1)
  {
  }

  lemma DivBounds(a: nat, b: nat)
    requires b > 0
    ensures b * (a / b) <= a < b * (a / b) + b
  {
  }

  lemma MulMonotone(b: nat, x: nat, y: nat)
    requires x <= y
    ensures b * x <= b * y
  {
    assert b * y == b * x + b * (y - x);
  }

  /** The numbers `updateStats` shows for the list. */
  function StatsOf(ts: seq<Task>): (s: Stats)
    ensures s.total == |ts| && s.completed <= s.total
    ensures s.percentage <= 100 && (s.total == 0 ==> s.percentage == 0)
    ensures s.total > 0 && s.completed == s.total ==> s.percentage == 100
    ensures s.completed == 0 ==> s.percentage == 0
  {
    var c := CountCompleted(ts);
    Stats(|ts|, c, RoundedPercent(c, |ts|))
  }

  // ---------------------------------------------------------------------
  // Properties of the operations

  /** Toggling flips `completed` of the first task with the id and changes no
      other field of it and no other task; an unknown id changes nothing. */
  lemma ToggleSpec(ts: seq<Task>, id: int)
    ensures |Toggled(ts, id)| == |ts|
    ensures IndexOf(ts, id).None? ==> Toggled(ts, id) == ts
    ensures IndexOf(ts, id).Some? ==>
              var i, r := IndexOf(ts, id).value, Toggled(ts, id);
              r[i].completed == !ts[i].completed
              && r[i].(completed := ts[i].completed) == ts[i]
              && forall j :: 0 <= j < |ts| && j != i ==> r[j] == ts[j]
  {
    UpdateFirstAt(ts, id, Flip);
  }

  /** Toggling an existing task moves the completed count by exactly one, in
      the direction of the task's new state. */
  lemma ToggleCount(ts: seq<Task>, id: int)
    requires IndexOf(ts, id).Some?
    ensures var i := IndexOf(ts, id).value;
            CountCompleted(Toggled(ts, id))
            == if ts[i].completed then CountCompleted(ts) - 1 else CountCompleted(ts) + 1
  {
    var i := IndexOf(ts, id).value;
    UpdateFirstAt(ts, id, Flip);
    KeepCountUpdate(ts, i, Flip(ts[i]), IsCompleted);
  }

  /** The confetti test of `toggleTaskComplete` (the toggled task is now
      completed and exactly one task is) holds exactly when the toggle took
      the completed count from 0 to 1. */
  lemma FirstCompletion(ts: seq<Task>, id: int)
    requires IndexOf(ts, id).Some?
    ensures var i, r := IndexOf(ts, id).value, Toggled(ts, id);
            (r[i].completed && CountCompleted(r) == 1)
            <==> (CountCompleted(ts) == 0 && CountCompleted(r) == 1)
  {
    var i := IndexOf(ts, id).value;
    ToggleSpec(ts, id);
    ToggleCount(ts, id);
    if ts[i].completed {
      assert ts[i] in Keep(ts, IsCompleted);
    }
  }

  /** Deleting keeps exactly the tasks with another id, in their order and
      as many times as each occurs: what it removes is exactly the tasks with
      the id. An unknown id changes nothing. */
  lemma DeleteSpec(ts: seq<Task>, id: int)
    ensures forall k :: 0 <= k < |WithoutId(ts, id)| ==>
              WithoutId(ts, id)[k].id != id && WithoutId(ts, id)[k] in ts
    ensures forall k :: 0 <= k < |ts| && ts[k].id != id ==> ts[k] in WithoutId(ts, id)
    ensures IsSubsequence(WithoutId(ts, id), ts)
    ensures multiset(WithoutId(ts, id)) + multiset(Keep(ts, HasId(id))) == multiset(ts)
    ensures IndexOf(ts, id).None? ==> WithoutId(ts, id) == ts
  {
    KeepIsSubsequence(ts, NotId(id));
    KeepPartition(ts, NotId(id), HasId(id));
    if IndexOf(ts, id).None? {
      KeepAll(ts, NotId(id));
    }
  }

  /** With unique ids, deleting an existing id removes exactly that one task. */
  lemma DeleteUnique(ts: seq<Task>, id: int)
    requires UniqueIds(ts) && IndexOf(ts, id).Some?
    ensures var i := IndexOf(ts, id).value;
            WithoutId(ts, id) == ts[..i] + ts[i + 1..]
    ensures |WithoutId(ts, id)| == |ts| - 1
  {
    var i := IndexOf(ts, id).value;
    KeepDropsOne(ts, NotId(id), i);
  }

  /** Saving does nothing exactly when the trimmed title is empty or no task
      carries the editing id (null included). Otherwise it replaces the text,
      due date, priority, category and notes of the first task with that id,
      keeps its id, completion and creation time, and touches no other task. */
  lemma SaveSpec(ts: seq<Task>, editing: Option<int>, d: Details)
    ensures Saved(ts, editing, d).None?
            <==> Trim(d.title) == [] || editing.None? || IndexOf(ts, editing.value).None?
    ensures Saved(ts, editing, d).Some? ==>
              var i, r := IndexOf(ts, editing.value).value, Saved(ts, editing, d).value;
              |r| == |ts|
              && r[i].id == ts[i].id && r[i].completed == ts[i].completed
              && r[i].createdAt == ts[i].createdAt
              && r[i].text == Trim(d.title) && r[i].dueDate == d.dueDate
              && r[i].priority == d.priority && r[i].category == d.category
              && r[i].notes == d.notes
              && forall j :: 0 <= j < |ts| && j != i ==> r[j] == ts[j]
  {
    if Saved(ts, editing, d).Some? {
      UpdateFirstAt(ts, editing.value, Editor(Trim(d.title), d));
    }
  }

  /** Opening a task in the editor and saving the values it loaded, when its
      text is already trimmed and not empty, leaves the list as it was. */
  lemma EditSaveRoundTrip(ts: seq<Task>, id: int, i: nat)
    requires IndexOf(ts, id) == Some(i)
    requires ts[i].text != [] && Trim(ts[i].text) == ts[i].text
    ensures Saved(ts, Some(id), DetailsOf(ts[i])) == Some(ts)
  {
    var d := DetailsOf(ts[i]);
    assert Saved(ts, Some(id), d) == Some(Edited(ts, id, d.title, d));
    assert Editor(d.title, d)(ts[i]) == ts[i] by {
      DetailsRoundTrip(ts[i]);
    }
    UpdateFirstNoChange(ts, id, Editor(d.title, d));
  }

  /** An update that leaves the first match as it is leaves the list as it is. */
  lemma UpdateFirstNoChange(ts: seq<Task>, id: int, f: Task -> Task)
    requires IndexOf(ts, id).Some? && f(ts[IndexOf(ts, id).value]) == ts[IndexOf(ts, id).value]
    ensures UpdateFirst(ts, id, f) == ts
  {
    UpdateFirstAt(ts, id, f);
  }

  /** A task with a fresh id can be put in front without breaking unique ids. */
  lemma AddKeepsIdsUnique(ts: seq<Task>, t: Task)
    requires UniqueIds(ts) && IndexOf(ts, t.id).None?
    ensures UniqueIds([t] + ts)
  {
    var r := [t] + ts;
    forall i, j | 0 <= i < j < |r| ensures r[i].id != r[j].id {
      assert r[j] == ts[j - 1];
      if i > 0 {
        assert r[i] == ts[i - 1];
      }
    }
  }

  /** Toggling, editing and deleting keep ids unique. */
  lemma UpdatesKeepIdsUnique(ts: seq<Task>, id: int, d: Details)
    requires UniqueIds(ts)
    ensures UniqueIds(Toggled(ts, id))
    ensures Saved(ts, Some(id), d).Some? ==> UniqueIds(Saved(ts, Some(id), d).value)
    ensures UniqueIds(WithoutId(ts, id))
  {
    ToggleSpec(ts, id);
    SaveSpec(ts, Some(id), d);
    KeepKeepsIdsUnique(ts, NotId(id));
  }

  lemma {:induction false} KeepKeepsIdsUnique(ts: seq<Task>, p: Task -> bool)
    requires UniqueIds(ts)
    ensures UniqueIds(Keep(ts, p))
  {
    if ts != [] {
      var rest := ts[1..];
      assert UniqueIds(rest) by {
        forall i, j | 0 <= i < j < |rest| ensures rest[i].id != rest[j].id {
          assert rest[i] == ts[i + 1] && rest[j] == ts[j + 1];
        }
      }
      KeepKeepsIdsUnique(rest, p);
      var kept := Keep(rest, p);
      if p(ts[0]) {
        assert forall k :: 0 <= k < |rest| ==> rest[k].id != ts[0].id by {
          forall k | 0 <= k < |rest| ensures rest[k].id != ts[0].id {
            assert rest[k] == ts[k + 1];
          }
        }
        KeepAvoidsId(rest, p, ts[0].id);
        AddKeepsIdsUnique(kept, ts[0]);
      } else {
        assert Keep(ts, p) == kept;
      }
    }
  }

  /** An id no task carries is carried by no task a filter keeps. */
  lemma {:induction false} KeepAvoidsId(ts: seq<Task>, p: Task -> bool, id: int)
    requires forall k :: 0 <= k < |ts| ==> ts[k].id != id
    ensures forall k :: 0 <= k < |Keep(ts, p)| ==> Keep(ts, p)[k].id != id
  {
    if ts != [] {
      KeepAvoidsId(ts[1..], p, id);
    }
  }

  /** The pending and completed views split the list: each is an
      order-preserving selection of it, every task lands in exactly one of
      them, and their sizes add up to the list's. The "all" view is the list. */
  lemma ViewPartition(ts: seq<Task>)
    ensures View(ts, All) == ts
    ensures IsSubsequence(View(ts, All), ts)
    ensures IsSubsequence(View(ts, Pending), ts) && IsSubsequence(View(ts, Completed), ts)
    ensures forall k :: 0 <= k < |View(ts, Pending)| ==> !View(ts, Pending)[k].completed
    ensures forall k :: 0 <= k < |View(ts, Completed)| ==> View(ts, Completed)[k].completed
    ensures multiset(View(ts, Pending)) + multiset(View(ts, Completed)) == multiset(ts)
    ensures |View(ts, Pending)| + |View(ts, Completed)| == |ts|
  {
    SubsequenceReflexive(ts);
    KeepIsSubsequence(ts, IsPending);
    KeepIsSubsequence(ts, IsCompleted);
    KeepPartition(ts, IsPending, IsCompleted);
  }

  /** The statistics agree with the views: the completed count is the size of
      the completed view, and the rest are the pending ones. */
  lemma StatsMatchViews(ts: seq<Task>)
    ensures StatsOf(ts).completed == |View(ts, Completed)|
    ensures StatsOf(ts).total - StatsOf(ts).completed == |View(ts, Pending)|
  {
    ViewPartition(ts);
  }

  /** The percentage reads 100 exactly when at least 99.5% of the tasks are
      completed. */
  lemma PercentFull(completed: nat, total: nat)
    requires completed <= total && total > 0
    ensures RoundedPercent(completed, total) == 100 <==> 200 * completed >= 199 * total
  {
    var p := RoundedPercent(completed, total);
    if 200 * completed >= 199 * total && p < 100 {
      MulMonotone(total, 2 * p + 1, 199);
    }
  }

  /** Below 200 tasks, 100% means every task is completed. */
  lemma PercentFullMeansAllDone(completed: nat, total: nat)
    requires completed <= total && 0 < total < 200
    ensures RoundedPercent(completed, total) == 100 <==> completed == total
  {
    PercentFull(completed, total);
  }

  /** From 200 tasks on it does not: 199 of 200 rounds up to 100%. */
  lemma PercentFullWithOnePending()
    ensures RoundedPercent(199, 200) == 100
  {
    PercentFull(199, 200);
  }
}
