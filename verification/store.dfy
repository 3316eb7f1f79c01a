/**
 * The task list's session state and the event handlers that change it. The
 * browser's contributions (the input box text, `Date.now()`, the ISO
 * timestamp, the `confirm` answer, the dialog's field values) are parameters.
 */
module Store {
  import opened Wrappers
  import opened JsText
  import opened Sequences
  import opened Tasks

  class TaskStore {
    /** The list, newest first. */
    var tasks: seq<Task>
    /** The filter bar's selection. */
    var currentFilter: Filter
    /** The id of the task open in the details dialog; `None` is `null`. */
    var currentEditingTaskId: Option<int>
    /** The `tasks` entry of local storage: `None` when local storage has no
        `tasks` entry. */
    var storage: Option<seq<Task>>

    /** Page load: the list is whatever local storage holds, or empty. */
    constructor (saved: Option<seq<Task>>)
      ensures tasks == (if saved.Some? then saved.value else [])
      ensures currentFilter == All && currentEditingTaskId == None
      ensures storage == saved
    {
      tasks := if saved.Some? then saved.value else [];
      currentFilter := All;
      currentEditingTaskId := None;
      storage := saved;
    }

    /** `saveTasks`: write the list to local storage. */
    method SaveTasks()
      modifies this
      ensures storage == Some(tasks)
      ensures tasks == old(tasks) && currentFilter == old(currentFilter)
      ensures currentEditingTaskId == old(currentEditingTaskId)
    {
      storage := Some(tasks);
    }

    /** `addTask`: a blank input changes nothing; otherwise a new task with
        the trimmed text and default fields goes in front of the others. */
    method AddTask(input: string, now: int, createdAt: string)
      modifies this
      ensures Trim(input) == [] ==> tasks == old(tasks) && storage == old(storage)
      ensures Trim(input) != [] ==>
                && |tasks| == |old(tasks)| + 1
                && tasks[0] == Task(now, Trim(input), false, "medium", "work", "", "", createdAt)
                && tasks[1..] == old(tasks)
                && storage == Some(tasks)
      ensures currentFilter == old(currentFilter)
      ensures currentEditingTaskId == old(currentEditingTaskId)
    {
      var text := Trim(input);
      if text == [] {
        return;
      }
      tasks := [NewTask(now, text, createdAt)] + tasks;
      SaveTasks();
    }

    /** `toggleTaskComplete`: flip the first task with `id`. The result is the
        confetti signal: the task is now completed and it is the only one. */
    method ToggleTaskComplete(id: int) returns (confetti: bool)
      modifies this
      ensures tasks == Toggled(old(tasks), id)
      ensures storage == if IndexOf(old(tasks), id).Some? then Some(tasks) else old(storage)
      ensures confetti <==> IndexOf(old(tasks), id).Some?
                            && tasks[IndexOf(old(tasks), id).value].completed
                            && CountCompleted(tasks) == 1
      ensures confetti <==> IndexOf(old(tasks), id).Some?
                            && CountCompleted(old(tasks)) == 0 && CountCompleted(tasks) == 1
      ensures currentFilter == old(currentFilter)
      ensures currentEditingTaskId == old(currentEditingTaskId)
    {
      UpdateFirstAt(tasks, id, Flip);
      var found := IndexOf(tasks, id);
      if found.None? {
        return false;
      }
      var i := found.value;
      FirstCompletion(tasks, id);
      tasks := tasks[i := tasks[i].(completed := !tasks[i].completed)];
      SaveTasks();
      confetti := tasks[i].completed && CountCompleted(tasks) == 1;
    }

    /** `deleteTask`: keep the tasks with another id, and save. */
    method DeleteTask(id: int)
      modifies this
      ensures tasks == WithoutId(old(tasks), id)
      ensures storage == Some(tasks)
      ensures currentFilter == old(currentFilter)
      ensures currentEditingTaskId == old(currentEditingTaskId)
    {
      tasks := Keep(tasks, NotId(id));
      SaveTasks();
    }

    /** `clearAllTasks`: the user is asked only when there is something to
        clear (`prompted`), and the list is emptied only if they agree. */
    method ClearAllTasks(confirmed: bool) returns (prompted: bool)
      modifies this
      ensures prompted == (old(tasks) != [])
      ensures old(tasks) != [] && confirmed ==> tasks == [] && storage == Some([])
      ensures !(old(tasks) != [] && confirmed) ==> tasks == old(tasks) && storage == old(storage)
      ensures currentFilter == old(currentFilter)
      ensures currentEditingTaskId == old(currentEditingTaskId)
    {
      prompted := tasks != [];
      if !prompted || !confirmed {
        return;
      }
      tasks := [];
      SaveTasks();
    }

    /** `editTask`: open the dialog on the first task with `id`, returning the
        values loaded into it; an unknown id does nothing. */
    method EditTask(id: int) returns (form: Option<Details>)
      modifies this
      ensures IndexOf(tasks, id).None? ==>
                form == None && currentEditingTaskId == old(currentEditingTaskId)
      ensures IndexOf(tasks, id).Some? ==>
                form == Some(DetailsOf(tasks[IndexOf(tasks, id).value]))
                && currentEditingTaskId == Some(id)
      ensures tasks == old(tasks) && storage == old(storage)
      ensures currentFilter == old(currentFilter)
    {
      var found := IndexOf(tasks, id);
      if found.None? {
        return None;
      }
      currentEditingTaskId := Some(id);
      form := Some(DetailsOf(tasks[found.value]));
    }

    /** `showTaskModal`: with a blank input box nothing happens (the user is
        told to enter a task first); otherwise the dialog opens on the input
        text and default values, editing no task. */
    method ShowTaskModal(input: string) returns (form: Option<Details>)
      modifies this
      ensures Trim(input) == [] ==>
                form == None && currentEditingTaskId == old(currentEditingTaskId)
      ensures Trim(input) != [] ==>
                form == Some(Details(Trim(input), "", "medium", "work", ""))
                && currentEditingTaskId == None
      ensures tasks == old(tasks) && storage == old(storage)
      ensures currentFilter == old(currentFilter)
    {
      var title := Trim(input);
      if title == [] {
        return None;
      }
      form := Some(Details(title, "", "medium", "work", ""));
      currentEditingTaskId := None;
    }

    /** `saveTaskDetails`: write the dialog's values into the task being
        edited and close the editor; a blank title or a missing task leaves
        everything, the editing id included, as it was. */
    method SaveTaskDetails(form: Details)
      modifies this
      ensures Saved(old(tasks), old(currentEditingTaskId), form).None? ==>
                tasks == old(tasks) && storage == old(storage)
                && currentEditingTaskId == old(currentEditingTaskId)
      ensures Saved(old(tasks), old(currentEditingTaskId), form).Some? ==>
                tasks == Saved(old(tasks), old(currentEditingTaskId), form).value
                && storage == Some(tasks) && currentEditingTaskId == None
      ensures currentFilter == old(currentFilter)
    {
      var title := Trim(form.title);
      if title == [] || currentEditingTaskId.None? {
        return;
      }
      var id := currentEditingTaskId.value;
      var found := IndexOf(tasks, id);
      if found.None? {
        return;
      }
      var i := found.value;
      UpdateFirstAt(tasks, id, Editor(title, form));
      tasks := tasks[i := WithDetails(tasks[i], title, form)];
      SaveTasks();
      currentEditingTaskId := None;
    }

    /** `setFilter`. */
    method SetFilter(filter: Filter)
      modifies this
      ensures currentFilter == filter
      ensures tasks == old(tasks) && storage == old(storage)
      ensures currentEditingTaskId == old(currentEditingTaskId)
    {
      currentFilter := filter;
    }

    /** The filter step of `renderTasks`: the tasks the list shows. */
    method VisibleTasks() returns (shown: seq<Task>)
      ensures shown == View(tasks, currentFilter)
      ensures IsSubsequence(shown, tasks)
      ensures forall k :: 0 <= k < |shown| ==>
                (currentFilter == Pending ==> !shown[k].completed)
                && (currentFilter == Completed ==> shown[k].completed)
    {
      ViewPartition(tasks);
      shown := tasks;
      if currentFilter == Pending {
        shown := Keep(tasks, IsPending);
      } else if currentFilter == Completed {
        shown := Keep(tasks, IsCompleted);
      }
    }

    /** The numbers `updateStats` writes into the progress panel. */
    method UpdateStats() returns (s: Stats)
      ensures s == StatsOf(tasks)
      ensures s.total == |tasks| && s.completed == |View(tasks, Completed)|
      ensures s.percentage <= 100 && (s.total == 0 ==> s.percentage == 0)
    {
      StatsMatchViews(tasks);
      var total := |tasks|;
      var completed := |Keep(tasks, IsCompleted)|;
      var percentage := RoundedPercent(completed, total);
      s := Stats(total, completed, percentage);
    }
  }
}
