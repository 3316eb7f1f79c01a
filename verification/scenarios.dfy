/**
 * Clients of the task store that replay everyday uses of the list; they
 * check that the contracts of `Store.TaskStore` are strong enough to predict
 * each outcome.
 */
module Scenarios {
  import opened Wrappers
  import opened JsText
  import opened Sequences
  import opened Tasks
  import opened Store

  /** A blank input adds nothing; "Buy milk" becomes the only, pending task. */
  method AddingScenario() {
    var store := new TaskStore(None);
    store.AddTask("", 1, "t1");
    store.AddTask("   ", 2, "t2");
    assert store.tasks == [] && store.storage == None;
    TrimFixed("Buy milk");
    store.AddTask("Buy milk", 3, "t3");
    assert store.tasks == [Task(3, "Buy milk", false, "medium", "work", "", "", "t3")];
    assert store.storage == Some(store.tasks);
    var s := store.UpdateStats();
    assert s.total == 1 && s.percentage == 0;
  }

  /** With two tasks, completing the older one shows 50%, undoing it 0%. */
  method ToggleScenario() {
    var older, newer := NewTask(1, "a", "t1"), NewTask(2, "b", "t2");
    var store := new TaskStore(Some([newer, older]));
    assert Keep([older], IsCompleted) == [];
    assert CountCompleted(store.tasks) == 0;
    assert IndexOf(store.tasks, 1) == Some(1);
    ToggleCount(store.tasks, 1);
    ToggleSpec(store.tasks, 1);
    var confetti := store.ToggleTaskComplete(1);
    assert confetti;
    var s := store.UpdateStats();
    assert s.total == 2 && s.completed == 1 && s.percentage == 50;
    assert IndexOf(store.tasks, 1) == Some(1);
    ToggleCount(store.tasks, 1);
    confetti := store.ToggleTaskComplete(1);
    s := store.UpdateStats();
    assert !confetti && s.percentage == 0;
  }

  /** Clearing needs a yes; on an empty list nobody is asked. */
  method ClearScenario() {
    var store := new TaskStore(None);
    var asked := store.ClearAllTasks(true);
    assert !asked;
    TrimFixed("a");
    store.AddTask("a", 1, "t1");
    var before := store.tasks;
    asked := store.ClearAllTasks(false);
    assert asked && store.tasks == before;
    asked := store.ClearAllTasks(true);
    assert store.tasks == [] && store.storage == Some([]);
  }

  /** The details dialog opened from the input box edits no task, so saving
      it changes nothing and the dialog stays open on a null editing id. */
  method DetailsWithoutTaskScenario(input: string, d: Details) {
    var store := new TaskStore(None);
    TrimFixed("a");
    store.AddTask("a", 1, "t1");
    var before := store.tasks;
    var form := store.ShowTaskModal(input);
    store.SaveTaskDetails(d);
    assert store.tasks == before;
  }
}
