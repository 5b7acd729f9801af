/** The invariants the state machine keeps across whole dispatches, the
    properties of removing and toggling on a consistent state, and a case
    showing why the cursor invariant needs the list to mirror the table. */
module ControllerInvariants {
  import opened Wrappers
  import opened Constants
  import opened AppState
  import opened Controller
  import opened ControllerLemmas
  import TaskClient

  /** The conclusion of `StepKeepsInvariant` for one result `r` of a step
      from a consistent state. */
  predicate KeptInvariant(r: (State, TaskClient.Client), f: TaskClient.Faults) {
    && TaskClient.TableWellFormed(r.1.table)
    && CursorInRange(r.0)
    && (f.get.None? ==> Consistent(r.0, r.1))
  }

  /** Every action keeps the table well-formed and the cursor on the list,
      whatever fails; when the fetch does not fail, the list again mirrors the
      table afterwards. */
  lemma StepKeepsInvariant(s: State, c: TaskClient.Client, f: TaskClient.Faults, a: Action)
    requires Consistent(s, c)
    requires NeedsConnection(a) ==> TaskClient.Connected(c)
    ensures KeptInvariant(Step(s, c, f, a), f)
  {
    if a.AddTask? {
      AddTaskKeepsInvariant(s, c, f);
    } else if a.RemoveTask? {
      RemoveTaskKeepsInvariant(s, c, f);
    } else if a.ToggleTaskStatus? {
      ToggleTaskStatusOutcome(s, c, f);
    } else if a.GetTasks? || a.OpenMainScreen? {
      ReadingKeepsInvariant(s, c, f, a);
    } else {
      LocalKeepsInvariant(s, c, f, a);
    }
  }

  lemma LocalKeepsInvariant(s: State, c: TaskClient.Client, f: TaskClient.Faults, a: Action)
    requires Consistent(s, c)
    requires !NeedsConnection(a)
    ensures KeptInvariant(Step(s, c, f, a), f)
  {
    match a {
      case Exit =>
      case Empty =>
      case ResetError => ResetErrorClears(s, c, f);
      case InputChar(ch) => InputCharThenRemoveChar(s, c, f, ch);
      case RemoveChar => RemoveCharOutcome(s, c, f);
      case MenuUp => MenuUpOutcome(s, c, f);
      case MenuDown => MenuDownOutcome(s, c, f);
      case OpenAddScreen => OpenAddScreenOutcome(s, c, f);
      case CancelAddTask => CancelAddTaskOutcome(s, c, f);
    }
  }

  lemma ReadingKeepsInvariant(s: State, c: TaskClient.Client, f: TaskClient.Faults, a: Action)
    requires Consistent(s, c) && TaskClient.Connected(c)
    requires a.GetTasks? || a.OpenMainScreen?
    ensures KeptInvariant(Step(s, c, f, a), f)
  {
    if a.GetTasks? {
      GetTasksOutcome(s, c, f);
    } else {
      OpenMainScreenOutcome(s, c, f);
    }
  }

  lemma AddTaskKeepsInvariant(s: State, c: TaskClient.Client, f: TaskClient.Faults)
    requires Consistent(s, c) && TaskClient.Connected(c)
    ensures KeptInvariant(Step(s, c, f, AddTask), f)
  {
    var r := Step(s, c, f, AddTask);
    AddTaskOutcome(s, c, f);
    if f.create.None? {
      assert |r.1.table| == |c.table| + 1 && r.0.line == s.line;
      assert TaskClient.TableWellFormed(r.1.table);
      AddTaskStoredKeepsInvariant(s, c, f, r);
    } else {
      assert r.1 == c && r.0.task_list == s.task_list && r.0.line == s.line;
    }
  }

  lemma AddTaskStoredKeepsInvariant(s: State, c: TaskClient.Client, f: TaskClient.Faults,
                                    r: (State, TaskClient.Client))
    requires Consistent(s, c)
    requires TaskClient.TableWellFormed(r.1.table)
    requires |r.1.table| == |c.table| + 1 && r.0.line == s.line
    requires r.0.task_list == s.task_list || r.0.task_list == r.1.table
    requires f.get.None? ==> r.0.task_list == r.1.table
    ensures KeptInvariant(r, f)
  {
  }

  lemma RemoveTaskKeepsInvariant(s: State, c: TaskClient.Client, f: TaskClient.Faults)
    requires Consistent(s, c) && TaskClient.Connected(c)
    ensures KeptInvariant(Step(s, c, f, RemoveTask), f)
  {
    RemoveTaskOutcome(s, c, f);
    DeleteSelectedTable(s, c, f);
    var n := |s.task_list|;
    if 0 <= s.line < n && f.remove.None? {
      TaskClient.WellFormedIdUnique(c.table, s.line);
      TaskClient.RemoveIdAt(c.table, s.line);
      assert |DeleteSelected(s, c, f).table| == n - 1;
    } else {
      assert DeleteSelected(s, c, f).table == c.table;
    }
  }

  /** Removing the only task leaves an empty list and the cursor at 0. */
  lemma RemoveOnlyTask(s: State, c: TaskClient.Client, f: TaskClient.Faults)
    requires Consistent(s, c) && TaskClient.Connected(c)
    requires |s.task_list| == 1
    ensures var r := Step(s, c, f, RemoveTask);
      && r.0.line == 0
      && (f.remove.None? && f.get.None? ==> r.0.task_list == [] && r.1.table == [])
  {
    RemoveTaskOutcome(s, c, f);
    DeleteSelectedTable(s, c, f);
    if f.remove.None? {
      TaskClient.RemoveIdAt(c.table, 0);
    }
  }

  /** Toggling changes only the selected task, and of it only the status,
      which becomes the toggle of the old one. */
  lemma ToggleChangesOnlySelected(s: State, c: TaskClient.Client, f: TaskClient.Faults)
    requires Consistent(s, c) && TaskClient.Connected(c)
    requires 0 <= s.line < |s.task_list|
    requires f.update.None? && f.get.None?
    ensures var r := Step(s, c, f, ToggleTaskStatus);
      && r.0.line == s.line
      && |r.0.task_list| == |s.task_list|
      && (forall i :: 0 <= i < |s.task_list| && i != s.line ==> r.0.task_list[i] == s.task_list[i])
      && r.0.task_list[s.line] == s.task_list[s.line].(status := TaskClient.Toggle(s.task_list[s.line].status))
  {
    ToggleTaskStatusOutcome(s, c, f);
    var r := Step(s, c, f, ToggleTaskStatus);
    forall i | 0 <= i < |s.task_list| && i != s.line
      ensures r.0.task_list[i] == s.task_list[i]
    {
      assert c.table[i].id != c.table[s.line].id;
    }
  }

  /** One toggle with no fault, in closed form: the client's table gets the
      toggled status of the selected task, and the state shows that table
      with the error cleared. */
  lemma ToggleStepFacts(s: State, c: TaskClient.Client, f: TaskClient.Faults)
    requires TaskClient.Connected(c)
    requires 0 <= s.line < |s.task_list|
    requires f.update.None? && f.get.None?
    ensures var r := Step(s, c, f, ToggleTaskStatus);
      var t := TaskClient.SetStatus(c.table, s.task_list[s.line].id,
                                    TaskClient.Toggle(s.task_list[s.line].status));
      r.1 == c.(table := t) && r.0 == s.(task_list := t, error := "")
  {
    ToggleTaskStatusOutcome(s, c, f);
    ToggleSelectedTable(s, c, f);
  }

  /** Toggling the same task twice restores the list and the table; only the
      error slot is left cleared. */
  lemma ToggleTwiceRestores(s: State, c: TaskClient.Client, f: TaskClient.Faults)
    requires Consistent(s, c) && TaskClient.Connected(c)
    requires 0 <= s.line < |s.task_list|
    requires f.update.None? && f.get.None?
    ensures var r1 := Step(s, c, f, ToggleTaskStatus);
      var r2 := Step(r1.0, r1.1, f, ToggleTaskStatus);
      r2.0 == SetError(s, "") && r2.1 == c
  {
    var id := s.task_list[s.line].id;
    var st := s.task_list[s.line].status;
    var t1 := TaskClient.SetStatus(c.table, id, TaskClient.Toggle(st));
    ToggleStepFacts(s, c, f);
    var r1 := Step(s, c, f, ToggleTaskStatus);
    assert r1.0.task_list == t1 && r1.1 == c.(table := t1);
    assert t1[s.line].id == id && t1[s.line].status == TaskClient.Toggle(st);
    ToggleStepFacts(r1.0, r1.1, f);
    TaskClient.ToggleInvolution(st);
    TaskClient.WellFormedIdUnique(c.table, s.line);
    TaskClient.SetStatusRestores(c.table, id, TaskClient.Toggle(st), st);
  }

  /** Once a failed fetch has left the list stale, the cursor can end past the
      end of the list: here the list shows three tasks, the table holds two,
      and removing the last shown task leaves one task with the cursor on 1. */
  lemma StaleListLetsCursorEscape()
    ensures var a := TaskClient.Task(1, "a", TaskClient.InProgress);
      var b := TaskClient.Task(2, "b", TaskClient.InProgress);
      var d := TaskClient.Task(3, "d", TaskClient.InProgress);
      var s := New().(task_list := [a, b, d], line := 2);
      var c := TaskClient.Client(Some(TaskClient.Connection([AppPath, DbName])), [a, d]);
      var r := Step(s, c, TaskClient.Faults(None, None, None, None), RemoveTask);
      CursorInRange(s) && r.0.task_list == [a] && r.0.line == 1 && !CursorInRange(r.0)
  {
    var a := TaskClient.Task(1, "a", TaskClient.InProgress);
    var b := TaskClient.Task(2, "b", TaskClient.InProgress);
    var d := TaskClient.Task(3, "d", TaskClient.InProgress);
    var s := New().(task_list := [a, b, d], line := 2);
    var c := TaskClient.Client(Some(TaskClient.Connection([AppPath, DbName])), [a, d]);
    var f := TaskClient.Faults(None, None, None, None);
    RemoveTaskOutcome(s, c, f);
    TaskClient.RemoveIdAt(c.table, 1);
    assert c.table[..1] + c.table[2..] == [a];
  }
}
