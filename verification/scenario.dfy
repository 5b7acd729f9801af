/** A session driven key by key: open the add screen, type a title, store it,
    and toggle its status twice. */
module Scenario {
  import opened Wrappers
  import opened Constants
  import opened AppState
  import opened Controller
  import opened ControllerLemmas
  import opened ControllerInvariants
  import TaskClient

  const NoFaults := TaskClient.Faults(None, None, None, None)

  /** Every binding of the key map: six keys on the main screen, and on the
      add screen Esc, Enter, Backspace and every character key. */
  lemma SessionKeys(ch: char)
    ensures KeyToAction(Main, Char('a')) == OpenAddScreen
    ensures KeyToAction(Main, Char('x')) == RemoveTask
    ensures KeyToAction(Main, Up) == MenuUp
    ensures KeyToAction(Main, Down) == MenuDown
    ensures KeyToAction(Main, Esc) == Exit
    ensures KeyToAction(Main, Enter) == ToggleTaskStatus
    ensures KeyToAction(Add, Esc) == CancelAddTask
    ensures KeyToAction(Add, Enter) == AddTask
    ensures KeyToAction(Add, Char(ch)) == InputChar(ch)
    ensures KeyToAction(Add, Backspace) == RemoveChar
  {
  }

  /** From an empty table on the main screen with an empty input, the
      actions of 'a', a typed character (even 'x', the remove command of the
      main screen) and Enter store that character as a task in progress with
      id 1 and return to the main screen. */
  lemma AddThroughAddScreen(s0: State, c0: TaskClient.Client, ch: char)
    requires TaskClient.Connected(c0) && c0.table == []
    requires Consistent(s0, c0) && s0.input == ""
    ensures
      var r1 := Step(s0, c0, NoFaults, OpenAddScreen);
      var r2 := Step(r1.0, r1.1, NoFaults, InputChar(ch));
      var r3 := Step(r2.0, r2.1, NoFaults, AddTask);
      && r1.0.screen == Add
      && r2.0.input == [ch]
      && r3.0.screen == Main && r3.0.input == "" && r3.0.error == ""
      && r3.1.table == [TaskClient.Task(1, [ch], TaskClient.InProgress)]
      && Consistent(r3.0, r3.1)
  {
    var r1 := Step(s0, c0, NoFaults, OpenAddScreen);
    OpenAddScreenOutcome(s0, c0, NoFaults);
    var r2 := Step(r1.0, r1.1, NoFaults, InputChar(ch));
    InputCharThenRemoveChar(r1.0, r1.1, NoFaults, ch);
    var r3 := Step(r2.0, r2.1, NoFaults, AddTask);
    AddTaskOutcome(r2.0, r2.1, NoFaults);
    StepKeepsInvariant(r2.0, r2.1, NoFaults, AddTask);
    var t := r3.1.table[0];
    assert r3.1.table == [t];
  }

  /** Then Enter on the main screen marks the task completed, and a second
      Enter marks it in progress again. */
  lemma ToggleNewTaskTwice(s: State, c: TaskClient.Client, title: string)
    requires TaskClient.Connected(c) && Consistent(s, c)
    requires c.table == [TaskClient.Task(1, title, TaskClient.InProgress)]
    ensures
      var r1 := Step(s, c, NoFaults, ToggleTaskStatus);
      var r2 := Step(r1.0, r1.1, NoFaults, ToggleTaskStatus);
      && r1.0.task_list == [TaskClient.Task(1, title, TaskClient.Completed)]
      && r2.0.task_list == s.task_list && r2.1 == c
  {
    ToggleChangesOnlySelected(s, c, NoFaults);
    ToggleTwiceRestores(s, c, NoFaults);
    var r1 := Step(s, c, NoFaults, ToggleTaskStatus);
    assert r1.0.task_list == [r1.0.task_list[0]];
  }
}
