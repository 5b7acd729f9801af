/** What each action does to the state and the table, and the consistency
    predicates (`Synced`, `Consistent`) that `ControllerInvariants` proves the
    state machine keeps. */
module ControllerLemmas {
  import opened Wrappers
  import opened Constants
  import opened AppState
  import opened InputBuffer
  import opened Controller
  import TaskClient

  /** The state shows exactly the table. */
  predicate Synced(s: State, c: TaskClient.Client) {
    s.task_list == c.table
  }

  /** The invariant of a running controller: the list mirrors a well-formed
      table and the cursor is on it. */
  predicate Consistent(s: State, c: TaskClient.Client) {
    Synced(s, c) && TaskClient.TableWellFormed(c.table) && CursorInRange(s)
  }

  lemma ResetErrorClears(s: State, c: TaskClient.Client, f: TaskClient.Faults)
    ensures var r := Step(s, c, f, ResetError);
      r.0.error == "" && AgreeOutside(s, r.0, {ErrorField}) && r.1 == c
  {
  }

  /** MenuDown moves down exactly when a task lies below the cursor; otherwise,
      an empty list included, it changes nothing. */
  lemma MenuDownOutcome(s: State, c: TaskClient.Client, f: TaskClient.Faults)
    ensures var r := Step(s, c, f, MenuDown);
      && r.1 == c
      && (s.line < |s.task_list| - 1 ==> r.0.line == s.line + 1)
      && (s.line >= |s.task_list| - 1 ==> r.0 == s)
      && (|s.task_list| == 0 && s.line >= 0 ==> r.0 == s)
      && AgreeOutside(s, r.0, {LineField})
  {
  }

  /** MenuUp moves up exactly when the cursor is above 0; otherwise it changes
      nothing. */
  lemma MenuUpOutcome(s: State, c: TaskClient.Client, f: TaskClient.Faults)
    ensures var r := Step(s, c, f, MenuUp);
      && r.1 == c
      && (s.line > 0 ==> r.0.line == s.line - 1)
      && (s.line <= 0 ==> r.0 == s)
      && AgreeOutside(s, r.0, {LineField})
  {
  }

  /** GetTasks replaces the list wholesale with the table and clears the
      error; when the fetch fails it reports so and keeps the old list. */
  lemma GetTasksOutcome(s: State, c: TaskClient.Client, f: TaskClient.Faults)
    requires TaskClient.Connected(c)
    ensures var r := Step(s, c, f, GetTasks);
      && r.1 == c
      && (f.get.None? ==> r.0.task_list == c.table && r.0.error == "")
      && (f.get.Some? ==> r.0.task_list == s.task_list && r.0.error == GetTasksError)
      && AgreeOutside(s, r.0, {TaskListField, ErrorField})
  {
    if f.get.None? {
      ResetErrorClears(SetTaskList(s, c.table), c, f);
    }
  }

  /** OpenMainScreen ends on the main screen with no error, even when the
      refresh failed, because the error is reset last. */
  lemma OpenMainScreenOutcome(s: State, c: TaskClient.Client, f: TaskClient.Faults)
    requires TaskClient.Connected(c)
    ensures var r := Step(s, c, f, OpenMainScreen);
      && r.1 == c
      && r.0.screen == Main && r.0.error == ""
      && (f.get.None? ==> r.0.task_list == c.table)
      && (f.get.Some? ==> r.0.task_list == s.task_list)
      && AgreeOutside(s, r.0, {ScreenField, TaskListField, ErrorField})
  {
    var s0 := SetScreen(s, Main);
    GetTasksOutcome(s0, c, f);
    var (s1, c1) := Step(s0, c, f, GetTasks);
    ResetErrorClears(s1, c1, f);
  }

  /** OpenAddScreen switches to the add screen and clears the error; the
      input buffer is kept. */
  lemma OpenAddScreenOutcome(s: State, c: TaskClient.Client, f: TaskClient.Faults)
    ensures var r := Step(s, c, f, OpenAddScreen);
      && r.1 == c && r.0.screen == Add && r.0.error == "" && r.0.input == s.input
      && AgreeOutside(s, r.0, {ScreenField, ErrorField})
  {
    ResetErrorClears(SetScreen(s, Add), c, f);
  }

  /** CancelAddTask returns to the main screen and clears the error; the input
      buffer is kept. */
  lemma CancelAddTaskOutcome(s: State, c: TaskClient.Client, f: TaskClient.Faults)
    ensures var r := Step(s, c, f, CancelAddTask);
      && r.1 == c && r.0.screen == Main && r.0.error == "" && r.0.input == s.input
      && AgreeOutside(s, r.0, {ScreenField, ErrorField})
  {
    ResetErrorClears(SetScreen(s, Main), c, f);
  }

  /** InputChar appends exactly one character; RemoveChar takes it off again. */
  lemma InputCharThenRemoveChar(s: State, c: TaskClient.Client, f: TaskClient.Faults, ch: char)
    ensures var r := Step(s, c, f, InputChar(ch));
      && r.1 == c && r.0.input == s.input + [ch]
      && AgreeOutside(s, r.0, {InputField})
      && Step(r.0, r.1, f, RemoveChar) == (s, c)
  {
    var r := Step(s, c, f, InputChar(ch));
    DropLastCharUndoesAppend(s.input, ch);
    assert r.0.(input := DropLastChar(r.0.input)) == s;
  }

  /** RemoveChar drops the last character, and leaves an empty buffer empty. */
  lemma RemoveCharOutcome(s: State, c: TaskClient.Client, f: TaskClient.Faults)
    ensures var r := Step(s, c, f, RemoveChar);
      && r.1 == c && AgreeOutside(s, r.0, {InputField})
      && (|s.input| > 0 ==> r.0.input + [s.input[|s.input| - 1]] == s.input)
      && (|s.input| == 0 ==> r.0 == s)
  {
  }

  /** AddTask on success stores one new row titled with the input and
      "in-progress", clears the input and ends on the main screen with no
      error; on failure it reports the driver's message and changes nothing
      else. */
  lemma AddTaskOutcome(s: State, c: TaskClient.Client, f: TaskClient.Faults)
    requires TaskClient.Connected(c)
    ensures var r := Step(s, c, f, AddTask);
      var n := |c.table|;
      && (f.create.None? ==>
            && |r.1.table| == n + 1 && r.1.table[..n] == c.table
            && r.1.table[n].title == s.input && r.1.table[n].status == TaskClient.InProgress
            && !TaskClient.HasId(c.table, r.1.table[n].id)
            && r.0.input == "" && r.0.screen == Main && r.0.error == ""
            && (f.get.None? ==> r.0.task_list == r.1.table)
            && (f.get.Some? ==> r.0.task_list == s.task_list)
            && r.0.line == s.line
            && AgreeOutside(s, r.0, {InputField, ScreenField, TaskListField, ErrorField}))
      && (f.create.Some? ==>
            && r.1 == c
            && r.0.error == TaskClient.InsertError + f.create.value
            && AgreeOutside(s, r.0, {ErrorField}))
  {
    if f.create.None? {
      var c1 := TaskClient.CreateTask(c, f, s.input).value;
      OpenMainScreenOutcome(SetInput(s, ""), c1, f);
    }
  }

  /** RemoveTask deletes the selected task, moves the cursor up (not below 0)
      when it was on the last task, and refreshes the list. */
  lemma RemoveTaskOutcome(s: State, c: TaskClient.Client, f: TaskClient.Faults)
    requires TaskClient.Connected(c)
    ensures var r := Step(s, c, f, RemoveTask);
      && r.1.table == DeleteSelected(s, c, f).table
      && r.0.line == (if s.line == |s.task_list| - 1 && s.line > 0 then s.line - 1 else s.line)
      && (f.get.None? ==> r.0.task_list == r.1.table && r.0.error == "")
      && (f.get.Some? ==> r.0.task_list == s.task_list && r.0.error == GetTasksError)
      && AgreeOutside(s, r.0, {LineField, TaskListField, ErrorField})
  {
    var c1 := DeleteSelected(s, c, f);
    DeleteSelectedTable(s, c, f);
    var (s2, c2) := if s.line == |s.task_list| - 1 then Step(s, c1, f, MenuUp) else (s, c1);
    assert Step(s, c, f, RemoveTask) == Step(s2, c2, f, GetTasks);
    MenuUpOutcome(s, c1, f);
    GetTasksOutcome(s2, c2, f);
  }

  /** ToggleTaskStatus keeps the cursor and the number of rows, writes the
      toggled status of the selected task, and refreshes the list. */
  lemma ToggleTaskStatusOutcome(s: State, c: TaskClient.Client, f: TaskClient.Faults)
    requires TaskClient.Connected(c)
    ensures var r := Step(s, c, f, ToggleTaskStatus);
      && r.1.table == ToggleSelected(s, c, f).table
      && |r.1.table| == |c.table|
      && r.0.line == s.line
      && (f.get.None? ==> r.0.task_list == r.1.table && r.0.error == "")
      && (f.get.Some? ==> r.0.task_list == s.task_list && r.0.error == GetTasksError)
      && AgreeOutside(s, r.0, {TaskListField, ErrorField})
  {
    var c1 := ToggleSelected(s, c, f);
    ToggleSelectedTable(s, c, f);
    assert Step(s, c, f, ToggleTaskStatus) == Step(s, c1, f, GetTasks);
    assert |c1.table| == |c.table|;
    GetTasksOutcome(s, c1, f);
  }
}
