/** The action-driven state machine: the `Action` set, the key map of each
    screen, and `Step`, which applies one action to the state and the client
    and runs the actions it cascades into. */
module Controller {
  import opened Wrappers
  import opened Constants
  import opened AppState
  import opened InputBuffer
  import TaskClient

  const GetTasksError: string := "Could not get tasks"

  datatype Action =
    | Empty
    | Exit
    | GetTasks
    | OpenMainScreen
    | OpenAddScreen
    | AddTask
    | CancelAddTask
    | RemoveTask
    | InputChar(ch: char)
    | RemoveChar
    | MenuUp
    | MenuDown
    | ToggleTaskStatus
    | ResetError

  /** Key codes of the terminal library; the media and modifier keys are
      kept only by their number. */
  datatype KeyCode =
    | Backspace | Enter | Left | Right | Up | Down | Home | End
    | PageUp | PageDown | Tab | BackTab | Delete | Insert
    | F(n: nat) | Char(ch: char) | Null | Esc
    | CapsLock | ScrollLock | NumLock | PrintScreen | Pause | Menu | KeypadBegin
    | Media(code: nat) | Modifier(code: nat)

  datatype KeyEventKind = Press | Repeat | Release

  datatype KeyEvent = KeyEvent(code: KeyCode, kind: KeyEventKind)

  /** The actions that reach the task client, whose `get_connection` panics
      without a connection. */
  predicate NeedsConnection(a: Action) {
    a.GetTasks? || a.OpenMainScreen? || a.AddTask? || a.RemoveTask? || a.ToggleTaskStatus?
  }

  /** The actions that write to the table. */
  predicate WritesTable(a: Action) {
    a.AddTask? || a.RemoveTask? || a.ToggleTaskStatus?
  }

  /** Every action an action dispatches in turn has a smaller rank. */
  function Rank(a: Action): nat {
    match a
    case AddTask => 3
    case OpenMainScreen | RemoveTask | ToggleTaskStatus => 2
    case GetTasks | OpenAddScreen | CancelAddTask => 1
    case _ => 0
  }

  /** The keys that mean something on `screen`. */
  predicate Bound(screen: Screen, key: KeyCode) {
    match screen
    case Main => key in {Char('a'), Char('x'), Up, Down, Esc, Enter}
    case Add => key.Char? || key in {Esc, Enter, Backspace}
  }

  /** The actions a key can produce on `screen`: list commands on the main
      screen, editing commands on the add screen. */
  predicate LegalOn(screen: Screen, a: Action) {
    match screen
    case Main =>
      a.Empty? || a.OpenAddScreen? || a.RemoveTask? || a.MenuUp? || a.MenuDown?
      || a.Exit? || a.ToggleTaskStatus?
    case Add =>
      a.Empty? || a.CancelAddTask? || a.AddTask? || a.InputChar? || a.RemoveChar?
  }

  /** The key map of `handle_events`. Unbound keys give `Empty`; on the add
      screen every character key, 'a' and 'x' included, is typed. */
  function KeyToAction(screen: Screen, key: KeyCode): (a: Action)
    ensures LegalOn(screen, a)
    ensures a.Empty? <==> !Bound(screen, key)
    ensures screen == Add ==> (a.InputChar? <==> key.Char?)
    ensures a.InputChar? ==> key == Char(a.ch)
    ensures a.Exit? <==> screen == Main && key == Esc
  {
    match screen
    case Main =>
      (match key
       case Char('a') => OpenAddScreen
       case Char('x') => RemoveTask
       case Up => MenuUp
       case Down => MenuDown
       case Esc => Exit
       case Enter => ToggleTaskStatus
       case _ => Empty)
    case Add =>
      (match key
       case Esc => CancelAddTask
       case Enter => AddTask
       case Char(c) => InputChar(c)
       case Backspace => RemoveChar
       case _ => Empty)
  }

  /** What every dispatch keeps, whatever it does: the connection; the table,
      unless the action writes to it; a well-formed table well-formed; the
      running flag, unless the action is Exit; the first-run flag and the
      master key; and a non-negative cursor non-negative. */
  predicate Keeps(s: State, c: TaskClient.Client, a: Action, r: (State, TaskClient.Client)) {
    && r.1.connection == c.connection
    && (!WritesTable(a) ==> r.1 == c)
    && (TaskClient.TableWellFormed(c.table) ==> TaskClient.TableWellFormed(r.1.table))
    && r.0.is_running == (s.is_running && !a.Exit?)
    && r.0.is_first_time == s.is_first_time && r.0.master_key == s.master_key
    && (s.line >= 0 ==> r.0.line >= 0)
  }

  /** `handle_action`. Client calls consult the fault oracle `f`; each kind of
      client call happens at most once per dispatch, so one oracle serves a
      whole cascade. The arms that reach the client are the functions below. */
  function Step(s: State, c: TaskClient.Client, f: TaskClient.Faults, a: Action)
    : (r: (State, TaskClient.Client))
    requires NeedsConnection(a) ==> TaskClient.Connected(c)
    ensures Keeps(s, c, a, r)
    decreases Rank(a), 1
  {
    match a
    case Exit => (SetIsRunning(s, false), c)
    case GetTasks => GetTasksStep(s, c, f)
    case MenuDown =>
      if s.line < |s.task_list| - 1 then (SetLine(s, s.line + 1), c) else (s, c)
    case MenuUp =>
      if s.line > 0 then (SetLine(s, s.line - 1), c) else (s, c)
    case OpenMainScreen => OpenMainScreenStep(s, c, f)
    case OpenAddScreen => Step(SetScreen(s, Add), c, f, ResetError)
    case CancelAddTask => Step(SetScreen(s, Main), c, f, ResetError)
    case InputChar(ch) => (s.(input := AppendChar(s.input, ch)), c)
    case RemoveChar => (s.(input := DropLastChar(s.input)), c)
    case AddTask => AddTaskStep(s, c, f)
    case RemoveTask => RemoveTaskStep(s, c, f)
    case ToggleTaskStatus => ToggleTaskStatusStep(s, c, f)
    case ResetError => (SetError(s, ""), c)
    case Empty => (s, c)
  }

  /** GetTasks: on success the list is replaced and the error reset; on
      failure the error slot says so. */
  function GetTasksStep(s: State, c: TaskClient.Client, f: TaskClient.Faults)
    : (r: (State, TaskClient.Client))
    requires TaskClient.Connected(c)
    ensures Keeps(s, c, GetTasks, r)
    decreases Rank(GetTasks), 0
  {
    match TaskClient.GetTasks(c, f)
    case Ok(tasks) => Step(SetTaskList(s, tasks), c, f, ResetError)
    case Err(_) => (SetError(s, GetTasksError), c)
  }

  /** OpenMainScreen: switch screen, refresh, then reset the error. */
  function OpenMainScreenStep(s: State, c: TaskClient.Client, f: TaskClient.Faults)
    : (r: (State, TaskClient.Client))
    requires TaskClient.Connected(c)
    ensures Keeps(s, c, OpenMainScreen, r)
    decreases Rank(OpenMainScreen), 0
  {
    var (s1, c1) := Step(SetScreen(s, Main), c, f, GetTasks);
    Step(s1, c1, f, ResetError)
  }

  /** AddTask: store the input as a task, then clear the input and open the
      main screen; a failed insert only fills the error slot. */
  function AddTaskStep(s: State, c: TaskClient.Client, f: TaskClient.Faults)
    : (r: (State, TaskClient.Client))
    requires TaskClient.Connected(c)
    ensures Keeps(s, c, AddTask, r)
    decreases Rank(AddTask), 0
  {
    match TaskClient.CreateTask(c, f, s.input)
    case Ok(c1) => Step(SetInput(s, ""), c1, f, OpenMainScreen)
    case Err(e) => (SetError(s, e), c)
  }

  /** The client after RemoveTask's delete of the task under the cursor (a
      failed delete's error is dropped). It keeps the connection and a
      well-formed table; `DeleteSelectedTable` says which rows go. */
  function DeleteSelected(s: State, c: TaskClient.Client, f: TaskClient.Faults)
    : (r: TaskClient.Client)
    requires TaskClient.Connected(c)
    ensures r.connection == c.connection
    ensures TaskClient.TableWellFormed(c.table) ==> TaskClient.TableWellFormed(r.table)
  {
    if 0 <= s.line < |s.task_list|
    then TaskClient.RemoveTask(c, f, s.task_list[s.line].id).GetOr(c)
    else c
  }

  /** When the cursor is on a listed task and the delete succeeds, the rows
      with that task's id are gone; otherwise (no task under the cursor, or a
      failed delete) the table is unchanged. */
  lemma DeleteSelectedTable(s: State, c: TaskClient.Client, f: TaskClient.Faults)
    requires TaskClient.Connected(c)
    ensures DeleteSelected(s, c, f).table ==
              if 0 <= s.line < |s.task_list| && f.remove.None?
              then TaskClient.RemoveId(c.table, s.task_list[s.line].id)
              else c.table
  {
  }

  /** The client after ToggleTaskStatus's update of the task under the cursor
      (a failed update's error is dropped). It keeps the connection and a
      well-formed table; `ToggleSelectedTable` says what is written. */
  function ToggleSelected(s: State, c: TaskClient.Client, f: TaskClient.Faults)
    : (r: TaskClient.Client)
    requires TaskClient.Connected(c)
    ensures r.connection == c.connection
    ensures TaskClient.TableWellFormed(c.table) ==> TaskClient.TableWellFormed(r.table)
  {
    if 0 <= s.line < |s.task_list|
    then TaskClient.UpdateTask(c, f, s.task_list[s.line].id, s.task_list[s.line].status).GetOr(c)
    else c
  }

  /** When the cursor is on a listed task and the update succeeds, the rows
      with that task's id get the toggle of the status the list shows;
      otherwise (no task under the cursor, or a failed update) the table is
      unchanged. */
  lemma ToggleSelectedTable(s: State, c: TaskClient.Client, f: TaskClient.Faults)
    requires TaskClient.Connected(c)
    ensures ToggleSelected(s, c, f).table ==
              if 0 <= s.line < |s.task_list| && f.update.None?
              then TaskClient.SetStatus(c.table, s.task_list[s.line].id,
                                        TaskClient.Toggle(s.task_list[s.line].status))
              else c.table
  {
  }

  /** RemoveTask: delete the selected task (its error is dropped), move up when
      the cursor was on the last line, then refresh. */
  function RemoveTaskStep(s: State, c: TaskClient.Client, f: TaskClient.Faults)
    : (r: (State, TaskClient.Client))
    requires TaskClient.Connected(c)
    ensures Keeps(s, c, RemoveTask, r)
    decreases Rank(RemoveTask), 0
  {
    var c1 := DeleteSelected(s, c, f);
    var moved := if s.line == |s.task_list| - 1 then Step(s, c1, f, MenuUp) else (s, c1);
    Step(moved.0, moved.1, f, GetTasks)
  }

  /** ToggleTaskStatus: write the toggled status of the selected task (its
      error is dropped), then refresh. */
  function ToggleTaskStatusStep(s: State, c: TaskClient.Client, f: TaskClient.Faults)
    : (r: (State, TaskClient.Client))
    requires TaskClient.Connected(c)
    ensures Keeps(s, c, ToggleTaskStatus, r)
    decreases Rank(ToggleTaskStatus), 0
  {
    var c1 := ToggleSelected(s, c, f);
    Step(s, c1, f, GetTasks)
  }

  /** One key event of `handle_events`: only presses act, through the key map
      of the current screen. */
  function HandleKeyEvent(s: State, c: TaskClient.Client, f: TaskClient.Faults, ev: KeyEvent)
    : (r: (State, TaskClient.Client))
    requires ev.kind == Press && NeedsConnection(KeyToAction(s.screen, ev.code))
             ==> TaskClient.Connected(c)
    ensures r.1.connection == c.connection
    ensures ev.kind != Press ==> r == (s, c)
    ensures ev.kind == Press && s.screen == Main && ev.code == Esc ==> !r.0.is_running
    ensures ev.kind == Press && s.screen == Add && ev.code.Char? ==>
              r.0.input == s.input + [ev.code.ch] && r.1 == c
    ensures ev.kind == Press && s.screen == Add && ev.code == Backspace ==>
              r.0.input == DropLastChar(s.input) && r.1 == c
    ensures !Bound(s.screen, ev.code) ==> r == (s, c)
  {
    if ev.kind == Press then Step(s, c, f, KeyToAction(s.screen, ev.code)) else (s, c)
  }
}
