/** The application state record the controller owns and the view reads, its
    default value, and one setter per field. The getters of the source are the
    datatype's field selectors here. */
module AppState {
  import opened Constants
  import opened TaskClient

  datatype State = State(
    task_list: seq<Task>,
    is_running: bool,
    screen: Screen,
    line: int,
    input: string,
    error: string,
    is_first_time: bool,
    master_key: string)

  /** Names of the fields of `State`, for stating what a change leaves alone. */
  datatype Field =
    | TaskListField | IsRunningField | ScreenField | LineField
    | InputField | ErrorField | IsFirstTimeField | MasterKeyField

  /** `s` and `t` agree on every field outside `changed`. */
  predicate AgreeOutside(s: State, t: State, changed: set<Field>) {
    && (TaskListField in changed || s.task_list == t.task_list)
    && (IsRunningField in changed || s.is_running == t.is_running)
    && (ScreenField in changed || s.screen == t.screen)
    && (LineField in changed || s.line == t.line)
    && (InputField in changed || s.input == t.input)
    && (ErrorField in changed || s.error == t.error)
    && (IsFirstTimeField in changed || s.is_first_time == t.is_first_time)
    && (MasterKeyField in changed || s.master_key == t.master_key)
  }

  /** The cursor designates a task, or is 0 when there is none. */
  predicate CursorInRange(s: State) {
    0 <= s.line < if |s.task_list| == 0 then 1 else |s.task_list|
  }

  /** `State::new()`, the derived default: an empty list, not running, the
      default screen, cursor 0, empty buffers and error, not a first run. */
  function New(): (s: State)
    ensures s.task_list == [] && s.line == 0 && CursorInRange(s)
    ensures !s.is_running && !s.is_first_time
    ensures s.screen == Main
    ensures s.input == "" && s.error == "" && s.master_key == ""
  {
    State([], false, DefaultScreen, 0, "", "", false, "")
  }

  function SetError(s: State, error: string): (r: State)
    ensures r.error == error && AgreeOutside(s, r, {ErrorField})
  {
    s.(error := error)
  }

  function SetInput(s: State, input: string): (r: State)
    ensures r.input == input && AgreeOutside(s, r, {InputField})
  {
    s.(input := input)
  }

  function SetLine(s: State, line: int): (r: State)
    ensures r.line == line && AgreeOutside(s, r, {LineField})
  {
    s.(line := line)
  }

  function SetScreen(s: State, screen: Screen): (r: State)
    ensures r.screen == screen && AgreeOutside(s, r, {ScreenField})
  {
    s.(screen := screen)
  }

  /** The one `is_running` field, which the controller reaches through the
      names `set_running`/`get_running`. */
  function SetIsRunning(s: State, is_running: bool): (r: State)
    ensures r.is_running == is_running && AgreeOutside(s, r, {IsRunningField})
  {
    s.(is_running := is_running)
  }

  /** Replaces the list wholesale: afterwards it is exactly the argument. */
  function SetTaskList(s: State, task_list: seq<Task>): (r: State)
    ensures r.task_list == task_list
    ensures AgreeOutside(s, r, {TaskListField})
  {
    s.(task_list := task_list)
  }

  function SetIsFirstTime(s: State, is_first_time: bool): (r: State)
    ensures r.is_first_time == is_first_time && AgreeOutside(s, r, {IsFirstTimeField})
  {
    s.(is_first_time := is_first_time)
  }

  function SetMasterKey(s: State, master_key: string): (r: State)
    ensures r.master_key == master_key && AgreeOutside(s, r, {MasterKeyField})
  {
    s.(master_key := master_key)
  }

  /** A second write to a field overwrites the first, for each of the eight
      setters: the getter sees only the value stored last. */
  lemma LastWriteWins(s: State, l1: seq<Task>, l2: seq<Task>, b1: bool, b2: bool,
                      sc1: Screen, sc2: Screen, n1: int, n2: int,
                      x1: string, x2: string)
    ensures SetTaskList(SetTaskList(s, l1), l2) == SetTaskList(s, l2)
    ensures SetIsRunning(SetIsRunning(s, b1), b2) == SetIsRunning(s, b2)
    ensures SetScreen(SetScreen(s, sc1), sc2) == SetScreen(s, sc2)
    ensures SetLine(SetLine(s, n1), n2) == SetLine(s, n2)
    ensures SetInput(SetInput(s, x1), x2) == SetInput(s, x2)
    ensures SetError(SetError(s, x1), x2) == SetError(s, x2)
    ensures SetIsFirstTime(SetIsFirstTime(s, b1), b2) == SetIsFirstTime(s, b2)
    ensures SetMasterKey(SetMasterKey(s, x1), x2) == SetMasterKey(s, x2)
  {
  }
}
