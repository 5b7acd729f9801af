# tudu controller — a Dafny model

tudu is a terminal task manager. Its controller reads one key at a time,
maps it to an `Action` according to the current screen, and applies the
action to an application `State`. Applying an action may call a task client
backed by an SQLite `todos` table, and may dispatch further actions. This
project models that state machine as pure functions and proves what each
action does and which invariants the machine keeps.

- `Step(state, client, faults, action)` is `Controller::handle_action`. It
  returns the next state and client. `faults` is an oracle that decides
  which client calls fail and with what driver message. Termination is
  proved by giving every action a rank: each nested dispatch goes to a
  strictly lower rank (`decreases Rank(a)`).
- `KeyToAction(screen, key)` is the key map of `handle_events`.
  `HandleKeyEvent` applies it to key presses only.
- `TaskClient` models the table as a sequence of rows in rowid order. New
  ids follow SQLite's rule for an `INTEGER PRIMARY KEY` column: the largest
  id plus one, or 1 in an empty table. It also models the optional
  connection, its open and close, and the status-toggle rule.
- `AppState` holds the `State` record, its default value and its setters.
  The getters are the datatype's field selectors, and `get_task_list_length`
  is `|task_list|`. The controller calls `set_running`/`get_running`, while
  the record defines `set_is_running`/`get_is_running`. Both name the one
  `is_running` field.
- `Csv` builds the records of the CSV export: `index,title,status`, with the
  index written in decimal.
- `InputBuffer` edits the title buffer. It measures the buffer in UTF-8
  bytes, as a Rust `String` does, so that the source's `RemoveChar` can be
  modelled exactly (see Findings).

The cursor invariant `0 <= line < max(1, |task_list|)` holds after every
action as long as the list mirrors the table (`StepKeepsInvariant`). After a
failed refresh the list can be stale, and then the cursor can end past the
end of the list (`StaleListLetsCursorEscape`).

## Model

| member | source | states |
|---|---|---|
| TaskClient.GetTasks | src/client.rs:58-74 | fails exactly when the fetch fails; on success returns every row in table order with id, title and status copied |
| TaskClient.CreateTask | src/client.rs:76-83 | on success appends one row titled `title`, status "in-progress", with an id no existing row has; the existing rows are a prefix of the new table; keeps a well-formed table well-formed; on failure returns "Could not insert task, e: " and the cause |
| TaskClient.MaxId | src/client.rs:45-49 | the largest id is carried by some row and no row has a larger one |
| TaskClient.NextId | src/client.rs:45-49 | the id of a new row is larger than every id in the table and is not among them |
| TaskClient.RemoveId | src/client.rs:85-89 | removing rows by id never lengthens the table; on a well-formed table it keeps ids strictly increasing and statuses valid, and the first row left is not below the first row |
| TaskClient.RemoveIdMembers | src/client.rs:85-89 | the rows left are exactly the rows whose id differs from the removed one |
| TaskClient.RemoveIdAt | src/client.rs:85-89 | when only row k carries the id, removing it deletes exactly row k and keeps the other rows in order |
| TaskClient.RemoveIdAbsent | src/client.rs:85-89 | removing an id no row carries leaves the table unchanged |
| TaskClient.RemoveTask | src/client.rs:85-89 | on success the table holds exactly the old rows with another id and stays well-formed; the connection is kept; on failure returns "Could not remove task, e: " and the cause |
| TaskClient.Toggle | src/client.rs:92-96 | the result is "completed" if and only if the given status is "in-progress"; otherwise it is "in-progress" |
| TaskClient.SetStatus | src/client.rs:91-100 | same length; ids and titles kept; only rows with the id get the new status |
| TaskClient.UpdateTask | src/client.rs:91-100 | on success only the row with the id changes, and its status becomes the toggle of the given status; the row count, ids and titles are kept; on failure returns "Could not update task, e: " and the cause |
| TaskClient.WellFormedIdUnique | src/client.rs:45-49 | in a well-formed table no other row carries a row's id, as the primary key guarantees |
| TaskClient.SetStatusRestores | src/client.rs:91-100 | writing a status into the rows with an id and then writing back their old status restores the table |
| TaskClient.ToggleInvolution | src/client.rs:92-96 | toggling twice is the identity on "in-progress" and "completed" |
| TaskClient.ToggleNotInvolutionElsewhere | src/client.rs:92-96 | any other status goes to "in-progress" and then to "completed", so toggling twice does not restore it |
| TaskClient.OpenConnection | src/client.rs:19-33 | succeeds exactly when the platform reports a configuration directory and the driver opens the file; the connection is then to `todoclidb.db` in the `todocli` folder of that directory; on failure nothing changes, with "Could not get config directory path" when the platform reports none and "Could not close connection, e: " and the cause, as written, when the driver refuses |
| TaskClient.CloseConnection | src/client.rs:35-42 | the connection is always gone afterwards; with none present the call fails with "Could not find connection"; with one present it fails exactly when closing fails |
| AppState.New | src/state.rs:17-19 | the default state: empty list, not running, screen Main, line 0, empty input, error and master key, not a first run; the cursor is in range |
| AppState.SetError | src/state.rs:25-27 | the error becomes the argument and no other field changes |
| AppState.SetInput | src/state.rs:33-35 | the input becomes the argument and no other field changes |
| AppState.SetLine | src/state.rs:41-43 | the line becomes the argument and no other field changes |
| AppState.SetScreen | src/state.rs:49-51 | the screen becomes the argument and no other field changes |
| AppState.SetIsRunning | src/state.rs:57-59 | the running flag becomes the argument and no other field changes |
| AppState.SetTaskList | src/state.rs:65-67 | the list is replaced wholesale by the argument and no other field changes |
| AppState.SetIsFirstTime | src/state.rs:77-79 | the first-run flag becomes the argument and no other field changes |
| AppState.SetMasterKey | src/state.rs:85-87 | the master key becomes the argument and no other field changes |
| AppState.LastWriteWins | src/state.rs:25-87 | for each of the eight setters, a second write overwrites the first |
| InputBuffer.AppendChar | src/controller.rs:79-82 | the buffer grows by exactly the typed character, at the end; its byte length grows by that character's UTF-8 width |
| InputBuffer.RemoveCharAsWritten | src/controller.rs:83-86 | the source's `drain(len - 1..len)` succeeds if and only if the buffer is non-empty and its last character is one byte; it then drops that character |
| InputBuffer.LastBoundaryIffSingleByte | src/controller.rs:83-86 | one byte before the end is a character boundary if and only if the last character is a single byte |
| InputBuffer.DropLastChar | src/controller.rs:83-86 | drops the last character; leaves an empty buffer empty |
| InputBuffer.DropLastCharAgrees | src/controller.rs:83-86 | wherever the source does not panic, it agrees with the corrected removal |
| InputBuffer.DropLastCharUndoesAppend | src/controller.rs:79-86 | removing a character undoes typing it |
| InputBuffer.EmptyBufferPanics | src/controller.rs:83-86 | on an empty buffer the source fails with an underflow |
| InputBuffer.AccentedLastCharPanics | src/controller.rs:83-86 | after the two-byte character 'é' the source fails, while the corrected removal empties the buffer |
| Controller.KeyToAction | src/controller.rs:124-141 | the result is legal on the screen; it is Empty if and only if the key is unbound there; on Add every character key, 'a' and 'x' included, types that character; Exit comes only from Esc on Main |
| Controller.Step | src/controller.rs:40-118 | terminates; keeps the connection; leaves the table alone unless the action writes it; keeps a well-formed table well-formed; clears the running flag only on Exit; never touches the first-run flag or master key; keeps a non-negative cursor non-negative |
| Controller.GetTasksStep | src/controller.rs:43-53 | the GetTasks arm keeps what every dispatch keeps |
| Controller.OpenMainScreenStep | src/controller.rs:66-70 | the OpenMainScreen arm keeps what every dispatch keeps |
| Controller.AddTaskStep | src/controller.rs:87-93 | the AddTask arm keeps what every dispatch keeps |
| Controller.DeleteSelected | src/controller.rs:95-99 | the delete of the task under the cursor keeps the connection and a well-formed table well-formed, whether or not it fails |
| Controller.DeleteSelectedTable | src/controller.rs:95-99 | the rows with the id of the task under the cursor are removed when there is such a task and the delete succeeds; otherwise the table is unchanged |
| Controller.ToggleSelected | src/controller.rs:106-110 | the update of the task under the cursor keeps the connection and a well-formed table well-formed, whether or not it fails |
| Controller.ToggleSelectedTable | src/controller.rs:106-110 | the rows with the id of the task under the cursor get the toggle of the status the list shows, when there is such a task and the update succeeds; otherwise the table is unchanged |
| Controller.RemoveTaskStep | src/controller.rs:94-104 | the RemoveTask arm keeps what every dispatch keeps |
| Controller.ToggleTaskStatusStep | src/controller.rs:105-112 | the ToggleTaskStatus arm keeps what every dispatch keeps |
| Controller.HandleKeyEvent | src/controller.rs:122-142 | only presses act; keys unbound on the screen do nothing; Esc on Main stops the loop; a character key on Add appends it; Backspace on Add drops the last character (corrected behaviour) |
| ControllerLemmas.ResetErrorClears | src/controller.rs:113-115 | ResetError clears the error and changes nothing else |
| ControllerLemmas.MenuDownOutcome | src/controller.rs:54-59 | the cursor moves down exactly when `line < len - 1`; otherwise nothing changes, including on an empty list |
| ControllerLemmas.MenuUpOutcome | src/controller.rs:60-65 | the cursor moves up exactly when `line > 0`; otherwise nothing changes |
| ControllerLemmas.GetTasksOutcome | src/controller.rs:43-53 | on success the list becomes the table and the error is cleared; on failure the error is "Could not get tasks" and the list is kept |
| ControllerLemmas.OpenMainScreenOutcome | src/controller.rs:66-70 | ends on Main with an empty error even when the refresh failed |
| ControllerLemmas.OpenAddScreenOutcome | src/controller.rs:71-74 | ends on Add with an empty error; the input is kept |
| ControllerLemmas.CancelAddTaskOutcome | src/controller.rs:75-78 | ends on Main with an empty error; the input is kept |
| ControllerLemmas.InputCharThenRemoveChar | src/controller.rs:79-86 | InputChar appends exactly one character and changes nothing else; RemoveChar then restores the state (corrected behaviour) |
| ControllerLemmas.RemoveCharOutcome | src/controller.rs:83-86 | drops the last character; an empty buffer is left as it is (corrected behaviour) |
| ControllerLemmas.AddTaskOutcome | src/controller.rs:87-93 | on success: exactly one new row with the input as title and "in-progress", input cleared, Main, error empty, list refreshed; on failure: the driver's message in the error slot and nothing else changed |
| ControllerLemmas.RemoveTaskOutcome | src/controller.rs:94-104 | deletes the selected task's row when there is one, ignoring a failed delete; moves the cursor up, floored at 0, when it was on the last line; then refreshes |
| ControllerLemmas.ToggleTaskStatusOutcome | src/controller.rs:105-112 | writes the toggled status of the selected task; the row count and the cursor are kept; then refreshes |
| ControllerInvariants.StepKeepsInvariant | src/controller.rs:40-118 | from a state whose list mirrors a well-formed table with the cursor on it, every action keeps the table well-formed and the cursor in range, whatever fails; if the refresh succeeds, the list mirrors the table again |
| ControllerInvariants.RemoveOnlyTask | src/controller.rs:94-104 | removing the only task leaves the cursor on line 0 whatever fails; with no failed delete or refresh, the list and table are empty |
| ControllerInvariants.ToggleChangesOnlySelected | src/controller.rs:105-112 | toggling changes only the status of the selected task; every other task, the list length and the cursor are kept |
| ControllerInvariants.ToggleStepFacts | src/controller.rs:105-112 | with no fault and a task under the cursor, a toggle writes the toggled status into the table, and the state then shows that table with the error cleared |
| ControllerInvariants.ToggleTwiceRestores | src/controller.rs:105-112 | toggling the same task twice restores the list and the table |
| ControllerInvariants.StaleListLetsCursorEscape | src/controller.rs:94-104 | with a stale list, RemoveTask can leave the cursor past the end of the list |
| Scenario.SessionKeys | src/controller.rs:124-141 | every binding: on Main 'a' opens the add screen, 'x' removes, Up and Down move, Esc exits and Enter toggles; on Add Esc cancels, Enter adds, Backspace removes a character and every character key is typed |
| Scenario.AddThroughAddScreen | src/controller.rs:71-93 | from an empty table, opening the add screen, typing one character and pressing Enter stores it as task 1 "in-progress" and ends on Main, with no error and a consistent state |
| Scenario.ToggleNewTaskTwice | src/controller.rs:105-112 | a new task toggles to "completed" and back to "in-progress" |
| Csv.NatToDecimal | src/csv.rs:14 | the index is written as at least one decimal digit, with no leading zero |
| Csv.DecimalRoundTrip | src/csv.rs:14 | reading the decimal rendering back gives the index |
| Csv.DecimalInjective | src/csv.rs:9-18 | distinct indices give distinct index fields |
| Csv.TaskRecords | src/csv.rs:9-19 | one record per task, in list order; record i has three fields: the decimal rendering of i (counting from 0), then the title and status copied verbatim; so an empty list gives no records |

## Findings

| source | as written | input that shows it | evidently intended | confidence | as-written member | corrected member |
|---|---|---|---|---|---|---|
| src/controller.rs:83-86 | `drain(len - 1..len)` on the byte length, with no check for an empty buffer | Backspace on the add screen while the title is empty: `len - 1` underflows and the program panics | Backspace on an empty title does nothing | high, not executed | InputBuffer.EmptyBufferPanics | InputBuffer.DropLastChar |
| src/controller.rs:83-86 | `drain(len - 1..len)` removes one byte, not one character | type 'é' on the add screen, then press Backspace: byte `len - 1` is inside the character and `drain` panics | Backspace removes the last character, whatever its width | high, not executed | InputBuffer.AccentedLastCharPanics | InputBuffer.DropLastChar |

`Step` uses the corrected `DropLastChar` for RemoveChar.
`InputBuffer.RemoveCharAsWritten` keeps the source's behaviour.
`InputBuffer.DropLastCharAgrees` proves that the two agree wherever the
source does not panic.

## Left out

- Getters (`get_error`, `get_input`, `get_line`, `get_screen`, `get_is_running`, `get_task_list`, `get_is_first_time`, `get_master_key`, `get_task_list_length`): each is a field selector of `State`, or `|task_list|`. They have no members of their own.
- `get_connection`: its panic is modelled as the precondition `Connected(c)` of every table operation. `Step` requires a connection only for the actions that reach the client.
- `crete_todos_table`: schema creation. The modelled table always exists.
- Event polling, `init_controller`, `run` and `exit`: these are I/O sequencing. `init_controller` opens the connection, creates the table, sets `is_running` to true and dispatches OpenMainScreen. `exit` closes the connection (`TaskClient.CloseConnection`).
- Rendering (src/view.rs), the configuration directory (src/filesystem.rs) and the cipher wrapper (src/encdec.rs) are not part of this model. The controller never calls the cipher wrapper. src/task.rs is not part of this model either; the three `Task` fields are the ones `get_tasks` reads.
- The SQL text and the driver: a failed call is chosen by the `Faults` oracle, one optional cause per kind of call. No top-level dispatch calls the same kind twice.
- Row-decoding errors inside `get_tasks` are folded into the fetch fault. The rows-affected counts of `execute` are dropped, as the controller drops them.
- Integer widths: `line` is an `i32`, and ids are SQLite integers that the program narrows to `i32`: `get_tasks` reads them as `i32`, and `remove_task` and `update_task` take an `i32` id. A row id above `i32::MAX` would make `get_tasks` fail while decoding the row (see the row-decoding line below). Both are unbounded here. Neither `line + 1` overflowing nor SQLite's fallback when the largest id is the maximum rowid is modelled.
- `get_task_list_length` truncates the list length with `as i32`, and the CSV `index` counter is an `i32`. Both are unbounded here, so a list of more than 2^31 - 1 tasks is not modelled.
- `master_key` and `is_first_time` are carried in `State`; no action reads or writes them.
- The configuration directory lookup (`get_app_config_path`) is the `configDir` parameter of `TaskClient.OpenConnection`; the platform query behind it is not modelled.
- CSV file creation, quoting, flushing and writer errors belong to the CSV library.
- Key codes: the function-key number and the media and modifier keys are kept as plain numbers. Key modifiers are not modelled, because the key map ignores them.
- Controller.Step: RemoveChar on an empty buffer, and after a multi-byte last character, follows the corrected behaviour instead of panicking (see Findings).
- Controller.HandleKeyEvent: Backspace on the add screen applies the corrected removal, so an empty buffer or a multi-byte last character does not panic as the source does (see Findings).
- ControllerLemmas.InputCharThenRemoveChar: RemoveChar restores the state under the corrected removal; the source panics when the typed character is more than one byte (see Findings).
- ControllerLemmas.RemoveCharOutcome: states the corrected removal, which leaves an empty buffer as it is and drops a multi-byte last character; the source panics in both cases (see Findings).
