/** The task client: an optional connection to the database file and the
    `todos` table stored in it, with the four table operations the controller
    uses and the connection lifecycle. The SQL text and the driver are
    abstracted: the table is a sequence of rows in rowid order, and a driver
    failure is chosen by a `Faults` oracle instead of being computed. */
module TaskClient {
  import opened Wrappers
  import Constants

  const InProgress: string := "in-progress"
  const Completed: string := "completed"

  const InsertError: string := "Could not insert task, e: "
  const RemoveError: string := "Could not remove task, e: "
  const UpdateError: string := "Could not update task, e: "
  const ConfigDirError: string := "Could not get config directory path"
  const OpenError: string := "Could not close connection, e: "
  const CloseError: string := "Could not close connection"
  const NoConnectionError: string := "Could not find connection"

  /** One row of `todos`: the three columns `get_tasks` reads. */
  datatype Task = Task(id: int, title: string, status: string)

  /** An open database handle, naming the file it was opened on by the
      components of its path. */
  datatype Connection = Connection(path: seq<string>)

  /** The client's optional connection, and the `todos` table in the
      database file (which outlives any connection), in rowid order. */
  datatype Client = Client(connection: Option<Connection>, table: seq<Task>)

  /** Failure oracle for the table operations: `None` when the driver call
      succeeds, `Some(cause)` when it fails with that message. */
  datatype Faults = Faults(get: Option<string>, create: Option<string>,
                           remove: Option<string>, update: Option<string>)

  /** Every table operation goes through `get_connection`, which panics when
      there is no connection; so each of them demands one. */
  predicate Connected(c: Client) {
    c.connection.Some?
  }

  predicate ValidStatus(status: string) {
    status == InProgress || status == Completed
  }

  /** The table as the client keeps it: ids strictly increase in rowid order
      (so they are unique), and every status is one the client writes. */
  predicate TableWellFormed(rows: seq<Task>) {
    && (forall i, j :: 0 <= i < j < |rows| ==> rows[i].id < rows[j].id)
    && (forall i :: 0 <= i < |rows| ==> ValidStatus(rows[i].status))
  }

  predicate HasId(rows: seq<Task>, id: int) {
    exists i :: 0 <= i < |rows| && rows[i].id == id
  }

  /** The largest id in a non-empty table. */
  function MaxId(rows: seq<Task>): (m: int)
    requires |rows| > 0
    ensures forall i :: 0 <= i < |rows| ==> rows[i].id <= m
    ensures HasId(rows, m)
  {
    if |rows| == 1 then rows[0].id
    else
      var m' := MaxId(rows[1..]);
      if rows[0].id >= m' then rows[0].id
      else
        HasIdInTail(rows, m');
        m'
  }

  /** An id carried by a row of the tail is carried by a row of the table. */
  lemma HasIdInTail(rows: seq<Task>, id: int)
    requires |rows| > 0 && HasId(rows[1..], id)
    ensures HasId(rows, id)
  {
    var k :| 0 <= k < |rows[1..]| && rows[1..][k].id == id;
    assert rows[k + 1].id == id;
  }

  /** The id SQLite gives a new row of an `INTEGER PRIMARY KEY` table without
      AUTOINCREMENT: one more than the largest id, or 1 in an empty table. */
  function NextId(rows: seq<Task>): (id: int)
    ensures forall i :: 0 <= i < |rows| ==> rows[i].id < id
    ensures !HasId(rows, id)
  {
    if |rows| == 0 then 1 else MaxId(rows) + 1
  }

  /** `get_tasks`: every row, in table order, with its three columns. */
  function GetTasks(c: Client, f: Faults): (r: Result<seq<Task>>)
    requires Connected(c)
    ensures r.Ok? <==> f.get.None?
    ensures r.Ok? ==> |r.value| == |c.table|
    ensures r.Ok? ==> forall i :: 0 <= i < |c.table| ==>
              r.value[i].id == c.table[i].id && r.value[i].title == c.table[i].title
              && r.value[i].status == c.table[i].status
    ensures r.Err? ==> r.error == f.get.value
  {
    match f.get
    case Some(cause) => Err(cause)
    case None => Ok(c.table)
  }

  /** `create_task`: appends one row holding `title` with status
      "in-progress" under a fresh id; the existing rows are untouched. */
  function CreateTask(c: Client, f: Faults, title: string): (r: Result<Client>)
    requires Connected(c)
    ensures r.Ok? <==> f.create.None?
    ensures r.Err? ==> r.error == InsertError + f.create.value
    ensures r.Ok? ==> r.value.connection == c.connection
    ensures r.Ok? ==> |r.value.table| == |c.table| + 1
    ensures r.Ok? ==> r.value.table[..|c.table|] == c.table
    ensures r.Ok? ==> var t := r.value.table[|c.table|];
              t.title == title && t.status == InProgress && !HasId(c.table, t.id)
    ensures r.Ok? && TableWellFormed(c.table) ==> TableWellFormed(r.value.table)
  {
    match f.create
    case Some(cause) => Err(InsertError + cause)
    case None =>
      var row := Task(NextId(c.table), title, InProgress);
      assert (c.table + [row])[..|c.table|] == c.table;
      Ok(c.(table := c.table + [row]))
  }

  /** The rows whose id is not `id`, in their original order. A well-formed
      table stays well-formed, and its first row left is not below its first
      row. */
  function RemoveId(rows: seq<Task>, id: int): (r: seq<Task>)
    ensures |r| <= |rows|
    ensures TableWellFormed(rows) ==> TableWellFormed(r)
    ensures TableWellFormed(rows) && |r| > 0 ==> rows[0].id <= r[0].id
  {
    if |rows| == 0 then []
    else if rows[0].id == id then RemoveId(rows[1..], id)
    else [rows[0]] + RemoveId(rows[1..], id)
  }

  /** `remove_task`: deletes the rows with that id. */
  function RemoveTask(c: Client, f: Faults, id: int): (r: Result<Client>)
    requires Connected(c)
    ensures r.Ok? <==> f.remove.None?
    ensures r.Err? ==> r.error == RemoveError + f.remove.value
    ensures r.Ok? ==> r.value.connection == c.connection
    ensures r.Ok? ==> forall t :: t in r.value.table <==> t in c.table && t.id != id
    ensures r.Ok? && TableWellFormed(c.table) ==> TableWellFormed(r.value.table)
  {
    match f.remove
    case Some(cause) => Err(RemoveError + cause)
    case None =>
      RemoveIdMembers(c.table, id);
      Ok(c.(table := RemoveId(c.table, id)))
  }

  /** The status `update_task` writes: "completed" exactly when the status it
      is given is "in-progress", and "in-progress" for anything else. */
  function Toggle(status: string): (r: string)
    ensures ValidStatus(r)
    ensures r == Completed <==> status == InProgress
  {
    if status == InProgress then Completed else InProgress
  }

  /** The rows with `status` written into every row whose id is `id`. */
  function SetStatus(rows: seq<Task>, id: int, status: string): (r: seq<Task>)
    ensures |r| == |rows|
    ensures forall i :: 0 <= i < |rows| ==>
              r[i].id == rows[i].id && r[i].title == rows[i].title
              && r[i].status == (if rows[i].id == id then status else rows[i].status)
  {
    if |rows| == 0 then []
    else
      var head := if rows[0].id == id then rows[0].(status := status) else rows[0];
      [head] + SetStatus(rows[1..], id, status)
  }

  /** `update_task`: toggles the status it is given and stores the result in
      the row with that id; every other row, and every id and title, is kept. */
  function UpdateTask(c: Client, f: Faults, id: int, current: string): (r: Result<Client>)
    requires Connected(c)
    ensures r.Ok? <==> f.update.None?
    ensures r.Err? ==> r.error == UpdateError + f.update.value
    ensures r.Ok? ==> r.value.connection == c.connection
    ensures r.Ok? ==> |r.value.table| == |c.table|
    ensures r.Ok? ==> forall i :: 0 <= i < |c.table| ==>
              var t := r.value.table[i];
              t.id == c.table[i].id && t.title == c.table[i].title
              && t.status == (if t.id == id then Toggle(current) else c.table[i].status)
    ensures r.Ok? && TableWellFormed(c.table) ==> TableWellFormed(r.value.table)
  {
    match f.update
    case Some(cause) => Err(UpdateError + cause)
    case None => Ok(c.(table := SetStatus(c.table, id, Toggle(current))))
  }

  /** `open_connection`: the database file is `DbName` in the `AppPath`
      folder of the user's configuration directory. `configDir` is that
      directory, split into path components, or `None` when the platform has
      none; `driverFault` is the driver's refusal to open the file. On
      success the client holds the connection; on failure nothing changes.
      The driver failure message says "close", as the source writes it. */
  function OpenConnection(c: Client, configDir: Option<seq<string>>, driverFault: Option<string>)
    : (r: (Client, Result<()>))
    ensures r.1.Ok? <==> configDir.Some? && driverFault.None?
    ensures r.1.Ok? ==> r.0.connection == Some(Connection(configDir.value + [Constants.AppPath, Constants.DbName]))
    ensures r.1.Err? ==> r.0 == c
    ensures r.0.table == c.table
    ensures configDir.None? ==> r.1 == Err(ConfigDirError)
    ensures configDir.Some? && driverFault.Some? ==> r.1 == Err(OpenError + driverFault.value)
  {
    match configDir
    case None => (c, Err(ConfigDirError))
    case Some(dir) =>
      match driverFault
      case None => (c.(connection := Some(Connection(dir + [Constants.AppPath, Constants.DbName]))), Ok(()))
      case Some(cause) => (c, Err(OpenError + cause))
  }

  /** `close_connection`: the connection is taken out whatever happens; with
      none present the call fails with "Could not find connection". */
  function CloseConnection(c: Client, closeFault: Option<string>): (r: (Client, Result<()>))
    ensures r.0.connection.None?
    ensures r.0.table == c.table
    ensures !Connected(c) ==> r.1 == Err(NoConnectionError)
    ensures Connected(c) ==> (r.1.Ok? <==> closeFault.None?)
    ensures Connected(c) && closeFault.Some? ==> r.1 == Err(CloseError)
  {
    var result :=
      match c.connection
      case None => Err(NoConnectionError)
      case Some(_) => if closeFault.None? then Ok(()) else Err(CloseError);
    (c.(connection := None), result)
  }

  // ---------------------------------------------------------------------
  // Lemmas about the table operations

  /** The rows left are exactly the rows whose id differs. */
  lemma {:induction false} RemoveIdMembers(rows: seq<Task>, id: int)
    ensures forall t :: t in RemoveId(rows, id) <==> t in rows && t.id != id
  {
    if |rows| > 0 {
      RemoveIdMembers(rows[1..], id);
      assert rows == [rows[0]] + rows[1..];
    }
  }

  /** When no other row carries the id of row `k`, removing that id removes
      exactly row `k` and keeps the others in order. */
  lemma {:induction false} RemoveIdAt(rows: seq<Task>, k: int)
    requires 0 <= k < |rows|
    requires forall i :: 0 <= i < |rows| && i != k ==> rows[i].id != rows[k].id
    ensures RemoveId(rows, rows[k].id) == rows[..k] + rows[k + 1..]
  {
    var id := rows[k].id;
    var tail := rows[1..];
    if k == 0 {
      forall i | 0 <= i < |tail|
        ensures tail[i].id != id
      {
        assert tail[i] == rows[i + 1];
      }
      RemoveIdAbsent(tail, id);
    } else {
      assert tail[k - 1] == rows[k];
      forall i | 0 <= i < |tail| && i != k - 1
        ensures tail[i].id != tail[k - 1].id
      {
        assert tail[i] == rows[i + 1];
      }
      RemoveIdAt(tail, k - 1);
      assert RemoveId(rows, id) == [rows[0]] + (tail[..k - 1] + tail[k..]);
      assert tail[..k - 1] == rows[1..k];
      assert tail[k..] == rows[k + 1..];
      assert rows[..k] == [rows[0]] + rows[1..k];
    }
  }

  /** Removing an id no row carries leaves the table as it is. */
  lemma {:induction false} RemoveIdAbsent(rows: seq<Task>, id: int)
    requires forall i :: 0 <= i < |rows| ==> rows[i].id != id
    ensures RemoveId(rows, id) == rows
  {
    if |rows| > 0 {
      RemoveIdAbsent(rows[1..], id);
      assert [rows[0]] + rows[1..] == rows;
    }
  }

  /** In a well-formed table, row `k` is the only row carrying its id. */
  lemma WellFormedIdUnique(rows: seq<Task>, k: int)
    requires TableWellFormed(rows) && 0 <= k < |rows|
    ensures forall i :: 0 <= i < |rows| && i != k ==> rows[i].id != rows[k].id
  {
  }

  /** Writing a status into the rows with an id and then writing back the
      status those rows had restores the table. */
  lemma SetStatusRestores(rows: seq<Task>, id: int, status: string, old_status: string)
    requires forall i :: 0 <= i < |rows| && rows[i].id == id ==> rows[i].status == old_status
    ensures SetStatus(SetStatus(rows, id, status), id, old_status) == rows
  {
    var r := SetStatus(SetStatus(rows, id, status), id, old_status);
    assert forall i :: 0 <= i < |rows| ==> r[i] == rows[i];
  }

  /** On the two statuses the client writes, toggling twice is the identity. */
  lemma ToggleInvolution(status: string)
    requires ValidStatus(status)
    ensures Toggle(Toggle(status)) == status
  {
  }

  /** Off those two statuses it is not: any other string goes to
      "in-progress" first and then to "completed". */
  lemma ToggleNotInvolutionElsewhere(status: string)
    requires !ValidStatus(status)
    ensures Toggle(status) == InProgress
    ensures Toggle(Toggle(status)) == Completed != status
  {
  }
}
