/** The block list enumerators of the PostgreSQL and SQLite drivers behind one `next` interface
    (libiptracking/db_drivers/db_instance_postgresql.c, db_instance_sqlite3.c, db_interface.c).  A query
    result is a sequence of column values, NULL being None. */
module BlocklistEnum {
  import opened Options

  type Value = Option<string>

  /** PQgetvalue: a NULL column reads as the empty string. */
  function GetValue(v: Value): string {
    if v.Some? then v.value else ""
  }

  function GetValues(rows: seq<Value>): seq<Value> {
    seq(|rows|, k requires 0 <= k < |rows| => Some(GetValue(rows[k])))
  }

  /** Both enumerators refine one iterator: `Pending` lists the results of the calls to come; a call
      returns and removes the first, and NULL for ever once there is none. */
  class PostgresqlEnum {
    const rows: seq<Value>
    var i: int
    const iMax: int

    ghost predicate Valid()
      reads this
    {
      0 <= i <= iMax == |rows|
    }

    ghost function Pending(): seq<Value>
      requires Valid()
      reads this
    {
      GetValues(rows)[i..]
    }

    constructor (rows: seq<Value>)
      ensures Valid() && this.rows == rows && Pending() == GetValues(rows)
    {
      this.rows := rows;
      i := 0;
      iMax := |rows|;
    }

    method Next() returns (r: Option<string>)
      requires Valid()
      modifies this
      ensures Valid()
      ensures old(Pending()) == [] ==> r == None && Pending() == []
      ensures old(Pending()) != [] ==> r == old(Pending())[0] && Pending() == old(Pending())[1..]
    {
      if i < iMax {
        r := Some(GetValue(rows[i]));
        i := i + 1;
      } else {
        r := None;
      }
    }
  }

  /** Whether the k-th step of a statement goes well; steps beyond the listed ones do. */
  predicate StepOk(steps: seq<bool>, k: nat) {
    k < |steps| ==> steps[k]
  }

  /** The rows a statement produces from its `at`-th step on: up to the end or the first step that fails. */
  function Produced(rows: seq<Value>, steps: seq<bool>, at: nat): seq<Value>
    decreases |rows| - at
  {
    if |rows| <= at || !StepOk(steps, at) then [] else [rows[at]] + Produced(rows, steps, at + 1)
  }

  /** A stepped SQLite statement: `at` steps have been made.  A step past the last row is SQLITE_DONE, and
      the code takes a step that fails for the same. */
  class SqliteEnum {
    const rows: seq<Value>
    const steps: seq<bool>
    var at: nat
    var isFirst: bool
    var isDone: bool

    ghost predicate Valid()
      reads this
    {
      1 <= at && (isFirst ==> at == 1 && !isDone && rows != [] && StepOk(steps, 0))
    }

    ghost function Pending(): seq<Value>
      requires Valid()
      reads this
    {
      if isDone then [] else Produced(rows, steps, if isFirst then 0 else at)
    }

    /** The statement has been stepped to its first row. */
    constructor (rows: seq<Value>, steps: seq<bool>)
      requires rows != [] && StepOk(steps, 0)
      ensures Valid() && Pending() == Produced(rows, steps, 0)
    {
      this.rows, this.steps := rows, steps;
      at := 1;
      isFirst, isDone := true, false;
    }

    /** sqlite3_step: whether it produced a row. */
    method Step() returns (row: bool)
      modifies this`at
      ensures row <==> old(at) < |rows| && StepOk(steps, old(at))
      ensures at == old(at) + 1
    {
      row := at < |rows| && StepOk(steps, at);
      at := at + 1;
    }

    method Next() returns (r: Option<string>)
      requires Valid()
      modifies this
      ensures Valid()
      ensures old(Pending()) == [] ==> r == None && Pending() == []
      ensures old(Pending()) != [] ==> r == old(Pending())[0] && Pending() == old(Pending())[1..]
    {
      r := None;
      if !isDone {
        var row;
        if isFirst {
          row := true;
          isFirst := false;
        } else {
          row := Step();
        }
        if row {
          r := rows[at - 1];
        } else {
          isDone := true;
        }
      }
    }
  }

  /** A reference to an enumerator: NULL when there are no rows or the query failed. */
  datatype Enum = NullEnum | Postgresql(pg: PostgresqlEnum) | Sqlite(lite: SqliteEnum) {

    ghost predicate Valid()
      reads if Postgresql? then {pg as object} else if Sqlite? then {lite as object} else {}
    {
      (Postgresql? ==> pg.Valid()) && (Sqlite? ==> lite.Valid())
    }

    ghost function Pending(): seq<Value>
      requires Valid()
      reads if Postgresql? then {pg as object} else if Sqlite? then {lite as object} else {}
    {
      match this
      case NullEnum => []
      case Postgresql(pg) => pg.Pending()
      case Sqlite(lite) => lite.Pending()
    }

    ghost function Footprint(): set<object> {
      if Postgresql? then {pg} else if Sqlite? then {lite} else {}
    }

    /** db_blocklist_enum_next. */
    method Next() returns (r: Option<string>)
      requires Valid()
      modifies Footprint()
      ensures Valid()
      ensures old(Pending()) == [] ==> r == None && Pending() == []
      ensures old(Pending()) != [] ==> r == old(Pending())[0] && Pending() == old(Pending())[1..]
    {
      match this
      case NullEnum => r := None;
      case Postgresql(pg) => r := pg.Next();
      case Sqlite(lite) => r := lite.Next();
    }
  }

  /** The outcome of running the block list query. */
  datatype Query = QueryFailed | Rows(rows: seq<Value>)

  /** ..._blocklist_enum_open of the PostgreSQL driver. */
  method OpenPostgresql(query: Query, mallocOk: bool) returns (e: Enum)
    ensures e.Valid() && fresh(e.Footprint())
    ensures e.Pending() == if query.Rows? && mallocOk then GetValues(query.rows) else []
    ensures e.NullEnum? <==> !(query.Rows? && mallocOk && query.rows != [])
  {
    e := NullEnum;
    if query.Rows? && |query.rows| > 0 && mallocOk {
      var pg := new PostgresqlEnum(query.rows);
      e := Postgresql(pg);
    }
  }

  /** ..._blocklist_enum_open of the SQLite driver, which steps the statement once before it answers. */
  method OpenSqlite(query: Query, steps: seq<bool>, mallocOk: bool) returns (e: Enum)
    ensures e.Valid() && fresh(e.Footprint())
    ensures e.Pending() == if query.Rows? && mallocOk then Produced(query.rows, steps, 0) else []
    ensures e.NullEnum? <==> !(query.Rows? && mallocOk && query.rows != [] && StepOk(steps, 0))
  {
    e := NullEnum;
    if query.Rows? && query.rows != [] && StepOk(steps, 0) && mallocOk {
      var lite := new SqliteEnum(query.rows, steps);
      e := Sqlite(lite);
    }
  }

  // ---------------------------------------------------------------- what a fill loop sees

  /** The entries a `while ((x = next()))` loop meets: everything before the first NULL. */
  function UntilNull(pending: seq<Value>): seq<string> {
    if pending == [] || pending[0].None? then [] else [pending[0].value] + UntilNull(pending[1..])
  }

  predicate NoNull(rows: seq<Value>) {
    forall k :: 0 <= k < |rows| ==> rows[k].Some?
  }

  /** A loop over pending rows meets them once and in order up to the first NULL, all of them exactly when
      none is NULL. */
  lemma {:induction false} LoopMeetsAll(rows: seq<Value>)
    ensures |UntilNull(rows)| <= |rows|
    ensures forall k :: 0 <= k < |UntilNull(rows)| ==> rows[k] == Some(UntilNull(rows)[k])
    ensures |UntilNull(rows)| < |rows| ==> rows[|UntilNull(rows)|] == None
    ensures |UntilNull(rows)| == |rows| <==> NoNull(rows)
  {
    if rows != [] && rows[0].Some? {
      LoopMeetsAll(rows[1..]);
      forall k | 0 <= k < |UntilNull(rows)|
        ensures rows[k] == Some(UntilNull(rows)[k])
      {
        if k > 0 { assert rows[k] == rows[1..][k - 1]; }
      }
      assert NoNull(rows) <==> NoNull(rows[1..]) by {
        assert rows == [rows[0]] + rows[1..];
      }
    }
  }

  /** PostgreSQL delivers every row, a NULL one as the empty string, which the fill loop skips. */
  lemma PostgresqlLoop(rows: seq<Value>)
    ensures |UntilNull(GetValues(rows))| == |rows|
    ensures forall k :: 0 <= k < |rows| ==> UntilNull(GetValues(rows))[k] == GetValue(rows[k])
  {
    LoopMeetsAll(GetValues(rows));
    assert NoNull(GetValues(rows));
    forall k | 0 <= k < |rows|
      ensures UntilNull(GetValues(rows))[k] == GetValue(rows[k])
    {
      assert GetValues(rows)[k] == Some(UntilNull(GetValues(rows))[k]);
    }
  }

  predicate NoStepFails(rows: seq<Value>, steps: seq<bool>) {
    forall k :: 0 <= k < |rows| ==> StepOk(steps, k)
  }

  /** What a statement produces is the front of what is left, all of it exactly when no step fails. */
  lemma {:induction false} ProducedIsFront(rows: seq<Value>, steps: seq<bool>, at: nat)
    requires at <= |rows|
    ensures Produced(rows, steps, at) <= rows[at..]
    ensures Produced(rows, steps, at) == rows[at..] <==> forall k :: at <= k < |rows| ==> StepOk(steps, k)
    decreases |rows| - at
  {
    if at < |rows| {
      ProducedIsFront(rows, steps, at + 1);
      assert rows[at..] == [rows[at]] + rows[at + 1..];
    }
  }

  /** With SQLite the loop meets a front of the rows, and all of them exactly when no row is NULL and no
      step fails: a failing step ends the list as its end would. */
  lemma SqliteLoop(rows: seq<Value>, steps: seq<bool>)
    ensures var met := UntilNull(Produced(rows, steps, 0));
      && |met| <= |rows|
      && (forall k :: 0 <= k < |met| ==> rows[k] == Some(met[k]))
      && (|met| == |rows| <==> NoNull(rows) && NoStepFails(rows, steps))
  {
    ProducedIsFront(rows, steps, 0);
    LoopMeetsAll(Produced(rows, steps, 0));
  }

  /** Over rows without NULL and steps without failure the two drivers are indistinguishable. */
  lemma DriversAgree(rows: seq<Value>, steps: seq<bool>)
    requires NoNull(rows) && NoStepFails(rows, steps)
    ensures UntilNull(GetValues(rows)) == UntilNull(Produced(rows, steps, 0))
  {
    assert GetValues(rows) == rows;
    ProducedIsFront(rows, steps, 0);
  }
}
