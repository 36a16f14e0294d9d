/**
 * The `options` table, the statements both pipelines send to it through a
 * cursor, and `insert_data` (the same loop, column list and bound tuple in
 * both pipeline scripts; only the driver's placeholder syntax differs).
 *
 * The table is abstract: whether it exists, its declared columns and its rows.
 * A statement either applies or is rejected; the only rejection modelled is an
 * INSERT into a table that does not exist.
 */
module OptionsTable {
  import opened Wrappers
  import opened Instruments

  /** A value bound to one placeholder of the INSERT statement. */
  datatype Value<R> = TextValue(text: string) | RealValue(number: R) | IntegerValue(integer: int)

  /** One row: the values in the column order of the INSERT statement. */
  type Row<R> = seq<Value<R>>

  /** The declared SQL type of a column. */
  datatype SqlType = Varchar(width: nat) | Text | Real | BigInt | Integer

  datatype Column = Column(name: string, sqlType: SqlType)

  /** The column list of the INSERT statement, in order. */
  const InsertColumns: seq<string> :=
    ["instrument_name", "strike", "expiration_timestamp", "option_type", "min_trade_amount"]

  /** The names of a schema's columns, in order. */
  function ColumnNames(schema: seq<Column>): seq<string>
  {
    seq(|schema|, i requires 0 <= i < |schema| => schema[i].name)
  }

  /** A column of type `t` takes the value `v` without conversion. */
  predicate Accepts<R>(t: SqlType, v: Value<R>)
  {
    match t
    case Varchar(_) => v.TextValue?
    case Text => v.TextValue?
    case Real => v.RealValue?
    case BigInt => v.IntegerValue?
    case Integer => v.IntegerValue?
  }

  /** `row` has one value per column of `schema`, each of the column's kind. */
  predicate FitsSchema<R>(row: Row<R>, schema: seq<Column>)
  {
    |row| == |schema| && forall i | 0 <= i < |row| :: Accepts(schema[i].sqlType, row[i])
  }

  /** The five values bound to the INSERT placeholders for one instrument. */
  function Project<R>(x: Instrument<R>): (row: Row<R>)
    ensures |row| == |InsertColumns|
  {
    [TextValue(x.instrumentName), RealValue(x.strike), IntegerValue(x.expirationTimestamp),
     TextValue(x.optionType), RealValue(x.minTradeAmount)]
  }

  /** Reads an instrument back from a row of the INSERT's shape: the inverse of
      `Project`, used to show that a row keeps every field. */
  function Unproject<R>(row: Row<R>): (r: Option<Instrument<R>>)
    ensures r.Some? ==> |row| == |InsertColumns|
  {
    if |row| == 5 && row[0].TextValue? && row[1].RealValue? && row[2].IntegerValue?
       && row[3].TextValue? && row[4].RealValue?
    then Some(Instrument(row[0].text, row[1].number, row[2].integer, row[3].text, row[4].number))
    else None
  }

  /** A row loses nothing of the instrument it was made from. */
  lemma ProjectRoundTrip<R>(x: Instrument<R>)
    ensures Unproject(Project(x)) == Some(x)
  {
  }

  /** Every row that reads back as an instrument is that instrument's row, so
      `Project` is a bijection onto the rows of the INSERT's shape. */
  lemma UnprojectRoundTrip<R>(row: Row<R>)
    ensures Unproject(row).Some? ==> Project(Unproject(row).value) == row
  {
  }

  /** The rows `insert_data` writes for `xs`, one per instrument, in order. */
  function ProjectAll<R>(xs: seq<Instrument<R>>): (rows: seq<Row<R>>)
    ensures |rows| == |xs|
    ensures forall i | 0 <= i < |xs| :: Unproject(rows[i]) == Some(xs[i])
  {
    if xs == [] then [] else [Project(xs[0])] + ProjectAll(xs[1..])
  }

  /** Rows are made instrument by instrument: `ProjectAll` distributes over concatenation. */
  lemma {:induction false} ProjectAllAppend<R>(xs: seq<Instrument<R>>, ys: seq<Instrument<R>>)
    ensures ProjectAll(xs + ys) == ProjectAll(xs) + ProjectAll(ys)
  {
    if xs == [] {
      assert xs + ys == ys;
    } else {
      assert (xs + ys)[1..] == xs[1..] + ys;
      ProjectAllAppend(xs[1..], ys);
    }
  }

  /** The statements a cursor executes on the `options` table. */
  datatype Statement<R> =
    | CreateTableIfNotExists(schema: seq<Column>)
    | InsertInto(row: Row<R>)

  /** What the database holds for the `options` table. */
  datatype TableState<R> = TableState(tableExists: bool, columns: seq<Column>, rows: seq<Row<R>>)

  /** A table that does not exist has neither columns nor rows. */
  predicate WellFormed<R>(s: TableState<R>)
  {
    s.tableExists || (s.columns == [] && s.rows == [])
  }

  /** The effect of one statement; `None` when it is rejected. CREATE TABLE IF
      NOT EXISTS makes an empty table only where there is none; an INSERT
      appends its row, with no uniqueness constraint to reject a repeat. */
  function Apply<R>(s: TableState<R>, stmt: Statement<R>): (r: Option<TableState<R>>)
    ensures r.None? <==> stmt.InsertInto? && !s.tableExists
    ensures r.Some? ==> r.value.tableExists && WellFormed(r.value)
    ensures r.Some? && s.tableExists ==> r.value.columns == s.columns && s.rows <= r.value.rows
    ensures r.Some? && stmt.InsertInto? ==> |r.value.rows| == |s.rows| + 1 && r.value.rows[|s.rows|] == stmt.row
    ensures r.Some? && stmt.CreateTableIfNotExists? ==> r.value.rows == s.rows || !s.tableExists
  {
    match stmt
    case CreateTableIfNotExists(schema) =>
      if s.tableExists then Some(s) else Some(TableState(true, schema, []))
    case InsertInto(row) =>
      if s.tableExists then Some(s.(rows := s.rows + [row])) else None
  }

  /** The effect of a script of statements executed in order; `None` as soon as
      one of them is rejected. */
  function Replay<R>(s: TableState<R>, stmts: seq<Statement<R>>): Option<TableState<R>>
    decreases |stmts|
  {
    if stmts == [] then Some(s)
    else match Apply(s, stmts[0])
      case None => None
      case Some(s') => Replay(s', stmts[1..])
  }

  /** Running two scripts one after the other is running their concatenation. */
  lemma {:induction false} ReplayAppend<R>(s: TableState<R>, a: seq<Statement<R>>, b: seq<Statement<R>>)
    ensures Replay(s, a + b) == match Replay(s, a) case None => None case Some(t) => Replay(t, b)
    decreases |a|
  {
    if a == [] {
      assert a + b == b;
    } else {
      assert (a + b)[0] == a[0] && (a + b)[1..] == a[1..] + b;
      match Apply(s, a[0])
      case None =>
      case Some(s') => ReplayAppend(s', a[1..], b);
    }
  }

  /** The statements `insert_data` sends: one INSERT per row, in order. */
  function InsertStatements<R>(rows: seq<Row<R>>): (stmts: seq<Statement<R>>)
    ensures |stmts| == |rows|
    ensures forall i | 0 <= i < |rows| :: stmts[i].InsertInto? && stmts[i].row == rows[i]
  {
    if rows == [] then [] else [InsertInto(rows[0])] + InsertStatements(rows[1..])
  }

  /** On an existing table the INSERTs append their rows after the old ones and
      change nothing else. */
  lemma {:induction false} ReplayInserts<R>(s: TableState<R>, rows: seq<Row<R>>)
    requires s.tableExists
    ensures Replay(s, InsertStatements(rows)) == Some(s.(rows := s.rows + rows))
    decreases |rows|
  {
    if rows == [] {
      assert s.rows + rows == s.rows;
    } else {
      var s' := s.(rows := s.rows + [rows[0]]);
      var stmts := InsertStatements(rows);
      assert stmts[0] == InsertInto(rows[0]) && stmts[1..] == InsertStatements(rows[1..]);
      ReplayInserts(s', rows[1..]);
      AppendHeadThenTail(s.rows, rows);
    }
  }

  /** Appending the head of `ys` and then its tail appends `ys`. */
  lemma AppendHeadThenTail<T>(xs: seq<T>, ys: seq<T>)
    requires ys != []
    ensures xs + [ys[0]] + ys[1..] == xs + ys
  {
    assert ys == [ys[0]] + ys[1..];
  }

  /** Without the table, a non-empty batch of INSERTs is rejected. */
  lemma InsertsNeedTable<R>(s: TableState<R>, rows: seq<Row<R>>)
    requires !s.tableExists && rows != []
    ensures Replay(s, InsertStatements(rows)) == None
  {
  }

  /** CREATE TABLE IF NOT EXISTS is idempotent, whatever schema the second one names. */
  lemma CreateTableIdempotent<R>(s: TableState<R>, schema: seq<Column>, schema': seq<Column>)
    ensures Replay(s, [CreateTableIfNotExists(schema), CreateTableIfNotExists(schema')])
         == Replay(s, [CreateTableIfNotExists(schema)])
  {
    var twice: seq<Statement<R>> := [CreateTableIfNotExists(schema), CreateTableIfNotExists(schema')];
    assert twice[1..] == [CreateTableIfNotExists(schema')];
    var once := Apply(s, CreateTableIfNotExists(schema)).value;
    assert Replay(s, twice) == Replay(once, [CreateTableIfNotExists(schema')]);
    var second: seq<Statement<R>> := [CreateTableIfNotExists(schema')];
    var first: seq<Statement<R>> := [CreateTableIfNotExists(schema)];
    assert second[1..] == [] && first[1..] == [];
    assert Replay(once, second) == Some(once);
    assert Replay(s, first) == Some(once);
  }

  /** What one pipeline run sends through its cursor: the table setup, then one
      INSERT per filtered instrument. */
  function RunScript<R>(schema: seq<Column>, xs: seq<Instrument<R>>): seq<Statement<R>>
  {
    [CreateTableIfNotExists(schema)] + InsertStatements(ProjectAll(xs))
  }

  /** The setup statement followed by `insert_data`'s statements, appended to
      what a cursor has already sent, is that history followed by the run's script. */
  lemma SetupThenInsertsIsRunScript<R>(history: seq<Statement<R>>, schema: seq<Column>, xs: seq<Instrument<R>>)
    ensures history + [CreateTableIfNotExists(schema)] + InsertStatements(ProjectAll(xs))
         == history + RunScript(schema, xs)
  {
  }

  /** The table a run leaves behind: the existing table (or a new one with
      `schema`) with the instruments' rows appended after the existing rows. */
  function AfterRun<R>(s: TableState<R>, schema: seq<Column>, xs: seq<Instrument<R>>): TableState<R>
  {
    TableState(true, if s.tableExists then s.columns else schema, s.rows + ProjectAll(xs))
  }

  /** Because the setup comes first, no statement of a run is rejected, from any
      starting table, and the run appends exactly the instruments' rows. */
  lemma RunScriptApplies<R>(s: TableState<R>, schema: seq<Column>, xs: seq<Instrument<R>>)
    requires WellFormed(s)
    ensures Replay(s, RunScript(schema, xs)) == Some(AfterRun(s, schema, xs))
  {
    var created := if s.tableExists then s else TableState(true, schema, []);
    ReplayAppend(s, [CreateTableIfNotExists(schema)], InsertStatements(ProjectAll(xs)));
    assert Replay(s, [CreateTableIfNotExists(schema)]) == Some(created);
    ReplayInserts(created, ProjectAll(xs));
  }

  /** With no uniqueness constraint, running the same batch twice stores every
      row twice. */
  lemma RunScriptTwice<R>(s: TableState<R>, schema: seq<Column>, xs: seq<Instrument<R>>)
    requires WellFormed(s)
    ensures Replay(s, RunScript(schema, xs) + RunScript(schema, xs))
         == Some(TableState(true, AfterRun(s, schema, xs).columns, s.rows + ProjectAll(xs) + ProjectAll(xs)))
  {
    ReplayAppend(s, RunScript(schema, xs), RunScript(schema, xs));
    RunScriptApplies(s, schema, xs);
    RunScriptApplies(AfterRun(s, schema, xs), schema, xs);
  }

  /**
   * The database as reached through one connection's cursor. `initial` is the
   * table when the connection was opened and `executed` the statements sent
   * since; the invariant is that the table is what replaying them gives.
   */
  class Store<R> {
    var tableExists: bool
    var columns: seq<Column>
    var rows: seq<Row<R>>
    ghost const initial: TableState<R>
    ghost var executed: seq<Statement<R>>

    function State(): TableState<R>
      reads this
    {
      TableState(tableExists, columns, rows)
    }

    ghost predicate Valid()
      reads this
    {
      WellFormed(State()) && Replay(initial, executed) == Some(State())
    }

    /** Opens a connection to a database whose table is `s`. */
    constructor (s: TableState<R>)
      requires WellFormed(s)
      ensures Valid() && State() == s && initial == s && executed == []
    {
      tableExists, columns, rows := s.tableExists, s.columns, s.rows;
      initial := s;
      executed := [];
    }

    /** `cursor.execute`: runs one statement the table accepts. */
    method Execute(stmt: Statement<R>)
      requires Valid() && Apply(State(), stmt).Some?
      modifies this
      ensures Valid()
      ensures State() == Apply(old(State()), stmt).value
      ensures executed == old(executed) + [stmt]
    {
      var s := Apply(State(), stmt).value;
      ReplayAppend(initial, executed, [stmt]);
      assert [stmt][1..] == [];
      tableExists, columns, rows := s.tableExists, s.columns, s.rows;
      executed := executed + [stmt];
    }
  }

  /** `insert_data`: one INSERT per instrument, in order, into an existing table. */
  method InsertData<R>(cursor: Store<R>, instruments: seq<Instrument<R>>)
    requires cursor.Valid() && cursor.tableExists
    modifies cursor
    ensures cursor.Valid()
    ensures cursor.tableExists && cursor.columns == old(cursor.columns)
    ensures cursor.rows == old(cursor.rows) + ProjectAll(instruments)
    ensures cursor.executed == old(cursor.executed) + InsertStatements(ProjectAll(instruments))
  {
    ghost var rows0, executed0 := cursor.rows, cursor.executed;
    for i := 0 to |instruments|
      invariant cursor.Valid() && cursor.tableExists && cursor.columns == old(cursor.columns)
      invariant cursor.rows == rows0 + ProjectAll(instruments[..i])
      invariant cursor.executed == executed0 + InsertStatements(ProjectAll(instruments[..i]))
    {
      cursor.Execute(InsertInto(Project(instruments[i])));
      InsertDataStep(rows0, executed0, instruments, i);
    }
    assert instruments[..|instruments|] == instruments;
  }

  /** One more iteration of `insert_data`'s loop extends the rows and the
      statements by the next instrument's. */
  lemma InsertDataStep<R>(rows0: seq<Row<R>>, executed0: seq<Statement<R>>, xs: seq<Instrument<R>>, i: nat)
    requires i < |xs|
    ensures rows0 + ProjectAll(xs[..i]) + [Project(xs[i])] == rows0 + ProjectAll(xs[..i + 1])
    ensures executed0 + InsertStatements(ProjectAll(xs[..i])) + [InsertInto(Project(xs[i]))]
         == executed0 + InsertStatements(ProjectAll(xs[..i + 1]))
  {
    assert xs[..i + 1] == xs[..i] + [xs[i]];
    ProjectAllAppend(xs[..i], [xs[i]]);
    InsertStatementsAppend(ProjectAll(xs[..i]), [Project(xs[i])]);
  }

  /** INSERT scripts are made row by row: `InsertStatements` distributes over concatenation. */
  lemma {:induction false} InsertStatementsAppend<R>(xs: seq<Row<R>>, ys: seq<Row<R>>)
    ensures InsertStatements(xs + ys) == InsertStatements(xs) + InsertStatements(ys)
  {
    if xs == [] {
      assert xs + ys == ys;
    } else {
      assert (xs + ys)[1..] == xs[1..] + ys;
      InsertStatementsAppend(xs[1..], ys);
    }
  }
}
