/**
 * The server-backed pipeline (app.py): fetch, filter, then, only when a
 * connection could be opened, set up the table and insert the cohort.
 * The fetch is the `fetched` parameter; the outcome of connecting is the
 * `connection` parameter.
 */
module MySqlPipeline {
  import opened Wrappers
  import opened Instruments
  import opened OptionsTable

  /** The columns `setup_mysql_table` declares. */
  const MySqlSchema: seq<Column> := [
    Column("instrument_name", Varchar(255)),
    Column("strike", Real),
    Column("expiration_timestamp", BigInt),
    Column("option_type", Varchar(50)),
    Column("min_trade_amount", Real)]

  /** The INSERT names the declared columns in their declared order, and each
      value it binds is of its column's kind. */
  lemma MySqlSchemaFitsInsert<R>(x: Instrument<R>)
    ensures ColumnNames(MySqlSchema) == InsertColumns
    ensures FitsSchema(Project(x), MySqlSchema)
  {
  }

  /** `setup_mysql_table`: CREATE TABLE IF NOT EXISTS. An existing table keeps
      its columns and rows; a missing one is created empty with `MySqlSchema`. */
  method SetupMySqlTable<R>(cursor: Store<R>)
    requires cursor.Valid()
    modifies cursor
    ensures cursor.Valid()
    ensures cursor.tableExists && cursor.rows == old(cursor.rows)
    ensures cursor.columns == if old(cursor.tableExists) then old(cursor.columns) else MySqlSchema
    ensures cursor.executed == old(cursor.executed) + [CreateTableIfNotExists(MySqlSchema)]
  {
    cursor.Execute(CreateTableIfNotExists(MySqlSchema));
  }

  /** Which closing message `main` prints, with the cohort size it prints
      before connecting. */
  datatype RunOutcome = ConnectionFailed(filteredCount: nat) | Saved(filteredCount: nat)

  /** `main`: with no connection, nothing is sent to the database; otherwise the
      table setup and then one INSERT per instrument of the cohort. */
  method Run<R(==)>(connection: Option<Store<R>>, fetched: seq<Instrument<R>>) returns (outcome: RunOutcome)
    requires connection.Some? ==> connection.value.Valid()
    modifies if connection.Some? then {connection.value} else {}
    ensures outcome.filteredCount == |FilterByExpiry(fetched)|
    ensures connection.None? <==> outcome.ConnectionFailed?
    ensures connection.Some? ==>
      && connection.value.Valid()
      && connection.value.State() == AfterRun(old(connection.value.State()), MySqlSchema, FilterByExpiry(fetched))
      && connection.value.executed == old(connection.value.executed) + RunScript(MySqlSchema, FilterByExpiry(fetched))
  {
    var filtered := FilterByExpiry(fetched);
    if connection.Some? {
      var cursor := connection.value;
      ghost var before, executed0 := cursor.State(), cursor.executed;
      SetupMySqlTable(cursor);
      InsertData(cursor, filtered);
      assert cursor.State() == AfterRun(before, MySqlSchema, filtered);
      SetupThenInsertsIsRunScript(executed0, MySqlSchema, filtered);
      outcome := Saved(|filtered|);
    } else {
      outcome := ConnectionFailed(|filtered|);
    }
  }
}
