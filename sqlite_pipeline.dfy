/**
 * The file-backed pipeline (main.py): fetch, filter, set up the table, insert
 * the cohort. There is no failure branch. The fetch is the `fetched`
 * parameter and the database file, as opened, is the `db` store.
 */
module SqlitePipeline {
  import opened Instruments
  import opened OptionsTable

  /** The columns `setup_database` declares. */
  const SqliteSchema: seq<Column> := [
    Column("instrument_name", Text),
    Column("strike", Real),
    Column("expiration_timestamp", Integer),
    Column("option_type", Text),
    Column("min_trade_amount", Real)]

  /** The INSERT names the declared columns in their declared order, and each
      value it binds is of its column's kind. */
  lemma SqliteSchemaFitsInsert<R>(x: Instrument<R>)
    ensures ColumnNames(SqliteSchema) == InsertColumns
    ensures FitsSchema(Project(x), SqliteSchema)
  {
  }

  /** `setup_database`: CREATE TABLE IF NOT EXISTS on the opened file. An
      existing table keeps its columns and rows; a missing one is created empty
      with `SqliteSchema`. */
  method SetupDatabase<R>(db: Store<R>)
    requires db.Valid()
    modifies db
    ensures db.Valid()
    ensures db.tableExists && db.rows == old(db.rows)
    ensures db.columns == if old(db.tableExists) then old(db.columns) else SqliteSchema
    ensures db.executed == old(db.executed) + [CreateTableIfNotExists(SqliteSchema)]
  {
    db.Execute(CreateTableIfNotExists(SqliteSchema));
  }

  /** `main`: the table setup, then one INSERT per instrument of the cohort;
      returns the size of the cohort it reports. */
  method Run<R(==)>(db: Store<R>, fetched: seq<Instrument<R>>) returns (filteredCount: nat)
    requires db.Valid()
    modifies db
    ensures filteredCount == |FilterByExpiry(fetched)|
    ensures db.Valid()
    ensures db.State() == AfterRun(old(db.State()), SqliteSchema, FilterByExpiry(fetched))
    ensures db.executed == old(db.executed) + RunScript(SqliteSchema, FilterByExpiry(fetched))
  {
    var filtered := FilterByExpiry(fetched);
    filteredCount := |filtered|;
    ghost var before, executed0 := db.State(), db.executed;
    SetupDatabase(db);
    InsertData(db, filtered);
    assert db.State() == AfterRun(before, SqliteSchema, filtered);
    SetupThenInsertsIsRunScript(executed0, SqliteSchema, filtered);
  }

  /** Two runs on the same fetch: the table has no uniqueness constraint, so
      the cohort's rows are stored twice. */
  method RunTwice<R(==)>(db: Store<R>, fetched: seq<Instrument<R>>)
    requires db.Valid()
    modifies db
    ensures db.Valid() && db.tableExists
    ensures db.rows == old(db.rows) + ProjectAll(FilterByExpiry(fetched)) + ProjectAll(FilterByExpiry(fetched))
    ensures db.executed == old(db.executed) + RunScript(SqliteSchema, FilterByExpiry(fetched))
                                             + RunScript(SqliteSchema, FilterByExpiry(fetched))
  {
    var _ := Run(db, fetched);
    var _ := Run(db, fetched);
  }
}
