# BTC options scraper: filter and persistence model

The scraper fetches the BTC option instruments of a market-data API, keeps
the expiration cohort of the first instrument fetched, and writes that cohort
to an `options` table. It comes in two near-identical scripts:

- `app.py` writes to a MySQL server. It skips the table work when the
  connection cannot be opened.
- `main.py` writes to an SQLite file. It has no failure branch.

This Dafny project models what the two scripts compute and the order in which
they change the table:

- `Instruments` (`instruments.dfy`): the instrument record and
  `filter_by_expiry`. Both scripts contain the same text at lines 17-22.
  The decimal fields `strike` and `min_trade_amount` are a type parameter `R`,
  because they are only copied.
- `OptionsTable` (`options_table.dfy`): the abstract `options` table. It
  holds a flag for whether the table exists, its declared columns and its rows.
  This module also has the two statements a cursor sends (`CREATE TABLE IF NOT
  EXISTS` and `INSERT INTO options`), their effect as pure functions
  (`Apply`, `Replay`), and `insert_data` (app.py:53-64, main.py:41-52). In
  both scripts `insert_data` has the same loop, column list and bound tuple;
  only the driver's placeholder syntax differs (`%s` in app.py:57, `?` in
  main.py:45), and the model does not represent placeholders.
  The `Store` class is the database as reached through a cursor. Its
  invariant says that the table is always what replaying the statements sent
  so far gives.
- `MySqlPipeline` (`mysql_pipeline.dfy`): the MySQL schema,
  `setup_mysql_table` and the connect-or-skip `main` of app.py.
- `SqlitePipeline` (`sqlite_pipeline.dfy`): the SQLite schema, the
  create-if-absent part of `setup_database` and the unconditional `main` of
  main.py.
- `Wrappers` (`wrappers.dfy`): `Option`.

Inputs the scripts get from outside are parameters. The fetched list is
`fetched`. The result of `connect_to_mysql` is `connection: Option<Store>`. The
SQLite file, once opened, is a `Store`.

Where the code and the intended design differ, the model follows the code:

- When app.py cannot connect, it prints a message and returns normally. No
  failure exit status is modelled; `Run` returns `ConnectionFailed`.
- Neither script rolls back explicitly. A failing INSERT raises before the
  commit, and the driver then discards the uncommitted batch. The model does
  not represent this, because transactions are left out. It has no failing
  INSERT inside a run, because the setup always comes first
  (`RunScriptApplies`).
- Neither script has a uniqueness constraint, so a repeated run duplicates
  rows (`RunScriptTwice`, `SqlitePipeline.RunTwice`).

## Model

| member | source | states |
|---|---|---|
| Instruments.KeepExpiringAt | app.py:22 | The comprehension keeps at most as many instruments as it is given, and every one it keeps expires at the selected timestamp. |
| Instruments.FilterByExpiry | app.py:17-22 | An empty fetch gives `[]`. A non-empty fetch gives a non-empty list that starts with the first instrument fetched. Every instrument in it has that instrument's expiration timestamp. It is never longer than the fetch. |
| Instruments.KeepExpiringAtMembers | app.py:22 | Every kept instrument comes from the fetch and has the selected expiry. Every fetched instrument with that expiry is kept (completeness). |
| Instruments.KeepExpiringAtCount | app.py:22 | The output length is exactly the number of fetched instruments at the selected expiry. |
| Instruments.KeepExpiringAtIsSubsequence | app.py:22 | The output keeps the fetch order (stability). |
| Instruments.SubsequenceCountBound | app.py:22 | No in-order selection of instruments at one expiry can be longer than the number of fetched instruments at that expiry. |
| Instruments.KeepExpiringAtUnique | app.py:22 | Any in-order selection of instruments at the expiry that is as long as their count is exactly the comprehension's output. |
| Instruments.FilterByExpiryCharacterised | main.py:17-22 | Reference definition, both directions: on a non-empty fetch, a list is the filter's result if and only if it is an in-order selection of the fetch, holds only instruments at the first instrument's expiry, and holds all of them. |
| Instruments.KeepExpiringAtOfCohort | main.py:22 | A list whose instruments all share the expiry passes the filter unchanged. |
| Instruments.FilterByExpiryIdempotent | main.py:17-22 | Filtering the filter's output gives the same output. |
| Instruments.FilterByExpiryExample | app.py:17-22 | For expiries 100, 100, 200, 100, 300, the output is the instruments at positions 0, 1 and 3, in that order. |
| OptionsTable.Project | app.py:58-64 | One instrument binds exactly five values, one per column named in the INSERT. |
| OptionsTable.ProjectRoundTrip | app.py:58-64 | The five bound values give back the instrument they came from, so no field is lost or reordered. |
| OptionsTable.UnprojectRoundTrip | main.py:46-52 | Every five-value row of the INSERT's shape is the row of exactly one instrument. Together with the round trip above, the projection is a bijection. |
| OptionsTable.ProjectAll | app.py:54-64 | `insert_data` produces one row per instrument, in order, and row `i` reads back as instrument `i`. |
| OptionsTable.ProjectAllAppend | main.py:42-52 | The rows for two batches in sequence are the rows of the first batch followed by those of the second. |
| OptionsTable.Apply | app.py:42-57 | Only an INSERT into a missing table is rejected. After any accepted statement the table exists. An existing table keeps its columns, and its old rows stay as a prefix. An INSERT adds exactly its row at the end. CREATE IF NOT EXISTS leaves an existing table's rows alone. |
| OptionsTable.ReplayAppend | app.py:83-86 | Sending two scripts one after the other has the effect of sending their concatenation. |
| OptionsTable.InsertStatements | main.py:42-52 | `insert_data` sends one INSERT per row, in order, and statement `i` carries row `i`. |
| OptionsTable.ReplayInserts | app.py:53-64 | On an existing table, the INSERT batch appends its rows after the old rows, in order. The columns and earlier rows are unchanged. |
| OptionsTable.InsertsNeedTable | app.py:82-86 | Without the setup step, a non-empty INSERT batch on a missing table is rejected. |
| OptionsTable.CreateTableIdempotent | app.py:42-50 | Running CREATE TABLE IF NOT EXISTS twice has the same effect as running it once, even when the second one names another schema. |
| OptionsTable.RunScriptApplies | app.py:82-86 | The setup comes before the inserts, so from any table no statement of a run is rejected. The run leaves the old rows followed by one row per cohort instrument. The columns are kept if the table existed and are the new schema otherwise. |
| OptionsTable.RunScriptTwice | main.py:29-35 | The table declares no key, so running the same script twice stores the cohort's rows twice after the old rows. |
| OptionsTable.Store.constructor | app.py:27-32 | A newly opened connection sees the given table and has sent no statements. |
| OptionsTable.Store.Execute | app.py:55-57 | `cursor.execute` applies one accepted statement, records it, and keeps the replay invariant. |
| OptionsTable.InsertData | app.py:53-64 | After the loop, the old rows are followed by one row per instrument in input order. The columns are unchanged, and exactly the INSERT batch has been sent. |
| MySqlPipeline.MySqlSchemaFitsInsert | app.py:43-57 | The INSERT names the five declared columns in declared order, and each bound value has its column's kind. |
| MySqlPipeline.SetupMySqlTable | app.py:41-50 | After setup the table exists and its rows are unchanged. An existing table keeps its columns; a new one gets the MySQL schema. One CREATE statement is sent. |
| MySqlPipeline.Run | app.py:67-94 | Both outcomes carry the cohort size, which the script prints before connecting. With no connection, nothing is modified and the outcome is `ConnectionFailed`. Otherwise the setup and then the cohort's INSERTs are sent, the old rows are followed by the cohort's rows, and the outcome is `Saved`. |
| SqlitePipeline.SqliteSchemaFitsInsert | main.py:29-45 | The INSERT names the five declared columns in declared order, and each bound value has its column's kind. |
| SqlitePipeline.SetupDatabase | main.py:25-38 | After setup the table exists and its rows are unchanged. An existing table keeps its columns; a new one gets the SQLite schema. One CREATE statement is sent. |
| SqlitePipeline.Run | main.py:55-72 | The setup and then the cohort's INSERTs are sent, always in that order. The old rows are followed by the cohort's rows, and the reported count is the cohort size. |
| SqlitePipeline.RunTwice | main.py:55-72 | Two runs on the same fetch send the run script twice and leave the cohort's rows twice after the old rows. |

## Left out

- `fetch_instruments` (app.py:6-14, main.py:6-14) is an HTTP GET followed by JSON decoding. It is network I/O. The fetched list is the `fetched` parameter, and HTTP and decoding errors are not modelled.
- `connect_to_mysql` (app.py:25-38) is left out: its result is the `connection` parameter. The script returns the connection even when `is_connected()` is false; the model only distinguishes a connection from `None`.
- Opening the SQLite file (main.py:26-27) is left out: the opened database is the `db` parameter.
- `commit`, `cursor.close` and `close` (app.py:88-90, main.py:37, main.py:69-70) belong to the database driver. Transactions are not modelled, so the table state is what the statements sent so far give.
- Progress messages (`print`) are not modelled.
- SQL type coercion is not modelled. This covers the widths of `VARCHAR(255)` and `VARCHAR(50)`, the range of `BIGINT`, and the floating-point meaning of `REAL`. Values are stored as bound.
- An `options` table that already exists with different columns is not modelled. INSERTs into such a table are accepted as if its columns matched.
- Instrument records that lack one of the five keys would raise `KeyError` in the scripts. Here every record has exactly the five fields.
- main.py:66 has an extra leading space, which is an indentation error. The model follows the intended order: setup, then inserts.
- OptionsTable.Store.Execute: requires the statement to be accepted. In the scripts a rejected statement raises and ends the run. The model does not represent that exception. The runs never send a rejected statement (`RunScriptApplies`).
