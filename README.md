# sql-ringojs-client: result decoding and statement discipline

This project models the statement runners of `lib/ngv/sql.js`, a small JDBC access layer for RingoJS.

- `query(connection, sql)` sets the connection read-only and runs the statement. It reads every column's declared `java.sql.Types` code once. Then it walks the cursor and builds one record per row, mapping each column label to a value. A fixed type switch picks the getter for each column: boolean, long, double, string, timestamp, or the literal `null` for the NULL type, with string as the catch-all. After the last row it closes the statement and then the result set, and ignores anything closing throws.
- `execute(connection, sql)` sets the connection read-write and returns the driver's update count. It closes the statement in a `finally`, so the statement is closed whether or not the update throws, and close errors are ignored.

The JDBC objects are modelled by a scripted fake driver (module `Jdbc`):
- `Connection` has a `readOnly` flag.
- `Statement` and `ResultSet` each have a `closed` flag.
- Metadata is a sequence of (label, type code).
- Rows are sequences of raw cells of any type `C`. A cell is either convertible data or `Unconvertible`, which every getter rejects.
- A `Driver` value fixes what each query or update answers, including a thrown `SqlError`, and whether either close throws.
- The driver calls that change state or move the cursor go into the connection's ghost `log`: `setReadOnly`, `createStatement`, `executeQuery`, `executeUpdate`, `getColumnType`, `next` and both `close` calls. This lets the contracts state the order of those calls. Label reads and getters are not logged; `Sql.ReadRow` is instead proved equal to `DecodeRow`, which says which getter each column uses.

Modules:
- `SqlTypes`: the type codes of `java.sql.Types`.
- `Values`: value kinds, decoded values, cells, errors, and what a getter returns.
- `Jdbc`: the fake driver.
- `Decoding`: the type switch and the row record, as functions with lemmas about them.
- `Sql`: `query` and `execute` as methods proved against `Decoding`.
- `Scenario`: two clients of the model. One is the `World(id INTEGER, value VARCHAR)` example row. The other is a query whose second row throws.

Facts about the code that the model keeps:
- **No cleanup on failure in `query`.** `query` has no `try`/`finally`. When `executeQuery` throws, the statement stays open and no result set exists. When a getter throws, the statement and the result set both stay open (`Sql.Query`, `Scenario.FailingRowClient`).
- **Close order.** When `statement.close()` throws, `resultSet.close()` is skipped.
- **Dispatch.** The dispatch is a switch; `DecodeKind` follows it case by case, case order included.

## Model

| member | source | states |
|---|---|---|
| `Decoding.DecodeKind` | lib/ngv/sql.js:32-71 | For every integer code, in both directions: BIT and BOOLEAN read a boolean; TINYINT, SMALLINT, INTEGER and BIGINT read a long; REAL, FLOAT, DOUBLE, DECIMAL and NUMERIC read a double; DATE, TIME and TIMESTAMP read a timestamp; exactly NULL gives null. The eight named string codes read a string, and so does every code the switch does not mention. |
| `Decoding.ReadColumn` | lib/ngv/sql.js:32-71 | A NULL-typed column yields `null` whatever the row holds and never throws. Any other column's value has the kind its code selects and is read from that column's own cell. Reading throws exactly when the column is not NULL-typed and its cell is missing or unconvertible. |
| `Decoding.RowKeys` | lib/ngv/sql.js:30-72 | A decoded record's keys are exactly the column labels. When labels are distinct there are exactly as many keys as columns. |
| `Decoding.LastColumnWins` | lib/ngv/sql.js:31-72 | When two columns share a label, the record holds the value read for the later one, because each assignment overwrites by label. |
| `Decoding.ColumnValue` | lib/ngv/sql.js:33-69 | In a decoded record, the value under the label of the last column with that label has the kind the column's type code selects. It is `null` for a NULL column and otherwise comes from that column's cell. |
| `Decoding.FailureStays` | lib/ngv/sql.js:31-72 | Once a getter in a row throws, no later column changes the outcome: the row throws that error. |
| `Decoding.RowDecodes` | lib/ngv/sql.js:31-72 | A row decodes if and only if every one of its columns reads without throwing. |
| `Decoding.FirstFailingColumn` | lib/ngv/sql.js:31-72 | A row that throws throws the error of its first column whose getter throws. All earlier columns read successfully. |
| `Decoding.NullColumnsIgnoreCells` | lib/ngv/sql.js:65-67 | Two rows that differ only in NULL-typed columns decode identically: the cursor's cells there are never consulted. |
| `Decoding.RowsBeforeFailure` | lib/ngv/sql.js:29-74 | The count of leading cursor rows that decode. Every row before it decodes, and the row at it, if any, throws. |
| `Sql.ReadRow` | lib/ngv/sql.js:30-72 | The column loop over the current row returns exactly the record `DecodeRow` gives for that row, or exactly its error, using the prefetched type codes. |
| `Sql.ColumnTypes` | lib/ngv/sql.js:22-27 | Reads each column's type code once, in column order. Logs one `getColumnType` per column and nothing else. |
| `Sql.ReadRows` | lib/ngv/sql.js:28-74 | If no row throws, the result has exactly one record per cursor row, in cursor order, each the row's decoding; the log ends with the final `next` that found no row. Otherwise the result is the first throwing row's error, and `next` was called exactly up to that row. |
| `Sql.Drain` | lib/ngv/sql.js:22-86 | Column types are read before any `next`. On success the statement is closed and then the result set, whose close is skipped if the statement's close threw, and close errors do not change the result. On a getter error nothing is closed. |
| `Sql.Query` | lib/ngv/sql.js:16-87 | The connection is read-only, and was so when the statement was created. If execution throws, that error propagates and the statement stays open. Otherwise the result, the closing and the logged calls are those of `Drain`. |
| `Sql.Execute` | lib/ngv/sql.js:98-118 | The connection is read-write, and was so when the statement was created. The result is exactly the driver's update count or its error. The statement close is attempted on both paths, and it leaves the statement closed unless the close itself threw, which is ignored. |
| `Scenario.WorldRow` | lib/ngv/sql.js:29-74 | The row `(2, "hello")` of `World(id INTEGER, value VARCHAR)` decodes to a long under `id` and a string under `value`. |

## Left out

- `connect` and `getConnection`: jar loading, the DBCP pool and its process-wide singleton are I/O and foreign library construction. Lease exclusivity, the pool bound and double-release detection live inside DBCP, not in this code.
- Getter conversions: what `getBoolean`, `getLong`, `getDouble`, `getString` and `getTimestamp` make of a cell is driver code, as is the floating point. A decoded value records the getter kind and the raw cell only. Not modelled: Rhino turning a Java `long` into a JavaScript number (a double), and getters mapping SQL NULL to `false` or `0`.
- Failures of `setReadOnly`, `createStatement`, `getMetaData`, `getColumnCount`, `getColumnType`, `getColumnLabel` and `next` are not modelled; those driver calls always succeed here. `executeQuery`, `executeUpdate`, the getters and both `close` calls can throw.
- Record key order: a record is a `map`, so JavaScript's insertion order of keys is not modelled. Nor is the special `__proto__` property name as a label.
- Type codes compare as integers. This assumes the scripting bridge turns `Types.X` and `getColumnType` results into plain numbers, so the switch's strict equality holds.
- The commented-out SQL logging in `query` and `execute` is dead code.
- `examples/query.js` is demo glue: connect, query, then return the connection to the pool. The pool is not part of this model.
- Cascading close: under JDBC a successful `Statement.close` also closes that statement's current `ResultSet`. The fake driver keeps the two `closed` flags independent. So `Sql.Query` and `Sql.Drain` allow one state a conforming driver cannot reach: the statement closed and the result set still open, after the result set's own close threw.
