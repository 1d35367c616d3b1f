/**
 * A scripted stand-in for the `java.sql` objects the library drives:
 * a connection with its read-only flag, statements and result sets with
 * their closed flags. What the database answers is fixed by a `Driver`
 * value, so every answer, including a thrown exception, is an input.
 * Each call that changes state or moves the cursor is appended to the
 * connection's ghost `log`, which lets callers' contracts state the order
 * of those calls; label reads and getters are not logged.
 */
module Jdbc {
  import opened Wrappers
  import opened Values

  /** One column of the result metadata: its label and its declared type code. */
  datatype Column = Column(columnLabel: string, typeCode: int)

  /** What a query returns: the metadata and the rows of the cursor, in order. */
  datatype Table<C> = Table(columns: seq<Column>, rows: seq<seq<Cell<C>>>)

  /** What the database does with each statement, and whether closing throws. */
  datatype Driver<C> = Driver(
    query: string -> Result<Table<C>, SqlError>,
    update: string -> Result<int, SqlError>,
    statementCloseThrows: bool,
    resultSetCloseThrows: bool)

  /** The driver calls recorded in a connection's log. */
  datatype Event =
    | SetReadOnly(readOnly: bool)
    | CreateStatement
    | ExecuteQuery(sql: string)
    | ExecuteUpdate(sql: string)
    | GetColumnType(column: nat)
    | Next(onRow: bool)
    | CloseStatement(threw: bool)
    | CloseResultSet(threw: bool)

  class Connection<C> {
    const driver: Driver<C>
    var readOnly: bool
    ghost var log: seq<Event>

    constructor (driver: Driver<C>)
      ensures this.driver == driver && !readOnly && log == []
    {
      this.driver := driver;
      readOnly := false;
      log := [];
    }

    method SetReadOnly(readOnly: bool)
      modifies this
      ensures this.readOnly == readOnly
      ensures log == old(log) + [Event.SetReadOnly(readOnly)]
    {
      this.readOnly := readOnly;
      log := log + [Event.SetReadOnly(readOnly)];
    }

    method CreateStatement() returns (s: Statement<C>)
      modifies this`log
      ensures fresh(s) && s.connection == this && !s.closed
      ensures s.createdReadOnly == readOnly
      ensures log == old(log) + [Event.CreateStatement]
    {
      s := new Statement(this);
      log := log + [Event.CreateStatement];
    }
  }

  class Statement<C> {
    const connection: Connection<C>
    /** The connection's read-only flag when the statement was created. */
    const createdReadOnly: bool
    var closed: bool

    constructor (connection: Connection<C>)
      ensures this.connection == connection && createdReadOnly == connection.readOnly && !closed
    {
      this.connection := connection;
      createdReadOnly := connection.readOnly;
      closed := false;
    }

    method ExecuteQuery(sql: string) returns (r: Result<ResultSet<C>, SqlError>)
      modifies connection`log
      ensures connection.log == old(connection.log) + [Event.ExecuteQuery(sql)]
      ensures connection.driver.query(sql).Failure? ==>
        r == Failure(connection.driver.query(sql).error)
      ensures connection.driver.query(sql).Success? ==>
        r.Success? && fresh(r.value) && r.value.connection == connection &&
        r.value.columns == connection.driver.query(sql).value.columns &&
        r.value.rows == connection.driver.query(sql).value.rows &&
        r.value.cursor == 0 && !r.value.closed
    {
      var answer := connection.driver.query(sql);
      connection.log := connection.log + [Event.ExecuteQuery(sql)];
      if answer.Failure? {
        r := Failure(answer.error);
      } else {
        var rs := new ResultSet(connection, answer.value);
        r := Success(rs);
      }
    }

    method ExecuteUpdate(sql: string) returns (r: Result<int, SqlError>)
      modifies connection`log
      ensures r == connection.driver.update(sql)
      ensures connection.log == old(connection.log) + [Event.ExecuteUpdate(sql)]
    {
      r := connection.driver.update(sql);
      connection.log := connection.log + [Event.ExecuteUpdate(sql)];
    }

    /** Closes the statement; `threw` says the driver threw instead, leaving it as it was. */
    method Close() returns (threw: bool)
      modifies this`closed, connection`log
      ensures threw == connection.driver.statementCloseThrows
      ensures closed == (old(closed) || !threw)
      ensures connection.log == old(connection.log) + [CloseStatement(threw)]
    {
      threw := connection.driver.statementCloseThrows;
      if !threw {
        closed := true;
      }
      connection.log := connection.log + [CloseStatement(threw)];
    }
  }

  class ResultSet<C> {
    const connection: Connection<C>
    const columns: seq<Column>
    const rows: seq<seq<Cell<C>>>
    /** 0 before the first row, k on row k (1-based), |rows| + 1 after the last. */
    var cursor: nat
    var closed: bool

    constructor (connection: Connection<C>, table: Table<C>)
      ensures this.connection == connection && columns == table.columns && rows == table.rows
      ensures cursor == 0 && !closed
    {
      this.connection := connection;
      columns := table.columns;
      rows := table.rows;
      cursor := 0;
      closed := false;
    }

    /** The declared type code of 1-based `column`. */
    method GetColumnType(column: nat) returns (code: int)
      requires 1 <= column <= |columns|
      modifies connection`log
      ensures code == columns[column - 1].typeCode
      ensures connection.log == old(connection.log) + [Event.GetColumnType(column)]
    {
      code := columns[column - 1].typeCode;
      connection.log := connection.log + [Event.GetColumnType(column)];
    }

    /** The label of 1-based `column`. */
    method GetColumnLabel(column: nat) returns (columnLabel: string)
      requires 1 <= column <= |columns|
      ensures columnLabel == columns[column - 1].columnLabel
    {
      columnLabel := columns[column - 1].columnLabel;
    }

    /** Moves to the next row; `onRow` says whether there was one. */
    method Next() returns (onRow: bool)
      requires cursor <= |rows| + 1
      modifies this`cursor, connection`log
      ensures onRow == (old(cursor) < |rows|)
      ensures cursor == if onRow then old(cursor) + 1 else |rows| + 1
      ensures connection.log == old(connection.log) + [Event.Next(onRow)]
    {
      onRow := cursor < |rows|;
      cursor := if onRow then cursor + 1 else |rows| + 1;
      connection.log := connection.log + [Event.Next(onRow)];
    }

    /** The getter for `kind` on 1-based `column` of the current row. */
    method Read(kind: Kind, column: nat) returns (r: Result<Value<C>, SqlError>)
      requires kind != Null && 1 <= cursor <= |rows|
      ensures r == Get(kind, rows[cursor - 1], column)
    {
      r := Get(kind, rows[cursor - 1], column);
    }

    /** Closes the result set; `threw` says the driver threw instead, leaving it as it was. */
    method Close() returns (threw: bool)
      modifies this`closed, connection`log
      ensures threw == connection.driver.resultSetCloseThrows
      ensures closed == (old(closed) || !threw)
      ensures connection.log == old(connection.log) + [CloseResultSet(threw)]
    {
      threw := connection.driver.resultSetCloseThrows;
      if !threw {
        closed := true;
      }
      connection.log := connection.log + [CloseResultSet(threw)];
    }
  }

}
