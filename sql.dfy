/**
 * The two statement runners of the library: `query`, which decodes a
 * cursor into records, and `execute`, which runs an update and returns its
 * count. Both run on a connection the caller has leased and neither
 * returns it to the pool.
 */
module Sql {
  import opened Wrappers
  import opened Values
  import opened Jdbc
  import opened Decoding

  /** The calls `query` makes before it reads the metadata. */
  function Opening(sql: string): seq<Event>
  {
    [SetReadOnly(true), CreateStatement, ExecuteQuery(sql)]
  }

  /** One `getColumnType` per column, in column order. */
  function TypeReads(n: nat): seq<Event>
  {
    if n == 0 then [] else TypeReads(n - 1) + [GetColumnType(n)]
  }

  /** `k` calls of `next` that each moved onto a row. */
  function Advances(k: nat): seq<Event>
  {
    if k == 0 then [] else Advances(k - 1) + [Next(true)]
  }

  /**
   * The closing of `query`: the statement first, then the result set, the
   * latter skipped when closing the statement threw.
   */
  function Closing<C>(driver: Driver<C>): seq<Event>
  {
    [CloseStatement(driver.statementCloseThrows)] +
    if driver.statementCloseThrows then [] else [CloseResultSet(driver.resultSetCloseThrows)]
  }

  /**
   * Builds the record of the current row column by column, choosing each
   * column's getter from its prefetched type code.
   */
  method ReadRow<C>(rs: ResultSet<C>, types: seq<int>) returns (r: Result<Row<C>, SqlError>)
    requires 1 <= rs.cursor <= |rs.rows|
    requires |types| == |rs.columns|
    requires forall j :: 0 <= j < |types| ==> types[j] == rs.columns[j].typeCode
    ensures r == DecodeRow(rs.columns, rs.rows[rs.cursor - 1])
  {
    var row: Row<C> := map[];
    for i := 1 to |types| + 1
      invariant DecodeRowPrefix(rs.columns, rs.rows[rs.cursor - 1], i - 1) == Success(row)
    {
      var columnLabel := rs.GetColumnLabel(i);
      var kind := DecodeKind(types[i - 1]);
      var v: Result<Value<C>, SqlError>;
      if kind == Null {
        v := Success(NullValue);
      } else {
        v := rs.Read(kind, i);
      }
      if v.Failure? {
        FailureStays(rs.columns, rs.rows[rs.cursor - 1], i, |rs.columns|);
        return Failure(v.error);
      }
      row := row[columnLabel := v.value];
    }
    return Success(row);
  }

  /** The column-type prefetch of `query`: one `getColumnType` per column, in order. */
  method ColumnTypes<C>(rs: ResultSet<C>) returns (types: seq<int>)
    modifies rs.connection`log
    ensures |types| == |rs.columns|
    ensures forall j :: 0 <= j < |types| ==> types[j] == rs.columns[j].typeCode
    ensures rs.connection.log == old(rs.connection.log) + TypeReads(|rs.columns|)
  {
    types := [];
    for i := 1 to |rs.columns| + 1
      invariant |types| == i - 1
      invariant forall j :: 0 <= j < i - 1 ==> types[j] == rs.columns[j].typeCode
      invariant rs.connection.log == old(rs.connection.log) + TypeReads(i - 1)
    {
      var code := rs.GetColumnType(i);
      types := types + [code];
    }
  }

  /**
   * The row loop of `query`: while `next` finds a row, decode it and
   * append its record. A getter that throws ends the loop with its error,
   * right after the `next` that moved onto the failing row.
   */
  method ReadRows<C>(rs: ResultSet<C>, types: seq<int>) returns (res: Result<seq<Row<C>>, SqlError>)
    requires rs.cursor == 0
    requires |types| == |rs.columns|
    requires forall j :: 0 <= j < |types| ==> types[j] == rs.columns[j].typeCode
    modifies rs`cursor, rs.connection`log
    ensures var k := RowsBeforeFailure(rs.columns, rs.rows);
      k == |rs.rows| ==>
        res.Success? && |res.value| == |rs.rows| &&
        (forall r :: 0 <= r < |rs.rows| ==> DecodeRow(rs.columns, rs.rows[r]) == Success(res.value[r])) &&
        rs.connection.log == old(rs.connection.log) + Advances(k) + [Next(false)]
    ensures var k := RowsBeforeFailure(rs.columns, rs.rows);
      k < |rs.rows| ==>
        res == Failure(DecodeRow(rs.columns, rs.rows[k]).error) &&
        rs.connection.log == old(rs.connection.log) + Advances(k) + [Next(true)]
  {
    var result: seq<Row<C>> := [];
    var onRow := rs.Next();
    while onRow
      invariant onRow ==> rs.cursor == |result| + 1 <= |rs.rows|
      invariant !onRow ==> |result| == |rs.rows|
      invariant forall r :: 0 <= r < |result| ==> DecodeRow(rs.columns, rs.rows[r]) == Success(result[r])
      invariant rs.connection.log == old(rs.connection.log) + Advances(|result|) + [Next(onRow)]
      decreases |rs.rows| - |result|
    {
      var decoded := ReadRow(rs, types);
      if decoded.Failure? {
        return Failure(decoded.error);
      }
      result := result + [decoded.value];
      onRow := rs.Next();
    }
    return Success(result);
  }

  /**
   * `query`: marks the connection read-only, runs the statement, reads all
   * column types, then decodes every row in cursor order. It closes the
   * statement and then the result set only once every row is decoded,
   * ignoring what closing throws; when the execution or a getter throws,
   * the error propagates and both stay open.
   */
  method Query<C>(connection: Connection<C>, sql: string)
    returns (res: Result<seq<Row<C>>, SqlError>, ghost statement: Statement<C>, ghost resultSet: ResultSet?<C>)
    modifies connection
    ensures connection.readOnly
    ensures fresh(statement) && statement.connection == connection && statement.createdReadOnly
    ensures connection.driver.query(sql).Failure? ==>
      res == Failure(connection.driver.query(sql).error) && resultSet == null && !statement.closed &&
      connection.log == old(connection.log) + Opening(sql)
    ensures connection.driver.query(sql).Success? ==>
      var table := connection.driver.query(sql).value;
      resultSet != null && fresh(resultSet) && resultSet.connection == connection &&
      resultSet.columns == table.columns && resultSet.rows == table.rows
    ensures connection.driver.query(sql).Success? ==>
      var table := connection.driver.query(sql).value;
      var k := RowsBeforeFailure(table.columns, table.rows);
      k == |table.rows| ==>
        res.Success? && |res.value| == |table.rows| &&
        (forall r :: 0 <= r < |table.rows| ==> DecodeRow(table.columns, table.rows[r]) == Success(res.value[r])) &&
        connection.log == old(connection.log) + Opening(sql) + TypeReads(|table.columns|) +
                          Advances(k) + [Next(false)] + Closing(connection.driver) &&
        statement.closed == !connection.driver.statementCloseThrows &&
        resultSet != null &&
        resultSet.closed == (!connection.driver.statementCloseThrows && !connection.driver.resultSetCloseThrows)
    ensures connection.driver.query(sql).Success? ==>
      var table := connection.driver.query(sql).value;
      var k := RowsBeforeFailure(table.columns, table.rows);
      k < |table.rows| ==>
        res == Failure(DecodeRow(table.columns, table.rows[k]).error) &&
        connection.log == old(connection.log) + Opening(sql) + TypeReads(|table.columns|) +
                          Advances(k) + [Next(true)] &&
        !statement.closed && resultSet != null && !resultSet.closed
  {
    connection.SetReadOnly(true);
    var stmt := connection.CreateStatement();
    statement := stmt;
    var executed := stmt.ExecuteQuery(sql);
    if executed.Failure? {
      res, resultSet := Failure(executed.error), null;
      return;
    }
    var rs := executed.value;
    resultSet := rs;
    res := Drain(stmt, rs);
  }

  /**
   * What `query` does once the statement has run: prefetch the column
   * types, decode the rows, then close the statement and the result set.
   */
  method Drain<C>(stmt: Statement<C>, rs: ResultSet<C>) returns (res: Result<seq<Row<C>>, SqlError>)
    requires rs.connection == stmt.connection && rs.cursor == 0
    modifies stmt`closed, rs`cursor, rs`closed, rs.connection`log
    ensures var k := RowsBeforeFailure(rs.columns, rs.rows);
      k == |rs.rows| ==>
        res.Success? && |res.value| == |rs.rows| &&
        (forall r :: 0 <= r < |rs.rows| ==> DecodeRow(rs.columns, rs.rows[r]) == Success(res.value[r])) &&
        rs.connection.log == old(rs.connection.log) + TypeReads(|rs.columns|) +
                             Advances(k) + [Next(false)] + Closing(rs.connection.driver) &&
        stmt.closed == (old(stmt.closed) || !rs.connection.driver.statementCloseThrows) &&
        rs.closed == (old(rs.closed) || (!rs.connection.driver.statementCloseThrows && !rs.connection.driver.resultSetCloseThrows))
    ensures var k := RowsBeforeFailure(rs.columns, rs.rows);
      k < |rs.rows| ==>
        res == Failure(DecodeRow(rs.columns, rs.rows[k]).error) &&
        rs.connection.log == old(rs.connection.log) + TypeReads(|rs.columns|) + Advances(k) + [Next(true)] &&
        stmt.closed == old(stmt.closed) && rs.closed == old(rs.closed)
  {
    var types := ColumnTypes(rs);
    res := ReadRows(rs, types);
    if res.Failure? {
      return;
    }
    var threw := stmt.Close();
    if !threw {
      var _ := rs.Close();
    }
  }

  /**
   * `execute`: marks the connection read-write, runs the update and returns
   * the driver's count or rethrows its error; the statement is closed on
   * both paths and what closing throws is ignored.
   */
  method Execute<C>(connection: Connection<C>, sql: string)
    returns (res: Result<int, SqlError>, ghost statement: Statement<C>)
    modifies connection
    ensures !connection.readOnly
    ensures res == connection.driver.update(sql)
    ensures fresh(statement) && statement.connection == connection && !statement.createdReadOnly
    ensures statement.closed == !connection.driver.statementCloseThrows
    ensures connection.log == old(connection.log) +
      [SetReadOnly(false), CreateStatement, ExecuteUpdate(sql), CloseStatement(connection.driver.statementCloseThrows)]
  {
    connection.SetReadOnly(false);
    var stmt := connection.CreateStatement();
    statement := stmt;
    var result := stmt.ExecuteUpdate(sql);
    var _ := stmt.Close();
    res := result;
  }

}
