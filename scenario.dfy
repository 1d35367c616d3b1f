/**
 * A client of the model, after the library's own usage example: one
 * `World(id INTEGER, value VARCHAR)` row read back by `query`, and an
 * update whose count `execute` passes through.
 */
module Scenario {
  import opened Wrappers
  import opened SqlTypes
  import opened Values
  import opened Jdbc
  import opened Decoding
  import opened Sql

  const WorldColumns: seq<Column> := [Column("id", INTEGER), Column("value", VARCHAR)]

  /** The row `(2, "hello")` decodes to a long under "id" and a string under "value". */
  lemma WorldRow()
    ensures DecodeRow(WorldColumns, [Data("2"), Data("hello")]) ==
            Success(map["id" := LongValue("2"), "value" := StringValue("hello")])
  {
    var cells: seq<Cell<string>> := [Data("2"), Data("hello")];
    assert DecodeRowPrefix(WorldColumns, cells, 0) == Success(map[]);
    assert ReadColumn(INTEGER, cells, 1) == Success(LongValue("2"));
    assert DecodeRowPrefix(WorldColumns, cells, 1) == Success(map["id" := LongValue("2")]);
    assert ReadColumn(VARCHAR, cells, 2) == Success(StringValue("hello"));
  }

  method WorldClient()
  {
    var table := Table(WorldColumns, [[Data("2"), Data("hello")]]);
    var connection := new Connection(Driver(_ => Success(table), _ => Success(1), false, false));
    var rows, statement, resultSet := Query(connection, "SELECT * FROM World WHERE id=2");
    WorldRow();
    assert RowsBeforeFailure(table.columns, table.rows) == 1;
    assert rows.Success? && |rows.value| == 1 && DecodeRow(table.columns, table.rows[0]) == Success(rows.value[0]);
    assert rows.value == [rows.value[0]];
    assert rows == Success([map["id" := LongValue("2"), "value" := StringValue("hello")]]);
    assert statement.closed && resultSet != null && resultSet.closed;
    var count, updater := Execute(connection, "UPDATE World SET value='x' WHERE id=2");
    assert count == Success(1) && updater.closed && !connection.readOnly;
  }

  /**
   * A getter that throws on the second row: the error reaches the caller
   * and neither the statement nor the result set is closed.
   */
  method FailingRowClient()
  {
    var columns := [Column("id", INTEGER), Column("nothing", NULL)];
    var table := Table(columns, [[Data("1"), Unconvertible], [Unconvertible, Data("x")]]);
    var connection := new Connection(Driver(_ => Success(table), _ => Failure(DriverError("read only")), false, false));
    var rows, statement, resultSet := Query(connection, "SELECT id, NULL AS nothing FROM World");
    assert ReadColumn(NULL, table.rows[0], 2) == Success(NullValue);
    assert DecodeRow(columns, table.rows[0]).Success? by {
      RowDecodes(columns, table.rows[0], 2);
    }
    assert ReadColumn(INTEGER, table.rows[1], 1) == Failure(ConversionFailed(1, Long));
    assert DecodeRow(columns, table.rows[1]) == Failure(ConversionFailed(1, Long)) by {
      FailureStays(columns, table.rows[1], 1, 2);
    }
    assert RowsBeforeFailure(table.columns, table.rows) == 1;
    assert rows == Failure(ConversionFailed(1, Long));
    assert !statement.closed && resultSet != null && !resultSet.closed;
  }

}
