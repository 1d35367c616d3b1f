/**
 * The type-driven decoding of `query`: which getter reads a column is chosen
 * from the column's declared type code alone, and a row becomes a record by
 * assigning each column's value under its label, column by column.
 */
module Decoding {
  import opened Wrappers
  import opened SqlTypes
  import opened Values
  import opened Jdbc

  /**
   * The type switch of `query`. Every code has a kind; the codes no case
   * names fall to the default branch, which reads a string.
   */
  function DecodeKind(code: int): (k: Kind)
    ensures k == Boolean <==> code in {BIT, BOOLEAN}
    ensures k == Long <==> code in {TINYINT, SMALLINT, INTEGER, BIGINT}
    ensures k == Double <==> code in {REAL, FLOAT, DOUBLE, DECIMAL, NUMERIC}
    ensures k == Timestamp <==> code in {DATE, TIME, TIMESTAMP}
    ensures k == Null <==> code == NULL
    ensures code in {BINARY, VARBINARY, LONGVARBINARY, CHAR, VARCHAR, LONGVARCHAR, CLOB, OTHER} ==> k == String
    ensures k == String <==>
      code !in {BIT, BOOLEAN, TINYINT, SMALLINT, INTEGER, BIGINT, REAL, FLOAT, DOUBLE, DECIMAL, NUMERIC,
                DATE, TIME, TIMESTAMP, NULL}
  {
    if code == BIT || code == BOOLEAN then Boolean
    else if code == TINYINT || code == BIGINT || code == SMALLINT || code == INTEGER then Long
    else if code == REAL || code == FLOAT || code == DOUBLE || code == DECIMAL || code == NUMERIC then Double
    else if code == VARBINARY || code == BINARY || code == LONGVARBINARY || code == LONGVARCHAR
         || code == CHAR || code == VARCHAR || code == CLOB || code == OTHER then String
    else if code == DATE || code == TIME || code == TIMESTAMP then Timestamp
    else if code == NULL then Null
    else String
  }

  /**
   * One column of the current row: a NULL-typed column is null without
   * reading the cursor; any other column is read by its kind's getter.
   */
  function ReadColumn<C>(typeCode: int, cells: seq<Cell<C>>, column: int): (r: Result<Value<C>, SqlError>)
    ensures typeCode == NULL ==> r == Success(NullValue)
    ensures r.Success? ==> KindOf(r.value) == DecodeKind(typeCode)
    ensures r.Success? && typeCode != NULL ==> 1 <= column <= |cells| && cells[column - 1] == Data(r.value.raw)
    ensures r.Failure? <==>
      typeCode != NULL && !(1 <= column <= |cells| && cells[column - 1].Data?)
  {
    var kind := DecodeKind(typeCode);
    if kind == Null then Success(NullValue) else Get(kind, cells, column)
  }

  /**
   * The record built from the first `n` columns of a row: each column in
   * turn is assigned under its label, so a later column overwrites an
   * earlier one of the same label; the first getter that throws ends it.
   */
  function DecodeRowPrefix<C>(columns: seq<Column>, cells: seq<Cell<C>>, n: nat): Result<Row<C>, SqlError>
    requires n <= |columns|
  {
    if n == 0 then Success(map[])
    else match DecodeRowPrefix(columns, cells, n - 1)
      case Failure(e) => Failure(e)
      case Success(row) =>
        match ReadColumn(columns[n - 1].typeCode, cells, n)
        case Failure(e) => Failure(e)
        case Success(v) => Success(row[columns[n - 1].columnLabel := v])
  }

  /** The record a whole row decodes to, or the error its reading throws. */
  function DecodeRow<C>(columns: seq<Column>, cells: seq<Cell<C>>): Result<Row<C>, SqlError>
  {
    DecodeRowPrefix(columns, cells, |columns|)
  }

  /** The labels of the first `n` columns. */
  ghost function Labels(columns: seq<Column>, n: nat): set<string>
    requires n <= |columns|
  {
    set i | 0 <= i < n :: columns[i].columnLabel
  }

  /** No two of the first `n` columns share a label. */
  ghost predicate DistinctLabels(columns: seq<Column>, n: nat)
    requires n <= |columns|
  {
    forall i, j :: 0 <= i < j < n ==> columns[i].columnLabel != columns[j].columnLabel
  }

  /** A record has a key for every column label and no other key. */
  lemma {:induction false} RowKeys<C>(columns: seq<Column>, cells: seq<Cell<C>>, n: nat, row: Row<C>)
    requires n <= |columns| && DecodeRowPrefix(columns, cells, n) == Success(row)
    ensures row.Keys == Labels(columns, n)
    ensures DistinctLabels(columns, n) ==> |row| == n
  {
    if n > 0 {
      var prev := DecodeRowPrefix(columns, cells, n - 1).value;
      var v := ReadColumn(columns[n - 1].typeCode, cells, n).value;
      assert row == prev[columns[n - 1].columnLabel := v];
      RowKeys(columns, cells, n - 1, prev);
      assert Labels(columns, n) == Labels(columns, n - 1) + {columns[n - 1].columnLabel};
      if DistinctLabels(columns, n) {
        assert columns[n - 1].columnLabel !in Labels(columns, n - 1);
      }
    }
  }

  /**
   * The value under a label is the one read for the LAST column carrying
   * that label, whatever earlier columns of the same label held.
   */
  lemma {:induction false} LastColumnWins<C>(columns: seq<Column>, cells: seq<Cell<C>>, n: nat, row: Row<C>, j: nat)
    requires n <= |columns| && DecodeRowPrefix(columns, cells, n) == Success(row)
    requires j < n
    requires forall k :: j < k < n ==> columns[k].columnLabel != columns[j].columnLabel
    ensures columns[j].columnLabel in row
    ensures ReadColumn(columns[j].typeCode, cells, j + 1) == Success(row[columns[j].columnLabel])
  {
    var prev := DecodeRowPrefix(columns, cells, n - 1).value;
    var v := ReadColumn(columns[n - 1].typeCode, cells, n).value;
    assert row == prev[columns[n - 1].columnLabel := v];
    if j < n - 1 {
      LastColumnWins(columns, cells, n - 1, prev, j);
    }
  }

  /**
   * In a decoded row, the value under the label of column `j` (1-based
   * column j + 1), when no later column repeats that label, has the kind
   * the column's type code selects; a NULL-typed column gives null.
   */
  lemma ColumnValue<C>(columns: seq<Column>, cells: seq<Cell<C>>, row: Row<C>, j: nat)
    requires DecodeRow(columns, cells) == Success(row)
    requires j < |columns|
    requires forall k :: j < k < |columns| ==> columns[k].columnLabel != columns[j].columnLabel
    ensures columns[j].columnLabel in row
    ensures KindOf(row[columns[j].columnLabel]) == DecodeKind(columns[j].typeCode)
    ensures columns[j].typeCode == NULL ==> row[columns[j].columnLabel] == NullValue
    ensures columns[j].typeCode != NULL ==> j < |cells| && cells[j] == Data(row[columns[j].columnLabel].raw)
  {
    LastColumnWins(columns, cells, |columns|, row, j);
  }

  /** A prefix that threw stays thrown: no later column is read. */
  lemma {:induction false} FailureStays<C>(columns: seq<Column>, cells: seq<Cell<C>>, n: nat, m: nat)
    requires n <= m <= |columns|
    requires DecodeRowPrefix(columns, cells, n).Failure?
    ensures DecodeRowPrefix(columns, cells, m) == DecodeRowPrefix(columns, cells, n)
  {
    if m > n {
      FailureStays(columns, cells, n, m - 1);
    }
  }

  /** A row decodes exactly when every one of its columns reads without throwing. */
  lemma {:induction false} RowDecodes<C>(columns: seq<Column>, cells: seq<Cell<C>>, n: nat)
    requires n <= |columns|
    ensures DecodeRowPrefix(columns, cells, n).Success? <==>
      forall j :: 0 <= j < n ==> ReadColumn(columns[j].typeCode, cells, j + 1).Success?
  {
    if n > 0 {
      RowDecodes(columns, cells, n - 1);
    }
  }

  /** A row that throws throws the error of its first column whose getter throws. */
  lemma {:induction false} FirstFailingColumn<C>(columns: seq<Column>, cells: seq<Cell<C>>, n: nat)
    requires n <= |columns| && DecodeRowPrefix(columns, cells, n).Failure?
    ensures exists j :: (0 <= j < n &&
                         ReadColumn(columns[j].typeCode, cells, j + 1) == Failure(DecodeRowPrefix(columns, cells, n).error) &&
                         forall i :: 0 <= i < j ==> ReadColumn(columns[i].typeCode, cells, i + 1).Success?)
  {
    if DecodeRowPrefix(columns, cells, n - 1).Failure? {
      FirstFailingColumn(columns, cells, n - 1);
    } else {
      RowDecodes(columns, cells, n - 1);
      assert ReadColumn(columns[n - 1].typeCode, cells, n) == Failure(DecodeRowPrefix(columns, cells, n).error);
    }
  }

  /**
   * The cells of NULL-typed columns do not matter: two rows that agree on
   * every other column decode to the same record, or throw the same error.
   */
  lemma {:induction false} NullColumnsIgnoreCells<C>(columns: seq<Column>, cells: seq<Cell<C>>, other: seq<Cell<C>>, n: nat)
    requires n <= |columns| && |cells| == |other|
    requires forall j :: 0 <= j < n && j < |cells| && columns[j].typeCode != NULL ==> cells[j] == other[j]
    ensures DecodeRowPrefix(columns, cells, n) == DecodeRowPrefix(columns, other, n)
  {
    if n > 0 {
      NullColumnsIgnoreCells(columns, cells, other, n - 1);
      assert ReadColumn(columns[n - 1].typeCode, cells, n) == ReadColumn(columns[n - 1].typeCode, other, n);
    }
  }

  /**
   * How many leading rows of a cursor decode before the first row whose
   * reading throws (all of them when none throws).
   */
  function RowsBeforeFailure<C>(columns: seq<Column>, rows: seq<seq<Cell<C>>>): (k: nat)
    ensures k <= |rows|
    ensures forall r :: 0 <= r < k ==> DecodeRow(columns, rows[r]).Success?
    ensures k < |rows| ==> DecodeRow(columns, rows[k]).Failure?
  {
    if rows == [] || DecodeRow(columns, rows[0]).Failure? then 0
    else 1 + RowsBeforeFailure(columns, rows[1..])
  }

}
