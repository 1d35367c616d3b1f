/**
 * The JDBC type codes of `java.sql.Types` that the result decoder names.
 * A column's declared type reaches the decoder as one of these integers.
 */
module SqlTypes {

  const BIT: int := -7
  const TINYINT: int := -6
  const SMALLINT: int := 5
  const INTEGER: int := 4
  const BIGINT: int := -5
  const FLOAT: int := 6
  const REAL: int := 7
  const DOUBLE: int := 8
  const NUMERIC: int := 2
  const DECIMAL: int := 3
  const CHAR: int := 1
  const VARCHAR: int := 12
  const LONGVARCHAR: int := -1
  const DATE: int := 91
  const TIME: int := 92
  const TIMESTAMP: int := 93
  const BINARY: int := -2
  const VARBINARY: int := -3
  const LONGVARBINARY: int := -4
  const NULL: int := 0
  const OTHER: int := 1111
  const CLOB: int := 2005
  const BOOLEAN: int := 16

}
