/**
 * What a result cursor holds and what the decoder produces from it.
 *
 * The driver's typed getters (getBoolean, getLong, getDouble, getString,
 * getTimestamp) are foreign calls; the model records WHICH getter produced
 * a value and the raw cell it was applied to, not the conversion itself.
 */
module Values {
  import opened Wrappers

  /** The native value kinds a column can be decoded as. */
  datatype Kind = Boolean | Long | Double | String | Timestamp | Null

  /** A decoded value: the getter's result on a raw cell, or the null written by the decoder itself. */
  datatype Value<C> =
    | BooleanValue(raw: C)
    | LongValue(raw: C)
    | DoubleValue(raw: C)
    | StringValue(raw: C)
    | TimestampValue(raw: C)
    | NullValue

  /** One record of a query result: column label to decoded value. */
  type Row<C> = map<string, Value<C>>

  /** A raw cell of the cursor: content a getter can convert, or one every getter rejects. */
  datatype Cell<C> = Data(content: C) | Unconvertible

  /** The errors a driver call can throw. */
  datatype SqlError =
    | DriverError(message: string)
    | InvalidColumnIndex(column: int)
    | ConversionFailed(column: int, kind: Kind)

  function KindOf<C>(v: Value<C>): Kind
  {
    match v
    case BooleanValue(_) => Boolean
    case LongValue(_) => Long
    case DoubleValue(_) => Double
    case StringValue(_) => String
    case TimestampValue(_) => Timestamp
    case NullValue => Null
  }

  /** The value the getter for kind `k` makes of the content `c`. */
  function Converted<C>(k: Kind, c: C): (v: Value<C>)
    requires k != Null
    ensures KindOf(v) == k && v.raw == c
  {
    match k
    case Boolean => BooleanValue(c)
    case Long => LongValue(c)
    case Double => DoubleValue(c)
    case String => StringValue(c)
    case Timestamp => TimestampValue(c)
  }

  /**
   * The getter for kind `k` applied to 1-based `column` of the current row
   * `cells`: it throws for an index outside the row and for a cell it
   * cannot convert.
   */
  function Get<C>(k: Kind, cells: seq<Cell<C>>, column: int): (r: Result<Value<C>, SqlError>)
    requires k != Null
    ensures r.Success? <==> 1 <= column <= |cells| && cells[column - 1].Data?
    ensures r.Success? ==> r.value == Converted(k, cells[column - 1].content)
  {
    if column < 1 || column > |cells| then Failure(InvalidColumnIndex(column))
    else match cells[column - 1]
      case Data(c) => Success(Converted(k, c))
      case Unconvertible => Failure(ConversionFailed(column, k))
  }

}
