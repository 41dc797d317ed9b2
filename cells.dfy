/// The scraped data set as the test suite and the plotting code see it: a
/// two-dimensional table of Python values, ten columns per row.
module Cells {

  /** A Python `float`: a finite value, NaN, or an infinity. */
  datatype FloatValue = Finite(r: real) | NaN | Infinity(negative: bool)

  /** One cell of the table: the Python value stored there. */
  datatype Cell =
    | Str(s: string)
    | Int(i: int)
    | Float(f: FloatValue)
    | List(items: seq<Cell>)
    | NoneValue

  type Row = seq<Cell>
  type Table = seq<Row>

  /** Number of columns of the data set (five per film, original then remake). */
  const Width: nat := 10

  /** Every row has the ten columns of the schema. */
  predicate WellFormed(t: Table) {
    forall r :: 0 <= r < |t| ==> |t[r]| == Width
  }

  /** A Python list every element of which is a `str`; an empty list qualifies. */
  predicate IsStrList(c: Cell) {
    c.List? && forall k :: 0 <= k < |c.items| ==> c.items[k].Str?
  }
}
