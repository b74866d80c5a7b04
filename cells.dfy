/**
  The header-keyed rows the upload readers hand over: csv-parser gives every
  present column as text, ExcelJS gives a cell's value, which may also be a
  number, a date, a boolean or another object (rich text, formula, hyperlink).
  JavaScript truthiness and `a || b` over such values.
*/
module Cells {
  import opened Calendar

  datatype Cell =
    | Str(s: string)
    | Num(n: real)             // a finite number
    | DateCell(d: CalendarDate)
    | Bool(b: bool)
    | Other                    // any other object value
    | Missing                  // `undefined`: the row has no such key

  /** JavaScript truthiness: `""`, `0`, `false` and `undefined` are falsy. */
  predicate Truthy(c: Cell) {
    match c
    case Str(s) => s != []
    case Num(n) => n != 0.0
    case Bool(b) => b
    case Missing => false
    case _ => true
  }

  /** `a || b`: the first operand when it is truthy, the second otherwise. */
  function Or(a: Cell, b: Cell): (r: Cell)
    ensures Truthy(r) <==> Truthy(a) || Truthy(b)
  {
    if Truthy(a) then a else b
  }

  /** One data row: column header to cell value. */
  type Row = map<string, Cell>

  /** `row[key]`, `undefined` when the header is absent. */
  function Get(row: Row, key: string): Cell {
    if key in row then row[key] else Missing
  }

  /** `row[k1] || row[k2] || ''`: the first truthy of two columns, else the empty string. */
  function Either(row: Row, k1: string, k2: string): (r: Cell)
    ensures Truthy(r) <==> Truthy(Get(row, k1)) || Truthy(Get(row, k2))
    ensures !Truthy(r) ==> r == Str("")
  {
    Or(Or(Get(row, k1), Get(row, k2)), Str(""))
  }

  /** `row[k] || ''`. */
  function Field(row: Row, k: string): (r: Cell)
    ensures Truthy(r) <==> Truthy(Get(row, k))
    ensures !Truthy(r) ==> r == Str("")
  {
    Or(Get(row, k), Str(""))
  }
}
