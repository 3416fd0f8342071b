/** The tables the screens hand to `put_table`, and what a screen ends up showing. */
module Tables {
  import opened Wrappers

  /** One cell of a table row: the Python value placed there. `Memory` and `CpuLoad` stand for
      the text `format_memory` and `format_cpu` make of the number they hold. */
  datatype Cell = Text(text: string) | Number(n: int) | Null | Memory(bytes: int) | CpuLoad(load: real)

  type Row = seq<Cell>

  type Table = seq<Row>

  /** A `.get(key)` that may be absent, as a cell. */
  function TextCell(o: Option<string>): Cell {
    match o
    case Some(s) => Text(s)
    case None => Null
  }

  function NumberCell(o: Option<int>): Cell {
    match o
    case Some(n) => Number(n)
    case None => Null
  }

  /** A header row of column titles. */
  function Header(titles: seq<string>): (r: Row)
    ensures |r| == |titles| && forall i :: 0 <= i < |titles| ==> r[i] == Text(titles[i])
  {
    if titles == [] then [] else [Text(titles[0])] + Header(titles[1..])
  }

  /** What a screen ends up showing: a table, an error line, a text line, or nothing because
      an exception escaped. */
  datatype Screen = ShowTable(table: Table) | ShowError(message: string) | ShowText(text: string) | Raises
}
