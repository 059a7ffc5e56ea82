/**
 The pure part of the spreadsheet-backed source reader (read_spreadsheet.py):
 turning the `items` and `default` columns of the first worksheet into the
 ordered (name, default) rows, and the first column of the second worksheet
 into the list of authorized user ids. The gspread reads that fetch the
 columns are not modelled; the columns are parameters.
 */
module Spreadsheet {
  import opened Seqs

  /** One (item name, default-active) pair as handed to the item registry. */
  datatype Row = Row(name: string, default: bool)

  /** A spreadsheet cell counts as filled when its text is non-empty. */
  predicate Filled(cell: string)
  {
    |cell| > 0
  }

  /** The default of row `i`: there is a default cell in that row and it is filled. */
  predicate DefaultAt(defaults: seq<string>, i: int)
  {
    0 <= i < |defaults| && Filled(defaults[i])
  }

  /** Every row of the items column paired with its default, before blank names are dropped. */
  function Zipped(items: seq<string>, defaults: seq<string>): (z: seq<Row>)
    ensures |z| == |items|
  {
    seq(|items|, i requires 0 <= i < |items| => Row(items[i], DefaultAt(defaults, i)))
  }

  predicate Named(r: Row)
  {
    Filled(r.name)
  }

  function Identity(r: Row): Row
  {
    r
  }

  /** The rows the reader returns: the named rows of the zipped columns, in order. */
  function ItemRows(items: seq<string>, defaults: seq<string>): seq<Row>
  {
    FilterMap(Zipped(items, defaults), Named, Identity)
  }

  /** The zip-and-filter loop that fills `output`. */
  method ReadItemRows(items: seq<string>, defaults: seq<string>) returns (output: seq<Row>)
    ensures output == ItemRows(items, defaults)
    ensures forall r :: r in output ==> Filled(r.name)
  {
    output := [];
    ghost var z := Zipped(items, defaults);
    for i := 0 to |items|
      invariant output == FilterMap(z[..i], Named, Identity)
      invariant forall r :: r in output ==> Filled(r.name)
    {
      var default := i < |defaults| && |defaults[i]| > 0;
      if |items[i]| > 0 {
        output := output + [Row(items[i], default)];
      }
      assert z[..i + 1][..i] == z[..i];
    }
    assert z[..|items|] == z;
  }

  /** What the reader returns, row by row: exactly the rows with a non-empty
      item cell, in column order, each with the default of its own row
      (false for rows past the end of the default column). */
  lemma ItemRowsExact(items: seq<string>, defaults: seq<string>) returns (rows: seq<int>)
    ensures |ItemRows(items, defaults)| == |rows| <= |items|
    ensures forall j, j' :: 0 <= j < j' < |rows| ==> rows[j] < rows[j']
    ensures forall j :: 0 <= j < |rows| ==>
      0 <= rows[j] < |items| && Filled(items[rows[j]]) &&
      ItemRows(items, defaults)[j] == Row(items[rows[j]], DefaultAt(defaults, rows[j]))
    ensures forall i :: 0 <= i < |items| && Filled(items[i]) ==> i in rows
  {
    rows := FilterMapSelects(Zipped(items, defaults), Named, Identity);
  }

  /** The user list: each non-empty cell of the users column, converted by
      Python's `int`, which is the parameter `toInt`. */
  function UserIds(cells: seq<string>, toInt: string -> int): seq<int>
  {
    FilterMap(cells, Filled, toInt)
  }

  /** The user list converts exactly the non-empty cells of the column, in order. */
  lemma UserIdsExact(cells: seq<string>, toInt: string -> int) returns (kept: seq<int>)
    ensures |UserIds(cells, toInt)| == |kept| <= |cells|
    ensures forall j, j' :: 0 <= j < j' < |kept| ==> kept[j] < kept[j']
    ensures forall j :: 0 <= j < |kept| ==>
      0 <= kept[j] < |cells| && Filled(cells[kept[j]]) &&
      UserIds(cells, toInt)[j] == toInt(cells[kept[j]])
    ensures forall i :: 0 <= i < |cells| && Filled(cells[i]) ==> i in kept
  {
    kept := FilterMapSelects(cells, Filled, toInt);
  }
}
