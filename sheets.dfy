/** The Inventory worksheet as cells: the header row that save_inventory
    writes first, one row of cells per inventory entry in table order, and
    load_inventory, which reads such a sheet back into a table keyed by ISBN. */
module Sheets {
  import opened Records

  /** A worksheet cell holds text or a whole number. */
  datatype Cell = Text(s: string) | Number(n: int)

  /** The column names: the index label ISBN, then the table's columns. */
  const Header: seq<Cell> := [Text("ISBN"), Text("author"), Text("price"), Text("Title"), Text("qty")]

  /** The cells written for one inventory entry; reading them back gives the entry. */
  function RowCells(isbn: string, row: Row): (cells: seq<Cell>)
    ensures ParseRow(cells) == Some((isbn, row))
  {
    [Text(isbn), Text(row.author), Number(row.price), Text(row.title), Number(row.qty)]
  }

  /** Reads one data row in the layout above, or None when the row has another shape. */
  function ParseRow(cells: seq<Cell>): (r: Option<(string, Row)>)
  {
    if |cells| == 5 && cells[0].Text? && cells[1].Text? && cells[2].Number?
       && cells[3].Text? && cells[4].Number?
    then Some((cells[0].s, Row(cells[1].s, cells[2].n, cells[3].s, cells[4].n)))
    else None
  }

  /** A row that parses is exactly the cells written for what it parses to. */
  lemma ParseRowCells(cells: seq<Cell>)
    requires ParseRow(cells).Some?
    ensures RowCells(ParseRow(cells).value.0, ParseRow(cells).value.1) == cells
  {
    assert cells == [cells[0], cells[1], cells[2], cells[3], cells[4]];
  }

  /** The data rows for the labels in index, in that order. */
  function DataRows(index: seq<string>, rows: map<string, Row>): (data: seq<seq<Cell>>)
    requires forall isbn :: isbn in index ==> isbn in rows
    ensures |data| == |index|
    decreases |index|
  {
    if index == [] then []
    else DataRows(index[..|index| - 1], rows) + [RowCells(index[|index| - 1], rows[index[|index| - 1]])]
  }

  /** The whole worksheet for a table: the header, then one row per label in table order. */
  function Rendered(t: Table): seq<seq<Cell>>
    requires t.Valid()
  {
    [Header] + DataRows(t.index, t.rows)
  }

  /** Reads data rows into a table, appending each label in turn; None on a
      row of another shape or on a repeated ISBN. */
  function LoadRows(data: seq<seq<Cell>>): (r: Option<Table>)
    ensures r.Some? ==> r.value.Valid() && |r.value.index| == |data|
  {
    if data == [] then Some(Table([], map[]))
    else
      match LoadRows(data[..|data| - 1])
      case None => None
      case Some(t) =>
        match ParseRow(data[|data| - 1])
        case None => None
        case Some(entry) =>
          if entry.0 in t.rows then None
          else Some(Table(t.index + [entry.0], t.rows[entry.0 := entry.1]))
  }

  /** Loads the Inventory worksheet. A sheet with no data rows yields a table
      without an ISBN column, which the source cannot index, so it is None too. */
  function LoadInventory(sheet: seq<seq<Cell>>): (r: Option<Table>)
    ensures r.Some? ==> r.value.Valid() && |r.value.index| == |sheet| - 1 > 0
  {
    if |sheet| < 2 || sheet[0] != Header then None
    else LoadRows(sheet[1..])
  }

  /** Loading one more well-formed row with a new label appends that label. */
  lemma LoadRowsSnoc(front: seq<seq<Cell>>, cells: seq<Cell>, p: Table, isbn: string, row: Row)
    requires LoadRows(front) == Some(p)
    requires ParseRow(cells) == Some((isbn, row)) && isbn !in p.rows
    ensures LoadRows(front + [cells]) == Some(Table(p.index + [isbn], p.rows[isbn := row]))
  {
    var data := front + [cells];
    assert data[..|data| - 1] == front;
  }

  /** The rows of the labels in index, as a map. */
  function RowsOf(index: seq<string>, rows: map<string, Row>): (m: map<string, Row>)
    requires forall isbn :: isbn in index ==> isbn in rows
  {
    map isbn | isbn in index :: rows[isbn]
  }

  lemma RowsOfSnoc(front: seq<string>, isbn: string, rows: map<string, Row>)
    requires forall k :: k in front + [isbn] ==> k in rows
    ensures RowsOf(front + [isbn], rows) == RowsOf(front, rows)[isbn := rows[isbn]]
  {
  }

  /** Loading the data rows of distinct labels gives back those labels and their rows. */
  lemma {:induction false} LoadDataRows(index: seq<string>, rows: map<string, Row>)
    requires forall i, j :: 0 <= i < j < |index| ==> index[i] != index[j]
    requires forall isbn :: isbn in index ==> isbn in rows
    ensures LoadRows(DataRows(index, rows)) == Some(Table(index, RowsOf(index, rows)))
    decreases |index|
  {
    if index != [] {
      var front, isbn := index[..|index| - 1], index[|index| - 1];
      assert index == front + [isbn];
      assert isbn !in front;
      LoadDataRows(front, rows);
      RowsOfSnoc(front, isbn, rows);
      LoadRowsSnoc(DataRows(front, rows), RowCells(isbn, rows[isbn]), Table(front, RowsOf(front, rows)), isbn, rows[isbn]);
    }
  }

  /** Saving a table and loading the sheet back gives the same table. */
  lemma LoadRendered(t: Table)
    requires t.Valid() && |t.index| > 0
    ensures LoadInventory(Rendered(t)) == Some(t)
  {
    LoadDataRows(t.index, t.rows);
    assert Rendered(t)[1..] == DataRows(t.index, t.rows);
    assert RowsOf(t.index, t.rows) == t.rows;
  }

  /** The data rows depend only on the rows stored under the listed labels. */
  lemma {:induction false} DataRowsAgree(index: seq<string>, m1: map<string, Row>, m2: map<string, Row>)
    requires forall isbn :: isbn in index ==> isbn in m1 && isbn in m2 && m1[isbn] == m2[isbn]
    ensures DataRows(index, m1) == DataRows(index, m2)
    decreases |index|
  {
    if index != [] {
      DataRowsAgree(index[..|index| - 1], m1, m2);
    }
  }

  lemma {:induction false} RenderLoadedRows(data: seq<seq<Cell>>, t: Table)
    requires LoadRows(data) == Some(t)
    ensures t.Valid() && DataRows(t.index, t.rows) == data
  {
    if data != [] {
      var front, cells := data[..|data| - 1], data[|data| - 1];
      assert data == front + [cells];
      var p := LoadRows(front).value;
      var entry := ParseRow(cells).value;
      LoadRowsSnoc(front, cells, p, entry.0, entry.1);
      RenderLoadedRows(front, p);
      ParseRowCells(cells);
      DataRowsAgree(p.index, p.rows, t.rows);
      assert t.index[..|t.index| - 1] == p.index;
    }
  }

  /** A sheet that loads is exactly the sheet saving its table writes. */
  lemma RenderLoaded(sheet: seq<seq<Cell>>)
    requires LoadInventory(sheet).Some?
    ensures Rendered(LoadInventory(sheet).value) == sheet
  {
    RenderLoadedRows(sheet[1..], LoadInventory(sheet).value);
    assert sheet == [Header] + sheet[1..];
  }
}
