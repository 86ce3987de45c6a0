/** Tables whose rows are dictionaries with the same keys, and what differs between two of them. */
module Tables {
  import opened Prelude

  type Row = map<string, string>

  datatype Error = ValueError | TypeError | KeyError

  /** What callers may offer as a row. */
  datatype Item = Record(row: Row) | Tuple(cells: seq<string>)

  function Columns(schema: seq<string>): set<string> {
    set i | 0 <= i < |schema| :: schema[i]
  }

  /** Python's `dict(zip(columns, cells))`: the last one of equal columns wins. */
  function Zip(columns: seq<string>, cells: seq<string>): (row: Row)
    ensures forall i :: 0 <= i < |columns| && i < |cells| ==> columns[i] in row
    ensures forall c :: c in row ==>
              exists i :: 0 <= i < |columns| && i < |cells| && columns[i] == c && cells[i] == row[c]
  {
    var n := if |columns| < |cells| then |columns| else |cells|;
    if n == 0 then map[]
    else Zip(columns[..n - 1], cells[..n - 1])[columns[n - 1] := cells[n - 1]]
  }

  /** A column holds the cell that goes with its last occurrence. */
  lemma {:induction false} ZipLastWins(columns: seq<string>, cells: seq<string>, i: nat)
    requires i < |columns| && i < |cells|
    requires forall j :: i < j < |columns| && j < |cells| ==> columns[j] != columns[i]
    ensures Zip(columns, cells)[columns[i]] == cells[i]
  {
    var n := if |columns| < |cells| then |columns| else |cells|;
    if i == n - 1 {
    } else {
      assert columns[n - 1] != columns[i];
      ZipLastWins(columns[..n - 1], cells[..n - 1], i);
    }
  }

  // ---------------------------------------------------------------- which rows make a table

  function RowsOf(items: seq<Item>): seq<Row>
    requires forall i :: 0 <= i < |items| ==> items[i].Record?
  {
    seq(|items|, i requires 0 <= i < |items| => items[i].row)
  }

  predicate AreRecords(items: seq<Item>) {
    forall i :: 0 <= i < |items| ==> items[i].Record?
  }

  /** Each tuple is long enough to give every column a value. */
  ghost predicate AreFullTuples(items: seq<Item>, columns: seq<string>) {
    forall i :: 0 <= i < |items| ==> items[i].Tuple? && Zip(columns, items[i].cells).Keys == Columns(columns)
  }

  /** The keys of the first item; a leading empty dictionary is passed over. */
  function Expected(items: seq<Item>): set<string>
    requires items != [] && AreRecords(items)
  {
    if |items| > 1 && items[0].row.Keys == {} then items[1].row.Keys else items[0].row.Keys
  }

  /** From the second one on, every item has the expected keys. */
  ghost predicate Accepted(items: seq<Item>) {
    AreRecords(items) && forall i :: 1 <= i < |items| ==> items[i].row.Keys == Expected(items) != {}
  }

  function Cells(row: Row, columns: seq<string>): (cells: seq<string>)
    requires Columns(columns) <= row.Keys
    ensures |cells| == |columns|
    ensures forall i :: 0 <= i < |columns| ==> columns[i] in row && cells[i] == row[columns[i]]
  {
    assert forall i :: 0 <= i < |columns| ==> columns[i] in Columns(columns);
    seq(|columns|, i requires 0 <= i < |columns| => row[columns[i]])
  }

  /** A row under new column names. */
  function Rename(row: Row, from: seq<string>, to: seq<string>): (r: Row)
    requires |from| == |to| && Columns(from) <= row.Keys
    ensures r.Keys == Columns(to)
  {
    Zip(to, Cells(row, from))
  }

  class TableData {
    var schema: seq<string>
    var data: seq<Row>

    constructor ()
      ensures schema == [] && data == []
    {
      schema, data := [], [];
    }

    /** What the class promises of its rows. */
    ghost predicate Conforms()
      reads this
    {
      forall i :: 0 <= i < |data| ==> data[i].Keys == Columns(schema)
    }

    /** Infers the schema from the first item that has keys. */
    method ValidateItem(item: Item) returns (error: Option<Error>)
      modifies this`schema
      ensures item.Tuple? ==> error == Some(TypeError) && schema == old(schema)
      ensures item.Record? ==>
                && (error == None <==> item.row.Keys != {} && (old(schema) == [] || item.row.Keys == Columns(old(schema))))
                && error in {None, Some(ValueError)}
                && (error == None ==> Columns(schema) == item.row.Keys && schema != [])
      ensures old(schema) != [] || error != None ==> schema == old(schema)
    {
      if item.Tuple? { return Some(TypeError); }
      if schema == [] {
        schema := KeysInOrder(item.row.Keys);
        if schema == [] {
          assert item.row.Keys == {};
          return Some(ValueError);
        }
      } else if item.row.Keys != Columns(schema) {
        return Some(ValueError);
      }
      ColumnsOfNone(schema);
      error := None;
    }

    method Append(item: Item) returns (error: Option<Error>)
      modifies this
      ensures item.Tuple? ==> error == Some(TypeError)
      ensures item.Record? ==>
                && (error == None <==> item.row.Keys != {} && (old(schema) == [] || item.row.Keys == Columns(old(schema))))
                && error in {None, Some(ValueError)}
      ensures error == None ==> data == old(data) + [item.row] && Columns(schema) == item.row.Keys && schema != []
      ensures error != None ==> data == old(data)
      ensures old(schema) != [] || error != None ==> schema == old(schema)
      ensures old(Conforms()) && (old(schema) != [] || old(data) == []) ==> Conforms()
    {
      error := ValidateItem(item);
      if error == None {
        data := data + [item.row];
      }
    }

    /** The setter of `columns`. */
    method SetColumns(columns: seq<string>) returns (error: Option<Error>)
      modifies this
      ensures |columns| != |old(schema)| ==> error == Some(ValueError)
      ensures |columns| == |old(schema)| ==> error in {None, Some(KeyError)}
      ensures |columns| == |old(schema)| ==>
                (error == None <==> forall i :: 0 <= i < |old(data)| ==> Columns(old(schema)) <= old(data)[i].Keys)
      ensures error == None ==>
                && schema == columns && |data| == |old(data)| && Conforms()
                && forall i :: 0 <= i < |data| ==> data[i] == Rename(old(data)[i], old(schema), columns)
      ensures error != None ==> schema == old(schema) && data == old(data)
    {
      if |columns| != |schema| { return Some(ValueError); }
      var newData: seq<Row> := [];
      for i := 0 to |data|
        invariant |newData| == i && schema == old(schema) && data == old(data)
        invariant forall k :: 0 <= k < i ==>
                    && Columns(schema) <= data[k].Keys && newData[k] == Rename(data[k], schema, columns)
                    && newData[k].Keys == Columns(columns)
      {
        if !(Columns(schema) <= data[i].Keys) { return Some(KeyError); }
        newData := newData + [Rename(data[i], schema, columns)];
      }
      schema := columns;
      data := newData;
      error := None;
    }
  }

  /** The keys of a dictionary, in whatever order they were inserted. */
  method KeysInOrder(keys: set<string>) returns (order: seq<string>)
    ensures Columns(order) == keys && |order| == |keys|
  {
    order := [];
    var todo := keys;
    while todo != {}
      invariant todo <= keys && Columns(order) == keys - todo && |order| == |keys| - |todo|
      decreases todo
    {
      var key :| key in todo;
      ColumnsSnoc(order, key);
      order := order + [key];
      todo := todo - {key};
    }
  }

  lemma ColumnsSnoc(order: seq<string>, key: string)
    ensures Columns(order + [key]) == Columns(order) + {key}
  {
    var longer := order + [key];
    assert longer[|order|] == key;
    forall c | c in Columns(order)
      ensures c in Columns(longer)
    {
      var i :| 0 <= i < |order| && order[i] == c;
      assert longer[i] == c;
    }
  }

  lemma ColumnsOfNone(schema: seq<string>)
    ensures Columns(schema) == {} <==> schema == []
  {
    if schema != [] { assert schema[0] in Columns(schema); }
  }

  // ---------------------------------------------------------------- making a table

  /** `TableData(items)`. */
  method FromRecords(items: seq<Item>) returns (r: Outcome<TableData, Error>)
    ensures r.Ok? <==> Accepted(items)
    ensures r.Raise? ==> r.error == ValueError
    ensures r.Ok? ==>
              && fresh(r.value) && r.value.data == RowsOf(items)
              && (r.value.Conforms() <==> |items| <= 1 || items[0].row.Keys != {})
              && Columns(r.value.schema) == if items == [] then {} else Expected(items)
  {
    var table := new TableData();
    for i := 0 to |items|
      invariant AreRecords(items[..i]) && table.data == RowsOf(items[..i])
      invariant Columns(table.schema) == if i == 0 then {} else Expected(items[..i])
      invariant Accepted(items[..i])
    {
      if items[i].Tuple? {
        assert !AreRecords(items);
        return Raise(ValueError);
      }
      assert items[..i + 1] == items[..i] + [items[i]];
      if i == 0 {
        table.schema := KeysInOrder(items[0].row.Keys);
      } else {
        var error := table.ValidateItem(items[i]);
        if error != None {
          ColumnsOfNone(table.schema);
          assert AreRecords(items) ==> items[i].row.Keys != Expected(items) || Expected(items) == {};
          return Raise(ValueError);
        }
      }
      table.data := table.data + [items[i].row];
    }
    assert items[..|items|] == items;
    if items != [] { assert table.data[0] == items[0].row; }
    r := Ok(table);
  }

  /** `TableData(items, columns)`: the items are zipped with the columns, of which each
      needs a value. */
  method FromTuples(items: seq<Item>, columns: seq<string>) returns (r: Outcome<TableData, Error>)
    requires columns != []
    ensures r.Ok? <==> AreFullTuples(items, columns)
    ensures r.Raise? ==> r.error == ValueError
    ensures r.Ok? ==>
              && fresh(r.value) && r.value.Conforms() && |r.value.data| == |items|
              && (forall i :: 0 <= i < |items| ==> r.value.data[i] == Zip(columns, items[i].cells))
              && r.value.schema == if items == [] then [] else columns
  {
    var table := new TableData();
    if items == [] { return Ok(table); }
    table.schema := columns;
    assert columns[0] in Columns(columns);
    for i := 0 to |items|
      invariant table.schema == columns && |table.data| == i
      invariant forall k :: 0 <= k < i ==>
                  items[k].Tuple? && table.data[k] == Zip(columns, items[k].cells)
                  && table.data[k].Keys == Columns(columns)
    {
      if items[i].Record? { return Raise(ValueError); }
      var row := Zip(columns, items[i].cells);
      var error := table.ValidateItem(Record(row));
      if error != None { return Raise(ValueError); }
      table.data := table.data + [row];
    }
    r := Ok(table);
  }

  // ---------------------------------------------------------------- renaming columns

  ghost predicate Distinct(columns: seq<string>) {
    forall i, j :: 0 <= i < j < |columns| ==> columns[i] != columns[j]
  }

  /** Columns that get the same name hold the same cell. */
  ghost predicate NothingHidden(cells: seq<string>, names: seq<string>)
    requires |cells| == |names|
  {
    forall i, j :: 0 <= i < |names| && 0 <= j < |names| && names[i] == names[j] ==> cells[i] == cells[j]
  }

  lemma ZipThenCells(columns: seq<string>, cells: seq<string>)
    requires |columns| == |cells|
    ensures Columns(columns) == Zip(columns, cells).Keys
    ensures Cells(Zip(columns, cells), columns) == cells <==> NothingHidden(cells, columns)
  {
  }

  lemma CellsThenZip(row: Row, columns: seq<string>)
    requires row.Keys == Columns(columns)
    ensures Zip(columns, Cells(row, columns)) == row
  {
  }

  lemma ZipIsInjective(columns: seq<string>, cells: seq<string>, others: seq<string>)
    requires |columns| == |cells| == |others| && Distinct(columns)
    ensures Zip(columns, cells) == Zip(columns, others) <==> cells == others
  {
    assert NothingHidden(cells, columns) && NothingHidden(others, columns);
    ZipThenCells(columns, cells);
    ZipThenCells(columns, others);
  }

  lemma RenameIsZip(row: Row, from: seq<string>, to: seq<string>)
    requires |from| == |to| && Columns(from) <= row.Keys
    ensures Rename(row, from, to) == Zip(to, Cells(row, from))
  {
  }

  /** Renaming back restores a row exactly when columns that were given the same name hold
      the same value. */
  lemma RenameBack(row: Row, from: seq<string>, to: seq<string>)
    requires |from| == |to| && row.Keys == Columns(from) && Distinct(from)
    ensures Rename(Rename(row, from, to), to, from) == row <==> NothingHidden(Cells(row, from), to)
  {
    var cells := Cells(row, from);
    var there := Rename(row, from, to);
    RenameIsZip(row, from, to);
    RenameIsZip(there, to, from);
    ZipThenCells(to, cells);
    CellsThenZip(row, from);
    ZipIsInjective(from, cells, Cells(there, to));
  }
}
