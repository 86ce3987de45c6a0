/** The rows of two tables that differ, such as the containers of two moments. */
module TableDifference {
  import opened Prelude
  import opened Tables

  const STATE := "same_state"
  const NAME := "container_name"

  // ---------------------------------------------------------------- what the difference is

  ghost predicate Lists(order: seq<Row>, rows: set<Row>) {
    && (forall row :: row in rows <==> row in order)
    && forall i, j :: 0 <= i < j < |order| ==> order[i] != order[j]
  }

  function RowsIn(rows: seq<Row>): set<Row> {
    set row | row in rows
  }

  function Tag(row: Row, state: string): Row {
    row[STATE := state]
  }

  function TagAll(rows: seq<Row>, state: string): (r: seq<Row>) {
    seq(|rows|, i requires 0 <= i < |rows| => Tag(rows[i], state))
  }

  /** Whether rows of a state are asked for. */
  predicate Wanted(state: string, which: Option<string>) {
    match which
    case None => state != "both"
    case Some(asked) => state == asked
  }

  predicate Ignored(row: Row, ignored: seq<string>) {
    NAME in row && exists k :: 0 <= k < |ignored| && IsSubstring(ignored[k], row[NAME])
  }

  function Remaining(rows: set<Row>, ignored: seq<string>): set<Row> {
    set row | row in rows && !Ignored(row, ignored)
  }

  /** The rows of one state that are shown, each tagged with it once. */
  ghost predicate Part(rows: set<Row>, state: string, which: Option<string>, ignored: seq<string>, part: seq<Row>) {
    if Wanted(state, which) then
      exists order :: Lists(order, Remaining(rows, ignored)) && part == TagAll(order, state)
    else part == []
  }

  /** A difference of two sets of rows, in any order within each part. */
  ghost predicate IsDifference(a: set<Row>, b: set<Row>, which: Option<string>, ignored: seq<string>, diff: seq<Row>) {
    exists x, y, z ::
      && Part(a * b, "both", which, ignored, x)
      && Part(a - b, "left_only", which, ignored, y)
      && Part(b - a, "right_only", which, ignored, z)
      && diff == x + y + z
  }

  /** The rows from which the ignored ones are removed. */
  function Asked(a: set<Row>, b: set<Row>, which: Option<string>): set<Row> {
    (if Wanted("both", which) then a * b else {})
    + (if Wanted("left_only", which) then a - b else {})
    + (if Wanted("right_only", which) then b - a else {})
  }

  // ---------------------------------------------------------------- filters

  function Kept(rows: seq<Row>, ignored: seq<string>): seq<Row> {
    if rows == [] then []
    else
      var last := rows[|rows| - 1];
      var kept := Kept(rows[..|rows| - 1], ignored);
      if Ignored(last, ignored) then kept else kept + [last]
  }

  function OfState(rows: seq<Row>, which: Option<string>): seq<Row> {
    if rows == [] then []
    else
      var last := rows[|rows| - 1];
      var init := OfState(rows[..|rows| - 1], which);
      if STATE in last && Wanted(last[STATE], which) then init + [last] else init
  }

  lemma {:induction false} KeptLists(order: seq<Row>, rows: set<Row>, ignored: seq<string>)
    requires Lists(order, rows)
    ensures Lists(Kept(order, ignored), Remaining(rows, ignored))
  {
    if order == [] {
    } else {
      var n := |order| - 1;
      var last := order[n];
      assert order == order[..n] + [last];
      KeptLists(order[..n], rows - {last}, ignored);
      assert Remaining(rows - {last}, ignored) == Remaining(rows, ignored) - {last};
    }
  }

  lemma {:induction false} KeptOfTagged(rows: seq<Row>, state: string, ignored: seq<string>)
    ensures Kept(TagAll(rows, state), ignored) == TagAll(Kept(rows, ignored), state)
  {
    if rows == [] {
    } else {
      var n := |rows| - 1;
      KeptOfTagged(rows[..n], state, ignored);
      assert TagAll(rows, state)[..n] == TagAll(rows[..n], state);
      assert Ignored(Tag(rows[n], state), ignored) <==> Ignored(rows[n], ignored);
    }
  }

  lemma {:induction false} KeptConcat(x: seq<Row>, y: seq<Row>, ignored: seq<string>)
    ensures Kept(x + y, ignored) == Kept(x, ignored) + Kept(y, ignored)
  {
    if y == [] {
      assert x + y == x;
    } else {
      var n := |y| - 1;
      assert (x + y)[..|x + y| - 1] == x + y[..n];
      KeptConcat(x, y[..n], ignored);
    }
  }

  lemma {:induction false} OfStateTagged(rows: seq<Row>, state: string, which: Option<string>)
    ensures OfState(TagAll(rows, state), which) == if Wanted(state, which) then TagAll(rows, state) else []
  {
    if rows == [] {
    } else {
      var n := |rows| - 1;
      OfStateTagged(rows[..n], state, which);
      assert TagAll(rows, state)[..n] == TagAll(rows[..n], state);
    }
  }

  lemma {:induction false} OfStateConcat(x: seq<Row>, y: seq<Row>, which: Option<string>)
    ensures OfState(x + y, which) == OfState(x, which) + OfState(y, which)
  {
    if y == [] {
      assert x + y == x;
    } else {
      var n := |y| - 1;
      assert (x + y)[..|x + y| - 1] == x + y[..n];
      OfStateConcat(x, y[..n], which);
    }
  }

  /** Selecting and then dropping the ignored rows gives one part for each state. */
  lemma PartOf(order: seq<Row>, rows: set<Row>, state: string, which: Option<string>, ignored: seq<string>)
    requires Lists(order, rows)
    ensures Part(rows, state, which, ignored, Kept(OfState(TagAll(order, state), which), ignored))
  {
    OfStateTagged(order, state, which);
    KeptLists(order, rows, ignored);
    KeptOfTagged(order, state, ignored);
  }

  function Tagged(both: seq<Row>, left: seq<Row>, right: seq<Row>): seq<Row> {
    TagAll(both, "both") + TagAll(left, "left_only") + TagAll(right, "right_only")
  }

  lemma PartsMakeDifference(a: set<Row>, b: set<Row>, which: Option<string>, ignored: seq<string>,
                            both: seq<Row>, left: seq<Row>, right: seq<Row>)
    requires Lists(both, a * b) && Lists(left, a - b) && Lists(right, b - a)
    ensures IsDifference(a, b, which, ignored, Kept(OfState(Tagged(both, left, right), which), ignored))
  {
    var x, y, z := TagAll(both, "both"), TagAll(left, "left_only"), TagAll(right, "right_only");
    OfStateConcat(x + y, z, which);
    OfStateConcat(x, y, which);
    KeptConcat(OfState(x + y, which), OfState(z, which), ignored);
    KeptConcat(OfState(x, which), OfState(y, which), ignored);
    PartOf(both, a * b, "both", which, ignored);
    PartOf(left, a - b, "left_only", which, ignored);
    PartOf(right, b - a, "right_only", which, ignored);
  }

  // ---------------------------------------------------------------- the code

  /** All rows have the same columns, and some. */
  ghost predicate Alike(rows: seq<Row>) {
    forall i :: 0 <= i < |rows| ==> rows[i].Keys == rows[0].Keys && rows[i].Keys != {}
  }

  method IsIgnored(row: Row, ignored: seq<string>) returns (r: Outcome<bool, Error>)
    ensures r.Raise? <==> ignored != [] && NAME !in row
    ensures r.Raise? ==> r.error == KeyError
    ensures r.Ok? ==> r.value == Ignored(row, ignored)
  {
    for k := 0 to |ignored|
      invariant k > 0 ==> NAME in row
      invariant forall j :: 0 <= j < k ==> !IsSubstring(ignored[j], row[NAME])
    {
      if NAME !in row { return Raise(KeyError); }
      if IsSubstring(ignored[k], row[NAME]) { return Ok(true); }
    }
    r := Ok(false);
  }

  /** `remove_containers_from_comparison`; `ignored` is the topology's list. */
  method RemoveContainers(table: TableData, ignored: seq<string>) returns (r: Outcome<TableData, Error>)
    ensures r.Ok? ==> fresh(r.value) && r.value.data == Kept(table.data, ignored)
    ensures Alike(table.data) ==>
              && (r.Raise? <==> ignored != [] && table.data != [] && NAME !in table.data[0])
              && (r.Raise? ==> r.error == KeyError)
              && (r.Ok? ==> r.value.Conforms())
  {
    var final := new TableData();
    for i := 0 to |table.data|
      invariant fresh(final) && final.data == Kept(table.data[..i], ignored)
      invariant final.schema == [] <==> final.data == []
      invariant Alike(table.data) ==>
                  && final.Conforms() && (i > 0 && ignored != [] ==> NAME in table.data[0])
                  && (final.schema != [] ==> Columns(final.schema) == table.data[0].Keys)
    {
      assert table.data[..i + 1] == table.data[..i] + [table.data[i]];
      var skip := IsIgnored(table.data[i], ignored);
      if skip.Raise? { return Raise(skip.error); }
      if !skip.value {
        var error := final.Append(Record(table.data[i]));
        if error != None { return Raise(error.value); }
      }
    }
    assert table.data[..|table.data|] == table.data;
    r := Ok(final);
  }

  /** One loop over the keys of a set of rows. */
  method AddRows(rows: set<Row>, state: string, result: seq<Row>) returns (longer: seq<Row>, ghost order: seq<Row>)
    ensures Lists(order, rows) && longer == result + TagAll(order, state)
    ensures |longer| == |result| + |rows|
  {
    longer, order := result, [];
    var todo := rows;
    while todo != {}
      invariant todo <= rows && Lists(order, rows - todo) && longer == result + TagAll(order, state)
      invariant |order| + |todo| == |rows|
      decreases todo
    {
      var row :| row in todo;
      todo := todo - {row};
      assert TagAll(order + [row], state) == TagAll(order, state) + [Tag(row, state)];
      longer := longer + [row[STATE := state]];
      order := order + [row];
    }
  }

  method SelectRows(rows: seq<Row>, which: Option<string>) returns (selected: seq<Row>)
    requires forall i :: 0 <= i < |rows| ==> STATE in rows[i]
    ensures selected == OfState(rows, which)
  {
    selected := [];
    for i := 0 to |rows|
      invariant selected == OfState(rows[..i], which)
    {
      assert rows[..i + 1] == rows[..i] + [rows[i]];
      if Wanted(rows[i][STATE], which) {
        selected := selected + [rows[i]];
      }
    }
    assert rows[..|rows|] == rows;
  }

  function Records(rows: seq<Row>): seq<Item> {
    seq(|rows|, i requires 0 <= i < |rows| => Record(rows[i]))
  }

  lemma AlikeIsAccepted(rows: seq<Row>)
    ensures Alike(rows) ==> Accepted(Records(rows))
    ensures RowsOf(Records(rows)) == rows
  {
    var items := Records(rows);
    assert AreRecords(items);
    if Alike(rows) && rows != [] {
      assert Expected(items) == rows[0].Keys;
    }
  }

  method TableOf(rows: seq<Row>) returns (r: Outcome<TableData, Error>)
    ensures r.Ok? ==> fresh(r.value) && r.value.data == rows
    ensures Alike(rows) ==> r.Ok?
  {
    AlikeIsAccepted(rows);
    r := FromRecords(Records(rows));
  }

  lemma TaggedHaveState(both: seq<Row>, left: seq<Row>, right: seq<Row>)
    ensures forall row :: row in Tagged(both, left, right) ==> STATE in row
  {
  }

  /** Columns of the tagged rows of two tables that keep their promise. */
  lemma TaggedAreAlike(td1: TableData, td2: TableData, both: seq<Row>, left: seq<Row>, right: seq<Row>)
    requires td1.schema == td2.schema && td1.Conforms() && td2.Conforms()
    requires var a, b := RowsIn(td1.data), RowsIn(td2.data);
             Lists(both, a * b) && Lists(left, a - b) && Lists(right, b - a)
    ensures forall row :: row in Tagged(both, left, right) ==> row.Keys == Columns(td1.schema) + {STATE}
    ensures Alike(Tagged(both, left, right))
  {
    var a, b := RowsIn(td1.data), RowsIn(td2.data);
    assert forall row: Row :: row in a + b ==> row.Keys == Columns(td1.schema);
    forall order: seq<Row>, state: string, row: Row | Lists(order, a * b) || Lists(order, a - b) || Lists(order, b - a)
      ensures row in TagAll(order, state) ==> row.Keys == Columns(td1.schema) + {STATE}
    {
      if row in TagAll(order, state) {
        var i :| 0 <= i < |order| && row == Tag(order[i], state);
        assert order[i] in order;
      }
    }
  }

  lemma {:induction false} OfStateIsAlike(rows: seq<Row>, which: Option<string>, keys: set<string>)
    requires forall row :: row in rows ==> row.Keys == keys
    requires keys != {}
    ensures forall row :: row in OfState(rows, which) ==> row.Keys == keys
    ensures Alike(OfState(rows, which))
  {
    if rows == [] {
    } else {
      var n := |rows| - 1;
      OfStateIsAlike(rows[..n], which, keys);
      assert rows == rows[..n] + [rows[n]];
      var selected := OfState(rows, which);
      forall row | row in selected
        ensures row.Keys == keys
      {
      }
    }
  }

  lemma SelectedIffAsked(a: set<Row>, b: set<Row>, which: Option<string>, both: seq<Row>, left: seq<Row>, right: seq<Row>)
    requires Lists(both, a * b) && Lists(left, a - b) && Lists(right, b - a)
    ensures OfState(Tagged(both, left, right), which) == [] <==> Asked(a, b, which) == {}
  {
    var x, y, z := TagAll(both, "both"), TagAll(left, "left_only"), TagAll(right, "right_only");
    OfStateConcat(x + y, z, which);
    OfStateConcat(x, y, which);
    OfStateTagged(both, "both", which);
    OfStateTagged(left, "left_only", which);
    OfStateTagged(right, "right_only", which);
    ListsNothing(both, a * b);
    ListsNothing(left, a - b);
    ListsNothing(right, b - a);
  }

  lemma ListsNothing(order: seq<Row>, rows: set<Row>)
    requires Lists(order, rows)
    ensures order == [] <==> rows == {}
  {
    if order != [] { assert order[0] in rows; }
  }

  /** The three loops that tag the rows of both tables. */
  method TagRows(td1: TableData, td2: TableData) returns (result: seq<Row>, ghost both: seq<Row>, ghost left: seq<Row>, ghost right: seq<Row>)
    ensures Lists(both, RowsIn(td1.data) * RowsIn(td2.data))
    ensures Lists(left, RowsIn(td1.data) - RowsIn(td2.data)) && Lists(right, RowsIn(td2.data) - RowsIn(td1.data))
    ensures result == Tagged(both, left, right) && forall i :: 0 <= i < |result| ==> STATE in result[i]
    ensures td1.schema == td2.schema && td1.Conforms() && td2.Conforms() ==>
              Alike(result) && forall row :: row in result ==> row.Keys == Columns(td1.schema) + {STATE}
  {
    var rows1, rows2 := RowsIn(td1.data), RowsIn(td2.data);
    result := [];
    result, both := AddRows(rows1 * rows2, "both", result);
    result, left := AddRows(rows1 - rows2, "left_only", result);
    result, right := AddRows(rows2 - rows1, "right_only", result);
    assert result == Tagged(both, left, right);
    TaggedHaveState(both, left, right);
    if td1.schema == td2.schema && td1.Conforms() && td2.Conforms() {
      TaggedAreAlike(td1, td2, both, left, right);
    }
  }

  method TableDataDifference(td1: TableData, td2: TableData, which: Option<string>, ignored: seq<string>)
      returns (r: Outcome<TableData, Error>)
    ensures td1.schema != td2.schema ==> r == Raise(ValueError)
    ensures r.Ok? ==> fresh(r.value) && IsDifference(RowsIn(td1.data), RowsIn(td2.data), which, ignored, r.value.data)
    ensures td1.schema == td2.schema && td1.Conforms() && td2.Conforms() ==>
              && (r.Raise? ==> r.error == KeyError)
              && (r.Raise? <==> ignored != [] && NAME !in Columns(td1.schema)
                                && Asked(RowsIn(td1.data), RowsIn(td2.data), which) != {})
              && (r.Ok? ==> r.value.Conforms())
  {
    if td1.schema != td2.schema { return Raise(ValueError); }
    var result; ghost var both, left, right;
    result, both, left, right := TagRows(td1, td2);
    var comparison := TableOf(result);
    if comparison.Raise? { return Raise(comparison.error); }
    var selected := SelectRows(result, which);
    var diff := TableOf(selected);
    if td1.Conforms() && td2.Conforms() {
      OfStateIsAlike(result, which, Columns(td1.schema) + {STATE});
    }
    if diff.Raise? { return Raise(diff.error); }
    r := RemoveContainers(diff.value, ignored);
    PartsMakeDifference(RowsIn(td1.data), RowsIn(td2.data), which, ignored, both, left, right);
    SelectedIffAsked(RowsIn(td1.data), RowsIn(td2.data), which, both, left, right);
  }

  // ---------------------------------------------------------------- what a difference tells

  /** Without a choice of state, nothing is left exactly when every row that is not ignored
      occurs in both tables. */
  lemma EmptyIffAgree(a: set<Row>, b: set<Row>, ignored: seq<string>, diff: seq<Row>)
    requires IsDifference(a, b, None, ignored, diff)
    ensures diff == [] <==> forall row :: row in a + b && !Ignored(row, ignored) ==> row in a * b
  {
    var x, y, z :| Part(a * b, "both", None, ignored, x) && Part(a - b, "left_only", None, ignored, y)
                   && Part(b - a, "right_only", None, ignored, z) && diff == x + y + z;
    var left :| Lists(left, Remaining(a - b, ignored)) && y == TagAll(left, "left_only");
    var right :| Lists(right, Remaining(b - a, ignored)) && z == TagAll(right, "right_only");
    ListsNothing(left, Remaining(a - b, ignored));
    ListsNothing(right, Remaining(b - a, ignored));
    assert diff == [] <==> Remaining(a - b, ignored) + Remaining(b - a, ignored) == {};
    if diff == [] {
      forall row | row in a + b && !Ignored(row, ignored)
        ensures row in a * b
      {
        assert row !in Remaining(a - b, ignored) && row !in Remaining(b - a, ignored);
      }
    }
  }

  lemma {:induction false} ListsSize(order: seq<Row>, rows: set<Row>)
    requires Lists(order, rows)
    ensures |order| == |rows|
  {
    if order != [] {
      var n := |order| - 1;
      assert order == order[..n] + [order[n]];
      ListsSize(order[..n], rows - {order[n]});
    } else {
      ListsNothing(order, rows);
    }
  }

  /** Each distinct row that only one table has, and that is not ignored, gives one row. */
  lemma DifferenceSize(a: set<Row>, b: set<Row>, ignored: seq<string>, diff: seq<Row>)
    requires IsDifference(a, b, None, ignored, diff)
    ensures |diff| == |Remaining(a - b, ignored)| + |Remaining(b - a, ignored)|
  {
    var x, y, z :| Part(a * b, "both", None, ignored, x) && Part(a - b, "left_only", None, ignored, y)
                   && Part(b - a, "right_only", None, ignored, z) && diff == x + y + z;
    var left :| Lists(left, Remaining(a - b, ignored)) && y == TagAll(left, "left_only");
    var right :| Lists(right, Remaining(b - a, ignored)) && z == TagAll(right, "right_only");
    ListsSize(left, Remaining(a - b, ignored));
    ListsSize(right, Remaining(b - a, ignored));
  }

  lemma ListsWithout(order: seq<Row>, rows: set<Row>, row: Row) returns (k: nat)
    requires Lists(order, rows) && row in rows
    ensures k < |order| && order[k] == row && Lists(order[..k] + order[k + 1..], rows - {row})
  {
    k :| k < |order| && order[k] == row;
    assert order == order[..k] + [row] + order[k + 1..];
  }

  lemma TagAllWithout(order: seq<Row>, k: nat, state: string)
    requires k < |order|
    ensures multiset(TagAll(order, state))
            == multiset(TagAll(order[..k] + order[k + 1..], state)) + multiset{Tag(order[k], state)}
  {
    var before, after := TagAll(order[..k], state), TagAll(order[k + 1..], state);
    assert TagAll(order, state) == before + [Tag(order[k], state)] + after;
    assert TagAll(order[..k] + order[k + 1..], state) == before + after;
  }

  lemma {:induction false} TaggedOnce(order: seq<Row>, others: seq<Row>, rows: set<Row>, state: string)
    requires Lists(order, rows) && Lists(others, rows)
    ensures multiset(TagAll(order, state)) == multiset(TagAll(others, state))
    decreases |order|
  {
    ListsNothing(order, rows);
    ListsNothing(others, rows);
    if order == [] {
    } else {
      var row := order[0];
      var i := ListsWithout(order, rows, row);
      var k := ListsWithout(others, rows, row);
      TaggedOnce(order[..i] + order[i + 1..], others[..k] + others[k + 1..], rows - {row}, state);
      TagAllWithout(order, i, state);
      TagAllWithout(others, k, state);
    }
  }

  lemma PartIsUnique(rows: set<Row>, state: string, which: Option<string>, ignored: seq<string>, x: seq<Row>, y: seq<Row>)
    requires Part(rows, state, which, ignored, x) && Part(rows, state, which, ignored, y)
    ensures multiset(x) == multiset(y)
  {
    if Wanted(state, which) {
      var order :| Lists(order, Remaining(rows, ignored)) && x == TagAll(order, state);
      var others :| Lists(others, Remaining(rows, ignored)) && y == TagAll(others, state);
      TaggedOnce(order, others, Remaining(rows, ignored), state);
    }
  }

  /** Only the sets of rows count: not their order, not how often a row is repeated. */
  lemma DifferenceIsUnique(a: set<Row>, b: set<Row>, which: Option<string>, ignored: seq<string>, d: seq<Row>, e: seq<Row>)
    requires IsDifference(a, b, which, ignored, d) && IsDifference(a, b, which, ignored, e)
    ensures multiset(d) == multiset(e)
  {
    var x, y, z :| Part(a * b, "both", which, ignored, x) && Part(a - b, "left_only", which, ignored, y)
                   && Part(b - a, "right_only", which, ignored, z) && d == x + y + z;
    var u, v, w :| Part(a * b, "both", which, ignored, u) && Part(a - b, "left_only", which, ignored, v)
                   && Part(b - a, "right_only", which, ignored, w) && e == u + v + w;
    PartIsUnique(a * b, "both", which, ignored, x, u);
    PartIsUnique(a - b, "left_only", which, ignored, y, v);
    PartIsUnique(b - a, "right_only", which, ignored, z, w);
  }

  /** Some ignored text is part of the name of the row's container. */
  ghost predicate NameHas(row: Row, ignored: seq<string>) {
    exists k, before, after ::
      0 <= k < |ignored| && "container_name" in row && IsInside(row["container_name"], before, ignored[k], after)
  }

  lemma IgnoredIffNamed(row: Row, ignored: seq<string>)
    ensures Ignored(row, ignored) <==> NameHas(row, ignored)
  {
    if NAME in row {
      forall k | 0 <= k < |ignored|
        ensures IsSubstring(ignored[k], row[NAME]) <==> exists before, after :: IsInside(row[NAME], before, ignored[k], after)
      {
        SubstringIffInside(ignored[k], row[NAME]);
      }
    }
  }

  /** A row of the first or second table that is shown as `row`. */
  ghost predicate ShownAs(a: set<Row>, b: set<Row>, which: Option<string>, plain: Row, row: Row) {
    || (plain in a && plain in b && row == plain["same_state" := "both"] && which == Some("both"))
    || (plain in a && plain !in b && row == plain["same_state" := "left_only"] && (which == None || which == Some("left_only")))
    || (plain !in a && plain in b && row == plain["same_state" := "right_only"] && (which == None || which == Some("right_only")))
  }

  lemma PartRows(rows: set<Row>, state: string, which: Option<string>, ignored: seq<string>, part: seq<Row>, row: Row)
    requires Part(rows, state, which, ignored, part)
    ensures row in part <==>
              Wanted(state, which) && exists plain :: plain in Remaining(rows, ignored) && row == Tag(plain, state)
  {
    if Wanted(state, which) {
      var order :| Lists(order, Remaining(rows, ignored)) && part == TagAll(order, state);
      if row in part {
        var i :| 0 <= i < |part| && part[i] == row;
        assert order[i] in order;
      }
      if plain :| plain in Remaining(rows, ignored) && row == Tag(plain, state) {
        var i :| 0 <= i < |order| && order[i] == plain;
        assert part[i] == row;
      }
    }
  }

  /** The rows of a difference: those of both tables when they are asked for, those of one
      table unless something else is asked for, each with its state, but not the ignored ones. */
  lemma DifferenceRows(a: set<Row>, b: set<Row>, which: Option<string>, ignored: seq<string>, diff: seq<Row>, row: Row)
    requires IsDifference(a, b, which, ignored, diff)
    ensures row in diff <==> exists plain :: ShownAs(a, b, which, plain, row) && !NameHas(plain, ignored)
  {
    var x, y, z :| Part(a * b, "both", which, ignored, x) && Part(a - b, "left_only", which, ignored, y)
                   && Part(b - a, "right_only", which, ignored, z) && diff == x + y + z;
    PartRows(a * b, "both", which, ignored, x, row);
    PartRows(a - b, "left_only", which, ignored, y, row);
    PartRows(b - a, "right_only", which, ignored, z, row);
    forall plain: Row
      ensures Ignored(plain, ignored) <==> NameHas(plain, ignored)
    {
      IgnoredIffNamed(plain, ignored);
    }
    if plain :| ShownAs(a, b, which, plain, row) && !NameHas(plain, ignored) {
      assert plain in Remaining(a * b, ignored) || plain in Remaining(a - b, ignored) || plain in Remaining(b - a, ignored);
    }
  }

  // ---------------------------------------------------------------- applying a difference

  /** The rows of the difference with a tag, without it. */
  function Untagged(diff: seq<Row>, state: string): set<Row> {
    set row | row in diff && STATE in row && row[STATE] == state :: row - {STATE}
  }

  lemma UntaggedParts(x: seq<Row>, y: seq<Row>, state: string)
    ensures Untagged(x + y, state) == Untagged(x, state) + Untagged(y, state)
  {
  }

  lemma UntaggedTagged(order: seq<Row>, rows: set<Row>, state: string, other: string)
    requires Lists(order, rows) && forall row :: row in rows ==> STATE !in row
    ensures Untagged(TagAll(order, state), other) == if state == other then rows else {}
  {
    var tagged := TagAll(order, state);
    forall i | 0 <= i < |order|
      ensures tagged[i] - {STATE} == order[i] && tagged[i][STATE] == state
    {
      assert order[i] in rows;
    }
    if state == other {
      forall row | row in rows
        ensures row in Untagged(tagged, other)
      {
        var i :| 0 <= i < |order| && order[i] == row;
        assert tagged[i] in tagged;
      }
    }
  }

  /** Nothing is lost: when no row is ignored, taking away the rows of the left and adding
      those of the right turns the first table's rows into the second one's. */
  lemma DifferencePatches(a: set<Row>, b: set<Row>, diff: seq<Row>)
    requires IsDifference(a, b, None, [], diff)
    requires forall row :: row in a + b ==> STATE !in row
    ensures a - Untagged(diff, "left_only") + Untagged(diff, "right_only") == b
  {
    var x, y, z :| Part(a * b, "both", None, [], x) && Part(a - b, "left_only", None, [], y)
                   && Part(b - a, "right_only", None, [], z) && diff == x + y + z;
    var left :| Lists(left, Remaining(a - b, [])) && y == TagAll(left, "left_only");
    var right :| Lists(right, Remaining(b - a, [])) && z == TagAll(right, "right_only");
    assert diff == y + z && Remaining(a - b, []) == a - b && Remaining(b - a, []) == b - a;
    UntaggedParts(y, z, "left_only");
    UntaggedParts(y, z, "right_only");
    UntaggedTagged(left, a - b, "left_only", "left_only");
    UntaggedTagged(left, a - b, "left_only", "right_only");
    UntaggedTagged(right, b - a, "right_only", "left_only");
    UntaggedTagged(right, b - a, "right_only", "right_only");
  }
}
