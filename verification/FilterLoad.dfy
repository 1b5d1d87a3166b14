// The end of Table::from_csv (src/build_table.cpp): the rows of a loaded table that a filter selects
// become pages.
module FilterLoad {
  import opened Options
  import opened NullBitmap
  import opened PageBytes
  import opened Tables
  import opened Late
  import opened InnerColumns
  import opened Statements
  import FixedInserter
  import StringInserter
  import Materialize
  import FixedColumn
  import VarcharColumn

  // The rows whose bit is set.
  ghost function Kept(results: Bitmap, n: nat): (r: seq<nat>)
    requires BytesFor(n) <= |results|
    ensures forall k :: 0 <= k < |r| ==> r[k] < n
  {
    if n == 0 then [] else Kept(results, n - 1) + (if Bit(results, n - 1) then [n - 1] else [])
  }

  // The values of these rows.
  ghost function Picked(fields: seq<Field>, rows: seq<nat>): (r: seq<Field>)
    ensures |r| == |rows|
    ensures forall k :: 0 <= k < |rows| && rows[k] < |fields| ==> r[k] == fields[rows[k]]
  {
    seq(|rows|, k requires 0 <= k < |rows| => if rows[k] < |fields| then fields[rows[k]] else Field.Null)
  }

  ghost function BytesOf(fields: seq<Field>): (r: seq<Option<Bytes>>)
    ensures |r| == |fields| && forall k :: 0 <= k < |fields| ==> r[k] == Materialize.FieldBytes(fields[k])
  {
    seq(|fields|, k requires 0 <= k < |fields| => Materialize.FieldBytes(fields[k]))
  }

  lemma PickNext(fields: seq<Field>, results: Bitmap, i: nat)
    requires BytesFor(i + 1) <= |results| && i < |fields|
    ensures BytesOf(Picked(fields, Kept(results, i + 1)))
         == BytesOf(Picked(fields, Kept(results, i))) + (if Bit(results, i) then [Materialize.FieldBytes(fields[i])] else [])
    ensures |Kept(results, i + 1)| == |Kept(results, i)| + (if Bit(results, i) then 1 else 0)
  {
  }

  // from_inner_to_column<int32_t>: the pages written and the number of rows kept
  method FromInts(c: IntColumn, results: Bitmap, rows: nat, ghost fields: seq<Field>) returns (pages: seq<Bytes>, ret: nat)
    requires ColumnIs(Ints(c), fields) && |fields| == rows && |results| == BytesFor(rows)
    ensures FixedColumn.ColumnOk(4, pages)
    ensures FixedColumn.ColumnRows(4, pages) == BytesOf(Picked(fields, Kept(results, rows)))
    ensures ret == |Kept(results, rows)|
  {
    hide FixedInserter.ColumnInserter.Valid, FixedColumn.ColumnOk, FixedColumn.ColumnRows, Bit, Kept, I32Bytes;
    var column := new FixedInserter.Column();
    var inserter := new FixedInserter.ColumnInserter(column);
    ret := 0;
    KeptNone(fields, results);
    for i := 0 to rows
      invariant inserter.Valid() && fresh(inserter) && fresh(inserter.bitmap) && inserter.column == column && fresh(column)
      invariant forall k :: 0 <= k < |column.pages| ==> fresh(column.pages[k])
      invariant inserter.values == BytesOf(Picked(fields, Kept(results, i))) && ret == |Kept(results, i)|
    {
      PickNext(fields, results, i);
      if Bit(results, i) {
        ghost var before := column.pages;
        if Bit(c.bitmap, i) {
          assert c.Values()[i] == Some(c.data[i]);
          inserter.Insert(I32Bytes(c.data[i]));
        } else {
          assert c.Values()[i] == None;
          inserter.InsertNull();
        }
        forall k | 0 <= k < |column.pages|
          ensures fresh(column.pages[k])
        {
          assert column.pages[k] in column.pages;
        }
        ret := ret + 1;
      }
    }
    inserter.Finalize();
    pages := Materialize.Snapshot(column.pages, inserter.saved);
  }

  lemma KeptNone(fields: seq<Field>, results: Bitmap)
    ensures Kept(results, 0) == [] && BytesOf(Picked(fields, Kept(results, 0))) == []
  {
  }

  // from_inner_to_column<std::string>
  method FromStrings(c: StringColumn, results: Bitmap, rows: nat, ghost fields: seq<Field>) returns (pages: seq<Bytes>, ret: nat)
    requires ColumnIs(Strings(c), fields) && |fields| == rows && |results| == BytesFor(rows)
    ensures VarcharColumn.ColumnOk(pages)
    ensures VarcharColumn.ColumnRows(pages) == BytesOf(Picked(fields, Kept(results, rows)))
    ensures ret == |Kept(results, rows)|
  {
    hide StringInserter.ColumnInserter.Valid, VarcharColumn.PagesOk, VarcharColumn.Chained, VarcharColumn.ColumnRows, Bit, Kept;
    var column := new FixedInserter.Column();
    var inserter := new StringInserter.ColumnInserter(column);
    ret := 0;
    KeptNone(fields, results);
    for i := 0 to rows
      invariant inserter.Valid() && fresh(inserter) && fresh(inserter.bitmap) && fresh(inserter.data)
      invariant inserter.column == column && fresh(column)
      invariant forall k :: 0 <= k < |column.pages| ==> fresh(column.pages[k])
      invariant inserter.values == BytesOf(Picked(fields, Kept(results, i))) && ret == |Kept(results, i)|
    {
      PickNext(fields, results, i);
      if Bit(results, i) {
        ghost var before := column.pages;
        if Bit(c.bitmap, i) {
          assert c.Values()[i] == Some(c.Get(i));
          inserter.Insert(c.Get(i));
        } else {
          assert c.Values()[i] == None;
          inserter.InsertNull();
        }
        forall k | 0 <= k < |column.pages|
          ensures fresh(column.pages[k])
        {
          assert column.pages[k] in column.pages;
        }
        ret := ret + 1;
      }
    }
    inserter.Finalize();
    pages := Materialize.Snapshot(column.pages, inserter.saved);
  }

  // The numbers below n that are in the set, in ascending order.
  ghost function InOrder(chosen: set<nat>, n: nat): (r: seq<nat>)
    ensures forall k :: 0 <= k < |r| ==> r[k] < n && r[k] in chosen
    ensures forall i: nat :: i < n && i in chosen ==> i in r
    ensures forall k, l :: 0 <= k < l < |r| ==> r[k] < r[l]
  {
    if n == 0 then [] else InOrder(chosen, n - 1) + (if n - 1 in chosen then [n - 1] else [])
  }

  // The rows the filter selects; without a filter, all of them.
  ghost function Wanted(like: (Bytes, Bytes) -> bool, filter: Option<Statement>, types: seq<DataType>, values: seq<seq<Field>>, rows: nat): set<nat>
    requires (filter.Some? ==> Evaluable(filter.value, types)) && forall c :: 0 <= c < |values| ==> |values[c]| == rows
  {
    if filter.None? then AllRows(rows) else Selected(like, filter.value, types, values, rows)
  }

  lemma {:induction false} KeptInOrder(results: Bitmap, chosen: set<nat>, n: nat)
    requires BytesFor(n) <= |results| && forall i: nat :: i < n ==> (Bit(results, i) <==> i in chosen)
    ensures Kept(results, n) == InOrder(chosen, n)
  {
    hide Bit;
    if n > 0 {
      KeptInOrder(results, chosen, n - 1);
    }
  }

  lemma AllOnes(results: Bitmap, n: nat)
    requires |results| == BytesFor(n) && forall b :: 0 <= b < |results| ==> results[b] == 0xff
    ensures forall i :: 0 <= i < n ==> Bit(results, i)
  {
    forall i | 0 <= i < n
      ensures Bit(results, i)
    {
      OnesBit(i % 8);
    }
  }

  lemma OnesBit(k: nat)
    requires k < 8
    ensures HasBit(0xff, k)
  {
  }

  // A plain filter selects the records for which it holds.
  lemma PlainSelects(like: (Bytes, Bytes) -> bool, filter: Statement, types: seq<DataType>, values: seq<seq<Field>>, rows: nat)
    requires Evaluable(filter, types) && Plain(filter, types) && forall c :: 0 <= c < |values| ==> |values[c]| == rows
    ensures forall i: nat :: i < rows ==> (i in Selected(like, filter, types, values, rows) <==> EvalRecord(like, filter, Record(values, i)))
  {
    hide EvalRecord, Narrowed, Plain;
    forall i: nat | i < rows
      ensures i in Selected(like, filter, types, values, rows) <==> EvalRecord(like, filter, Record(values, i))
    {
      NarrowedAgrees(like, filter, types, Record(values, i));
    }
  }

  // Which rows to keep.
  method RunFilter(table: seq<InnerColumn>, filter: Option<Statement>, like: (Bytes, Bytes) -> bool, rows: nat, ghost values: seq<seq<Field>>)
      returns (results: Bitmap)
    requires TableIs(table, values, rows) && (filter.Some? ==> Evaluable(filter.value, Types(table)))
    ensures |results| == BytesFor(rows)
    ensures Kept(results, rows) == InOrder(Wanted(like, filter, Types(table), values, rows), rows)
  {
    hide Bit, EvalRecord, ColumnIs, Selected;
    if filter.Some? {
      results := Statements.Eval(filter.value, table, like, values, rows);
      assert forall i: nat :: i < rows ==> (i in BitRows(results, rows) <==> Bit(results, i));
    } else {
      results := seq((rows + 7) / 8, b => 0xff);
      AllOnes(results, rows);
    }
    KeptInOrder(results, Wanted(like, filter, Types(table), values, rows), rows);
  }

  method FromInner(c: InnerColumn, results: Bitmap, rows: nat, ghost fields: seq<Field>) returns (out: Column, ret: nat)
    requires ColumnIs(c, fields) && |fields| == rows && |results| == BytesFor(rows)
    ensures Scannable(out) && out.dtype == TypeOf(c) && TrueFields(out) == Picked(fields, Kept(results, rows))
    ensures ret == |Kept(results, rows)|
  {
    hide FixedColumn.ColumnOk, FixedColumn.ColumnRows, VarcharColumn.PagesOk, VarcharColumn.Chained, VarcharColumn.ColumnRows, Kept;
    var pages;
    match c {
      case Ints(x) => pages, ret := FromInts(x, results, rows, fields);
      case Strings(x) => pages, ret := FromStrings(x, results, rows, fields);
    }
    out := Column(TypeOf(c), pages);
    FieldsBack(out, Picked(fields, Kept(results, rows)));
  }

  lemma FieldsBack(out: Column, fields: seq<Field>)
    requires Scannable(out) && ColumnRows(out) == BytesOf(fields)
    requires forall k :: 0 <= k < |fields| ==> (if out.dtype == INT32 then !fields[k].Str? else !fields[k].Int?)
    ensures TrueFields(out) == fields
  {
    hide FixedColumn.ColumnOk, FixedColumn.ColumnRows, VarcharColumn.PagesOk, VarcharColumn.Chained, VarcharColumn.ColumnRows, I32, I32Bytes;
    var rows := ColumnRows(out);
    if out.dtype == INT32 {
      CellWidths(out);
    }
    forall k | 0 <= k < |rows|
      ensures TrueFields(out)[k] == fields[k]
    {
      Materialize.FieldBack(fields[k]);
    }
  }

  // The filtered table: every column keeps exactly the rows the filter selects, in order.
  method Load(table: seq<InnerColumn>, filter: Option<Statement>, like: (Bytes, Bytes) -> bool, rows: nat, order: seq<nat>,
              ghost values: seq<seq<Field>>)
      returns (t: ColumnarTable)
    requires TableIs(table, values, rows) && (filter.Some? ==> Evaluable(filter.value, Types(table)))
    requires forall k :: 0 <= k < |order| ==> order[k] < |table|
    requires forall c :: 0 <= c < |table| ==> c in order
    requires forall i, j :: 0 <= i < j < |order| ==> order[i] != order[j]
    ensures var kept := InOrder(Wanted(like, filter, Types(table), values, rows), rows);
      && |t.columns| == |table| && (table != [] ==> t.numRows == |kept|)
      && forall c :: 0 <= c < |table| ==>
        Scannable(t.columns[c]) && t.columns[c].dtype == TypeOf(table[c]) && TrueFields(t.columns[c]) == Picked(values[c], kept)
  {
    hide Scannable, TrueFields, Wanted, InOrder, Kept;
    var results := RunFilter(table, filter, like, rows, values);
    ghost var kept := Kept(results, rows);
    var retRows := 0;
    var columns := seq(|table|, c requires 0 <= c < |table| => Column(TypeOf(table[c]), []));
    for k := 0 to |order|
      invariant |columns| == |table| && (k > 0 ==> retRows == |kept|)
      invariant forall i :: 0 <= i < k ==>
        var c := order[i];
        Scannable(columns[c]) && columns[c].dtype == TypeOf(table[c]) && TrueFields(columns[c]) == Picked(values[c], kept)
    {
      var c := order[k];
      var out, filteredRows := FromInner(table[c], results, rows, values[c]);
      columns := columns[c := out];
      retRows := filteredRows;
    }
    forall c | 0 <= c < |table|
      ensures Scannable(columns[c]) && columns[c].dtype == TypeOf(table[c]) && TrueFields(columns[c]) == Picked(values[c], kept)
    {
      assert c in order;
      var i :| 0 <= i < |order| && order[i] == c;
    }
    if table != [] {
      assert 0 in order;
    }
    t := ColumnarTable(retRows, columns);
  }
}
