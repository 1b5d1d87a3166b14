// to_columnar_from_column (src/column_store.cpp): the words of a result become pages again.
module Materialize {
  import opened Options
  import opened PageBytes
  import opened ValueWords
  import opened Tables
  import opened LateStrings
  import opened ColumnPages
  import opened Late
  import Scan
  import FixedInserter
  import StringInserter
  import FixedColumn
  import VarcharColumn

  function FieldBytes(f: Field): Option<Bytes> {
    match f
    case Null => None
    case Int(v) => Some(I32Bytes(v))
    case Str(s) => Some(s)
  }

  ghost predicate AllResolvable(inputs: seq<ColumnarTable>, t: DataType, original: seq<Bytes>, words: seq<Word>) {
    forall i :: 0 <= i < |words| ==> Resolvable(inputs, t, original, words[i])
  }

  // The rows that the words of a column stand for.
  ghost function FieldRows(inputs: seq<ColumnarTable>, t: DataType, original: seq<Bytes>, words: seq<Word>): (r: seq<Option<Bytes>>)
    requires AllResolvable(inputs, t, original, words)
    ensures |r| == |words|
    ensures forall i :: 0 <= i < |words| ==> r[i] == FieldBytes(Resolve(inputs, t, original, words[i]))
  {
    seq(|words|, i requires 0 <= i < |words| => FieldBytes(Resolve(inputs, t, original, words[i])))
  }

  // -------- INT32 --------

  method InsertInt(inserter: FixedInserter.ColumnInserter, v: Word, original: seq<Bytes>)
    requires inserter.Valid() && ResolvableInt(original, v)
    modifies inserter, inserter.column, inserter.bitmap, inserter.column.pages
    ensures inserter.Valid() && inserter.values == old(inserter.values) + [FieldBytes(ResolveInt(original, v))]
    ensures forall p :: p in inserter.column.pages ==> p in old(inserter.column.pages) || fresh(p)
  {
    hide I32Bytes, I32, FixedColumn.Pending;
    if IsNull(v) {
      inserter.InsertNull();
    } else if IsInt32(v) {
      inserter.Insert(I32Bytes(GetInt32(v)));
    } else if IsInt32NoNull(v) {
      var value := CellAt(original, v);
      inserter.Insert(I32Bytes(value));
    }
  }

  method MaterializeInts(pages: seq<ColumnPage>, original: seq<Bytes>, ghost inputs: seq<ColumnarTable>) returns (out: seq<Bytes>)
    requires AllValid(pages) && AllResolvable(inputs, INT32, original, Words(pages))
    ensures FixedColumn.ColumnOk(4, out)
    ensures FixedColumn.ColumnRows(4, out) == FieldRows(inputs, INT32, original, Words(pages))
  {
    hide FixedInserter.ColumnInserter.Valid, FixedColumn.ColumnOk, FixedColumn.ColumnRows,
         FieldBytes, ResolveInt, ResolvableInt, Words;
    var column := new FixedInserter.Column();
    var inserter := new FixedInserter.ColumnInserter(column);
    ghost var rows := FieldRows(inputs, INT32, original, Words(pages));
    NoneBefore(pages);
    for pg := 0 to |pages|
      invariant inserter.Valid() && fresh(inserter) && fresh(inserter.bitmap) && inserter.column == column && fresh(column)
      invariant forall k :: 0 <= k < |column.pages| ==> fresh(column.pages[k])
      invariant |Words(pages[..pg])| <= |rows| && inserter.values == rows[..|Words(pages[..pg])|]
    {
      ghost var from := |Words(pages[..pg])|;
      PageOfWords(pages, pg);
      for c := 0 to pages[pg].count
        invariant inserter.Valid() && fresh(inserter) && fresh(inserter.bitmap) && inserter.column == column && fresh(column)
        invariant forall k :: 0 <= k < |column.pages| ==> fresh(column.pages[k])
        invariant inserter.values == rows[..from + c]
      {
        var v := pages[pg].buffer[c];
        assert v == Words(pages)[from + c];
        assert Resolvable(inputs, INT32, original, v);
        ghost var before := column.pages;
        InsertInt(inserter, v, original);
        forall k | 0 <= k < |column.pages|
          ensures fresh(column.pages[k])
        {
          assert column.pages[k] in column.pages;
        }
        assert rows[..from + c + 1] == rows[..from + c] + [rows[from + c]];
      }
    }
    assert pages[..|pages|] == pages && rows[..|rows|] == rows;
    inserter.Finalize();
    out := Snapshot(column.pages, inserter.saved);
  }

  // The bytes of the finished pages.
  method Snapshot(pages: seq<array<bv8>>, ghost saved: seq<Bytes>) returns (out: seq<Bytes>)
    requires |pages| == |saved| && forall i :: 0 <= i < |pages| ==> pages[i][..] == saved[i]
    ensures out == saved
  {
    out := [];
    for i := 0 to |pages|
      invariant out == saved[..i]
    {
      out := out + [pages[i][..]];
    }
    assert saved[..|saved|] == saved;
  }

  // -------- VARCHAR --------

  method InsertString(inserter: StringInserter.ColumnInserter, v: Word, inputs: seq<ColumnarTable>)
    requires inserter.Valid() && ResolvableString(inputs, v)
    modifies inserter, inserter.column, inserter.data, inserter.bitmap, inserter.column.pages
    ensures inserter.Valid() && inserter.values == old(inserter.values) + [FieldBytes(ResolveString(inputs, v))]
    ensures forall p :: p in inserter.column.pages ==> p in old(inserter.column.pages) || fresh(p)
  {
    hide VarcharColumn.PagesOk, StringInserter.OffsetsIn, LongString, ShortString;
    if IsNull(v) {
      inserter.InsertNull();
    } else if IsVarchar(v) {
      var r := GetReference(v);
      var value := ReadReference(inputs[r.table].columns[r.column].pages, r.page, r.pos);
      inserter.Insert(value);
    }
  }

  // The string a reference points at.
  method ReadReference(pages: seq<Bytes>, p: nat, pos: nat) returns (value: Bytes)
    requires VarcharColumn.PagesOk(pages) && LateStrings.Readable(pages, Ref(p, pos))
    ensures value == ReadString(pages, Ref(p, pos))
  {
    hide VarcharColumn.OffsetsOk, U16, LongString;
    var page := pages[p];
    if U16(page, 0) == VarcharColumn.FIRST {
      value := PrintVarchar(pages, p);
    } else {
      var numNonNull := U16(page, 2);
      var length := SearchLength(page, numNonNull, pos);
      var charBegin := 4 + 2 * numNonNull;
      SearchWithin(page, numNonNull, pos);
      value := page[charBegin + pos..charBegin + pos + length];
    }
  }

  lemma SearchWithin(p: Bytes, k: nat, start: nat)
    requires |p| == PAGE_SIZE && VarcharColumn.OffsetsOk(p, k) && start <= VarcharColumn.Off(p, k)
    ensures start <= FirstEnd(p, k, 0, start) && 4 + 2 * k + FirstEnd(p, k, 0, start) <= PAGE_SIZE
  {
  }

  method MaterializeStrings(pages: seq<ColumnPage>, inputs: seq<ColumnarTable>, ghost original: seq<Bytes>) returns (out: seq<Bytes>)
    requires AllValid(pages) && AllResolvable(inputs, VARCHAR, original, Words(pages))
    ensures VarcharColumn.ColumnOk(out)
    ensures VarcharColumn.ColumnRows(out) == FieldRows(inputs, VARCHAR, original, Words(pages))
  {
    hide StringInserter.ColumnInserter.Valid, VarcharColumn.PagesOk, VarcharColumn.Chained, VarcharColumn.ColumnRows,
         FieldBytes, ResolveString, ResolvableString, Words;
    var column := new FixedInserter.Column();
    var inserter := new StringInserter.ColumnInserter(column);
    ghost var rows := FieldRows(inputs, VARCHAR, original, Words(pages));
    NoneBefore(pages);
    for pg := 0 to |pages|
      invariant inserter.Valid() && fresh(inserter) && fresh(inserter.bitmap) && fresh(inserter.data)
      invariant inserter.column == column && fresh(column) && forall k :: 0 <= k < |column.pages| ==> fresh(column.pages[k])
      invariant |Words(pages[..pg])| <= |rows| && inserter.values == rows[..|Words(pages[..pg])|]
    {
      ghost var from := |Words(pages[..pg])|;
      PageOfWords(pages, pg);
      for c := 0 to pages[pg].count
        invariant inserter.Valid() && fresh(inserter) && fresh(inserter.bitmap) && fresh(inserter.data)
        invariant inserter.column == column && fresh(column) && forall k :: 0 <= k < |column.pages| ==> fresh(column.pages[k])
        invariant inserter.values == rows[..from + c]
      {
        var v := pages[pg].buffer[c];
        assert v == Words(pages)[from + c];
        assert Resolvable(inputs, VARCHAR, original, v);
        ghost var before := column.pages;
        InsertString(inserter, v, inputs);
        forall k | 0 <= k < |column.pages|
          ensures fresh(column.pages[k])
        {
          assert column.pages[k] in column.pages;
        }
        assert rows[..from + c + 1] == rows[..from + c] + [rows[from + c]];
      }
    }
    assert pages[..|pages|] == pages && rows[..|rows|] == rows;
    inserter.Finalize();
    out := Snapshot(column.pages, inserter.saved);
  }

  // -------- to_columnar_from_column --------

  ghost predicate ResultOk(inputs: seq<ColumnarTable>, c: ColumnT)
    reads c
  {
    && AllValid(c.pages)
    && (c.dtype == INT32 || c.dtype == VARCHAR ==> AllResolvable(inputs, c.dtype, c.originalPages, Words(c.pages)))
  }

  // The pages of an output column read back as the values its words stand for.
  ghost predicate Materialized(inputs: seq<ColumnarTable>, c: ColumnT, out: Column)
    requires ResultOk(inputs, c) && (c.dtype == INT32 || c.dtype == VARCHAR)
    reads c
  {
    ColumnHolds(out, c.dtype, FieldRows(inputs, c.dtype, c.originalPages, Words(c.pages)))
  }

  method CountRows(pages: seq<ColumnPage>) returns (numRows: nat)
    requires AllValid(pages)
    ensures numRows == |Words(pages)|
  {
    hide Words;
    numRows := 0;
    NoneBefore(pages);
    for i := 0 to |pages|
      invariant numRows == |Words(pages[..i])|
    {
      PageOfWords(pages, i);
      numRows := numRows + pages[i].count;
    }
    assert pages[..|pages|] == pages;
  }

  // ok is false for the "OTHER TYPE FOUND" exception.
  method ToColumnarFromColumn(columns: seq<ColumnT>, inputs: seq<ColumnarTable>) returns (ok: bool, t: ColumnarTable)
    requires |columns| > 0 && forall i :: 0 <= i < |columns| ==> ResultOk(inputs, columns[i])
    ensures ok <==> forall i :: 0 <= i < |columns| ==> columns[i].dtype == INT32 || columns[i].dtype == VARCHAR
    ensures ok ==> ResultOk(inputs, columns[0]) && t.numRows == |Words(columns[0].pages)| && |t.columns| == |columns|
    ensures ok ==> forall i :: 0 <= i < |columns| ==> Materialized(inputs, columns[i], t.columns[i])
  {
    hide AllValid, AllResolvable, Words, FixedColumn.ColumnOk, FixedColumn.ColumnRows, VarcharColumn.PagesOk, VarcharColumn.Chained, VarcharColumn.ColumnRows;
    var numRows := CountRows(columns[0].pages);
    var out: seq<Column> := [];
    for i := 0 to |columns|
      invariant |out| == i
      invariant forall k :: 0 <= k < i ==> columns[k].dtype == INT32 || columns[k].dtype == VARCHAR
      invariant forall k :: 0 <= k < i ==> Materialized(inputs, columns[k], out[k])
    {
      var c := columns[i];
      var pages;
      if c.dtype == INT32 {
        pages := MaterializeInts(c.pages, c.originalPages, inputs);
      } else if c.dtype == VARCHAR {
        pages := MaterializeStrings(c.pages, inputs, c.originalPages);
      } else {
        return false, ColumnarTable(0, []);
      }
      out := out + [Column(c.dtype, pages)];
      assert Materialized(inputs, columns[i], out[i]);
    }
    ok, t := true, ColumnarTable(numRows, out);
  }

  // -------- scan, then materialise --------

  // The values of a materialised column.
  lemma MaterializedFields(inputs: seq<ColumnarTable>, c: ColumnT, out: Column, fields: seq<Field>)
    requires ResultOk(inputs, c) && (c.dtype == INT32 || c.dtype == VARCHAR) && Materialized(inputs, c, out)
    requires Scan.Holds(inputs, c.dtype, c.originalPages, Words(c.pages), fields)
    ensures Scannable(out) && TrueFields(out) == fields
  {
    hide Words, AllValid, FixedColumn.ColumnOk, FixedColumn.ColumnRows, VarcharColumn.PagesOk, VarcharColumn.Chained, VarcharColumn.ColumnRows, I32, I32Bytes;
    var rows := ColumnRows(out);
    if out.dtype == INT32 {
      CellWidths(out);
    }
    forall i | 0 <= i < |rows|
      ensures TrueFields(out)[i] == fields[i]
    {
      FieldBack(fields[i]);
      FieldKind(inputs, c.dtype, c.originalPages, Words(c.pages)[i]);
    }
  }

  lemma FieldBack(f: Field)
    ensures f.Int? ==> I32(I32Bytes(f.v)) == f.v
  {
    if f.Int? {
      I32RoundTrip(f.v);
    }
  }

  lemma FieldKind(inputs: seq<ColumnarTable>, t: DataType, original: seq<Bytes>, w: Word)
    requires Resolvable(inputs, t, original, w)
    ensures t == INT32 ==> !Resolve(inputs, t, original, w).Str?
    ensures t == VARCHAR ==> !Resolve(inputs, t, original, w).Int?
  {
  }

  // Scanning columns of a table and materialising the words at once gives back the projected columns;
  // a VARCHAR column without pages comes back as an (equally empty) INT32 column.
  method ScanThenMaterialize(table: nat, inputs: seq<ColumnarTable>, attrs: seq<nat>, order: seq<nat>)
      returns (end: Scan.ScanEnd, t: ColumnarTable)
    requires table < |inputs| && Scan.AttrsOk(inputs[table], attrs) && |attrs| > 0
    requires forall k :: 0 <= k < |order| ==> order[k] < |attrs|
    requires forall j :: 0 <= j < |attrs| ==> j in order
    requires forall i, j :: 0 <= i < j < |order| ==> order[i] != order[j]
    ensures Scan.Counted(inputs[table], attrs) ==> (end.Done? <==> Scan.AllCanAddress(table, inputs[table], attrs))
    ensures end.Faults? ==> !Scan.AllStayInside(inputs[table], attrs)
    ensures end.Done? ==> |t.columns| == |attrs| && forall j :: 0 <= j < |attrs| ==>
      && Scannable(t.columns[j])
      && TrueFields(t.columns[j]) == ScanFields(inputs[table].columns[attrs[j]])
      && (Survives(inputs[table].columns[attrs[j]]) ==> TrueFields(t.columns[j]) == TrueFields(inputs[table].columns[attrs[j]]))
  {
    hide Scannable, Scan.CanAddress, Scan.StaysInside, ColumnRows, Scan.Scanned, TrueFields, ScanFields, Survives, AllValid, AllResolvable, Materialized;
    var results;
    t := ColumnarTable(0, []);
    end, results := Scan.CopyScan(table, inputs, attrs, order);
    if end.Done? {
      forall j | 0 <= j < |attrs|
        ensures ResultOk(inputs, results[j]) && (results[j].dtype == INT32 || results[j].dtype == VARCHAR)
        ensures Scan.Holds(inputs, results[j].dtype, results[j].originalPages, Words(results[j].pages), ScanFields(inputs[table].columns[attrs[j]]))
      {
        ScannedIsOk(inputs, inputs[table].columns[attrs[j]], results[j]);
      }
      var ok;
      ok, t := ToColumnarFromColumn(results, inputs);
      forall j | 0 <= j < |attrs|
        ensures Scannable(t.columns[j]) && TrueFields(t.columns[j]) == ScanFields(inputs[table].columns[attrs[j]])
        ensures Survives(inputs[table].columns[attrs[j]]) ==> TrueFields(t.columns[j]) == TrueFields(inputs[table].columns[attrs[j]])
      {
        MaterializedFields(inputs, results[j], t.columns[j], ScanFields(inputs[table].columns[attrs[j]]));
        ScanIsIdentity(inputs[table].columns[attrs[j]]);
      }
    }
  }

  lemma ScannedIsOk(inputs: seq<ColumnarTable>, c: Column, result: ColumnT)
    requires Scannable(c) && Scan.Scanned(inputs, c, result)
    ensures ResultOk(inputs, result) && (result.dtype == INT32 || result.dtype == VARCHAR)
    ensures Scan.Holds(inputs, result.dtype, result.originalPages, Words(result.pages), ScanFields(c))
  {
    hide ColumnRows, RereadRows, FixedColumn.ColumnOk, VarcharColumn.PagesOk, Words, AllValid, VarcharColumn.Chained;
    if c.pages == [] {
      NoRowsWithoutPages(c);
    }
  }

  lemma NoRowsWithoutPages(c: Column)
    requires Scannable(c) && c.pages == []
    ensures ScanFields(c) == []
  {
  }
}
