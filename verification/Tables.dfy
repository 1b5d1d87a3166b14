// Tables in rows and in columns of pages: Table::to_columnar and Table::from_columnar
// (src/build_table.cpp).  Numbers are kept as their bytes.
module Tables {
  import opened Options
  import opened NullBitmap
  import opened PageBytes
  import FixedColumn
  import VarcharColumn
  import VarcharWriter

  datatype DataType = INT32 | INT64 | FP64 | VARCHAR

  // A field of a record: std::monostate or a value of one of the types.
  datatype Data = Null | Value(dtype: DataType, bytes: Bytes)

  datatype Column = Column(dtype: DataType, pages: seq<Bytes>)

  datatype ColumnarTable = ColumnarTable(numRows: nat, columns: seq<Column>)

  // sizeof, for the fixed-width types
  function SizeOf(t: DataType): (w: nat)
    ensures t != VARCHAR ==> FixedColumn.Width(w)
  {
    if t == INT32 then 4 else 8
  }

  predicate PagesOk(c: Column) {
    if c.dtype == VARCHAR then VarcharColumn.PagesOk(c.pages) else FixedColumn.ColumnOk(SizeOf(c.dtype), c.pages)
  }

  function ColumnRows(c: Column): seq<Option<Bytes>>
    requires PagesOk(c)
  {
    if c.dtype == VARCHAR then VarcharColumn.ColumnRows(c.pages) else FixedColumn.ColumnRows(SizeOf(c.dtype), c.pages)
  }

  function DataOf(t: DataType, x: Option<Bytes>): Data {
    if x.None? then Null else Value(t, x.value)
  }

  function OptionOf(d: Data): Option<Bytes> {
    if d.Null? then None else Some(d.bytes)
  }

  predicate WellTypedData(t: DataType, d: Data) {
    d.Value? ==> d.dtype == t && (t != VARCHAR ==> |d.bytes| == SizeOf(t))
  }

  predicate WellTypedRecord(types: seq<DataType>, record: seq<Data>) {
    |record| == |types| && forall c :: 0 <= c < |types| ==> WellTypedData(types[c], record[c])
  }

  predicate WellTyped(types: seq<DataType>, table: seq<seq<Data>>) {
    forall r :: 0 <= r < |table| ==> WellTypedRecord(types, table[r])
  }

  // Records have a field for every column, and numbers their size.
  predicate Sized(types: seq<DataType>, table: seq<seq<Data>>) {
    forall r :: 0 <= r < |table| ==> |table[r]| == |types| && forall c :: 0 <= c < |types| ==> SizedData(table[r][c])
  }

  predicate SizedData(d: Data) {
    d.Value? && d.dtype != VARCHAR ==> |d.bytes| == SizeOf(d.dtype)
  }

  // Column c of the table, top to bottom.
  function CellsOf(types: seq<DataType>, table: seq<seq<Data>>, c: nat): (r: seq<Data>)
    requires Sized(types, table) && c < |types|
    ensures |r| == |table| && forall i :: 0 <= i < |table| ==> |table[i]| == |types| && r[i] == table[i][c]
  {
    seq(|table|, r requires 0 <= r < |table| => table[r][c])
  }

  // A value of another type than its column's.
  predicate Foreign(t: DataType, d: Data) {
    d.Value? && d.dtype != t
  }

  // What a column takes over: foreign values are passed by.
  function Retained(t: DataType, cells: seq<Data>): (r: seq<Option<Bytes>>)
    ensures |r| <= |cells|
  {
    if cells == [] then []
    else
      var d := cells[|cells| - 1];
      Retained(t, cells[..|cells| - 1]) + (if Foreign(t, d) then [] else [OptionOf(d)])
  }

  lemma {:induction false} RetainedAll(t: DataType, cells: seq<Data>)
    requires forall i :: 0 <= i < |cells| ==> !Foreign(t, cells[i])
    ensures |Retained(t, cells)| == |cells| && forall i :: 0 <= i < |cells| ==> Retained(t, cells)[i] == OptionOf(cells[i])
  {
    if cells != [] {
      RetainedAll(t, cells[..|cells| - 1]);
    }
  }

  lemma {:induction false} RetainedWidth(t: DataType, cells: seq<Data>)
    requires t != VARCHAR && forall i :: 0 <= i < |cells| ==> SizedData(cells[i])
    ensures FixedColumn.WellTyped(SizeOf(t), Retained(t, cells))
  {
    if cells != [] {
      RetainedWidth(t, cells[..|cells| - 1]);
    }
  }

  // No VARCHAR column has a value that is no string.
  predicate VarcharsFit(types: seq<DataType>, table: seq<seq<Data>>)
    requires Sized(types, table)
  {
    forall c, r :: 0 <= c < |types| && 0 <= r < |table| && types[c] == VARCHAR ==> !Foreign(VARCHAR, CellsOf(types, table, c)[r])
  }

  // The columnar table holds exactly the values its columns take over, and string chains begin properly.
  ghost predicate Represents(t: ColumnarTable, types: seq<DataType>, table: seq<seq<Data>>)
    requires Sized(types, table)
  {
    && t.numRows == |table| && |t.columns| == |types|
    && forall c :: 0 <= c < |types| ==> ColumnHolds(t.columns[c], types[c], Retained(types[c], CellsOf(types, table, c)))
  }

  ghost predicate ColumnHolds(c: Column, t: DataType, rows: seq<Option<Bytes>>) {
    && c.dtype == t && PagesOk(c) && ColumnRows(c) == rows
    && (t == VARCHAR ==> VarcharColumn.Chained(c.pages))
  }

  // -------- Table::to_columnar --------

  method HasForeign(t: DataType, cells: seq<Data>) returns (found: bool)
    ensures found <==> exists r :: 0 <= r < |cells| && Foreign(t, cells[r])
  {
    for r := 0 to |cells|
      invariant forall k :: 0 <= k < r ==> !Foreign(t, cells[k])
    {
      if Foreign(t, cells[r]) {
        return true;
      }
    }
    found := false;
  }

  // ok is false for the exception "not string or null".
  method ToColumnar(types: seq<DataType>, table: seq<seq<Data>>) returns (ok: bool, t: ColumnarTable)
    requires Sized(types, table)
    ensures ok <==> VarcharsFit(types, table)
    ensures ok ==> Represents(t, types, table)
  {
    hide FixedColumn.ColumnOk, FixedColumn.ColumnRows, VarcharColumn.ColumnRows, Retained, Sized, Foreign;
    t := ColumnarTable(0, []);
    var columns: seq<Column> := [];
    for c := 0 to |types|
      invariant |columns| == c
      invariant forall k :: 0 <= k < c ==> ColumnHolds(columns[k], types[k], Retained(types[k], CellsOf(types, table, k)))
      invariant forall k, r :: 0 <= k < c && 0 <= r < |table| && types[k] == VARCHAR ==> !Foreign(VARCHAR, CellsOf(types, table, k)[r])
    {
      var cells := CellsOf(types, table, c);
      var pages;
      if types[c] == VARCHAR {
        var foreign := HasForeign(VARCHAR, cells);
        if foreign {
          return false, t;
        }
        pages := VarcharWriter.ToColumnar(Retained(VARCHAR, cells));
      } else {
        CellsSized(types, table, c);
        RetainedWidth(types[c], cells);
        pages := FixedColumn.ToColumnar(SizeOf(types[c]), Retained(types[c], cells));
      }
      columns := columns + [Column(types[c], pages)];
    }
    ok, t := true, ColumnarTable(|table|, columns);
  }

  lemma CellsSized(types: seq<DataType>, table: seq<seq<Data>>, c: nat)
    requires Sized(types, table) && c < |types|
    ensures forall i :: 0 <= i < |table| ==> SizedData(CellsOf(types, table, c)[i])
  {
  }

  // -------- Table::from_columnar --------

  // The cells of one column of the result so far: the rows read, then nulls.
  ghost predicate Filled(results: array2<Data>, col: nat, t: DataType, rows: seq<Option<Bytes>>)
    reads results
  {
    col < results.Length1 && IsFilled(Cells(results, col), t, rows)
  }

  ghost predicate IsFilled(cells: seq<Data>, t: DataType, rows: seq<Option<Bytes>>) {
    forall r :: 0 <= r < |cells| ==> cells[r] == if r < |rows| then DataOf(t, rows[r]) else Null
  }

  // A column of the result matrix.
  ghost function Cells(results: array2<Data>, col: nat): (cells: seq<Data>)
    requires col < results.Length1
    reads results
    ensures |cells| == results.Length0
    ensures forall r :: 0 <= r < results.Length0 ==> cells[r] == results[r, col]
  {
    seq(results.Length0, r requires 0 <= r < results.Length0 reads results => results[r, col])
  }

  twostate predicate OthersKept(results: array2<Data>, col: nat)
    reads results
  {
    forall c :: 0 <= c < results.Length1 && c != col ==> Cells(results, c) == old(Cells(results, c))
  }

  // No value lies beyond the table's row count.
  ghost predicate Fits(rows: seq<Option<Bytes>>, numRows: nat) {
    forall i :: numRows <= i < |rows| ==> rows[i].None?
  }

  method PutValue(results: array2<Data>, col: nat, t: DataType, ghost rows: seq<Option<Bytes>>, rowIdx: nat, value: Bytes)
      returns (ok: bool)
    requires Filled(results, col, t, rows) && |rows| == rowIdx
    modifies results
    ensures ok <==> rowIdx < results.Length0
    ensures ok ==> Filled(results, col, t, rows + [Some(value)])
    ensures OthersKept(results, col)
  {
    ok := rowIdx < results.Length0;
    if ok {
      results[rowIdx, col] := Value(t, value);
    }
  }

  lemma {:induction false} RowsPrefix<T>(bm: Bitmap, i: nat, n: nat, payloads: seq<T>)
    requires i <= n && BytesFor(n) <= |bm| && Rank(bm, n) <= |payloads|
    ensures Rank(bm, i) <= Rank(bm, n) && Rows(bm, i, payloads) == Rows(bm, n, payloads)[..i]
    decreases n
  {
    if i < n {
      assert BytesFor(n - 1) <= BytesFor(n);
      RowsPrefix(bm, i, n - 1, payloads);
    }
  }

  // Row i of a page is null if its bit is clear, else the next payload.
  lemma RowAt<T>(bm: Bitmap, i: nat, n: nat, payloads: seq<T>)
    requires i < n && BytesFor(n) <= |bm| && Rank(bm, n) <= |payloads|
    ensures Rank(bm, i + 1) == Rank(bm, i) + (if Bit(bm, i) then 1 else 0) <= Rank(bm, n)
    ensures Rows(bm, n, payloads)[i] == if Bit(bm, i) then Some(payloads[Rank(bm, i)]) else None
  {
    RowsPrefix(bm, i, n, payloads);
    RowsPrefix(bm, i + 1, n, payloads);
    assert Rows(bm, i + 1, payloads)[i] == Rows(bm, n, payloads)[i];
  }

  lemma NotFits(before: seq<Option<Bytes>>, rows: seq<Option<Bytes>>, numRows: nat, i: nat)
    requires i < |rows| && rows[i].Some? && numRows <= |before| + i
    ensures !Fits(before + rows, numRows)
  {
    assert (before + rows)[|before| + i] == rows[i];
  }

  // One more row of a page: results[row_idx++][column_idx] = value, or ++row_idx for a null.
  method PutRow(results: array2<Data>, col: nat, t: DataType, rowIdx: nat, value: Option<Bytes>,
                ghost before: seq<Option<Bytes>>, ghost rows: seq<Option<Bytes>>, ghost i: nat)
      returns (ok: bool)
    requires i < |rows| && rows[i] == value && rowIdx == |before| + i
    requires Filled(results, col, t, before + rows[..i]) && Fits(before + rows[..i], results.Length0)
    modifies results
    ensures OthersKept(results, col)
    ensures !ok ==> !Fits(before + rows, results.Length0)
    ensures ok ==> Filled(results, col, t, before + rows[..i + 1]) && Fits(before + rows[..i + 1], results.Length0)
  {
    ghost var soFar := before + rows[..i];
    assert before + rows[..i + 1] == soFar + [value];
    if value.Some? {
      ok := PutValue(results, col, t, soFar, rowIdx, value.value);
      if !ok {
        NotFits(before, rows, results.Length0, i);
      }
    } else {
      ok := true;
    }
  }

  // The rows of one fixed-width page.
  method ReadFixedPage(t: DataType, page: Bytes, results: array2<Data>, col: nat, rowIdx: nat, ghost before: seq<Option<Bytes>>)
      returns (ok: bool, rowIdx': nat)
    requires t != VARCHAR && FixedColumn.PageOk(SizeOf(t), page)
    requires Filled(results, col, t, before) && |before| == rowIdx && Fits(before, results.Length0)
    modifies results
    ensures OthersKept(results, col)
    ensures var rows := before + FixedColumn.PageRows(SizeOf(t), page);
      && (ok <==> Fits(rows, results.Length0))
      && (ok ==> Filled(results, col, t, rows) && rowIdx' == |rows|)
  {
    hide Filled, Rank, Rows, Fits, Bit, U16;
    var w := SizeOf(t);
    var numRows := U16(page, 0);
    var bitmap := FixedColumn.BitmapOf(page, numRows);
    ghost var payloads := FixedColumn.Payloads(w, page, U16(page, 2));
    ghost var rows := Rows(bitmap, numRows, payloads);
    var dataIdx := 0;
    rowIdx' := rowIdx;
    NoPayloads(bitmap, payloads);
    assert before + rows[..0] == before;
    for i := 0 to numRows
      invariant dataIdx == Rank(bitmap, i) <= |payloads| && rowIdx' == rowIdx + i && OthersKept(results, col)
      invariant Filled(results, col, t, before + rows[..i]) && Fits(before + rows[..i], results.Length0)
    {
      RowAt(bitmap, i, numRows, payloads);
      if Bit(bitmap, i) {
        var value := FixedColumn.Cell(w, page, dataIdx);
        dataIdx := dataIdx + 1;
        ok := PutRow(results, col, t, rowIdx', Some(value), before, rows, i);
      } else {
        ok := PutRow(results, col, t, rowIdx', None, before, rows, i);
      }
      if !ok {
        return;
      }
      rowIdx' := rowIdx' + 1;
    }
    assert rows[..numRows] == rows;
    ok := true;
  }

  lemma NoPayloads<T>(bm: Bitmap, payloads: seq<T>)
    ensures Rank(bm, 0) == 0 && Rows(bm, 0, payloads) == []
  {
  }

  // The rows of one normal string page; stringBegin runs along the end offsets.
  method ReadNormalPage(page: Bytes, results: array2<Data>, col: nat, rowIdx: nat, ghost before: seq<Option<Bytes>>)
      returns (ok: bool, rowIdx': nat)
    requires VarcharColumn.NormalOk(page)
    requires Filled(results, col, VARCHAR, before) && |before| == rowIdx && Fits(before, results.Length0)
    modifies results
    ensures OthersKept(results, col)
    ensures var rows := before + VarcharColumn.NormalRows(page);
      && (ok <==> Fits(rows, results.Length0))
      && (ok ==> Filled(results, col, VARCHAR, rows) && rowIdx' == |rows|)
  {
    hide Filled, Rank, Rows, Fits, Bit, U16;
    var numRows := U16(page, 0);
    var numNonNull := U16(page, 2);
    var bitmap := VarcharColumn.BitmapOf(page, numRows);
    ghost var payloads := VarcharColumn.Strings(page, numNonNull);
    ghost var rows := Rows(bitmap, numRows, payloads);
    var dataIdx := 0;
    var dataBegin := 4 + 2 * numNonNull;
    var stringBegin := dataBegin;
    rowIdx' := rowIdx;
    NoPayloads(bitmap, payloads);
    assert before + rows[..0] == before;
    for i := 0 to numRows
      invariant dataIdx == Rank(bitmap, i) <= |payloads| && rowIdx' == rowIdx + i && OthersKept(results, col)
      invariant stringBegin == dataBegin + VarcharColumn.Off(page, dataIdx)
      invariant Filled(results, col, VARCHAR, before + rows[..i]) && Fits(before + rows[..i], results.Length0)
    {
      RowAt(bitmap, i, numRows, payloads);
      if Bit(bitmap, i) {
        assert payloads[dataIdx] == VarcharColumn.StringAt(page, numNonNull, dataIdx);
        var offset := VarcharColumn.EndAt(page, dataIdx);
        dataIdx := dataIdx + 1;
        var value := page[stringBegin..dataBegin + offset];
        stringBegin := dataBegin + offset;
        ok := PutRow(results, col, VARCHAR, rowIdx', Some(value), before, rows, i);
      } else {
        ok := PutRow(results, col, VARCHAR, rowIdx', None, before, rows, i);
      }
      if !ok {
        return;
      }
      rowIdx' := rowIdx' + 1;
    }
    assert rows[..numRows] == rows;
    ok := true;
  }

  // Rows never disappear as pages are read, and a value stays a value.
  lemma {:induction false} FixedPrefix(w: nat, pages: seq<Bytes>, k: nat, numRows: nat)
    requires FixedColumn.Width(w) && FixedColumn.ColumnOk(w, pages) && k <= |pages|
    ensures Fits(FixedColumn.ColumnRows(w, pages), numRows) ==> Fits(FixedColumn.ColumnRows(w, pages[..k]), numRows)
    decreases |pages|
  {
    hide FixedColumn.PageOk, FixedColumn.PageRows;
    if k < |pages| {
      var init := pages[..|pages| - 1];
      FixedPrefix(w, init, k, numRows);
      assert pages[..k] == init[..k];
      var a, b := FixedColumn.ColumnRows(w, init), FixedColumn.ColumnRows(w, pages);
      assert forall i :: 0 <= i < |a| ==> a[i] == b[i];
    } else {
      assert pages[..k] == pages;
    }
  }

  method ReadFixedColumn(t: DataType, pages: seq<Bytes>, results: array2<Data>, col: nat) returns (ok: bool)
    requires t != VARCHAR && FixedColumn.ColumnOk(SizeOf(t), pages) && Filled(results, col, t, [])
    modifies results
    ensures OthersKept(results, col)
    ensures ok <==> Fits(FixedColumn.ColumnRows(SizeOf(t), pages), results.Length0)
    ensures ok ==> Filled(results, col, t, FixedColumn.ColumnRows(SizeOf(t), pages))
  {
    hide Filled, Fits, FixedColumn.PageOk, FixedColumn.PageRows;
    var w := SizeOf(t);
    var rowIdx := 0;
    FitsNothing(results.Length0);
    for p := 0 to |pages|
      invariant rowIdx == |FixedColumn.ColumnRows(w, pages[..p])| && OthersKept(results, col)
      invariant Filled(results, col, t, FixedColumn.ColumnRows(w, pages[..p]))
      invariant Fits(FixedColumn.ColumnRows(w, pages[..p]), results.Length0)
    {
      assert pages[..p + 1] == pages[..p] + [pages[p]];
      FixedColumn.ColumnSnoc(w, pages[..p], pages[p]);
      ok, rowIdx := ReadFixedPage(t, pages[p], results, col, rowIdx, FixedColumn.ColumnRows(w, pages[..p]));
      if !ok {
        FixedPrefix(w, pages, p + 1, results.Length0);
        return;
      }
    }
    assert pages[..|pages|] == pages;
    ok := true;
  }

  lemma FitsNothing(numRows: nat)
    ensures Fits([], numRows)
  {
  }

  // Every continuation among the first k pages comes when the last row is a string.
  ghost predicate Continued(pages: seq<Bytes>, k: nat)
    requires VarcharColumn.PagesOk(pages) && k <= |pages|
  {
    forall p :: 0 <= p < k && U16(pages[p], 0) == VarcharColumn.NEXT ==>
      VarcharColumn.EndsInString(VarcharColumn.ColumnRows(pages[..p]))
  }

  // Every continuation page finds its row in the table: what the reader takes for granted.
  ghost predicate Anchored(pages: seq<Bytes>, numRows: nat)
    requires VarcharColumn.PagesOk(pages)
  {
    forall p :: 0 <= p < |pages| && U16(pages[p], 0) == VarcharColumn.NEXT ==>
      0 < |VarcharColumn.ColumnRows(pages[..p])| <= numRows
  }

  lemma {:induction false} VarcharPrefix(pages: seq<Bytes>, k: nat, numRows: nat)
    requires VarcharColumn.PagesOk(pages) && k <= |pages|
    ensures |VarcharColumn.ColumnRows(pages[..k])| <= |VarcharColumn.ColumnRows(pages)|
    ensures Fits(VarcharColumn.ColumnRows(pages), numRows) ==> Fits(VarcharColumn.ColumnRows(pages[..k]), numRows)
    decreases |pages|
  {
    hide VarcharColumn.NormalOk, VarcharColumn.NormalRows, U16, VarcharColumn.LongPart;
    if k < |pages| {
      var init := pages[..|pages| - 1];
      VarcharPrefix(init, k, numRows);
      assert pages[..k] == init[..k];
      var a, b := VarcharColumn.ColumnRows(init), VarcharColumn.ColumnRows(pages);
      assert b == VarcharColumn.Extend(a, pages[|pages| - 1]);
      assert |a| <= |b| && forall i :: 0 <= i < |a| ==> (a[i].Some? <==> b[i].Some?);
    } else {
      assert pages[..k] == pages;
    }
  }

  // A continuation page: value.insert(value.end(), ...)
  method AppendPart(results: array2<Data>, col: nat, rowIdx: nat, part: Bytes, ghost rows: seq<Option<Bytes>>) returns (ok: bool)
    requires Filled(results, col, VARCHAR, rows) && 0 < rowIdx == |rows| <= results.Length0
    modifies results
    ensures OthersKept(results, col)
    ensures ok <==> VarcharColumn.EndsInString(rows)
    ensures ok ==> Filled(results, col, VARCHAR, rows[..|rows| - 1] + [Some(rows[|rows| - 1].value + part)])
  {
    var value := results[rowIdx - 1, col];
    assert value == DataOf(VARCHAR, rows[rowIdx - 1]);
    ok := value.Value?;
    if ok {
      results[rowIdx - 1, col] := Value(VARCHAR, value.bytes + part);
    }
  }

  method ReadVarcharPage(page: Bytes, results: array2<Data>, col: nat, rowIdx: nat, ghost before: seq<Option<Bytes>>)
      returns (ok: bool, rowIdx': nat)
    requires VarcharColumn.PageOk(page) && Filled(results, col, VARCHAR, before) && |before| == rowIdx
    requires Fits(before, results.Length0)
    requires U16(page, 0) == VarcharColumn.NEXT ==> 0 < rowIdx <= results.Length0
    modifies results
    ensures OthersKept(results, col)
    ensures var rows := VarcharColumn.Extend(before, page);
      && (ok <==> Fits(rows, results.Length0) && (U16(page, 0) == VarcharColumn.NEXT ==> VarcharColumn.EndsInString(before)))
      && (ok ==> Filled(results, col, VARCHAR, rows) && rowIdx' == |rows|)
  {
    hide Filled, VarcharColumn.OffsetsOk, VarcharColumn.NormalRows, Rank, U16;
    rowIdx' := rowIdx;
    if U16(page, 0) == VarcharColumn.FIRST {
      var value := VarcharColumn.LongPart(page);
      ok := PutValue(results, col, VARCHAR, before, rowIdx, value);
      rowIdx' := rowIdx + 1;
      if !ok {
        NotFits(before, [Some(value)], results.Length0, 0);
      }
    } else if U16(page, 0) == VarcharColumn.NEXT {
      ok := AppendPart(results, col, rowIdx, VarcharColumn.LongPart(page), before);
    } else {
      ok, rowIdx' := ReadNormalPage(page, results, col, rowIdx, before);
    }
  }

  method ReadVarcharColumn(pages: seq<Bytes>, results: array2<Data>, col: nat) returns (ok: bool)
    requires VarcharColumn.PagesOk(pages) && Anchored(pages, results.Length0) && Filled(results, col, VARCHAR, [])
    modifies results
    ensures OthersKept(results, col)
    ensures ok <==> Fits(VarcharColumn.ColumnRows(pages), results.Length0) && Continued(pages, |pages|)
    ensures ok ==> Filled(results, col, VARCHAR, VarcharColumn.ColumnRows(pages))
  {
    hide Filled, Fits, VarcharColumn.PageOk, VarcharColumn.Extend, VarcharColumn.EndsInString;
    var rowIdx := 0;
    FitsNothing(results.Length0);
    for p := 0 to |pages|
      invariant rowIdx == |VarcharColumn.ColumnRows(pages[..p])| && OthersKept(results, col)
      invariant Filled(results, col, VARCHAR, VarcharColumn.ColumnRows(pages[..p]))
      invariant Fits(VarcharColumn.ColumnRows(pages[..p]), results.Length0)
      invariant Continued(pages, p)
    {
      assert pages[..p + 1] == pages[..p] + [pages[p]];
      VarcharColumn.ColumnSnoc(pages[..p], pages[p]);
      ok, rowIdx := ReadVarcharPage(pages[p], results, col, rowIdx, VarcharColumn.ColumnRows(pages[..p]));
      if !ok {
        VarcharPrefix(pages, p + 1, results.Length0);
        return;
      }
    }
    assert pages[..|pages|] == pages;
    ok := true;
  }

  // What the reader of one column accepts.
  ghost predicate Readable(c: Column, numRows: nat)
    requires PagesOk(c)
  {
    Fits(ColumnRows(c), numRows) && (c.dtype == VARCHAR ==> Continued(c.pages, |c.pages|))
  }

  ghost predicate Sound(t: ColumnarTable) {
    forall c :: 0 <= c < |t.columns| ==>
      PagesOk(t.columns[c]) && (t.columns[c].dtype == VARCHAR ==> Anchored(t.columns[c].pages, t.numRows))
  }

  method ReadColumn(c: Column, results: array2<Data>, col: nat) returns (ok: bool)
    requires PagesOk(c) && (c.dtype == VARCHAR ==> Anchored(c.pages, results.Length0))
    requires Filled(results, col, c.dtype, [])
    modifies results
    ensures OthersKept(results, col)
    ensures ok <==> Readable(c, results.Length0)
    ensures ok ==> Filled(results, col, c.dtype, ColumnRows(c))
  {
    if c.dtype == VARCHAR {
      ok := ReadVarcharColumn(c.pages, results, col);
    } else {
      ok := ReadFixedColumn(c.dtype, c.pages, results, col);
    }
  }

  lemma AllNull(results: array2<Data>, t: ColumnarTable)
    requires results.Length0 == t.numRows && results.Length1 == |t.columns|
    requires forall r, c :: 0 <= r < t.numRows && 0 <= c < |t.columns| ==> results[r, c] == Null
    ensures forall c :: 0 <= c < |t.columns| ==> Filled(results, c, t.columns[c].dtype, [])
  {
  }

  // Table::from_columnar.  The thread pool hands out every column once, in some order.
  method FromColumnar(t: ColumnarTable, order: seq<nat>) returns (ok: bool, results: array2<Data>)
    requires Sound(t)
    requires forall k :: 0 <= k < |order| ==> order[k] < |t.columns|
    requires forall c :: 0 <= c < |t.columns| ==> c in order
    requires forall i, j :: 0 <= i < j < |order| ==> order[i] != order[j]
    ensures fresh(results) && results.Length0 == t.numRows && results.Length1 == |t.columns|
    ensures ok <==> forall c :: 0 <= c < |t.columns| ==> Readable(t.columns[c], t.numRows)
    ensures ok ==> forall c :: 0 <= c < |t.columns| ==> Filled(results, c, t.columns[c].dtype, ColumnRows(t.columns[c]))
  {
    hide Readable, Anchored, PagesOk, IsFilled, Cells, ColumnRows;
    results := new Data[t.numRows, |t.columns|]((r, c) => Null);
    ok := true;
    AllNull(results, t);
    for k := 0 to |order|
      invariant ok <==> forall i :: 0 <= i < k ==> Readable(t.columns[order[i]], t.numRows)
      invariant forall i :: k <= i < |order| ==> Filled(results, order[i], t.columns[order[i]].dtype, [])
      invariant ok ==> forall i :: 0 <= i < k ==> Filled(results, order[i], t.columns[order[i]].dtype, ColumnRows(t.columns[order[i]]))
    {
      var columnOk := ReadColumn(t.columns[order[k]], results, order[k]);
      ok := ok && columnOk;
    }
    forall c | 0 <= c < |t.columns|
      ensures ok ==> Readable(t.columns[c], t.numRows)
      ensures ok ==> Filled(results, c, t.columns[c].dtype, ColumnRows(t.columns[c]))
    {
      assert c in order;
      var i :| 0 <= i < |order| && order[i] == c;
    }
  }

  // -------- the round trip --------

  lemma ChainedIsContinued(pages: seq<Bytes>, numRows: nat)
    requires VarcharColumn.ColumnOk(pages) && |VarcharColumn.ColumnRows(pages)| <= numRows
    ensures Continued(pages, |pages|) && Anchored(pages, numRows)
  {
    hide VarcharColumn.OffsetsOk, Rank, U16, VarcharColumn.Extend;
    forall p | 0 <= p < |pages| && U16(pages[p], 0) == VarcharColumn.NEXT
      ensures VarcharColumn.EndsInString(VarcharColumn.ColumnRows(pages[..p]))
      ensures 0 < |VarcharColumn.ColumnRows(pages[..p])| <= numRows
    {
      VarcharColumn.ChainedEndsInString(pages[..p]);
      VarcharPrefix(pages, p, numRows);
    }
  }

  // What to_columnar writes, from_columnar accepts.
  lemma RepresentsIsReadable(t: ColumnarTable, types: seq<DataType>, table: seq<seq<Data>>)
    requires Sized(types, table) && Represents(t, types, table)
    ensures Sound(t) && forall c :: 0 <= c < |t.columns| ==> Readable(t.columns[c], t.numRows)
  {
    hide VarcharColumn.PagesOk, VarcharColumn.Chained, FixedColumn.ColumnOk, Anchored, Continued, Retained;
    forall c | 0 <= c < |t.columns|
      ensures PagesOk(t.columns[c]) && (t.columns[c].dtype == VARCHAR ==> Anchored(t.columns[c].pages, t.numRows))
      ensures PagesOk(t.columns[c]) ==> Readable(t.columns[c], t.numRows)
    {
      assert ColumnHolds(t.columns[c], types[c], Retained(types[c], CellsOf(types, table, c)));
      if t.columns[c].dtype == VARCHAR {
        ChainedIsContinued(t.columns[c].pages, t.numRows);
      }
    }
  }

  // A column is read back as it was exactly when it has no foreign values.
  lemma ColumnBack(types: seq<DataType>, table: seq<seq<Data>>, c: nat, cells: seq<Data>)
    requires Sized(types, table) && c < |types| && |cells| == |table|
    requires IsFilled(cells, types[c], Retained(types[c], CellsOf(types, table, c)))
    ensures cells == CellsOf(types, table, c) <==> forall r :: 0 <= r < |table| ==> WellTypedData(types[c], CellsOf(types, table, c)[r])
  {
    hide Retained, Sized;
    var t, all := types[c], CellsOf(types, table, c);
    CellsSized(types, table, c);
    if forall r :: 0 <= r < |table| ==> WellTypedData(t, all[r]) {
      RetainedAll(t, all);
      assert forall r :: 0 <= r < |table| ==> cells[r] == all[r];
    }
    if cells == all {
      forall r | 0 <= r < |table|
        ensures WellTypedData(t, all[r])
      {
        assert SizedData(all[r]) && !Foreign(t, cells[r]);
      }
    }
  }

  // from_columnar(to_columnar(t)) == t, exactly for well-typed tables.
  method RoundTrip(types: seq<DataType>, table: seq<seq<Data>>, order: seq<nat>) returns (ok: bool, results: array2<Data>)
    requires Sized(types, table)
    requires forall k :: 0 <= k < |order| ==> order[k] < |types|
    requires forall c :: 0 <= c < |types| ==> c in order
    requires forall i, j :: 0 <= i < j < |order| ==> order[i] != order[j]
    ensures ok <==> VarcharsFit(types, table)
    ensures ok ==> results.Length0 == |table| && results.Length1 == |types|
    ensures ok ==> (WellTyped(types, table) <==>
                    forall c :: 0 <= c < |types| ==> Cells(results, c) == CellsOf(types, table, c))
    ensures WellTyped(types, table) ==> ok
  {
    hide PagesOk, Sound, Readable, Retained, Sized, Foreign, IsFilled;
    WellTypedFits(types, table);
    var t;
    ok, t := ToColumnar(types, table);
    if !ok {
      results := new Data[0, 0];
      return;
    }
    RepresentsIsReadable(t, types, table);
    var read;
    read, results := FromColumnar(t, order);
    forall c | 0 <= c < |types|
      ensures Cells(results, c) == CellsOf(types, table, c) <==> forall r :: 0 <= r < |table| ==> WellTypedData(types[c], CellsOf(types, table, c)[r])
    {
      assert ColumnHolds(t.columns[c], types[c], Retained(types[c], CellsOf(types, table, c)));
      assert Filled(results, c, t.columns[c].dtype, ColumnRows(t.columns[c]));
      ColumnBack(types, table, c, Cells(results, c));
    }
    WellTypedByColumn(types, table);
  }

  lemma WellTypedFits(types: seq<DataType>, table: seq<seq<Data>>)
    requires Sized(types, table)
    ensures WellTyped(types, table) ==> VarcharsFit(types, table)
  {
    if WellTyped(types, table) {
      forall c, r | 0 <= c < |types| && 0 <= r < |table|
        ensures WellTypedData(types[c], CellsOf(types, table, c)[r])
      {
        assert WellTypedRecord(types, table[r]);
      }
    }
  }

  lemma WellTypedByColumn(types: seq<DataType>, table: seq<seq<Data>>)
    requires Sized(types, table)
    ensures WellTyped(types, table) <==>
      forall c :: 0 <= c < |types| ==> forall r :: 0 <= r < |table| ==> WellTypedData(types[c], CellsOf(types, table, c)[r])
  {
    if WellTyped(types, table) {
      forall c, r | 0 <= c < |types| && 0 <= r < |table|
        ensures WellTypedData(types[c], CellsOf(types, table, c)[r])
      {
        assert WellTypedRecord(types, table[r]);
      }
    } else {
      var r :| 0 <= r < |table| && !WellTypedRecord(types, table[r]);
      var c :| 0 <= c < |types| && !WellTypedData(types[c], table[r][c]);
      assert !WellTypedData(types[c], CellsOf(types, table, c)[r]);
    }
  }
}
