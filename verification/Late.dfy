// What the words of a column stand for, and what a scan of an input column puts into it.
module Late {
  import opened Bits
  import opened Options
  import opened NullBitmap
  import opened PageBytes
  import opened ValueWords
  import opened Tables
  import opened LateStrings
  import FixedColumn
  import VarcharColumn

  // A value of a row.
  datatype Field = Null | Int(v: int32) | Str(s: Bytes)

  // -------- words --------

  // get_int32_value_from_page
  predicate HasCell(original: seq<Bytes>, w: Word) {
    var r := GetReference(w);
    r.page < |original| && 4 + 4 * r.pos + 4 <= |original[r.page]|
  }

  function CellAt(original: seq<Bytes>, w: Word): int32
    requires HasCell(original, w)
  {
    var r := GetReference(w);
    I32(original[r.page][4 + 4 * r.pos..4 + 4 * r.pos + 4])
  }

  // A word of an INT32 column.
  predicate ResolvableInt(original: seq<Bytes>, w: Word) {
    IsNull(w) || IsInt32(w) || (IsInt32NoNull(w) && HasCell(original, w))
  }

  function ResolveInt(original: seq<Bytes>, w: Word): Field
    requires ResolvableInt(original, w)
  {
    if IsNull(w) then Field.Null else if IsInt32(w) then Int(GetInt32(w)) else Int(CellAt(original, w))
  }

  // The page of an input that a word of a VARCHAR column points into.
  predicate PointsAt(inputs: seq<ColumnarTable>, w: Word) {
    var r := GetReference(w);
    && r.table < |inputs| && r.column < |inputs[r.table].columns|
    && var c := inputs[r.table].columns[r.column];
    c.dtype == VARCHAR && VarcharColumn.PagesOk(c.pages) && LateStrings.Readable(c.pages, Ref(r.page, r.pos))
  }

  predicate ResolvableString(inputs: seq<ColumnarTable>, w: Word) {
    IsNull(w) || (IsVarchar(w) && PointsAt(inputs, w))
  }

  function ResolveString(inputs: seq<ColumnarTable>, w: Word): Field
    requires ResolvableString(inputs, w)
  {
    if IsNull(w) then Field.Null
    else
      var r := GetReference(w);
      Str(ReadString(inputs[r.table].columns[r.column].pages, Ref(r.page, r.pos)))
  }

  predicate Resolvable(inputs: seq<ColumnarTable>, t: DataType, original: seq<Bytes>, w: Word) {
    match t
    case INT32 => ResolvableInt(original, w)
    case VARCHAR => ResolvableString(inputs, w)
    case _ => false
  }

  // The value a word stands for when the result is materialised.
  function Resolve(inputs: seq<ColumnarTable>, t: DataType, original: seq<Bytes>, w: Word): Field
    requires Resolvable(inputs, t, original, w)
  {
    if t == INT32 then ResolveInt(original, w) else ResolveString(inputs, w)
  }

  // -------- what a scan yields --------

  // num_rows == num_non_null on every page
  predicate NoNulls(pages: seq<Bytes>)
    requires FixedColumn.ColumnOk(4, pages)
  {
    forall i :: 0 <= i < |pages| ==> U16(pages[i], 0) == U16(pages[i], 2)
  }

  function IntField(row: Option<Bytes>): Field
    requires row.Some? ==> |row.value| == 4
  {
    if row.None? then Field.Null else Int(I32(row.value))
  }

  // In a column with nulls a negative value is lost: its word reads as a null.
  function PackedField(row: Option<Bytes>): Field
    requires row.Some? ==> |row.value| == 4
  {
    if row.Some? && I32(row.value) >= 0 then Int(I32(row.value)) else Field.Null
  }

  function StringField(row: Option<Bytes>): Field {
    if row.None? then Field.Null else Str(row.value)
  }

  predicate Scannable(c: Column) {
    (c.dtype == INT32 || c.dtype == VARCHAR) && PagesOk(c) && (c.dtype == VARCHAR ==> VarcharColumn.Chained(c.pages))
  }

  // The values of a column, as they are.
  function TrueFields(c: Column): seq<Field>
    requires Scannable(c)
  {
    var rows := ColumnRows(c);
    if c.dtype == INT32 then
      CellWidths(c);
      seq(|rows|, i requires 0 <= i < |rows| => IntField(rows[i]))
    else seq(|rows|, i requires 0 <= i < |rows| => StringField(rows[i]))
  }

  // The values of a column, as scanning and materialising it yields them.
  function ScanFields(c: Column): seq<Field>
    requires Scannable(c)
  {
    if c.dtype == INT32 then
      var rows := ColumnRows(c);
      CellWidths(c);
      if NoNulls(c.pages) then seq(|rows|, i requires 0 <= i < |rows| => IntField(rows[i]))
      else seq(|rows|, i requires 0 <= i < |rows| => PackedField(rows[i]))
    else
      var rows := RereadRows(c.pages);
      seq(|rows|, i requires 0 <= i < |rows| => StringField(rows[i]))
  }

  lemma CellWidths(c: Column)
    requires PagesOk(c) && c.dtype == INT32
    ensures forall i :: 0 <= i < |ColumnRows(c)| && ColumnRows(c)[i].Some? ==> |ColumnRows(c)[i].value| == 4
  {
    FixedWidths(c.pages);
  }

  lemma {:induction false} FixedWidths(pages: seq<Bytes>)
    requires FixedColumn.ColumnOk(4, pages)
    ensures forall i :: 0 <= i < |FixedColumn.ColumnRows(4, pages)| && FixedColumn.ColumnRows(4, pages)[i].Some? ==>
      |FixedColumn.ColumnRows(4, pages)[i].value| == 4
  {
    hide Rank, Rows, U16;
    if pages != [] {
      FixedWidths(pages[..|pages| - 1]);
      var p := pages[|pages| - 1];
      var n := U16(p, 0);
      forall i | 0 <= i < n && FixedColumn.PageRows(4, p)[i].Some?
        ensures |FixedColumn.PageRows(4, p)[i].value| == 4
      {
        RowsFrom(FixedColumn.BitmapOf(p, n), n, FixedColumn.Payloads(4, p, U16(p, 2)), i);
      }
    }
  }

  // What a column has to satisfy to come through a scan unchanged.
  ghost predicate Survives(c: Column)
    requires Scannable(c)
  {
    if c.dtype == INT32 then
      CellWidths(c);
      NoNulls(c.pages) || forall i :: 0 <= i < |ColumnRows(c)| && ColumnRows(c)[i].Some? ==> I32(ColumnRows(c)[i].value) >= 0
    else Searchable(c.pages)
  }

  // Scanning and then materialising a column is the identity exactly when the column has no nulls or
  // no negative values (INT32), or has its empty strings last on every page (VARCHAR).
  lemma ScanIsIdentity(c: Column)
    requires Scannable(c)
    ensures ScanFields(c) == TrueFields(c) <==> Survives(c)
  {
    hide FixedColumn.ColumnOk, FixedColumn.ColumnRows, NoNulls, I32, VarcharColumn.PagesOk, RereadRows, VarcharColumn.ColumnRows, Searchable;
    if c.dtype == INT32 {
      CellWidths(c);
      var rows := ColumnRows(c);
      forall i | 0 <= i < |rows|
        ensures PackedField(rows[i]) == IntField(rows[i]) <==> (rows[i].Some? ==> I32(rows[i].value) >= 0)
      {
      }
      if ScanFields(c) == TrueFields(c) && !NoNulls(c.pages) {
        forall i | 0 <= i < |rows|
          ensures PackedField(rows[i]) == IntField(rows[i])
        {
          assert ScanFields(c)[i] == TrueFields(c)[i];
        }
      }
    } else {
      SearchableRows(c.pages);
      var a, b := RereadRows(c.pages), VarcharColumn.ColumnRows(c.pages);
      if ScanFields(c) == TrueFields(c) {
        forall i | 0 <= i < |a|
          ensures a[i] == b[i]
        {
          assert ScanFields(c)[i] == TrueFields(c)[i];
        }
      }
    }
  }

  // -------- INT32 columns without nulls --------

  function PageIntRefs(page: nat, n: nat): (refs: seq<Option<Ref>>)
    ensures |refs| == n && forall i :: 0 <= i < n ==> refs[i] == Some(Ref(page, i))
  {
    seq(n, i requires 0 <= i < n => Some(Ref(page, i)))
  }

  // The references scanned from pages without nulls.
  function IntRefs(pages: seq<Bytes>): (refs: seq<Option<Ref>>)
    requires FixedColumn.ColumnOk(4, pages)
    ensures forall i :: 0 <= i < |refs| ==> refs[i].Some?
  {
    if pages == [] then []
    else
      var k := |pages| - 1;
      IntRefs(pages[..k]) + PageIntRefs(k, U16(pages[k], 0))
  }

  lemma {:induction false} FullRank(bm: Bitmap, n: nat, i: nat)
    requires BytesFor(n) <= |bm| && Rank(bm, n) == n && i < n
    ensures Rank(bm, i) == i && Bit(bm, i)
    decreases n
  {
    assert BytesFor(n - 1) <= BytesFor(n);
    if i < n - 1 {
      FullRank(bm, n - 1, i);
    }
  }

  lemma FullPage(p: Bytes, i: nat)
    requires FixedColumn.PageOk(4, p) && U16(p, 0) == U16(p, 2) && i < U16(p, 0)
    ensures FixedColumn.PageRows(4, p)[i] == Some(FixedColumn.Cell(4, p, i))
  {
    hide U16, Rank, Rows;
    var n := U16(p, 0);
    var bm := FixedColumn.BitmapOf(p, n);
    FullRank(bm, n, i);
    Tables.RowAt(bm, i, n, FixedColumn.Payloads(4, p, n));
  }

  // Row i of a column without nulls is the cell its reference names.
  lemma {:induction false} IntRefsRead(pages: seq<Bytes>)
    requires FixedColumn.ColumnOk(4, pages) && NoNulls(pages)
    ensures |IntRefs(pages)| == |FixedColumn.ColumnRows(4, pages)|
    ensures forall i :: 0 <= i < |IntRefs(pages)| ==> IntRefReads(pages, IntRefs(pages)[i].value, FixedColumn.ColumnRows(4, pages)[i])
  {
    hide U16, Rank, Rows, FixedColumn.Cell;
    if pages != [] {
      var k := |pages| - 1;
      var init, p := pages[..k], pages[k];
      assert forall i :: 0 <= i < k ==> init[i] == pages[i];
      IntRefsRead(init);
      forall i | 0 <= i < |IntRefs(init)|
        ensures IntRefReads(pages, IntRefs(init)[i].value, FixedColumn.ColumnRows(4, init)[i])
      {
        assert IntRefReads(init, IntRefs(init)[i].value, FixedColumn.ColumnRows(4, init)[i]);
      }
      forall i | 0 <= i < U16(p, 0)
        ensures IntRefReads(pages, Ref(k, i), FixedColumn.PageRows(4, p)[i])
      {
        FullPage(p, i);
        RowsWithin(p);
      }
    }
  }

  lemma RowsWithin(p: Bytes)
    requires FixedColumn.PageOk(4, p) && U16(p, 0) == U16(p, 2)
    ensures 4 + 4 * U16(p, 0) <= PAGE_SIZE
  {
  }

  predicate IntRefReads(pages: seq<Bytes>, r: Ref, row: Option<Bytes>)
  {
    && r.page < |pages| && |pages[r.page]| == PAGE_SIZE && 4 + 4 * r.pos + 4 <= PAGE_SIZE
    && row == Some(FixedColumn.Cell(4, pages[r.page], r.pos))
  }
}
