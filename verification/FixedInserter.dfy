// ColumnInserter<T> for 4-byte T (include/plan.h): values go straight into the current page, the
// bitmap is kept aside until the page is saved.
module FixedInserter {
  import opened Options
  import opened NullBitmap
  import opened PageBytes
  import opened FixedColumn

  class Column {
    var pages: seq<array<bv8>>

    constructor ()
      ensures pages == []
    {
      pages := [];
    }
  }

  ghost predicate Distinct<T>(s: seq<T>) {
    forall i, j :: 0 <= i < j < |s| ==> s[i] != s[j]
  }

  class ColumnInserter {
    const column: Column
    var lastPageIdx: nat
    var numRows: nat                // uint16_t
    var dataEnd: nat
    const bitmap: array<bv8>
    ghost var saved: seq<Bytes>     // the pages before lastPageIdx
    ghost var data: seq<Bytes>      // the values in the current page
    ghost var values: seq<Option<Bytes>>

    // The pages of the column before the current one, and the objects this inserter may write.
    ghost predicate Valid()
      reads this, column, bitmap, column.pages
    {
      && bitmap.Length == PAGE_SIZE
      && Stored(column.pages, saved)
      && lastPageIdx == |saved|
      && |column.pages| == |saved| + (if data == [] then 0 else 1)
      && bitmap !in column.pages
      && dataEnd == DataAt(4, |data|)
      && (data != [] ==> Cells(column.pages[|saved|], data))
      && Pending(4, saved, numRows, data, bitmap[..], values)
    }

    constructor (column: Column)
      requires column.pages == []
      ensures Valid() && values == [] && this.column == column && fresh(bitmap) && saved == []
    {
      this.column := column;
      lastPageIdx, numRows, dataEnd := 0, 0, DataAt(4, 0);
      bitmap := new bv8[PAGE_SIZE];
      saved, data, values := [], [], [];
      new;
      PendingStart(4, bitmap[..]);
    }

    // get_page(): the current page, created on first use.
    method GetPage() returns (page: array<bv8>)
      requires |saved| == lastPageIdx <= |column.pages| <= |saved| + 1 && Stored(column.pages, saved)
      requires bitmap !in column.pages
      modifies column
      ensures |column.pages| == |saved| + 1 && Stored(column.pages, saved) && page == column.pages[|saved|]
      ensures if old(|column.pages|) == |saved| then fresh(page) else column.pages == old(column.pages)
      ensures column.pages[..|saved|] == old(column.pages[..|saved|])
      ensures bitmap !in column.pages && page.Length == PAGE_SIZE
    {
      if lastPageIdx == |column.pages| {
        page := new bv8[PAGE_SIZE];
        column.pages := column.pages + [page];
      }
      page := column.pages[lastPageIdx];
    }

    // The copies of save_page().
    method WritePage(page: array<bv8>)
      requires page.Length == PAGE_SIZE && page != bitmap && bitmap.Length == PAGE_SIZE
      requires dataEnd == DataAt(4, |data|) && (data != [] ==> Cells(page, data))
      requires Pending(4, saved, numRows, data, bitmap[..], values)
      modifies page
      ensures Written(4, page[..], numRows, data, bitmap[..])
    {
      hide Rank, Rows, Written, U16, U16Bytes, Splice, ColumnRows, PageRows, PageOk;
      PendingBounds(4, saved, numRows, data, bitmap[..], values);
      SavedAround(page[..], numRows, data, bitmap[..]);
      var bitmapSize := BytesFor(numRows);
      Copy(page, 0, U16Bytes(numRows));
      Copy(page, 2, U16Bytes((dataEnd - DataAt(4, 0)) / 4));
      Copy(page, PAGE_SIZE - bitmapSize, bitmap[..bitmapSize]);
      assert bitmap[..bitmapSize] == bitmap[..][..bitmapSize];
    }

    // save_page()
    method FlushPage()
      requires Valid() && numRows > 0
      modifies this, column, column.pages
      ensures Valid() && values == old(values) && numRows == 0 && data == []
      ensures forall p :: p in column.pages ==> p in old(column.pages) || fresh(p)
    {
      hide Pending, Written, Cells;
      var page := GetPage();
      WritePage(page);
      PendingSaved(4, saved, numRows, data, bitmap[..], values, page[..]);
      saved := saved + [page[..]];
      lastPageIdx := lastPageIdx + 1;
      numRows, dataEnd, data := 0, DataAt(4, 0), [];
    }

    // insert(value)
    method Insert(value: Bytes)
      requires Valid() && |value| == 4
      modifies this, column, bitmap, column.pages
      ensures Valid() && values == old(values) + [Some(value)]
      ensures forall p :: p in column.pages ==> p in old(column.pages) || fresh(p)
    {
      hide Pending, Cells;
      PendingBounds(4, saved, numRows, data, bitmap[..], values);
      if dataEnd + 4 + numRows / 8 + 1 > PAGE_SIZE {
        FlushPage();
        assert forall i :: 0 <= i < |column.pages| ==> column.pages[i] in old(column.pages) || fresh(column.pages[i]);
      }
      Append(value);
    }

    // insert(value) once the page has room.
    method Append(value: Bytes)
      requires Valid() && |value| == 4 && dataEnd + 4 + numRows / 8 + 1 <= PAGE_SIZE
      modifies this, column, bitmap, column.pages
      ensures Valid() && values == old(values) + [Some(value)]
      ensures forall p :: p in column.pages ==> p in old(column.pages) || fresh(p)
    {
      hide Pending, Cells, SetBit, BytesFor;
      PendingValue(4, saved, numRows, data, bitmap[..], values, value);
      var page := GetPage();
      PutCell(page, value);
      SetBitmap(numRows);
      dataEnd := dataEnd + 4;
      data, values := data + [value], values + [Some(value)];
      numRows := numRows + 1;
    }

    method SetBitmap(idx: nat)
      requires idx / 8 < bitmap.Length
      modifies bitmap
      ensures bitmap[..] == SetBit(old(bitmap[..]), idx)
    {
      bitmap[idx / 8] := WithBit(bitmap[idx / 8], idx % 8);
    }

    method UnsetBitmap(idx: nat)
      requires idx / 8 < bitmap.Length
      modifies bitmap
      ensures bitmap[..] == ClearBit(old(bitmap[..]), idx)
    {
      bitmap[idx / 8] := WithoutBit(bitmap[idx / 8], idx % 8);
    }

    method PutCell(page: array<bv8>, value: Bytes)
      requires page.Length == PAGE_SIZE && |value| == 4 && dataEnd == DataAt(4, |data|)
      requires DataAt(4, |data| + 1) <= PAGE_SIZE && (data != [] ==> Cells(page, data))
      modifies page
      ensures Cells(page, data + [value])
    {
      CellsAppend(page[..], data, value);
      Copy(page, dataEnd, value);
    }

    // insert_null()
    method InsertNull()
      requires Valid()
      modifies this, column, bitmap, column.pages
      ensures Valid() && values == old(values) + [None]
      ensures forall p :: p in column.pages ==> p in old(column.pages) || fresh(p)
    {
      hide Pending, Cells, ClearBit, BytesFor;
      PendingBounds(4, saved, numRows, data, bitmap[..], values);
      if dataEnd + numRows / 8 + 1 > PAGE_SIZE {
        FlushPage();
      }
      PendingNull(4, saved, numRows, data, bitmap[..], values);
      UnsetBitmap(numRows);
      values := values + [None];
      numRows := numRows + 1;
    }

    // finalize(): the column's pages now read back as the inserted rows.
    method Finalize()
      requires Valid()
      modifies this, column, column.pages
      ensures Valid() && values == old(values)
      ensures |column.pages| == |saved| && Stored(column.pages, saved)
      ensures ColumnOk(4, saved) && ColumnRows(4, saved) == values
    {
      hide Rank, Rows, ColumnRows, ColumnOk, Cells;
      if numRows != 0 {
        FlushPage();
      }
      PendingEmpty(4, saved, numRows, data, bitmap[..], values);
    }
  }

  // The first |saved| pages have these contents.
  ghost predicate Stored(pages: seq<array<bv8>>, saved: seq<Bytes>)
    reads pages
  {
    && |saved| <= |pages| && Distinct(pages)
    && (forall i :: 0 <= i < |pages| ==> pages[i].Length == PAGE_SIZE)
    && (forall i :: 0 <= i < |saved| ==> pages[i][..] == saved[i])
  }

  // The page holds these values from its start.
  ghost predicate Cells(page: array<bv8>, data: seq<Bytes>)
    reads page
  {
    && page.Length == PAGE_SIZE && DataAt(4, |data|) <= PAGE_SIZE
    && (forall d :: 0 <= d < |data| ==> |data[d]| == 4 && Cell(4, page[..], d) == data[d])
  }

  lemma CellsAppend(p: Bytes, data: seq<Bytes>, value: Bytes)
    requires |p| == PAGE_SIZE && |value| == 4 && DataAt(4, |data| + 1) <= PAGE_SIZE
    requires forall d :: 0 <= d < |data| ==> |data[d]| == 4 && Cell(4, p, d) == data[d]
    ensures var q := Splice(p, DataAt(4, |data|), value);
      forall d :: 0 <= d < |data + [value]| ==> |(data + [value])[d]| == 4 && Cell(4, q, d) == (data + [value])[d]
  {
    hide Splice;
    var at := DataAt(4, |data|);
    var q := Splice(p, at, value);
    forall d | 0 <= d < |data + [value]|
      ensures Cell(4, q, d) == (data + [value])[d]
    {
      SpliceRegion(p, at, value, DataAt(4, d), DataAt(4, d + 1));
    }
  }

  // The header and bitmap written by save_page around the values already in the page.
  lemma SavedAround(p: Bytes, n: nat, data: seq<Bytes>, bm: Bitmap)
    requires |p| == PAGE_SIZE && n < 0xfffe && |data| <= n && BytesFor(n) <= |bm| && Rank(bm, n) == |data|
    requires DataAt(4, |data|) + BytesFor(n) <= PAGE_SIZE
    requires forall d :: 0 <= d < |data| ==> |data[d]| == 4 && Cell(4, p, d) == data[d]
    ensures |U16Bytes(n)| == 2 && |U16Bytes(|data|)| == 2
    ensures var q := Splice(Splice(p, 0, U16Bytes(n)), 2, U16Bytes(|data|));
      Written(4, Splice(q, PAGE_SIZE - BytesFor(n), bm[..BytesFor(n)]), n, data, bm)
  {
    hide Splice, U16, U16Bytes, Rank, Cell;
    TwoBytes(n);
    TwoBytes(|data|);
    var at, bits := PAGE_SIZE - BytesFor(n), bm[..BytesFor(n)];
    var p1 := Splice(p, 0, U16Bytes(n));
    var p2 := Splice(p1, 2, U16Bytes(|data|));
    var p3 := Splice(p2, at, bits);
    SpliceRegion(p, 0, U16Bytes(n), 0, 2);
    SpliceRegion(p1, 2, U16Bytes(|data|), 0, 2);
    SpliceRegion(p2, at, bits, 0, 2);
    SpliceRegion(p2, at, bits, 2, 4);
    U16RoundTrip(n, p3, 0);
    U16RoundTrip(|data|, p3, 2);
    forall d | 0 <= d < |data|
      ensures Cell(4, p3, d) == data[d]
    {
      CellAround(p, n, |data|, bits, d);
    }
  }

  lemma CellAround(p: Bytes, n: nat, k: nat, bits: Bytes, d: nat)
    requires |p| == PAGE_SIZE && |U16Bytes(n)| == 2 && |U16Bytes(k)| == 2 && d < k && DataAt(4, k) + |bits| <= PAGE_SIZE
    ensures var q := Splice(Splice(p, 0, U16Bytes(n)), 2, U16Bytes(k));
      Cell(4, Splice(q, PAGE_SIZE - |bits|, bits), d) == Cell(4, p, d)
  {
    hide Splice, U16Bytes;
    var p1 := Splice(p, 0, U16Bytes(n));
    SpliceRegion(p, 0, U16Bytes(n), DataAt(4, d), DataAt(4, d + 1));
    SpliceRegion(p1, 2, U16Bytes(k), DataAt(4, d), DataAt(4, d + 1));
    SpliceRegion(Splice(p1, 2, U16Bytes(k)), PAGE_SIZE - |bits|, bits, DataAt(4, d), DataAt(4, d + 1));
  }

  lemma PendingEmpty(w: nat, pages: seq<Bytes>, n: nat, data: seq<Bytes>, bm: Bitmap, values: seq<Option<Bytes>>)
    requires Width(w) && Pending(w, pages, n, data, bm, values) && n == 0
    ensures data == [] && ColumnOk(w, pages) && ColumnRows(w, pages) == values
  {
    hide ColumnRows, PageRows;
    NoRows<Bytes>(bm);
    PendingDone(w, pages, data, bm, values);
  }
}
