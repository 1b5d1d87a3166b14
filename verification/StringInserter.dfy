// ColumnInserter<std::string> (include/plan.h): end offsets go straight into the current page, the
// characters and the bitmap are kept aside until the page is saved.
module StringInserter {
  import opened Options
  import opened SeqFacts
  import opened NullBitmap
  import opened PageBytes
  import opened VarcharColumn
  import opened VarcharWriter
  import FixedInserter

  type Column = FixedInserter.Column

  class ColumnInserter {
    const column: Column
    var lastPageIdx: nat
    var numRows: nat                // uint16_t
    var dataSize: nat               // uint16_t
    var offsetEnd: nat
    const data: array<bv8>
    const bitmap: array<bv8>
    ghost var saved: seq<Bytes>     // the pages before lastPageIdx
    ghost var strs: seq<Bytes>      // the strings of the current page
    ghost var values: seq<Option<Bytes>>

    ghost predicate Valid()
      reads this, column, data, bitmap, column.pages
    {
      && Apart(column.pages)
      && FixedInserter.Stored(column.pages, saved)
      && lastPageIdx == |saved|
      && |column.pages| == |saved| + (if strs == [] then 0 else 1)
      && offsetEnd == 4 + 2 * |strs|
      && Buffered(data, dataSize, strs)
      && (strs != [] ==> OffsetsIn(column.pages[|saved|], strs))
      && Pending(saved, numRows, strs, bitmap[..], values)
    }

    // The buffers are not pages.
    ghost predicate Apart(pages: seq<array<bv8>>) {
      bitmap.Length == PAGE_SIZE && data.Length == PAGE_SIZE && bitmap != data && bitmap !in pages && data !in pages
    }

    constructor (column: Column)
      requires column.pages == []
      ensures Valid() && values == [] && this.column == column && fresh(bitmap) && fresh(data) && saved == []
    {
      this.column := column;
      lastPageIdx, numRows, dataSize, offsetEnd := 0, 0, 0, 4;
      data := new bv8[PAGE_SIZE];
      bitmap := new bv8[PAGE_SIZE];
      saved, strs, values := [], [], [];
      new;
      PendingStart(bitmap[..]);
    }

    // get_page(): the current page, created on first use.
    method GetPage() returns (page: array<bv8>)
      requires |saved| == lastPageIdx <= |column.pages| <= |saved| + 1
      requires FixedInserter.Stored(column.pages, saved) && Apart(column.pages)
      modifies column
      ensures |column.pages| == |saved| + 1 && FixedInserter.Stored(column.pages, saved) && page == column.pages[|saved|]
      ensures if old(|column.pages|) == |saved| then fresh(page) else column.pages == old(column.pages)
      ensures column.pages[..|saved|] == old(column.pages[..|saved|])
      ensures Apart(column.pages) && page.Length == PAGE_SIZE
    {
      if lastPageIdx == |column.pages| {
        page := new bv8[PAGE_SIZE];
        column.pages := column.pages + [page];
      }
      page := column.pages[lastPageIdx];
    }

    // The copies of save_page().
    method WritePage(page: array<bv8>)
      requires page.Length == PAGE_SIZE && Apart([page])
      requires offsetEnd == 4 + 2 * |strs| && Buffered(data, dataSize, strs)
      requires strs != [] ==> OffsetsIn(page, strs)
      requires Pending(saved, numRows, strs, bitmap[..], values)
      modifies page
      ensures Written(page[..], numRows, strs, bitmap[..])
    {
      hide Rank, Rows, Written, U16, U16Bytes, Splice, ColumnRows, ColumnOk, Flatten, Ends;
      PendingBounds(saved, numRows, strs, bitmap[..], values);
      SavedAround(page[..], numRows, strs, bitmap[..]);
      var bitmapSize := BytesFor(numRows);
      Copy(page, 0, U16Bytes(numRows));
      Copy(page, 2, U16Bytes((offsetEnd - 4) / 2));
      Copy(page, offsetEnd, data[..dataSize]);
      Copy(page, PAGE_SIZE - bitmapSize, bitmap[..bitmapSize]);
      assert bitmap[..bitmapSize] == bitmap[..][..bitmapSize];
    }

    // save_page()
    method FlushPage()
      requires Valid() && numRows > 0
      modifies this, column, column.pages
      ensures Valid() && values == old(values) && numRows == 0 && strs == [] && dataSize == 0 && offsetEnd == 4
      ensures forall p :: p in column.pages ==> p in old(column.pages) || fresh(p)
    {
      hide Pending, Written, OffsetsIn, Flatten;
      var page := GetPage();
      WritePage(page);
      PendingSaved(saved, numRows, strs, bitmap[..], values, page[..]);
      saved := saved + [page[..]];
      lastPageIdx := lastPageIdx + 1;
      numRows, dataSize, offsetEnd, strs := 0, 0, 4, [];
      NoStrings();
    }

    // One page of a long string.
    method SaveLongPage(mark: nat, part: Bytes) returns (ghost p: Bytes)
      requires lastPageIdx == |saved| == |column.pages| && mark < 0x1_0000 && |part| <= LONG_PART
      requires Apart(column.pages) && FixedInserter.Stored(column.pages, saved)
      modifies `saved, `lastPageIdx, column
      ensures LongWritten(p, mark, part) && |p| == PAGE_SIZE && U16(p, 0) == mark
      ensures saved == old(saved) + [p] && lastPageIdx == |saved| == |column.pages|
      ensures Apart(column.pages) && FixedInserter.Stored(column.pages, saved)
      ensures forall q :: q in column.pages ==> q in old(column.pages) || fresh(q)
    {
      hide LongWritten;
      var page := GetPage();
      WriteLongPage(page, mark, part);
      LongMark(page[..], mark, part);
      p := page[..];
      saved := saved + [p];
      lastPageIdx := lastPageIdx + 1;
    }

    // save_long_string(value)
    method SaveLongString(value: Bytes)
      requires Valid() && numRows == 0 && |value| > LONGEST
      modifies this, column, column.pages
      ensures Valid() && values == old(values) + [Some(value)] && numRows == 0
      ensures forall p :: p in column.pages ==> p in old(column.pages) || fresh(p)
    {
      hide Pending, ColumnRows, PagesOk, Chained, LongWritten, Buffered, OffsetsIn;
      PendingEmpty(saved, numRows, strs, bitmap[..], values);
      PagesOf(saved);
      ghost var before := saved;
      var offset := 0;
      var firstPage := true;
      while offset < |value|
        invariant offset <= |value| && (firstPage <==> offset == 0)
        invariant Apart(column.pages) && FixedInserter.Stored(column.pages, saved)
        invariant lastPageIdx == |saved| == |column.pages|
        invariant strs == [] && numRows == 0 && unchanged(`strs, `numRows, `offsetEnd, `dataSize, `values)
        invariant ColumnOk(saved)
        invariant firstPage ==> saved == before
        invariant !firstPage ==> saved != [] && |saved[|saved| - 1]| == PAGE_SIZE && U16(saved[|saved| - 1], 0) >= NEXT
        invariant !firstPage ==> ColumnRows(saved) == ColumnRows(before) + [Some(value[..offset])]
        invariant forall p :: p in column.pages ==> p in old(column.pages) || fresh(p)
      {
        var pageDataLen := if |value| - offset <= LONG_PART then |value| - offset else LONG_PART;
        var part := value[offset..offset + pageDataLen];
        assert value[..offset + pageDataLen] == value[..offset] + part;
        ghost var earlier := saved;
        if firstPage {
          var page := SaveLongPage(FIRST, part);
          LongStart(earlier, page, part);
          firstPage := false;
        } else {
          var page := SaveLongPage(NEXT, part);
          LongNext(earlier, page, ColumnRows(before), value[..offset], part);
        }
        offset := offset + pageDataLen;
      }
      assert value[..offset] == value;
      PendingOnly(saved, bitmap[..]);
      values := values + [Some(value)];
    }

    // insert(value)
    method Insert(value: Bytes)
      requires Valid()
      modifies this, column, data, bitmap, column.pages
      ensures Valid() && values == old(values) + [Some(value)]
      ensures forall p :: p in column.pages ==> p in old(column.pages) || fresh(p)
    {
      hide Pending, OffsetsIn, Flatten;
      PendingBounds(saved, numRows, strs, bitmap[..], values);
      if |value| > LONGEST {
        if numRows > 0 {
          FlushPage();
          assert forall i :: 0 <= i < |column.pages| ==> column.pages[i] in old(column.pages) || fresh(column.pages[i]);
        }
        SaveLongString(value);
      } else {
        if offsetEnd + 2 + dataSize + |value| + numRows / 8 + 1 > PAGE_SIZE {
          FlushPage();
          assert forall i :: 0 <= i < |column.pages| ==> column.pages[i] in old(column.pages) || fresh(column.pages[i]);
        }
        Append(value);
      }
    }

    // insert(value) once the page has room.
    method Append(value: Bytes)
      requires Valid() && offsetEnd + 2 + dataSize + |value| + numRows / 8 + 1 <= PAGE_SIZE
      modifies this, column, data, bitmap, column.pages
      ensures Valid() && values == old(values) + [Some(value)]
      ensures forall p :: p in column.pages ==> p in old(column.pages) || fresh(p)
    {
      hide Pending, OffsetsIn, SetBit, BytesFor, Flatten, Ends;
      PendingValue(saved, numRows, strs, bitmap[..], values, value);
      BufferChars(value);
      var page := GetPage();
      PutOffset(page, offsetEnd, dataSize, strs, value);
      offsetEnd := offsetEnd + 2;
      SetBitmap(numRows);
      strs, values := strs + [value], values + [Some(value)];
      numRows := numRows + 1;
    }

    method BufferChars(value: Bytes)
      requires Buffered(data, dataSize, strs) && dataSize + |value| <= data.Length
      modifies `dataSize, data
      ensures Buffered(data, dataSize, strs + [value]) && dataSize == old(dataSize) + |value|
    {
      hide Flatten;
      BufferAppend(data[..], dataSize, strs, value);
      Copy(data, dataSize, value);
      dataSize := dataSize + |value|;
      assert data[..dataSize] == data[..][..dataSize];
    }

    method SetBitmap(idx: nat)
      requires idx / 8 < bitmap.Length
      modifies bitmap
      ensures bitmap[..] == SetBit(old(bitmap[..]), idx)
    {
      bitmap[idx / 8] := WithBit(bitmap[idx / 8], idx % 8);
    }

    method UnsetBitmap(idx: nat)
      requires idx / 8 < bitmap.Length
      modifies bitmap
      ensures bitmap[..] == ClearBit(old(bitmap[..]), idx)
    {
      bitmap[idx / 8] := WithoutBit(bitmap[idx / 8], idx % 8);
    }

    // insert_null()
    method InsertNull()
      requires Valid()
      modifies this, column, bitmap, column.pages
      ensures Valid() && values == old(values) + [None]
      ensures forall p :: p in column.pages ==> p in old(column.pages) || fresh(p)
    {
      hide Pending, OffsetsIn, ClearBit, BytesFor, Flatten, Ends;
      PendingBounds(saved, numRows, strs, bitmap[..], values);
      if offsetEnd + dataSize + numRows / 8 + 1 > PAGE_SIZE {
        FlushPage();
        NoStrings();
      }
      PendingNull(saved, numRows, strs, bitmap[..], values);
      UnsetBitmap(numRows);
      values := values + [None];
      numRows := numRows + 1;
    }

    // finalize(): the column's pages now read back as the inserted rows.
    method Finalize()
      requires Valid()
      modifies this, column, column.pages
      ensures Valid() && values == old(values)
      ensures |column.pages| == |saved| && FixedInserter.Stored(column.pages, saved)
      ensures ColumnOk(saved) && ColumnRows(saved) == values
    {
      hide Pending, ColumnRows, ColumnOk, OffsetsIn, Flatten;
      if numRows != 0 {
        FlushPage();
      }
      PendingEmpty(saved, numRows, strs, bitmap[..], values);
    }
  }

  // The first size bytes are the characters of the strings.
  ghost predicate Buffered(data: array<bv8>, size: nat, strs: seq<Bytes>)
    reads data
  {
    size <= data.Length && data[..size] == Flatten(strs)
  }

  // The page holds the end offsets of the strings.
  ghost predicate OffsetsIn(page: array<bv8>, strs: seq<Bytes>)
    reads page
  {
    page.Length == PAGE_SIZE && HasOffsets(page[..], Ends(strs))
  }

  ghost predicate HasOffsets(p: Bytes, ends: seq<nat>) {
    && |p| == PAGE_SIZE && 4 + 2 * |ends| <= PAGE_SIZE
    && forall d :: 0 <= d < |ends| ==> EndAt(p, d) == ends[d]
  }

  method PutOffset(page: array<bv8>, at: nat, size: nat, ghost strs: seq<Bytes>, ghost value: Bytes)
    requires page.Length == PAGE_SIZE && at == 4 + 2 * |strs| && at + 2 <= PAGE_SIZE && size <= PAGE_SIZE
    requires strs != [] ==> OffsetsIn(page, strs)
    requires Ends(strs + [value]) == Ends(strs) + [size]
    modifies page
    ensures OffsetsIn(page, strs + [value])
  {
    hide U16Bytes, Splice, HasOffsets, Ends;
    OffsetsAppend(page[..], Ends(strs), size);
    TwoBytes(size);
    Copy(page, at, U16Bytes(size));
  }

  lemma OffsetsAppend(p: Bytes, ends: seq<nat>, size: nat)
    requires |p| == PAGE_SIZE && 4 + 2 * |ends| + 2 <= PAGE_SIZE && size <= PAGE_SIZE
    requires ends != [] ==> HasOffsets(p, ends)
    ensures |U16Bytes(size)| == 2
    ensures HasOffsets(Splice(p, 4 + 2 * |ends|, U16Bytes(size)), ends + [size])
  {
    hide Splice, U16Bytes, EndAt;
    TwoBytes(size);
    OffsetPut(p, |ends|, size);
    forall d | 0 <= d < |ends|
      ensures EndAt(Splice(p, 4 + 2 * |ends|, U16Bytes(size)), d) == EndAt(p, d)
    {
      OffsetKept(p, |ends|, size, d);
    }
  }

  lemma OffsetPut(p: Bytes, k: nat, size: nat)
    requires |p| == PAGE_SIZE && 4 + 2 * k + 2 <= PAGE_SIZE && size <= PAGE_SIZE && |U16Bytes(size)| == 2
    ensures EndAt(Splice(p, 4 + 2 * k, U16Bytes(size)), k) == size
  {
    hide Splice, U16Bytes, U16;
    SpliceRegion(p, 4 + 2 * k, U16Bytes(size), 0, 0);
    U16RoundTrip(size, Splice(p, 4 + 2 * k, U16Bytes(size)), 4 + 2 * k);
  }

  lemma OffsetKept(p: Bytes, k: nat, size: nat, d: nat)
    requires |p| == PAGE_SIZE && 4 + 2 * k + 2 <= PAGE_SIZE && |U16Bytes(size)| == 2 && d < k
    ensures EndAt(Splice(p, 4 + 2 * k, U16Bytes(size)), d) == EndAt(p, d)
  {
    hide Splice, U16Bytes, U16;
    SpliceRegion(p, 4 + 2 * k, U16Bytes(size), 4 + 2 * d, 4 + 2 * d + 2);
    SameU16(p, Splice(p, 4 + 2 * k, U16Bytes(size)), 4 + 2 * d);
  }

  lemma SameU16(p: Bytes, q: Bytes, at: nat)
    requires at + 2 <= |p| && at + 2 <= |q| && p[at..at + 2] == q[at..at + 2]
    ensures U16(p, at) == U16(q, at)
  {
    hide NatOf;
    assert p[at] == p[at..at + 2][0] && p[at + 1] == p[at..at + 2][1];
    assert q[at] == q[at..at + 2][0] && q[at + 1] == q[at..at + 2][1];
  }

  lemma BufferAppend(buffer: Bytes, size: nat, strs: seq<Bytes>, value: Bytes)
    requires size + |value| <= |buffer| && buffer[..size] == Flatten(strs)
    ensures Splice(buffer, size, value)[..size + |value|] == Flatten(strs + [value])
  {
    hide Flatten;
    FlattenSnoc(strs, value);
  }

  lemma OffsetAround(p: Bytes, n: nat, k: nat, data: Bytes, bits: Bytes, d: nat)
    requires |p| == PAGE_SIZE && |U16Bytes(n)| == 2 && |U16Bytes(k)| == 2
    requires 4 + 2 * k + |data| + |bits| <= PAGE_SIZE && d < k
    ensures var q := Splice(Splice(p, 0, U16Bytes(n)), 2, U16Bytes(k));
      EndAt(Splice(Splice(q, 4 + 2 * k, data), PAGE_SIZE - |bits|, bits), d) == EndAt(p, d)
  {
    hide Splice, U16, U16Bytes;
    var a := 4 + 2 * d;
    var p1 := Splice(p, 0, U16Bytes(n));
    var p2 := Splice(p1, 2, U16Bytes(k));
    var p3 := Splice(p2, 4 + 2 * k, data);
    SpliceRegion(p, 0, U16Bytes(n), a, a + 2);
    SpliceRegion(p1, 2, U16Bytes(k), a, a + 2);
    SpliceRegion(p2, 4 + 2 * k, data, a, a + 2);
    SpliceRegion(p3, PAGE_SIZE - |bits|, bits, a, a + 2);
    SameU16(p, Splice(p3, PAGE_SIZE - |bits|, bits), a);
  }

  // The header, characters and bitmap written by save_page around the offsets already in the page.
  lemma SavedAround(p: Bytes, n: nat, strs: seq<Bytes>, bm: Bitmap)
    requires |p| == PAGE_SIZE && n < NEXT && |strs| <= n && BytesFor(n) <= |bm| && Rank(bm, n) == |strs|
    requires 4 + 2 * |strs| + |Flatten(strs)| + BytesFor(n) <= PAGE_SIZE
    requires strs != [] ==> HasOffsets(p, Ends(strs))
    ensures |U16Bytes(n)| == 2 && |U16Bytes(|strs|)| == 2
    ensures var q := Splice(Splice(p, 0, U16Bytes(n)), 2, U16Bytes(|strs|));
      Written(Splice(Splice(q, 4 + 2 * |strs|, Flatten(strs)), PAGE_SIZE - BytesFor(n), bm[..BytesFor(n)]), n, strs, bm)
  {
    hide Splice, U16, U16Bytes, Rank, Flatten, Ends, EndAt;
    TwoBytes(n);
    TwoBytes(|strs|);
    var k, data, bits := |strs|, Flatten(strs), bm[..BytesFor(n)];
    var at := PAGE_SIZE - |bits|;
    var p1 := Splice(p, 0, U16Bytes(n));
    var p2 := Splice(p1, 2, U16Bytes(k));
    var p3 := Splice(p2, 4 + 2 * k, data);
    var p4 := Splice(p3, at, bits);
    SpliceRegion(p, 0, U16Bytes(n), 0, 2);
    SpliceRegion(p1, 2, U16Bytes(k), 0, 2);
    SpliceRegion(p1, 2, U16Bytes(k), 2, 4);
    SpliceRegion(p2, 4 + 2 * k, data, 0, 2);
    SpliceRegion(p2, 4 + 2 * k, data, 2, 4);
    SpliceRegion(p3, at, bits, 0, 2);
    SpliceRegion(p3, at, bits, 2, 4);
    U16RoundTrip(n, p4, 0);
    U16RoundTrip(k, p4, 2);
    forall d | 0 <= d < k
      ensures EndAt(p4, d) == Ends(strs)[d]
    {
      OffsetAround(p, n, k, data, bits, d);
    }
    SpliceRegion(p2, 4 + 2 * k, data, 4 + 2 * k, 4 + 2 * k + |data|);
    SpliceRegion(p3, at, bits, 4 + 2 * k, 4 + 2 * k + |data|);
    SpliceRegion(p3, at, bits, at, PAGE_SIZE);
    assert p4[at..] == p4[at..at + |bits|];
  }
}
