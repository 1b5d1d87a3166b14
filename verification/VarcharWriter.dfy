// Table::to_columnar for a VARCHAR column.
module VarcharWriter {
  import opened Options
  import opened SeqFacts
  import opened NullBitmap
  import opened PageBytes
  import opened VarcharColumn
  import opened LongPositions

  // A string longer than this goes to pages of its own.
  const LONGEST := 8185         // PAGE_SIZE - 7

  // -------- long strings --------

  ghost predicate LongWritten(p: Bytes, mark: nat, part: Bytes) {
    && |p| == PAGE_SIZE && |part| <= LONG_PART
    && U16(p, 0) == mark && U16(p, 2) == |part|
    && p[4..4 + |part|] == part
  }

  // The first page of a long string adds a row.
  lemma LongStart(pages: seq<Bytes>, p: Bytes, part: Bytes)
    requires ColumnOk(pages) && LongWritten(p, FIRST, part)
    ensures ColumnOk(pages + [p]) && ColumnRows(pages + [p]) == ColumnRows(pages) + [Some(part)]
  {
    hide ColumnRows, NormalOk, U16, Chained, PagesOk;
    ColumnSnoc(pages, p);
    ChainedSnoc(pages, p);
  }

  // A continuation page extends the row before it.
  lemma LongNext(pages: seq<Bytes>, p: Bytes, rows: seq<Option<Bytes>>, prefix: Bytes, part: Bytes)
    requires ColumnOk(pages) && pages != [] && U16(pages[|pages| - 1], 0) >= NEXT
    requires ColumnRows(pages) == rows + [Some(prefix)] && LongWritten(p, NEXT, part)
    ensures ColumnOk(pages + [p]) && ColumnRows(pages + [p]) == rows + [Some(prefix + part)]
  {
    hide ColumnRows, NormalOk, U16, Chained, PagesOk;
    ColumnSnoc(pages, p);
    ChainedSnoc(pages, p);
    assert (rows + [Some(prefix)])[..|rows|] == rows;
  }

  lemma LongSaved(p: Bytes, mark: nat, part: Bytes)
    requires |p| == PAGE_SIZE && mark < 0x1_0000 && |part| <= LONG_PART
    ensures |U16Bytes(mark)| == 2 && |U16Bytes(|part|)| == 2
    ensures LongWritten(Splice(Splice(Splice(p, 0, U16Bytes(mark)), 2, U16Bytes(|part|)), 4, part), mark, part)
  {
    hide Splice, U16, U16Bytes;
    TwoBytes(mark);
    TwoBytes(|part|);
    var p1 := Splice(p, 0, U16Bytes(mark));
    var p2 := Splice(p1, 2, U16Bytes(|part|));
    var p3 := Splice(p2, 4, part);
    SpliceRegion(p, 0, U16Bytes(mark), 0, 2);
    SpliceRegion(p1, 2, U16Bytes(|part|), 0, 2);
    SpliceRegion(p2, 4, part, 0, 2);
    SpliceRegion(p2, 4, part, 2, 4);
    U16RoundTrip(mark, p3, 0);
    U16RoundTrip(|part|, p3, 2);
  }

  lemma TwoBytes(n: nat)
    ensures |U16Bytes(n)| == 2
  {
  }

  method WriteLongPage(page: array<bv8>, mark: nat, part: Bytes)
    requires page.Length == PAGE_SIZE && mark < 0x1_0000 && |part| <= LONG_PART
    modifies page
    ensures LongWritten(page[..], mark, part)
  {
    hide LongWritten, Splice, U16Bytes;
    LongSaved(page[..], mark, part);
    Copy(page, 0, U16Bytes(mark));
    Copy(page, 2, U16Bytes(|part|));
    Copy(page, 4, part);
  }

  // save_long_string(data)
  method SaveLongString(pages: seq<Bytes>, value: Bytes) returns (pages': seq<Bytes>)
    requires ColumnOk(pages) && |value| > LONGEST
    ensures ColumnOk(pages') && ColumnRows(pages') == ColumnRows(pages) + [Some(value)]
    ensures Inhabited(pages) ==> Inhabited(pages')
  {
    hide ColumnRows, PagesOk, Chained, LongWritten, Inhabited;
    pages' := pages;
    var offset := 0;
    var firstPage := true;
    while offset < |value|
      invariant offset <= |value| && ColumnOk(pages') && (firstPage <==> offset == 0)
      invariant Inhabited(pages) ==> Inhabited(pages')
      invariant firstPage ==> pages' == pages
      invariant !firstPage ==> pages' != [] && |pages'[|pages'| - 1]| == PAGE_SIZE && U16(pages'[|pages'| - 1], 0) >= NEXT
      invariant !firstPage ==> ColumnRows(pages') == ColumnRows(pages) + [Some(value[..offset])]
    {
      var page := new bv8[PAGE_SIZE];
      var pageDataLen := if |value| - offset <= LONG_PART then |value| - offset else LONG_PART;
      var part := value[offset..offset + pageDataLen];
      assert value[..offset + pageDataLen] == value[..offset] + part;
      if firstPage {
        WriteLongPage(page, FIRST, part);
        LongStart(pages', page[..], part);
        LongMark(page[..], FIRST, part);
        firstPage := false;
      } else {
        WriteLongPage(page, NEXT, part);
        LongNext(pages', page[..], ColumnRows(pages), value[..offset], part);
        LongMark(page[..], NEXT, part);
      }
      InhabitedSnoc(pages', page[..]);
      pages' := pages' + [page[..]];
      offset := offset + pageDataLen;
    }
    assert value[..offset] == value;
  }

  lemma LongMark(p: Bytes, mark: nat, part: Bytes)
    requires LongWritten(p, mark, part)
    ensures |p| == PAGE_SIZE && U16(p, 0) == mark
  {
  }

  lemma InhabitedSnoc(pages: seq<Bytes>, p: Bytes)
    requires ColumnOk(pages) && ColumnOk(pages + [p]) && |p| == PAGE_SIZE && U16(p, 0) > 0
    ensures Inhabited(pages) ==> Inhabited(pages + [p])
  {
    hide PageOk, U16;
    if Inhabited(pages) {
      forall i | 0 <= i < |pages + [p]|
        ensures LongPositions.Mark(pages + [p], i) > 0
      {
        if i < |pages| {
          assert LongPositions.Mark(pages, i) > 0;
        }
      }
    }
  }

  // -------- normal pages --------

  // The bytes of a vector<uint16_t>.
  function OffsetBytes(ends: seq<nat>): Bytes {
    if ends == [] then [] else OffsetBytes(ends[..|ends| - 1]) + U16Bytes(ends[|ends| - 1])
  }

  lemma {:induction false} OffsetBytesLength(ends: seq<nat>)
    ensures |OffsetBytes(ends)| == 2 * |ends|
  {
    if ends != [] {
      OffsetBytesLength(ends[..|ends| - 1]);
      TwoBytes(ends[|ends| - 1]);
    }
  }

  lemma {:induction false} OffsetBytesAt(ends: seq<nat>, d: nat)
    requires d < |ends| && |OffsetBytes(ends)| == 2 * |ends|
    ensures OffsetBytes(ends)[2 * d..2 * d + 2] == U16Bytes(ends[d])
    decreases |ends|
  {
    hide U16Bytes;
    var init := ends[..|ends| - 1];
    OffsetBytesLength(init);
    TwoBytes(ends[|ends| - 1]);
    if d < |init| {
      OffsetBytesAt(init, d);
      assert OffsetBytes(ends)[2 * d..2 * d + 2] == OffsetBytes(init)[2 * d..2 * d + 2];
    }
  }

  // The five copies that save_page makes, in its order.
  ghost function Saved(p: Bytes, n: nat, offsets: seq<nat>, data: Bytes, bm: Bitmap): Bytes
    requires |p| == PAGE_SIZE && 4 + 2 * |offsets| + |data| + |bm| <= PAGE_SIZE && |OffsetBytes(offsets)| == 2 * |offsets|
  {
    var headed := Splice(Splice(p, 0, U16Bytes(n)), 2, U16Bytes(|offsets|));
    var filled := Splice(Splice(headed, 4, OffsetBytes(offsets)), 4 + 2 * |offsets|, data);
    Splice(filled, PAGE_SIZE - |bm|, bm)
  }

  lemma SavedIsWritten(p: Bytes, n: nat, strs: seq<Bytes>, bm: Bitmap)
    requires |p| == PAGE_SIZE && n < NEXT && |bm| == BytesFor(n) && |strs| <= n && Rank(bm, n) == |strs|
    requires 4 + 2 * |strs| + |Flatten(strs)| + BytesFor(n) <= PAGE_SIZE
    ensures |OffsetBytes(Ends(strs))| == 2 * |strs|
    ensures Written(Saved(p, n, Ends(strs), Flatten(strs), bm), n, strs, bm)
  {
    hide Flatten, Rank, Splice, U16, U16Bytes, Ends, OffsetBytes;
    TwoBytes(n);
    TwoBytes(|strs|);
    OffsetBytesLength(Ends(strs));
    var k, data, offs := |strs|, Flatten(strs), OffsetBytes(Ends(strs));
    var p1 := Splice(p, 0, U16Bytes(n));
    var p2 := Splice(p1, 2, U16Bytes(k));
    var p3 := Splice(p2, 4, offs);
    var p4 := Splice(p3, 4 + 2 * k, data);
    var at := PAGE_SIZE - |bm|;
    var p5 := Splice(p4, at, bm);
    SpliceRegion(p, 0, U16Bytes(n), 0, 2);
    SpliceRegion(p1, 2, U16Bytes(k), 0, 2);
    SpliceRegion(p1, 2, U16Bytes(k), 2, 4);
    Through(p2, offs, k, data, bm, 0, 2);
    Through(p2, offs, k, data, bm, 2, 4);
    U16RoundTrip(n, p5, 0);
    U16RoundTrip(k, p5, 2);
    forall d | 0 <= d < k
      ensures EndAt(p5, d) == Ends(strs)[d]
    {
      EndsAt(strs, d);
      OffsetSaved(p2, Ends(strs), data, bm, d);
    }
    SpliceRegion(p3, 4 + 2 * k, data, 4 + 2 * k, 4 + 2 * k + |data|);
    SpliceRegion(p4, at, bm, 4 + 2 * k, 4 + 2 * k + |data|);
    SpliceRegion(p4, at, bm, at, PAGE_SIZE);
    assert p5[at..] == p5[at..at + |bm|] && bm[..BytesFor(n)] == bm;
  }

  lemma OffsetSaved(p: Bytes, ends: seq<nat>, data: Bytes, bm: Bitmap, d: nat)
    requires |p| == PAGE_SIZE && |OffsetBytes(ends)| == 2 * |ends| && 4 + 2 * |ends| + |data| + |bm| <= PAGE_SIZE
    requires d < |ends| && ends[d] < 0x1_0000
    ensures U16(Splice(Splice(Splice(p, 4, OffsetBytes(ends)), 4 + 2 * |ends|, data), PAGE_SIZE - |bm|, bm), 4 + 2 * d) == ends[d]
  {
    hide Splice, U16, U16Bytes, OffsetBytes;
    var offs, k, a := OffsetBytes(ends), |ends|, 4 + 2 * d;
    var p3 := Splice(p, 4, offs);
    var p4 := Splice(p3, 4 + 2 * k, data);
    SpliceRegion(p, 4, offs, 4, 4 + 2 * k);
    SubRegion(p3, 4, offs, 2 * d, 2 * d + 2);
    SpliceRegion(p3, 4 + 2 * k, data, a, a + 2);
    SpliceRegion(p4, PAGE_SIZE - |bm|, bm, a, a + 2);
    OffsetBytesAt(ends, d);
    U16RoundTrip(ends[d], Splice(p4, PAGE_SIZE - |bm|, bm), a);
  }

  // The last three copies leave the header alone.
  lemma Through(p: Bytes, offs: Bytes, k: nat, data: Bytes, bm: Bitmap, from: nat, to: nat)
    requires |p| == PAGE_SIZE && |offs| == 2 * k && 4 + 2 * k + |data| + |bm| <= PAGE_SIZE && from <= to <= 4
    ensures Splice(Splice(Splice(p, 4, offs), 4 + 2 * k, data), PAGE_SIZE - |bm|, bm)[from..to] == p[from..to]
  {
    hide Splice;
    var p3 := Splice(p, 4, offs);
    var p4 := Splice(p3, 4 + 2 * k, data);
    SpliceRegion(p, 4, offs, from, to);
    SpliceRegion(p3, 4 + 2 * k, data, from, to);
    SpliceRegion(p4, PAGE_SIZE - |bm|, bm, from, to);
  }

  method SavePage(n: nat, offsets: seq<nat>, data: Bytes, bm: Bitmap, ghost strs: seq<Bytes>) returns (page: array<bv8>)
    requires n < NEXT && |bm| == BytesFor(n) && |strs| <= n && Rank(bm, n) == |strs|
    requires offsets == Ends(strs) && data == Flatten(strs)
    requires 4 + 2 * |strs| + |data| + BytesFor(n) <= PAGE_SIZE
    ensures fresh(page) && Written(page[..], n, strs, bm)
  {
    hide Flatten, Rank, Splice, Written, U16Bytes, OffsetBytes, Ends;
    page := new bv8[PAGE_SIZE];
    SavedIsWritten(page[..], n, strs, bm);
    TwoBytes(n);
    TwoBytes(|offsets|);
    Copy(page, 0, U16Bytes(n));
    Copy(page, 2, U16Bytes(|offsets|));
    Copy(page, 4, OffsetBytes(offsets));
    Copy(page, 4 + 2 * |offsets|, data);
    Copy(page, PAGE_SIZE - |bm|, bm);
  }

  // -------- the writer --------

  // Full pages, then rows not yet saved.
  ghost predicate Pending(pages: seq<Bytes>, n: nat, strs: seq<Bytes>, bm: Bitmap, values: seq<Option<Bytes>>) {
    && ColumnOk(pages) && BytesFor(n) <= |bm| && Rank(bm, n) == |strs|
    && 4 + 2 * |strs| + |Flatten(strs)| + BytesFor(n) <= PAGE_SIZE
    && ColumnRows(pages) + Rows(bm, n, strs) == values
  }

  lemma PendingStart(bm: Bitmap)
    ensures Pending([], 0, [], bm, [])
  {
    hide Rank, Rows;
    NoRows<Bytes>(bm);
  }

  // The counters fit in 16 bits, and save_page is only reached with rows to save.
  lemma PendingBounds(pages: seq<Bytes>, n: nat, strs: seq<Bytes>, bm: Bitmap, values: seq<Option<Bytes>>)
    requires Pending(pages, n, strs, bm, values)
    ensures n < NEXT && |strs| <= n && |Flatten(strs)| < PAGE_SIZE
    ensures n == 0 ==> strs == [] && Flatten(strs) == []
  {
    hide Rows, ColumnRows;
  }

  lemma PendingSaved(pages: seq<Bytes>, n: nat, strs: seq<Bytes>, bm: Bitmap, values: seq<Option<Bytes>>, p: Bytes)
    requires Pending(pages, n, strs, bm, values) && Written(p, n, strs, bm)
    ensures Pending(pages + [p], 0, [], [], values)
    ensures Pending(pages + [p], 0, [], bm, values)
  {
    hide Rank, Rows, Written, ColumnRows, NormalRows, NormalOk, ColumnOk, U16;
    WrittenPage(p, n, strs, bm);
    assert n < NEXT by {
      PendingBounds(pages, n, strs, bm, values);
    }
    PagesOf(pages);
    ColumnSnoc(pages, p);
    ChainedSnoc(pages, p);
    NoRows<Bytes>([]);
    NoRows<Bytes>(bm);
    assert values + [] == values;
  }

  lemma PagesOf(pages: seq<Bytes>)
    requires ColumnOk(pages)
    ensures PagesOk(pages)
  {
  }

  lemma PendingValue(pages: seq<Bytes>, n: nat, strs: seq<Bytes>, bm: Bitmap, values: seq<Option<Bytes>>, x: Bytes)
    requires Pending(pages, n, strs, bm, values) && n / 8 < |bm|
    requires 4 + 2 * (|strs| + 1) + |Flatten(strs)| + |x| + n / 8 + 1 <= PAGE_SIZE
    ensures Pending(pages, n + 1, strs + [x], SetBit(bm, n), values + [Some(x)])
    ensures Flatten(strs + [x]) == Flatten(strs) + x
    ensures Ends(strs + [x]) == Ends(strs) + [|Flatten(strs)| + |x|]
  {
    hide Rank, Rows, ColumnRows, ColumnOk, SetBit, Flatten;
    SetRow(bm, n, strs, x);
    FlattenSnoc(strs, x);
    SetLength(bm, n);
    assert (strs + [x])[..|strs|] == strs;
  }

  lemma PendingNull(pages: seq<Bytes>, n: nat, strs: seq<Bytes>, bm: Bitmap, values: seq<Option<Bytes>>)
    requires Pending(pages, n, strs, bm, values) && n / 8 < |bm|
    requires 4 + 2 * |strs| + |Flatten(strs)| + n / 8 + 1 <= PAGE_SIZE
    ensures Pending(pages, n + 1, strs, ClearBit(bm, n), values + [None])
  {
    hide Rank, Rows, ColumnRows, ColumnOk, ClearBit, Flatten;
    ClearRow(bm, n, strs);
    SetLength(bm, n);
  }

  lemma SetLength(bm: Bitmap, n: nat)
    requires n / 8 < |bm|
    ensures |SetBit(bm, n)| == |bm| && |ClearBit(bm, n)| == |bm|
  {
  }

  // while (bitmap.size() < idx / 8 + 1) bitmap.emplace_back(0)
  function Grown(bm: Bitmap, n: nat): (r: Bitmap)
    requires |bm| == BytesFor(n)
    ensures |r| == BytesFor(n + 1) && bm <= r
  {
    if |bm| < n / 8 + 1 then bm + [0] else bm
  }

  lemma PendingGrown(pages: seq<Bytes>, n: nat, strs: seq<Bytes>, bm: Bitmap, values: seq<Option<Bytes>>)
    requires Pending(pages, n, strs, bm, values) && |bm| == BytesFor(n)
    ensures n / 8 < |Grown(bm, n)| && Pending(pages, n, strs, Grown(bm, n), values)
    ensures |SetBit(Grown(bm, n), n)| == |ClearBit(Grown(bm, n), n)| == BytesFor(n + 1)
  {
    hide Rank, Rows, ColumnRows, ColumnOk, Flatten;
    forall i | 0 <= i < n
      ensures Bit(Grown(bm, n), i) <==> Bit(bm, i)
    {
    }
    RowsDependOn(bm, Grown(bm, n), n, strs, strs);
    SetLength(Grown(bm, n), n);
  }

  // With nothing pending, the pages alone hold the values, and a row can be added behind them.
  lemma PendingEmpty(pages: seq<Bytes>, n: nat, strs: seq<Bytes>, bm: Bitmap, values: seq<Option<Bytes>>)
    requires Pending(pages, n, strs, bm, values) && n == 0
    ensures strs == [] && ColumnOk(pages) && ColumnRows(pages) == values
  {
    hide ColumnRows, ColumnOk;
    NoRows<Bytes>(bm);
  }

  lemma PendingOnly(pages: seq<Bytes>, bm: Bitmap)
    requires ColumnOk(pages)
    ensures Pending(pages, 0, [], bm, ColumnRows(pages))
  {
    hide ColumnRows, ColumnOk, Rank, Rows;
    NoRows<Bytes>(bm);
  }

  // save_page(), never called on an empty page.
  method FlushPage(pages: seq<Bytes>, n: nat, offsets: seq<nat>, data: Bytes, bm: Bitmap,
                   ghost strs: seq<Bytes>, ghost values: seq<Option<Bytes>>)
      returns (pages': seq<Bytes>)
    requires Pending(pages, n, strs, bm, values) && n > 0 && |bm| == BytesFor(n)
    requires offsets == Ends(strs) && data == Flatten(strs)
    ensures Pending(pages', 0, [], [], values)
    ensures |pages'| == |pages| + 1 && pages'[..|pages|] == pages
    ensures |pages'[|pages|]| == PAGE_SIZE && U16(pages'[|pages|], 0) == n
    ensures ColumnOk(pages) && ColumnOk(pages') && (Inhabited(pages) ==> Inhabited(pages'))
  {
    hide Rank, Rows, ColumnRows, ColumnOk, Ends, Flatten;
    PendingBounds(pages, n, strs, bm, values);
    var page := SavePage(n, offsets, data, bm, strs);
    PendingSaved(pages, n, strs, bm, values, page[..]);
    pages' := pages + [page[..]];
    PendingPages(pages, n, strs, bm, values);
    PendingPages(pages', 0, [], [], values);
    InhabitedSnoc(pages, page[..]);
  }

  lemma PendingPages(pages: seq<Bytes>, n: nat, strs: seq<Bytes>, bm: Bitmap, values: seq<Option<Bytes>>)
    requires Pending(pages, n, strs, bm, values)
    ensures ColumnOk(pages)
  {
    hide ColumnRows, Rows, Rank;
  }

  // Table::to_columnar for one VARCHAR column.
  method ToColumnar(values: seq<Option<Bytes>>) returns (pages: seq<Bytes>)
    ensures ColumnOk(pages) && ColumnRows(pages) == values && Inhabited(pages)
  {
    hide Inhabited, Rank, Rows, ColumnRows, PagesOk, Chained, Pending, SetBit, ClearBit, Grown, Flatten, Ends;
    var numRows: nat := 0;
    var data: Bytes := [];
    var offsets: seq<nat> := [];
    var bitmap: Bitmap := [];
    ghost var strs: seq<Bytes> := [];
    pages := [];
    NoPages();
    PendingStart([]);
    NoStrings();
    for i := 0 to |values|
      invariant Pending(pages, numRows, strs, bitmap, values[..i]) && |bitmap| == BytesFor(numRows)
      invariant offsets == Ends(strs) && data == Flatten(strs)
      invariant ColumnOk(pages) && Inhabited(pages)
    {
      assert values[..i + 1] == values[..i] + [values[i]];
      PendingBounds(pages, numRows, strs, bitmap, values[..i]);
      if values[i].Some? {
        var value := values[i].value;
        if |value| > LONGEST {
          if numRows > 0 {
            pages := FlushPage(pages, numRows, offsets, data, bitmap, strs, values[..i]);
            numRows, offsets, data, bitmap, strs := 0, [], [], [], [];
            NoStrings();
          }
          PendingEmpty(pages, numRows, strs, bitmap, values[..i]);
          pages := SaveLongString(pages, value);
          PendingOnly(pages, bitmap);
        } else {
          if 4 + (|offsets| + 1) * 2 + (|data| + |value|) + (numRows / 8 + 1) > PAGE_SIZE {
            pages := FlushPage(pages, numRows, offsets, data, bitmap, strs, values[..i]);
            numRows, offsets, data, bitmap, strs := 0, [], [], [], [];
            NoStrings();
          }
          PendingGrown(pages, numRows, strs, bitmap, values[..i]);
          PendingValue(pages, numRows, strs, Grown(bitmap, numRows), values[..i], value);
          bitmap := SetBit(Grown(bitmap, numRows), numRows);
          data := data + value;
          offsets := offsets + [|data|];
          strs := strs + [value];
          numRows := numRows + 1;
        }
      } else {
        if 4 + |offsets| * 2 + |data| + (numRows / 8 + 1) > PAGE_SIZE {
          pages := FlushPage(pages, numRows, offsets, data, bitmap, strs, values[..i]);
          numRows, offsets, data, bitmap, strs := 0, [], [], [], [];
          NoStrings();
        }
        PendingGrown(pages, numRows, strs, bitmap, values[..i]);
        PendingNull(pages, numRows, strs, Grown(bitmap, numRows), values[..i]);
        bitmap := ClearBit(Grown(bitmap, numRows), numRows);
        numRows := numRows + 1;
      }
    }
    assert values[..|values|] == values;
    if numRows != 0 {
      pages := FlushPage(pages, numRows, offsets, data, bitmap, strs, values);
      numRows, offsets, data, bitmap, strs := 0, [], [], [], [];
    }
    PendingEmpty(pages, numRows, strs, bitmap, values);
  }

  lemma NoPages()
    ensures ColumnOk([]) && Inhabited([])
  {
  }

  lemma NoStrings()
    ensures Ends([]) == [] && Flatten<bv8>([]) == []
  {
  }
}
