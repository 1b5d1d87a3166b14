// Columns of fixed-width values: 4-byte INT32, 8-byte INT64 and FP64.  Values are kept as their
// bytes, in data growing up from the header; the null bitmap ends at the end of the page.
module FixedColumn {
  import opened Options
  import opened SeqFacts
  import opened NullBitmap
  import opened PageBytes

  // sizeof(T)
  predicate Width(w: nat) {
    w == 4 || w == 8
  }

  // d * w, kept linear
  function Offset(w: nat, d: nat): nat
    requires Width(w)
  {
    if w == 4 then 4 * d else 8 * d
  }

  // Data begins at the width: after two 16-bit counters, padded for 8-byte values.
  function DataAt(w: nat, d: nat): nat
    requires Width(w)
  {
    w + Offset(w, d)
  }

  function BitmapOf(p: Bytes, n: nat): Bitmap
    requires BytesFor(n) <= |p|
  {
    p[|p| - BytesFor(n)..]
  }

  function Cell(w: nat, p: Bytes, d: nat): Bytes
    requires Width(w) && DataAt(w, d + 1) <= |p|
  {
    p[DataAt(w, d)..DataAt(w, d + 1)]
  }

  function Payloads(w: nat, p: Bytes, k: nat): (r: seq<Bytes>)
    requires Width(w) && DataAt(w, k) <= |p|
    ensures |r| == k
    ensures forall d :: 0 <= d < k ==> r[d] == Cell(w, p, d)
  {
    seq(k, d requires 0 <= d < k => Cell(w, p, d))
  }

  // A page whose regions are disjoint, whose counters agree with its bitmap, and whose row count
  // cannot be taken for a long-string mark.
  predicate PageOk(w: nat, p: Bytes)
    requires Width(w)
  {
    && |p| == PAGE_SIZE
    && var n, k := U16(p, 0), U16(p, 2);
    && n < 0xfffe
    && DataAt(w, k) + BytesFor(n) <= PAGE_SIZE
    && Rank(BitmapOf(p, n), n) == k
  }

  function PageRows(w: nat, p: Bytes): seq<Option<Bytes>>
    requires Width(w) && PageOk(w, p)
  {
    Rows(BitmapOf(p, U16(p, 0)), U16(p, 0), Payloads(w, p, U16(p, 2)))
  }

  predicate ColumnOk(w: nat, pages: seq<Bytes>)
    requires Width(w)
  {
    forall i :: 0 <= i < |pages| ==> PageOk(w, pages[i])
  }

  // The values of a column.
  function ColumnRows(w: nat, pages: seq<Bytes>): seq<Option<Bytes>>
    requires Width(w) && ColumnOk(w, pages)
  {
    if pages == [] then [] else ColumnRows(w, pages[..|pages| - 1]) + PageRows(w, pages[|pages| - 1])
  }

  predicate WellTyped(w: nat, values: seq<Option<Bytes>>) {
    forall i :: 0 <= i < |values| && values[i].Some? ==> |values[i].value| == w
  }

  // What a writer has to put into a page for it to hold the pending rows.
  ghost predicate Written(w: nat, p: Bytes, n: nat, data: seq<Bytes>, bm: Bitmap)
    requires Width(w)
  {
    && |p| == PAGE_SIZE && n < 0xfffe && |data| <= n
    && DataAt(w, |data|) + BytesFor(n) <= PAGE_SIZE
    && BytesFor(n) <= |bm| && Rank(bm, n) == |data|
    && U16(p, 0) == n && U16(p, 2) == |data|
    && (forall d :: 0 <= d < |data| ==> Cell(w, p, d) == data[d])
    && p[PAGE_SIZE - BytesFor(n)..] == bm[..BytesFor(n)]
  }

  lemma WrittenPage(w: nat, p: Bytes, n: nat, data: seq<Bytes>, bm: Bitmap)
    requires Width(w) && Written(w, p, n, data, bm)
    ensures PageOk(w, p) && PageRows(w, p) == Rows(bm, n, data)
  {
    var b := BitmapOf(p, n);
    forall i | 0 <= i < n
      ensures Bit(b, i) <==> Bit(bm, i)
    {
      assert b[i / 8] == bm[..BytesFor(n)][i / 8];
    }
    RowsDependOn(bm, b, n, data, data);
    RowsDependOn(b, bm, n, Payloads(w, p, |data|), data);
  }

  lemma ColumnSnoc(w: nat, pages: seq<Bytes>, p: Bytes)
    requires Width(w) && ColumnOk(w, pages) && PageOk(w, p)
    ensures ColumnOk(w, pages + [p]) && ColumnRows(w, pages + [p]) == ColumnRows(w, pages) + PageRows(w, p)
  {
    assert (pages + [p])[..|pages|] == pages;
  }

  // -------- Table::to_columnar for a fixed-width column --------

  // The bytes of a vector<T>.
  function Concat(data: seq<Bytes>): Bytes {
    Flatten(data)
  }

  lemma {:induction false} ConcatSlice(w: nat, data: seq<Bytes>, d: nat)
    requires Width(w) && d < |data| && forall i :: 0 <= i < |data| ==> |data[i]| == w
    ensures |Concat(data)| == Offset(w, |data|)
    ensures Concat(data)[Offset(w, d)..Offset(w, d + 1)] == data[d]
    decreases |data|
  {
    var init, last := data[..|data| - 1], data[|data| - 1];
    if d < |init| {
      ConcatSlice(w, init, d);
      assert Concat(data)[Offset(w, d)..Offset(w, d + 1)] == Concat(init)[Offset(w, d)..Offset(w, d + 1)];
    } else {
      ConcatLength(w, init);
    }
  }

  lemma {:induction false} ConcatLength(w: nat, data: seq<Bytes>)
    requires Width(w) && forall i :: 0 <= i < |data| ==> |data[i]| == w
    ensures |Concat(data)| == Offset(w, |data|)
  {
    if data != [] {
      ConcatLength(w, data[..|data| - 1]);
    }
  }

  // The four copies that save_page makes, in its order.
  ghost function Saved(p: Bytes, w: nat, n: nat, data: seq<Bytes>, bm: Bitmap): Bytes
    requires Width(w) && |p| == PAGE_SIZE && DataAt(w, |data|) + |bm| <= PAGE_SIZE
    requires |Concat(data)| == Offset(w, |data|)
  {
    Splice(Splice(Splice(Splice(p, 0, U16Bytes(n)), 2, U16Bytes(|data|)), w, Concat(data)), PAGE_SIZE - |bm|, bm)
  }

  lemma SavedIsWritten(p: Bytes, w: nat, n: nat, data: seq<Bytes>, bm: Bitmap)
    requires Width(w) && |p| == PAGE_SIZE && n < 0xfffe && |bm| == BytesFor(n)
    requires DataAt(w, |data|) + BytesFor(n) <= PAGE_SIZE && Rank(bm, n) == |data|
    requires forall i :: 0 <= i < |data| ==> |data[i]| == w
    ensures |Concat(data)| == Offset(w, |data|)
    ensures Written(w, Saved(p, w, n, data, bm), n, data, bm)
  {
    hide Concat, Rank, Splice, U16, U16Bytes;
    TwoBytes(n);
    TwoBytes(|data|);
    ConcatLength(w, data);
    var p1 := Splice(p, 0, U16Bytes(n));
    var p2 := Splice(p1, 2, U16Bytes(|data|));
    var p3 := Splice(p2, w, Concat(data));
    var at := PAGE_SIZE - |bm|;
    var p4 := Splice(p3, at, bm);
    SpliceRegion(p, 0, U16Bytes(n), 0, 2);
    SpliceRegion(p1, 2, U16Bytes(|data|), 0, 2);
    SpliceRegion(p1, 2, U16Bytes(|data|), 2, 4);
    SpliceRegion(p2, w, Concat(data), 0, 2);
    SpliceRegion(p2, w, Concat(data), 2, 4);
    SpliceRegion(p3, at, bm, 0, 2);
    SpliceRegion(p3, at, bm, 2, 4);
    U16RoundTrip(n, p4, 0);
    U16RoundTrip(|data|, p4, 2);
    forall d | 0 <= d < |data|
      ensures Cell(w, p4, d) == data[d]
    {
      ConcatSlice(w, data, d);
      var a, b := DataAt(w, d), DataAt(w, d + 1);
      SpliceRegion(p3, at, bm, a, b);
      SubRegion(p3, w, Concat(data), Offset(w, d), Offset(w, d + 1));
    }
    assert p4[at..] == bm && bm[..BytesFor(n)] == bm;
  }

  method SavePage(w: nat, n: nat, data: seq<Bytes>, bm: Bitmap) returns (page: array<bv8>)
    requires Width(w) && n < 0xfffe && |bm| == BytesFor(n)
    requires DataAt(w, |data|) + BytesFor(n) <= PAGE_SIZE && Rank(bm, n) == |data|
    requires forall i :: 0 <= i < |data| ==> |data[i]| == w
    ensures fresh(page) && Written(w, page[..], n, data, bm)
  {
    hide Concat, Rank, Splice, Written, U16Bytes;
    page := new bv8[PAGE_SIZE];
    ghost var p := page[..];
    SavedIsWritten(p, w, n, data, bm);
    TwoBytes(n);
    TwoBytes(|data|);
    Copy(page, 0, U16Bytes(n));
    Copy(page, 2, U16Bytes(|data|));
    Copy(page, w, Concat(data));
    Copy(page, PAGE_SIZE - |bm|, bm);
  }

  lemma TwoBytes(n: nat)
    ensures |U16Bytes(n)| == 2
  {
  }

  // while (bitmap.size() < idx / 8 + 1) bitmap.emplace_back(0)
  function Grown(bm: Bitmap, n: nat): (r: Bitmap)
    requires |bm| == BytesFor(n)
    ensures |r| == BytesFor(n + 1) && bm <= r
  {
    if |bm| < n / 8 + 1 then bm + [0] else bm
  }

  lemma GrownRows<T>(bm: Bitmap, n: nat, payloads: seq<T>)
    requires |bm| == BytesFor(n) && Rank(bm, n) == |payloads|
    ensures Rank(Grown(bm, n), n) == |payloads|
    ensures Rows(Grown(bm, n), n, payloads) == Rows(bm, n, payloads)
  {
    forall i | 0 <= i < n
      ensures Bit(Grown(bm, n), i) <==> Bit(bm, i)
    {
    }
    RowsDependOn(bm, Grown(bm, n), n, payloads, payloads);
  }

  // The state of the writer: full pages, then rows not yet saved.
  ghost predicate Pending(w: nat, pages: seq<Bytes>, n: nat, data: seq<Bytes>, bm: Bitmap, values: seq<Option<Bytes>>)
    requires Width(w)
  {
    && ColumnOk(w, pages) && BytesFor(n) <= |bm| && Rank(bm, n) == |data|
    && DataAt(w, |data|) + BytesFor(n) <= PAGE_SIZE
    && (forall i :: 0 <= i < |data| ==> |data[i]| == w)
    && ColumnRows(w, pages) + Rows(bm, n, data) == values
  }

  lemma PendingSaved(w: nat, pages: seq<Bytes>, n: nat, data: seq<Bytes>, bm: Bitmap, values: seq<Option<Bytes>>, p: Bytes)
    requires Width(w) && Pending(w, pages, n, data, bm, values) && Written(w, p, n, data, bm)
    ensures Pending(w, pages + [p], 0, [], [], values)
    ensures Pending(w, pages + [p], 0, [], bm, values)
  {
    hide Rank, Rows, Written, ColumnRows, PageRows, PageOk, ColumnOk;
    WrittenPage(w, p, n, data, bm);
    ColumnSnoc(w, pages, p);
    NoRows<Bytes>([]);
    NoRows<Bytes>(bm);
    assert values + [] == values;
  }

  lemma PendingValue(w: nat, pages: seq<Bytes>, n: nat, data: seq<Bytes>, bm: Bitmap, values: seq<Option<Bytes>>, x: Bytes)
    requires Width(w) && Pending(w, pages, n, data, bm, values) && |x| == w
    requires DataAt(w, |data| + 1) + n / 8 + 1 <= PAGE_SIZE && n / 8 < |bm|
    ensures Pending(w, pages, n + 1, data + [x], SetBit(bm, n), values + [Some(x)])
  {
    hide Rank, Rows, SetBit;
    SetRow(bm, n, data, x);
    SetLength(bm, n);
  }

  lemma PendingNull(w: nat, pages: seq<Bytes>, n: nat, data: seq<Bytes>, bm: Bitmap, values: seq<Option<Bytes>>)
    requires Width(w) && Pending(w, pages, n, data, bm, values)
    requires DataAt(w, |data|) + n / 8 + 1 <= PAGE_SIZE && n / 8 < |bm|
    ensures Pending(w, pages, n + 1, data, ClearBit(bm, n), values + [None])
  {
    hide Rank, Rows, ClearBit;
    ClearRow(bm, n, data);
    SetLength(bm, n);
  }

  lemma PendingGrown(w: nat, pages: seq<Bytes>, n: nat, data: seq<Bytes>, bm: Bitmap, values: seq<Option<Bytes>>)
    requires Width(w) && Pending(w, pages, n, data, bm, values) && |bm| == BytesFor(n)
    ensures n / 8 < |Grown(bm, n)| && Pending(w, pages, n, data, Grown(bm, n), values)
    ensures |SetBit(Grown(bm, n), n)| == |ClearBit(Grown(bm, n), n)| == BytesFor(n + 1)
  {
    hide Rank, Rows;
    GrownRows(bm, n, data);
    SetLength(Grown(bm, n), n);
  }

  lemma SetLength(bm: Bitmap, n: nat)
    requires n / 8 < |bm|
    ensures |SetBit(bm, n)| == |bm| && |ClearBit(bm, n)| == |bm|
  {
  }

  // Table::to_columnar for one fixed-width column.
  method ToColumnar(w: nat, values: seq<Option<Bytes>>) returns (pages: seq<Bytes>)
    requires Width(w) && WellTyped(w, values)
    ensures ColumnOk(w, pages) && ColumnRows(w, pages) == values
    ensures forall i :: 0 <= i < |pages| ==> U16(pages[i], 0) > 0
  {
    hide Rank, Rows, ColumnRows, PageRows, Written, SetBit, ClearBit, Grown, Pending, ColumnOk;
    var numRows: nat := 0;
    var data: seq<Bytes> := [];
    var bitmap: Bitmap := [];
    pages := [];
    PendingStart(w, []);
    assert values[..0] == [];
    for i := 0 to |values|
      invariant Pending(w, pages, numRows, data, bitmap, values[..i]) && |bitmap| == BytesFor(numRows)
      invariant forall k :: 0 <= k < |pages| ==> |pages[k]| == PAGE_SIZE && U16(pages[k], 0) > 0
    {
      assert values[..i + 1] == values[..i] + [values[i]];
      PendingBounds(w, pages, numRows, data, bitmap, values[..i]);
      if values[i].Some? {
        if w + Offset(w, |data| + 1) + (numRows / 8 + 1) > PAGE_SIZE {
          pages := FlushPage(w, pages, numRows, data, bitmap, values[..i]);
          numRows, data, bitmap := 0, [], [];
        }
        PendingGrown(w, pages, numRows, data, bitmap, values[..i]);
        PendingValue(w, pages, numRows, data, Grown(bitmap, numRows), values[..i], values[i].value);
        bitmap := SetBit(Grown(bitmap, numRows), numRows);
        data := data + [values[i].value];
      } else {
        if w + Offset(w, |data|) + (numRows / 8 + 1) > PAGE_SIZE {
          pages := FlushPage(w, pages, numRows, data, bitmap, values[..i]);
          numRows, data, bitmap := 0, [], [];
        }
        PendingGrown(w, pages, numRows, data, bitmap, values[..i]);
        PendingNull(w, pages, numRows, data, Grown(bitmap, numRows), values[..i]);
        bitmap := ClearBit(Grown(bitmap, numRows), numRows);
      }
      numRows := numRows + 1;
    }
    assert values[..|values|] == values;
    if numRows != 0 {
      pages := FlushPage(w, pages, numRows, data, bitmap, values);
      numRows, data, bitmap := 0, [], [];
    }
    PendingDone(w, pages, data, bitmap, values);
  }

  // save_page(), never called on an empty page.
  method FlushPage(w: nat, pages: seq<Bytes>, n: nat, data: seq<Bytes>, bm: Bitmap, ghost values: seq<Option<Bytes>>)
      returns (pages': seq<Bytes>)
    requires Width(w) && Pending(w, pages, n, data, bm, values) && n > 0 && |bm| == BytesFor(n)
    ensures Pending(w, pages', 0, [], [], values)
    ensures |pages'| == |pages| + 1 && pages'[..|pages|] == pages
    ensures |pages'[|pages|]| == PAGE_SIZE && U16(pages'[|pages|], 0) == n
  {
    hide Rank, Rows;
    var page := SavePage(w, n, data, bm);
    PendingSaved(w, pages, n, data, bm, values, page[..]);
    pages' := pages + [page[..]];
  }

  lemma PendingStart(w: nat, bm: Bitmap)
    requires Width(w)
    ensures Pending(w, [], 0, [], bm, [])
  {
    hide Rank, Rows;
    NoRows<Bytes>(bm);
  }

  // The counters fit in 16 bits, and a page that is full holds at least one row.
  lemma PendingBounds(w: nat, pages: seq<Bytes>, n: nat, data: seq<Bytes>, bm: Bitmap, values: seq<Option<Bytes>>)
    requires Width(w) && Pending(w, pages, n, data, bm, values)
    ensures n < 0xfffe && |data| <= n
    ensures DataAt(w, |data| + 1) + n / 8 + 1 > PAGE_SIZE ==> n > 0
  {
    hide Rows;
  }

  lemma PendingDone(w: nat, pages: seq<Bytes>, data: seq<Bytes>, bm: Bitmap, values: seq<Option<Bytes>>)
    requires Width(w) && Pending(w, pages, 0, data, bm, values)
    ensures ColumnOk(w, pages) && ColumnRows(w, pages) == values
  {
    assert ColumnRows(w, pages) + [] == ColumnRows(w, pages);
  }
}
