// Columns of strings.  A normal page holds 16-bit end offsets, then the characters, then (at the
// page end) the null bitmap.  A string over 8185 bytes takes a chain of pages of its own, marked
// 0xffff (first) and 0xfffe (continuation) in place of the row count.
module VarcharColumn {
  import opened Options
  import opened SeqFacts
  import opened NullBitmap
  import opened PageBytes

  const FIRST := 0xffff
  const NEXT := 0xfffe
  const LONG_PART := 8188       // PAGE_SIZE - 4

  // -------- reading a normal page --------

  // offset_begin[d]
  function EndAt(p: Bytes, d: nat): nat
    requires 4 + 2 * d + 2 <= |p|
  {
    U16(p, 4 + 2 * d)
  }

  // Where string d begins and string d - 1 ends, counted from the first character.
  function Off(p: Bytes, d: nat): nat
    requires 4 + 2 * d <= |p|
  {
    if d == 0 then 0 else EndAt(p, d - 1)
  }

  function StringAt(p: Bytes, k: nat, d: nat): Bytes
    requires d < k && 4 + 2 * k <= |p|
    requires Off(p, d) <= Off(p, d + 1) && 4 + 2 * k + Off(p, d + 1) <= |p|
  {
    p[4 + 2 * k + Off(p, d)..4 + 2 * k + Off(p, d + 1)]
  }

  predicate OffsetsOk(p: Bytes, k: nat)
    requires |p| == PAGE_SIZE
  {
    && 4 + 2 * k <= PAGE_SIZE
    && (forall d, e :: 0 <= d <= e <= k ==> Off(p, d) <= Off(p, e))
    && 4 + 2 * k + Off(p, k) <= PAGE_SIZE
  }

  function Strings(p: Bytes, k: nat): (r: seq<Bytes>)
    requires |p| == PAGE_SIZE && OffsetsOk(p, k)
    ensures |r| == k && forall d :: 0 <= d < k ==> r[d] == StringAt(p, k, d)
  {
    seq(k, d requires 0 <= d < k => StringAt(p, k, d))
  }

  function BitmapOf(p: Bytes, n: nat): Bitmap
    requires BytesFor(n) <= |p|
  {
    p[|p| - BytesFor(n)..]
  }

  // A normal page with disjoint regions and counters that agree with the bitmap.
  predicate NormalOk(p: Bytes) {
    && |p| == PAGE_SIZE
    && var n, k := U16(p, 0), U16(p, 2);
    && n < NEXT && OffsetsOk(p, k)
    && 4 + 2 * k + Off(p, k) + BytesFor(n) <= PAGE_SIZE
    && Rank(BitmapOf(p, n), n) == k
  }

  function NormalRows(p: Bytes): seq<Option<Bytes>>
    requires NormalOk(p)
  {
    Rows(BitmapOf(p, U16(p, 0)), U16(p, 0), Strings(p, U16(p, 2)))
  }

  // -------- reading a column --------

  predicate LongOk(p: Bytes) {
    |p| == PAGE_SIZE && U16(p, 0) >= NEXT && U16(p, 2) <= LONG_PART
  }

  function LongPart(p: Bytes): Bytes
    requires LongOk(p)
  {
    p[4..4 + U16(p, 2)]
  }

  predicate PageOk(p: Bytes) {
    NormalOk(p) || LongOk(p)
  }

  // The rows known after one more page.  A continuation extends the string before it.
  function Extend(rows: seq<Option<Bytes>>, p: Bytes): seq<Option<Bytes>>
    requires PageOk(p)
  {
    if U16(p, 0) == FIRST then rows + [Some(LongPart(p))]
    else if U16(p, 0) == NEXT then
      if EndsInString(rows) then rows[..|rows| - 1] + [Some(rows[|rows| - 1].value + LongPart(p))] else rows
    else rows + NormalRows(p)
  }

  predicate EndsInString(rows: seq<Option<Bytes>>) {
    rows != [] && rows[|rows| - 1].Some?
  }

  predicate PagesOk(pages: seq<Bytes>) {
    forall i :: 0 <= i < |pages| ==> PageOk(pages[i])
  }

  function ColumnRows(pages: seq<Bytes>): seq<Option<Bytes>>
    requires PagesOk(pages)
  {
    if pages == [] then [] else Extend(ColumnRows(pages[..|pages| - 1]), pages[|pages| - 1])
  }

  // Continuations come only in chains that begin with a first page.
  predicate Chained(pages: seq<Bytes>)
    requires PagesOk(pages)
  {
    forall i :: 0 <= i < |pages| && U16(pages[i], 0) == NEXT ==> i > 0 && U16(pages[i - 1], 0) >= NEXT
  }

  predicate ColumnOk(pages: seq<Bytes>) {
    PagesOk(pages) && Chained(pages)
  }

  lemma ColumnSnoc(pages: seq<Bytes>, p: Bytes)
    requires PagesOk(pages) && PageOk(p)
    ensures PagesOk(pages + [p]) && ColumnRows(pages + [p]) == Extend(ColumnRows(pages), p)
  {
    hide NormalOk, LongOk, Extend;
    assert (pages + [p])[..|pages|] == pages;
  }

  lemma ChainedSnoc(pages: seq<Bytes>, p: Bytes)
    requires ColumnOk(pages) && PageOk(p)
    requires U16(p, 0) == NEXT ==> pages != [] && U16(pages[|pages| - 1], 0) >= NEXT
    ensures ColumnOk(pages + [p])
  {
    hide NormalOk, LongOk, U16;
  }

  // In a chained column every continuation finds a string to extend.
  lemma {:induction false} ChainedEndsInString(pages: seq<Bytes>)
    requires ColumnOk(pages) && pages != [] && U16(pages[|pages| - 1], 0) >= NEXT
    ensures EndsInString(ColumnRows(pages))
  {
    var init := pages[..|pages| - 1];
    if U16(pages[|pages| - 1], 0) == NEXT {
      ChainedEndsInString(init);
    }
  }

  // -------- what a writer puts into a normal page --------

  // End offsets of consecutive strings.
  function Ends(strs: seq<Bytes>): (r: seq<nat>)
    ensures |r| == |strs|
  {
    if strs == [] then [] else Ends(strs[..|strs| - 1]) + [|Flatten(strs)|]
  }

  lemma {:induction false} EndsAt(strs: seq<Bytes>, d: nat)
    requires d < |strs|
    ensures Ends(strs)[d] == |Flatten(strs[..d + 1])| <= |Flatten(strs)|
    ensures |Flatten(strs[..d])| + |strs[d]| == |Flatten(strs[..d + 1])|
    ensures Flatten(strs)[|Flatten(strs[..d])|..|Flatten(strs[..d + 1])|] == strs[d]
  {
    var init, last := strs[..|strs| - 1], strs[|strs| - 1];
    assert strs[..d + 1][..d] == strs[..d];
    if d < |init| {
      EndsAt(init, d);
      assert init[..d + 1] == strs[..d + 1] && init[..d] == strs[..d];
      var a, b := |Flatten(strs[..d])|, |Flatten(strs[..d + 1])|;
      assert Flatten(strs)[a..b] == Flatten(init)[a..b];
    } else {
      assert strs[..d + 1] == strs;
    }
  }

  ghost predicate Written(p: Bytes, n: nat, strs: seq<Bytes>, bm: Bitmap) {
    && |p| == PAGE_SIZE && n < NEXT && |strs| <= n
    && 4 + 2 * |strs| + |Flatten(strs)| + BytesFor(n) <= PAGE_SIZE
    && BytesFor(n) <= |bm| && Rank(bm, n) == |strs|
    && U16(p, 0) == n && U16(p, 2) == |strs|
    && (forall d :: 0 <= d < |strs| ==> EndAt(p, d) == Ends(strs)[d])
    && p[4 + 2 * |strs|..4 + 2 * |strs| + |Flatten(strs)|] == Flatten(strs)
    && p[PAGE_SIZE - BytesFor(n)..] == bm[..BytesFor(n)]
  }

  lemma WrittenOffsets(p: Bytes, n: nat, strs: seq<Bytes>, bm: Bitmap, d: nat)
    requires Written(p, n, strs, bm) && d <= |strs|
    ensures Off(p, d) == |Flatten(strs[..d])|
  {
    if d > 0 {
      EndsAt(strs, d - 1);
    }
  }

  lemma {:induction false} FlattenMonotone(strs: seq<Bytes>, d: nat, e: nat)
    requires d <= e <= |strs|
    ensures |Flatten(strs[..d])| <= |Flatten(strs[..e])|
    decreases e
  {
    if d < e {
      FlattenMonotone(strs, d, e - 1);
      EndsAt(strs, e - 1);
    }
  }

  lemma WrittenOrdered(p: Bytes, n: nat, strs: seq<Bytes>, bm: Bitmap)
    requires Written(p, n, strs, bm)
    ensures OffsetsOk(p, |strs|) && Off(p, |strs|) == |Flatten(strs)|
  {
    hide Flatten, Rank, Ends;
    var k := |strs|;
    forall d, e | 0 <= d <= e <= k
      ensures Off(p, d) <= Off(p, e)
    {
      WrittenOffsets(p, n, strs, bm, d);
      WrittenOffsets(p, n, strs, bm, e);
      FlattenMonotone(strs, d, e);
    }
    WrittenOffsets(p, n, strs, bm, k);
    assert strs[..k] == strs;
  }

  lemma WrittenString(p: Bytes, n: nat, strs: seq<Bytes>, bm: Bitmap, d: nat)
    requires Written(p, n, strs, bm) && OffsetsOk(p, |strs|) && d < |strs|
    ensures StringAt(p, |strs|, d) == strs[d]
  {
    hide Flatten, Rank, Ends, EndAt;
    WrittenOffsets(p, n, strs, bm, d);
    WrittenOffsets(p, n, strs, bm, d + 1);
    EndsAt(strs, d);
    SubRegion(p, 4 + 2 * |strs|, Flatten(strs), Off(p, d), Off(p, d + 1));
  }

  lemma WrittenStrings(p: Bytes, n: nat, strs: seq<Bytes>, bm: Bitmap)
    requires Written(p, n, strs, bm)
    ensures OffsetsOk(p, |strs|) && Strings(p, |strs|) == strs
    ensures Off(p, |strs|) == |Flatten(strs)|
  {
    hide Flatten, Rank, Ends, OffsetsOk, StringAt;
    WrittenOrdered(p, n, strs, bm);
    forall d | 0 <= d < |strs|
      ensures Strings(p, |strs|)[d] == strs[d]
    {
      WrittenString(p, n, strs, bm, d);
    }
  }

  lemma WrittenPage(p: Bytes, n: nat, strs: seq<Bytes>, bm: Bitmap)
    requires Written(p, n, strs, bm)
    ensures NormalOk(p) && NormalRows(p) == Rows(bm, n, strs) && U16(p, 0) == n
  {
    hide Flatten, Rank, Ends, Rows, OffsetsOk, Strings;
    WrittenStrings(p, n, strs, bm);
    var b := BitmapOf(p, n);
    forall i | 0 <= i < n
      ensures Bit(b, i) <==> Bit(bm, i)
    {
      assert b[i / 8] == bm[..BytesFor(n)][i / 8];
    }
    RowsDependOn(b, bm, n, strs, strs);
  }
}
