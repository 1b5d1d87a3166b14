// The position that the scan computes for a long string (src/column_store.cpp, column_t_copy_scan).
// The loop looks at the page behind the first one and, while it sees continuations, at the pages
// 2, 3, ... of the column; nothing checks that the column has another page.
module LongPositions {
  import opened Options
  import opened NullBitmap
  import opened PageBytes
  import opened VarcharColumn

  function Mark(pages: seq<Bytes>, i: nat): nat
    requires PagesOk(pages) && i < |pages|
  {
    U16(pages[i], 0)
  }

  // The first page from k on that is no continuation; a number past the end if there is none.
  function FirstOther(pages: seq<Bytes>, k: nat): (r: nat)
    requires PagesOk(pages)
    ensures r >= k && (r < |pages| ==> Mark(pages, r) != NEXT)
    ensures forall j :: k <= j < r && j < |pages| ==> Mark(pages, j) == NEXT
    decreases |pages| - k
  {
    if k < |pages| && Mark(pages, k) == NEXT then FirstOther(pages, k + 1) else k
  }

  // The position for the long string that begins on page i; None when the loop leaves the pages.
  function LongPos(pages: seq<Bytes>, i: nat): Option<nat>
    requires PagesOk(pages)
  {
    if i + 1 >= |pages| then None
    else if Mark(pages, i + 1) != NEXT then Some(0)
    else
      var k := FirstOther(pages, 2);
      if k < |pages| then Some(k - 1) else None
  }

  function PosOf(pages: seq<Bytes>): nat -> nat
    requires PagesOk(pages)
  {
    (i: nat) => if LongPos(pages, i).Some? then LongPos(pages, i).value else 0
  }

  method FindLongPos(pages: seq<Bytes>, pageIdx: nat) returns (r: Option<nat>)
    requires PagesOk(pages)
    ensures r == LongPos(pages, pageIdx)
  {
    hide PageOk, U16;
    var pos := 0;
    if pageIdx + 1 >= |pages| {
      return None;
    }
    OnePage(pages, pageIdx + 1);
    var npageRows := U16(pages[pageIdx + 1], 0);
    while npageRows == NEXT
      invariant pos == 0 ==> npageRows == Mark(pages, pageIdx + 1)
      invariant pos > 0 ==> pos + 1 < |pages| && npageRows == Mark(pages, pos + 1) && Mark(pages, pageIdx + 1) == NEXT
      invariant pos > 0 ==> FirstOther(pages, 2) == FirstOther(pages, pos + 1)
      decreases |pages| - pos
    {
      pos := pos + 1;
      if pos + 1 >= |pages| {
        return None;
      }
      OnePage(pages, pos + 1);
      npageRows := U16(pages[pos + 1], 0);
    }
    r := Some(pos);
  }

  lemma OnePage(pages: seq<Bytes>, i: nat)
    requires PagesOk(pages) && i < |pages|
    ensures |pages[i]| == PAGE_SIZE
  {
  }

  ghost predicate OtherPage(pages: seq<Bytes>, k: nat)
    requires PagesOk(pages)
  {
    2 <= k < |pages| && Mark(pages, k) != NEXT
  }

  // The loop stays inside the pages exactly when there is a next page, and it or some page from
  // number 2 on is no continuation.
  lemma LongPosExists(pages: seq<Bytes>, i: nat)
    requires PagesOk(pages)
    ensures LongPos(pages, i).Some? <==> i + 1 < |pages| && (Mark(pages, i + 1) != NEXT || exists k :: OtherPage(pages, k))
  {
    hide PageOk, U16;
    var k := FirstOther(pages, 2);
    if k < |pages| {
      assert OtherPage(pages, k);
    }
    if exists j :: OtherPage(pages, j) {
      var j :| OtherPage(pages, j);
    }
  }

  // The scan of the column stays inside its pages.
  ghost predicate InBounds(pages: seq<Bytes>)
    requires PagesOk(pages)
  {
    forall i :: 0 <= i < |pages| && Mark(pages, i) == FIRST ==> LongPos(pages, i).Some?
  }

  // Equivalently: the column does not end in a long string of one page, and if it ends in a longer
  // one, some page from number 2 on is no continuation.
  lemma InBoundsExactly(pages: seq<Bytes>)
    requires ColumnOk(pages)
    ensures InBounds(pages) <==>
      (pages != [] ==>
        && Mark(pages, |pages| - 1) != FIRST
        && (Mark(pages, |pages| - 1) == NEXT ==> exists k :: OtherPage(pages, k)))
  {
    hide PageOk, U16, LongPos;
    forall i | 0 <= i < |pages|
      ensures LongPos(pages, i).Some? <==> i + 1 < |pages| && (Mark(pages, i + 1) != NEXT || exists k :: OtherPage(pages, k))
    {
      LongPosExists(pages, i);
    }
    if pages != [] {
      var last := |pages| - 1;
      if Mark(pages, last) == NEXT {
        var h := HeadOf(pages, last);
        assert Mark(pages, h) == FIRST && Mark(pages, h + 1) == NEXT;
      } else if Mark(pages, last) != FIRST && !exists k :: OtherPage(pages, k) {
        assert last < 2 by {
          assert !OtherPage(pages, last);
        }
      }
    }
  }

  // The chain that a continuation belongs to.
  lemma {:induction false} HeadOf(pages: seq<Bytes>, i: nat) returns (h: nat)
    requires ColumnOk(pages) && i < |pages| && Mark(pages, i) == NEXT
    ensures h < i && Mark(pages, h) == FIRST && Mark(pages, h + 1) == NEXT
  {
    hide PageOk, U16;
    HighMark(pages, i - 1);
    h := i - 1;
    if Mark(pages, i - 1) == NEXT {
      h := HeadOf(pages, i - 1);
    }
  }

  lemma HighMark(pages: seq<Bytes>, i: nat)
    requires ColumnOk(pages) && i < |pages|
    ensures Mark(pages, i) >= NEXT ==> Mark(pages, i) == NEXT || Mark(pages, i) == FIRST
  {
  }

  // Every page has a row or a part of a long string.
  ghost predicate Inhabited(pages: seq<Bytes>)
    requires PagesOk(pages)
  {
    forall i :: 0 <= i < |pages| ==> Mark(pages, i) > 0
  }

  // A column with a single string too long for a normal page makes the scan leave the pages.
  lemma LoneLongString(pages: seq<Bytes>, value: Bytes)
    requires ColumnOk(pages) && Inhabited(pages)
    requires ColumnRows(pages) == [Some(value)] && |value| > PAGE_SIZE - 7
    ensures !InBounds(pages)
  {
    hide PageOk, U16, ColumnRows, NormalRows;
    OneHead(pages);
    if Mark(pages, 0) < NEXT {
      ShortRow(pages, value);
    }
    LongPosExists(pages, 0);
  }

  lemma ShortRow(pages: seq<Bytes>, value: Bytes)
    requires PagesOk(pages) && |pages| == 1 && Mark(pages, 0) < NEXT && ColumnRows(pages) == [Some(value)]
    ensures |value| <= PAGE_SIZE - 7
  {
    hide Rank, Rows, U16;
    var p := pages[0];
    var n, k := U16(p, 0), U16(p, 2);
    assert ColumnRows(pages[..0]) == [] && ColumnRows(pages) == NormalRows(p);
    var strs := Strings(p, k);
    RowsFrom(BitmapOf(p, n), n, strs, 0);
    var d :| 0 <= d < k && strs[d] == value;
    assert Off(p, 0) <= Off(p, d) && Off(p, d + 1) <= Off(p, k);
  }

  lemma RowsAdded(rows: seq<Option<Bytes>>, p: Bytes)
    requires PageOk(p) && U16(p, 0) > 0
    ensures |Extend(rows, p)| >= |rows| && (U16(p, 0) != NEXT ==> |Extend(rows, p)| > |rows|)
  {
    hide OffsetsOk, Rank, U16;
  }

  // One row comes from one page and its continuations.
  lemma {:induction false} OneHead(pages: seq<Bytes>)
    requires ColumnOk(pages) && Inhabited(pages) && |ColumnRows(pages)| <= 1
    ensures |ColumnRows(pages)| == 0 <==> pages == []
    ensures pages != [] ==> Mark(pages, 0) != NEXT && forall i :: 1 <= i < |pages| ==> Mark(pages, i) == NEXT
    ensures |pages| > 1 ==> Mark(pages, 0) == FIRST
  {
    hide PageOk, U16, Extend;
    if pages != [] {
      var init := pages[..|pages| - 1];
      var last := pages[|pages| - 1];
      var j := |init|;
      assert Mark(pages, j) > 0 && forall i :: 0 <= i < j ==> Mark(init, i) == Mark(pages, i);
      assert Mark(pages, j) == NEXT ==> j > 0 && Mark(pages, j - 1) >= NEXT;
      if j > 0 {
        HighMark(pages, j - 1);
      }
      RowsAdded(ColumnRows(init), last);
      OneHead(init);
    }
  }
}
