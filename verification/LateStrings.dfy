// Reading a string back from a reference to where it begins: print_varchar for long strings
// (src/late.cpp) and the length search for short ones (src/column_store.cpp).
module LateStrings {
  import opened Options
  import opened NullBitmap
  import opened PageBytes
  import opened VarcharColumn

  // -------- long strings --------

  // The parts on the continuation pages from page j on.
  function ChainFrom(pages: seq<Bytes>, j: nat): Bytes
    requires PagesOk(pages) && j <= |pages|
    decreases |pages| - j
  {
    if j < |pages| && U16(pages[j], 0) == NEXT then LongPart(pages[j]) + ChainFrom(pages, j + 1) else []
  }

  function LongString(pages: seq<Bytes>, p: nat): Bytes
    requires PagesOk(pages) && p < |pages| && U16(pages[p], 0) == FIRST
  {
    LongPart(pages[p]) + ChainFrom(pages, p + 1)
  }

  predicate AllNext(pages: seq<Bytes>, j: nat)
    requires PagesOk(pages)
  {
    forall i :: j <= i < |pages| ==> U16(pages[i], 0) == NEXT
  }

  // A new page lengthens exactly the chains that reach it.
  lemma {:induction false} ChainSnoc(pages: seq<Bytes>, j: nat, q: Bytes)
    requires PagesOk(pages) && PageOk(q) && j <= |pages|
    ensures PagesOk(pages + [q])
    ensures ChainFrom(pages + [q], j)
         == ChainFrom(pages, j) + (if AllNext(pages, j) && U16(q, 0) == NEXT then LongPart(q) else [])
    decreases |pages| - j
  {
    hide OffsetsOk, Rank, U16, LongPart;
    var all := pages + [q];
    if j == |pages| {
      assert ChainFrom(all, j + 1) == [];
    } else if U16(pages[j], 0) == NEXT {
      ChainSnoc(pages, j + 1, q);
      assert AllNext(pages, j) <==> AllNext(pages, j + 1);
    }
  }

  // print_varchar
  method PrintVarchar(pages: seq<Bytes>, p: nat) returns (value: Bytes)
    requires PagesOk(pages) && p < |pages| && U16(pages[p], 0) == FIRST
    ensures value == LongString(pages, p)
  {
    hide OffsetsOk, Rank, U16;
    value := pages[p][4..4 + U16(pages[p], 2)];
    var nextPageId := p + 1;
    while nextPageId < |pages|
      invariant p < nextPageId <= |pages|
      invariant value + ChainFrom(pages, nextPageId) == LongString(pages, p)
    {
      if U16(pages[nextPageId], 0) != NEXT {
        break;
      }
      ghost var chain := ChainFrom(pages, nextPageId + 1);
      var part := pages[nextPageId][4..4 + U16(pages[nextPageId], 2)];
      assert value + (part + chain) == (value + part) + chain;
      value := value + part;
      nextPageId := nextPageId + 1;
    }
  }

  // -------- short strings --------

  // The smallest end offset, from string d on, that lies beyond start.
  function FirstEnd(p: Bytes, k: nat, d: nat, start: nat): (e: nat)
    requires |p| == PAGE_SIZE && OffsetsOk(p, k) && d <= k
    ensures start <= e && (e == start || e <= Off(p, k))
    decreases k - d
  {
    if d == k then start
    else if EndAt(p, d) > start then (assert EndAt(p, d) == Off(p, d + 1); EndAt(p, d))
    else FirstEnd(p, k, d + 1, start)
  }

  function ShortString(p: Bytes, k: nat, start: nat): Bytes
    requires |p| == PAGE_SIZE && OffsetsOk(p, k) && start <= Off(p, k)
  {
    p[4 + 2 * k + start..4 + 2 * k + FirstEnd(p, k, 0, start)]
  }

  // The binary search over the end offsets.
  method SearchLength(page: Bytes, numNonNull: nat, pos: nat) returns (length: nat)
    requires |page| == PAGE_SIZE && OffsetsOk(page, numNonNull)
    ensures pos + length == FirstEnd(page, numNonNull, 0, pos)
  {
    hide U16;
    length := 0;
    var left: int, right: int := 0, numNonNull - 1;
    while left <= right
      invariant 0 <= left <= right + 1 <= numNonNull
      invariant forall d :: 0 <= d < left ==> EndAt(page, d) <= pos
      invariant if right + 1 == numNonNull then length == 0 else EndAt(page, right + 1) == pos + length && length > 0
    {
      var mid := (left + right) / 2;
      Increasing(page, numNonNull);
      if EndAt(page, mid) > pos {
        length := EndAt(page, mid) - pos;
        right := mid - 1;
      } else {
        left := mid + 1;
      }
    }
    SkipTo(page, numNonNull, 0, left, pos);
  }

  lemma Increasing(p: Bytes, k: nat)
    requires |p| == PAGE_SIZE && OffsetsOk(p, k)
    ensures forall d, e :: 0 <= d <= e < k ==> EndAt(p, d) <= EndAt(p, e)
  {
    forall d, e | 0 <= d <= e < k
      ensures EndAt(p, d) <= EndAt(p, e)
    {
      assert EndAt(p, d) == Off(p, d + 1) && EndAt(p, e) == Off(p, e + 1);
    }
  }

  // Ends that do not lie beyond start are passed over.
  lemma {:induction false} SkipTo(p: Bytes, k: nat, d: nat, e: nat, start: nat)
    requires |p| == PAGE_SIZE && OffsetsOk(p, k) && d <= e <= k
    requires forall i :: d <= i < e ==> EndAt(p, i) <= start
    ensures FirstEnd(p, k, d, start) == FirstEnd(p, k, e, start)
    decreases e - d
  {
    hide EndAt;
    if d < e {
      SkipTo(p, k, d + 1, e, start);
    }
  }

  // The first string from d on that is not empty.
  function FirstNonEmpty(strs: seq<Bytes>, d: nat): Bytes
    requires d <= |strs|
    decreases |strs| - d
  {
    if d == |strs| then [] else if strs[d] != [] then strs[d] else FirstNonEmpty(strs, d + 1)
  }

  // Searching from where string d begins finds the first non-empty string from d on.
  lemma {:induction false} ShortStringReads(p: Bytes, k: nat, d: nat)
    requires |p| == PAGE_SIZE && OffsetsOk(p, k) && d <= k
    ensures ShortString(p, k, Off(p, d)) == FirstNonEmpty(Strings(p, k), d)
    decreases k - d
  {
    hide U16, ShortString;
    forall i | 0 <= i < d
      ensures EndAt(p, i) <= Off(p, d)
    {
      assert EndAt(p, i) == Off(p, i + 1);
    }
    SkipTo(p, k, 0, d, Off(p, d));
    ShortStringIs(p, k, Off(p, d));
    if d < k {
      assert EndAt(p, d) == Off(p, d + 1);
      assert Strings(p, k)[d] == StringAt(p, k, d);
      if Off(p, d) == Off(p, d + 1) {
        ShortStringReads(p, k, d + 1);
      }
    }
  }

  lemma ShortStringIs(p: Bytes, k: nat, start: nat)
    requires |p| == PAGE_SIZE && OffsetsOk(p, k) && start <= Off(p, k)
    ensures ShortString(p, k, start) == p[4 + 2 * k + start..4 + 2 * k + FirstEnd(p, k, 0, start)]
  {
  }

  // -------- whole columns --------

  function Reread(strs: seq<Bytes>): (r: seq<Bytes>)
    ensures |r| == |strs|
  {
    seq(|strs|, d requires 0 <= d < |strs| => FirstNonEmpty(strs, d))
  }

  // A page whose empty strings come last.
  predicate EmptyLast(strs: seq<Bytes>) {
    forall d, e :: 0 <= d < e < |strs| && strs[d] == [] ==> strs[e] == []
  }

  lemma {:induction false} FirstNonEmptyIs(strs: seq<Bytes>, d: nat)
    requires d <= |strs|
    ensures FirstNonEmpty(strs, d) == [] <==> forall e :: d <= e < |strs| ==> strs[e] == []
    decreases |strs| - d
  {
    if d < |strs| && strs[d] == [] {
      FirstNonEmptyIs(strs, d + 1);
    }
  }

  // The search recovers every string of a page exactly when its empty strings come last.
  lemma RereadSame(strs: seq<Bytes>)
    ensures Reread(strs) == strs <==> EmptyLast(strs)
  {
    forall d | 0 <= d < |strs|
      ensures FirstNonEmpty(strs, d) == strs[d] <==> (strs[d] == [] ==> forall e :: d <= e < |strs| ==> strs[e] == [])
    {
      FirstNonEmptyIs(strs, d);
    }
    if Reread(strs) == strs {
      forall d | 0 <= d < |strs|
        ensures FirstNonEmpty(strs, d) == strs[d]
      {
        assert Reread(strs)[d] == strs[d];
      }
    }
  }

  // An empty string followed by a non-empty one reads as the latter.
  lemma EmptyReadsAsNext(a: bv8)
    ensures Reread([[], [a]]) == [[a], [a]] && !EmptyLast([[], [a]])
  {
    var strs := [[], [a]];
    assert FirstNonEmpty(strs, 1) == [a];
    assert strs[0] == [] && strs[1] != [];
  }

  // The rows of a column with every short string as the search finds it.
  function RereadRows(pages: seq<Bytes>): seq<Option<Bytes>>
    requires PagesOk(pages)
  {
    if pages == [] then [] else ExtendReread(RereadRows(pages[..|pages| - 1]), pages[|pages| - 1])
  }

  function NormalReread(p: Bytes): seq<Option<Bytes>>
    requires NormalOk(p)
  {
    Rows(BitmapOf(p, U16(p, 0)), U16(p, 0), Reread(Strings(p, U16(p, 2))))
  }

  function ExtendReread(rows: seq<Option<Bytes>>, p: Bytes): seq<Option<Bytes>>
    requires PageOk(p)
  {
    if U16(p, 0) == FIRST then rows + [Some(LongPart(p))]
    else if U16(p, 0) == NEXT then
      if EndsInString(rows) then rows[..|rows| - 1] + [Some(rows[|rows| - 1].value + LongPart(p))] else rows
    else rows + NormalReread(p)
  }

  // -------- references --------

  // The page a string begins on and, on a normal page, the offset it begins at.
  datatype Ref = Ref(page: nat, pos: nat)

  function Starts(p: Bytes, k: nat, page: nat): (r: seq<Ref>)
    requires 4 + 2 * k <= |p|
    ensures |r| == k && forall d :: 0 <= d < k ==> r[d] == Ref(page, Off(p, d))
  {
    seq(k, d requires 0 <= d < k => Ref(page, Off(p, d)))
  }

  // The references scanned from page i, given the positions of the long strings.
  function PageRefs(p: Bytes, i: nat, longPos: nat -> nat): seq<Option<Ref>>
    requires PageOk(p)
  {
    if U16(p, 0) == FIRST then [Some(Ref(i, longPos(i)))]
    else if U16(p, 0) == NEXT then []
    else Rows(BitmapOf(p, U16(p, 0)), U16(p, 0), Starts(p, U16(p, 2), i))
  }

  function ColumnRefs(pages: seq<Bytes>, longPos: nat -> nat): seq<Option<Ref>>
    requires PagesOk(pages)
  {
    if pages == [] then []
    else ColumnRefs(pages[..|pages| - 1], longPos) + PageRefs(pages[|pages| - 1], |pages| - 1, longPos)
  }

  predicate Readable(pages: seq<Bytes>, r: Ref)
    requires PagesOk(pages)
  {
    && r.page < |pages|
    && U16(pages[r.page], 0) != NEXT
    && (U16(pages[r.page], 0) < NEXT ==> r.pos <= Off(pages[r.page], U16(pages[r.page], 2)))
  }

  // The string a reference stands for.
  function ReadString(pages: seq<Bytes>, r: Ref): Bytes
    requires PagesOk(pages) && Readable(pages, r)
  {
    if U16(pages[r.page], 0) == FIRST then LongString(pages, r.page)
    else ShortString(pages[r.page], U16(pages[r.page], 2), r.pos)
  }

  // References and rows agree.
  ghost predicate Agree(pages: seq<Bytes>, refs: seq<Option<Ref>>, rows: seq<Option<Bytes>>)
    requires PagesOk(pages)
  {
    && |refs| == |rows|
    && forall i :: 0 <= i < |refs| ==> AgreeAt(pages, refs[i], rows[i])
  }

  predicate AgreeAt(pages: seq<Bytes>, ref: Option<Ref>, row: Option<Bytes>)
    requires PagesOk(pages)
  {
    if ref.None? then row.None?
    else Readable(pages, ref.value) && row == Some(ReadString(pages, ref.value))
  }

  // The rows of a page, read from two sequences of payloads side by side.
  lemma {:induction false} RowsTogether<A, B>(bm: Bitmap, n: nat, xs: seq<A>, ys: seq<B>, i: nat)
    requires BytesFor(n) <= |bm| && Rank(bm, n) <= |xs| && Rank(bm, n) <= |ys| && i < n
    ensures Rows(bm, n, xs)[i].Some? <==> Rows(bm, n, ys)[i].Some?
    ensures Rows(bm, n, xs)[i].Some? ==>
      exists d :: 0 <= d < |xs| && d < |ys| && Rows(bm, n, xs)[i].value == xs[d] && Rows(bm, n, ys)[i].value == ys[d]
    decreases n
  {
    assert BytesFor(n - 1) <= BytesFor(n);
    if i < n - 1 {
      RowsTogether(bm, n - 1, xs, ys, i);
    } else if Bit(bm, i) {
      var d := Rank(bm, i);
      assert Rows(bm, n, xs)[i].value == xs[d] && Rows(bm, n, ys)[i].value == ys[d];
    }
  }

  lemma {:induction false} RefsBelow(pages: seq<Bytes>, longPos: nat -> nat, i: nat)
    requires PagesOk(pages) && i < |ColumnRefs(pages, longPos)| && ColumnRefs(pages, longPos)[i].Some?
    ensures ColumnRefs(pages, longPos)[i].value.page < |pages|
  {
    hide NormalOk, LongOk, PageRefs;
    var init := pages[..|pages| - 1];
    if i < |ColumnRefs(init, longPos)| {
      RefsBelow(init, longPos, i);
    } else {
      PageRefsPage(pages[|pages| - 1], |init|, longPos, i - |ColumnRefs(init, longPos)|);
    }
  }

  lemma PageRefsPage(p: Bytes, page: nat, longPos: nat -> nat, i: nat)
    requires PageOk(p) && i < |PageRefs(p, page, longPos)| && PageRefs(p, page, longPos)[i].Some?
    ensures PageRefs(p, page, longPos)[i].value.page == page
  {
    hide OffsetsOk, Rank, U16;
    if U16(p, 0) < NEXT {
      var starts := Starts(p, U16(p, 2), page);
      RowsTogether(BitmapOf(p, U16(p, 0)), U16(p, 0), starts, starts, i);
    }
  }

  // The last row of a column that ends in a long string comes from the page the string begins on.
  lemma {:induction false} ChainHead(pages: seq<Bytes>, longPos: nat -> nat) returns (h: nat)
    requires ColumnOk(pages) && pages != [] && U16(pages[|pages| - 1], 0) >= NEXT
    ensures h < |pages| && U16(pages[h], 0) == FIRST && AllNext(pages, h + 1)
    ensures ColumnRefs(pages, longPos) == ColumnRefs(pages[..h], longPos) + [Some(Ref(h, longPos(h)))]
  {
    hide OffsetsOk, Rank, Rows, Starts, U16;
    h := |pages| - 1;
    var init := pages[..h];
    if U16(pages[h], 0) == NEXT {
      h := ChainHead(init, longPos);
      assert pages[..h] == init[..h];
    }
  }

  // What a new page changes about an old reference.
  lemma KeepReadable(pages: seq<Bytes>, q: Bytes, r: Ref)
    requires PagesOk(pages) && PageOk(q) && Readable(pages, r)
    ensures PagesOk(pages + [q]) && Readable(pages + [q], r)
    ensures ReadString(pages + [q], r) == ReadString(pages, r)
      + (if U16(pages[r.page], 0) == FIRST && AllNext(pages, r.page + 1) && U16(q, 0) == NEXT then LongPart(q) else [])
  {
    hide OffsetsOk, Rank, U16, LongPart, ShortString, ChainFrom;
    if U16(pages[r.page], 0) == FIRST {
      ChainSnoc(pages, r.page + 1, q);
      LongStringIs(pages, r.page);
      LongStringIs(pages + [q], r.page);
    }
  }

  lemma KeepAgreeing(pages: seq<Bytes>, q: Bytes, ref: Option<Ref>, row: Option<Bytes>)
    requires PagesOk(pages) && PageOk(q) && AgreeAt(pages, ref, row)
    requires U16(q, 0) == NEXT && ref.Some? && U16(pages[ref.value.page], 0) == FIRST ==> !AllNext(pages, ref.value.page + 1)
    ensures PagesOk(pages + [q]) && AgreeAt(pages + [q], ref, row)
  {
    hide OffsetsOk, Rank, U16, ReadString;
    if ref.Some? {
      KeepReadable(pages, q, ref.value);
      assert ReadString(pages, ref.value) + [] == ReadString(pages, ref.value);
    }
  }

  lemma LongStringIs(pages: seq<Bytes>, p: nat)
    requires PagesOk(pages) && p < |pages| && U16(pages[p], 0) == FIRST
    ensures LongString(pages, p) == LongPart(pages[p]) + ChainFrom(pages, p + 1)
  {
  }

  // The rows of a page that is not a continuation.
  function PageReread(p: Bytes): seq<Option<Bytes>>
    requires PageOk(p) && U16(p, 0) != NEXT
  {
    if U16(p, 0) == FIRST then [Some(LongPart(p))] else NormalReread(p)
  }

  lemma PageAgrees(pages: seq<Bytes>, longPos: nat -> nat)
    requires PagesOk(pages) && pages != [] && U16(pages[|pages| - 1], 0) != NEXT
    ensures Agree(pages, PageRefs(pages[|pages| - 1], |pages| - 1, longPos), PageReread(pages[|pages| - 1]))
  {
    hide OffsetsOk, Rank, U16, ReadString;
    var j := |pages| - 1;
    var p := pages[j];
    if U16(p, 0) == FIRST {
      LastLong(pages, longPos(j));
    } else {
      var n, k := U16(p, 0), U16(p, 2);
      var starts, strs := Starts(p, k, j), Reread(Strings(p, k));
      forall i | 0 <= i < n
        ensures AgreeAt(pages, PageRefs(p, j, longPos)[i], NormalReread(p)[i])
      {
        RowsTogether(BitmapOf(p, n), n, starts, strs, i);
        if PageRefs(p, j, longPos)[i].Some? {
          var d :| 0 <= d < k && Rows(BitmapOf(p, n), n, starts)[i].value == starts[d] && Rows(BitmapOf(p, n), n, strs)[i].value == strs[d];
          LastShort(pages, d);
        }
      }
    }
  }

  lemma LastLong(pages: seq<Bytes>, pos: nat)
    requires PagesOk(pages) && pages != [] && U16(pages[|pages| - 1], 0) == FIRST
    ensures AgreeAt(pages, Some(Ref(|pages| - 1, pos)), Some(LongPart(pages[|pages| - 1])))
  {
    hide OffsetsOk, Rank, U16, LongPart;
    var j := |pages| - 1;
    assert ChainFrom(pages, |pages|) == [];
    assert LongPart(pages[j]) + [] == LongPart(pages[j]);
  }

  lemma LastShort(pages: seq<Bytes>, d: nat)
    requires PagesOk(pages) && pages != []
    requires U16(pages[|pages| - 1], 0) < NEXT && d < U16(pages[|pages| - 1], 2)
    ensures var p, k := pages[|pages| - 1], U16(pages[|pages| - 1], 2);
      AgreeAt(pages, Some(Ref(|pages| - 1, Off(p, d))), Some(FirstNonEmpty(Strings(p, k), d)))
  {
    hide Rank, U16, ShortString, FirstNonEmpty;
    var p, k := pages[|pages| - 1], U16(pages[|pages| - 1], 2);
    ShortStringReads(p, k, d);
  }

  // Every reference of a well-formed column reads the string of its row, as the search finds it.
  lemma {:induction false} RefsRead(pages: seq<Bytes>, longPos: nat -> nat)
    requires ColumnOk(pages)
    ensures Agree(pages, ColumnRefs(pages, longPos), RereadRows(pages))
  {
    hide OffsetsOk, Rank, U16, LongPart, ReadString, Readable, PageRefs, NormalReread;
    if pages != [] {
      var init, q := pages[..|pages| - 1], pages[|pages| - 1];
      var refs, rows := ColumnRefs(init, longPos), RereadRows(init);
      RefsRead(init, longPos);
      assert pages == init + [q];
      if U16(q, 0) == NEXT {
        NextAgrees(init, q, longPos);
      } else {
        PageAgrees(pages, longPos);
        forall i | 0 <= i < |refs|
          ensures AgreeAt(pages, refs[i], rows[i])
        {
          assert AgreeAt(init, refs[i], rows[i]);
          KeepAgreeing(init, q, refs[i], rows[i]);
        }
        assert RereadRows(pages) == rows + PageReread(q);
        assert ColumnRefs(pages, longPos) == refs + PageRefs(q, |init|, longPos);
      }
    }
  }

  lemma NextAgrees(init: seq<Bytes>, q: Bytes, longPos: nat -> nat)
    requires ColumnOk(init + [q]) && ColumnOk(init) && PageOk(q) && U16(q, 0) == NEXT
    requires Agree(init, ColumnRefs(init, longPos), RereadRows(init))
    ensures Agree(init + [q], ColumnRefs(init + [q], longPos), RereadRows(init + [q]))
  {
    hide OffsetsOk, Rank, LongPart, NormalReread, U16, AgreeAt, ColumnRefs, RereadRows, PageOk, AllNext;
    NextLengthens(init, q, longPos);
    LastIsString(init, q);
    var h := ChainHead(init, longPos);
    var refs, rows := ColumnRefs(init, longPos), RereadRows(init);
    var last := |refs| - 1;
    LastAgrees(init, q, Ref(h, longPos(h)), rows[last]);
    forall i | 0 <= i < last
      ensures AgreeAt(init + [q], refs[i], rows[i])
    {
      EarlierAgrees(init, q, longPos, h, i);
    }
  }

  // What a continuation adds to the references and rows.
  lemma NextLengthens(init: seq<Bytes>, q: Bytes, longPos: nat -> nat)
    requires PagesOk(init) && PageOk(q) && U16(q, 0) == NEXT
    ensures PagesOk(init + [q]) && ColumnRefs(init + [q], longPos) == ColumnRefs(init, longPos)
    ensures RereadRows(init + [q]) == ExtendReread(RereadRows(init), q)
  {
    hide PageOk, U16, ExtendReread;
    assert (init + [q])[..|init|] == init;
  }

  lemma LastIsString(init: seq<Bytes>, q: Bytes)
    requires ColumnOk(init + [q]) && PageOk(q) && U16(q, 0) == NEXT
    ensures init != [] && PageOk(init[|init| - 1]) && U16(init[|init| - 1], 0) >= NEXT
  {
    hide PageOk, U16;
    assert (init + [q])[|init|] == q;
    assert PageOk((init + [q])[|init| - 1]);
  }

  lemma LastAgrees(init: seq<Bytes>, q: Bytes, ref: Ref, row: Option<Bytes>)
    requires PagesOk(init) && PageOk(q) && U16(q, 0) == NEXT && AgreeAt(init, Some(ref), row)
    requires ref.page < |init| && U16(init[ref.page], 0) == FIRST && AllNext(init, ref.page + 1)
    ensures PagesOk(init + [q]) && row.Some? && AgreeAt(init + [q], Some(ref), Some(row.value + LongPart(q)))
  {
    hide PageOk, U16, LongPart, ReadString, AllNext;
    KeepReadable(init, q, ref);
  }

  // A continuation leaves the rows before the string it continues alone.
  lemma EarlierAgrees(init: seq<Bytes>, q: Bytes, longPos: nat -> nat, h: nat, i: nat)
    requires ColumnOk(init) && PageOk(q) && U16(q, 0) == NEXT && h < |init|
    requires U16(init[h], 0) == FIRST && AllNext(init, h + 1)
    requires i < |ColumnRefs(init[..h], longPos)| < |ColumnRefs(init, longPos)| && |RereadRows(init)| == |ColumnRefs(init, longPos)|
    requires ColumnRefs(init, longPos)[i] == ColumnRefs(init[..h], longPos)[i]
    requires AgreeAt(init, ColumnRefs(init, longPos)[i], RereadRows(init)[i])
    ensures PagesOk(init + [q]) && AgreeAt(init + [q], ColumnRefs(init, longPos)[i], RereadRows(init)[i])
  {
    hide OffsetsOk, Rank, LongPart, ReadString, Readable, NormalReread, U16, RereadRows, PageRefs, AgreeAt;
    if ColumnRefs(init, longPos)[i].Some? {
      RefsBelow(init[..h], longPos, i);
      NotAllNext(init, ColumnRefs(init, longPos)[i].value.page, h);
    }
    KeepAgreeing(init, q, ColumnRefs(init, longPos)[i], RereadRows(init)[i]);
  }

  lemma NotAllNext(pages: seq<Bytes>, p: nat, h: nat)
    requires PagesOk(pages) && p < h < |pages| && U16(pages[h], 0) == FIRST
    ensures !AllNext(pages, p + 1)
  {
  }

  // Pages whose short strings all survive the search.
  ghost predicate Searchable(pages: seq<Bytes>)
    requires PagesOk(pages)
  {
    forall i :: 0 <= i < |pages| && U16(pages[i], 0) < NEXT ==> EmptyLast(Strings(pages[i], U16(pages[i], 2)))
  }

  // Every payload of a page shows in its rows.
  lemma {:induction false} RowsInjective<T>(bm: Bitmap, n: nat, xs: seq<T>, ys: seq<T>)
    requires BytesFor(n) <= |bm| && Rank(bm, n) <= |xs| && Rank(bm, n) <= |ys|
    requires Rows(bm, n, xs) == Rows(bm, n, ys)
    ensures forall d :: 0 <= d < Rank(bm, n) ==> xs[d] == ys[d]
  {
    if n > 0 {
      assert BytesFor(n - 1) <= BytesFor(n);
      var a, b := Rows(bm, n, xs), Rows(bm, n, ys);
      assert Rows(bm, n - 1, xs) == a[..n - 1] && Rows(bm, n - 1, ys) == b[..n - 1];
      RowsInjective(bm, n - 1, xs, ys);
      assert a[n - 1] == b[n - 1];
    }
  }

  lemma NormalSame(p: Bytes)
    requires NormalOk(p)
    ensures |NormalReread(p)| == |NormalRows(p)|
    ensures NormalReread(p) == NormalRows(p) <==> EmptyLast(Strings(p, U16(p, 2)))
  {
    hide OffsetsOk, Rank, Rows, U16, Reread, EmptyLast;
    var strs := Strings(p, U16(p, 2));
    RereadSame(strs);
    if NormalReread(p) == NormalRows(p) {
      RowsInjective(BitmapOf(p, U16(p, 0)), U16(p, 0), Reread(strs), strs);
    }
  }

  // A column is read back as written exactly when on each of its pages the empty strings come last.
  lemma {:induction false} SearchableRows(pages: seq<Bytes>)
    requires PagesOk(pages)
    ensures |RereadRows(pages)| == |ColumnRows(pages)|
    ensures forall i :: 0 <= i < |RereadRows(pages)| ==> (RereadRows(pages)[i].Some? <==> ColumnRows(pages)[i].Some?)
    ensures RereadRows(pages) == ColumnRows(pages) <==> Searchable(pages)
  {
    hide OffsetsOk, Rank, U16, LongPart, EmptyLast, NormalReread, NormalRows;
    if pages != [] {
      var init, q := pages[..|pages| - 1], pages[|pages| - 1];
      SearchableRows(init);
      assert Searchable(pages) <==> Searchable(init) && (U16(q, 0) < NEXT ==> EmptyLast(Strings(q, U16(q, 2)))) by {
        assert forall i :: 0 <= i < |init| ==> init[i] == pages[i];
        SearchableSnoc(init, q);
        assert pages == init + [q];
      }
      ExtendSame(RereadRows(init), ColumnRows(init), q);
    }
  }

  lemma SearchableSnoc(init: seq<Bytes>, q: Bytes)
    requires PagesOk(init) && PageOk(q)
    ensures PagesOk(init + [q])
    ensures Searchable(init + [q]) <==> Searchable(init) && (U16(q, 0) < NEXT ==> EmptyLast(Strings(q, U16(q, 2))))
  {
    hide OffsetsOk, Rank, U16, EmptyLast;
    var pages := init + [q];
    if Searchable(pages) {
      assert pages[|init|] == q;
      assert forall i :: 0 <= i < |init| ==> init[i] == pages[i];
    }
  }

  lemma ExtendSame(a: seq<Option<Bytes>>, b: seq<Option<Bytes>>, q: Bytes)
    requires PageOk(q) && |a| == |b| && forall i :: 0 <= i < |a| ==> (a[i].Some? <==> b[i].Some?)
    ensures var x, y := ExtendReread(a, q), Extend(b, q);
      && |x| == |y| && (forall i :: 0 <= i < |x| ==> (x[i].Some? <==> y[i].Some?))
      && (x == y <==> a == b && (U16(q, 0) < NEXT ==> EmptyLast(Strings(q, U16(q, 2)))))
  {
    hide OffsetsOk, Rank, U16, LongPart, EmptyLast, NormalReread, NormalRows;
    var x, y := ExtendReread(a, q), Extend(b, q);
    if U16(q, 0) < NEXT {
      NormalSame(q);
      NormalSome(q);
      assert x[..|a|] == a && y[..|b|] == b && x[|a|..] == NormalReread(q) && y[|b|..] == NormalRows(q);
    } else if U16(q, 0) == NEXT {
      if EndsInString(a) {
        var last := |a| - 1;
        assert x[..last] == a[..last] && y[..last] == b[..last];
        var part := LongPart(q);
        assert x[last] == Some(a[last].value + part) && y[last] == Some(b[last].value + part);
        SameHead(a[last].value, b[last].value, part);
        assert a == a[..last] + [a[last]] && b == b[..last] + [b[last]];
      }
    } else {
      assert x[..|a|] == a && y[..|b|] == b;
    }
  }

  lemma SameHead(a: Bytes, b: Bytes, part: Bytes)
    ensures a + part == b + part <==> a == b
  {
    if a + part == b + part {
      assert |a| == |b|;
      assert a == (a + part)[..|a|] && b == (b + part)[..|b|];
    }
  }

  lemma NormalSome(p: Bytes)
    requires NormalOk(p)
    ensures |NormalReread(p)| == |NormalRows(p)|
    ensures forall i :: 0 <= i < |NormalRows(p)| ==> (NormalReread(p)[i].Some? <==> NormalRows(p)[i].Some?)
  {
    hide OffsetsOk, Rank, Rows, U16, Reread;
    var n, strs := U16(p, 0), Strings(p, U16(p, 2));
    forall i | 0 <= i < n
      ensures NormalReread(p)[i].Some? <==> NormalRows(p)[i].Some?
    {
      RowsTogether(BitmapOf(p, n), n, Reread(strs), strs, i);
    }
  }
}
