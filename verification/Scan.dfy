// column_t_copy_scan (src/column_store.cpp): an input column becomes words that hold its values or
// point at them.
module Scan {
  import opened Options
  import opened SeqFacts
  import opened NullBitmap
  import opened PageBytes
  import opened ValueWords
  import opened Tables
  import opened LateStrings
  import opened LongPositions
  import opened ColumnPages
  import opened Late
  import FixedColumn
  import VarcharColumn
  import VarcharWriter

  // How a scan ends.  Throws is an exception, Faults a read behind the last page of a column.
  datatype ScanEnd = Done | Throws | Faults

  // -------- INT32 columns with nulls --------

  function PackedWord(row: Option<Bytes>): Word
    requires row.Some? ==> |row.value| == 4
  {
    if row.None? then MakeNull() else PutInt32(I32(row.value))
  }

  ghost predicate Packed(words: seq<Word>, rows: seq<Option<Bytes>>) {
    && |words| == |rows|
    && forall i :: 0 <= i < |rows| ==> (rows[i].Some? ==> |rows[i].value| == 4) && words[i] == PackedWord(rows[i])
  }

  lemma PackedReads(original: seq<Bytes>, row: Option<Bytes>)
    requires row.Some? ==> |row.value| == 4
    ensures ResolvableInt(original, PackedWord(row)) && ResolveInt(original, PackedWord(row)) == PackedField(row)
  {
    hide PutInt32, I32, GetInt32;
    if row.Some? {
      PutInt32Reads(I32(row.value));
    }
  }

  // The rows of one page; row_idx is checked against the table's row count for every value.
  method ScanPackedPage(page: Bytes, numRows: nat, rowIdx: nat, result: ColumnT, ghost before: seq<Option<Bytes>>)
      returns (ok: bool, rowIdx': nat)
    requires FixedColumn.PageOk(4, page) && |before| == rowIdx
    requires AllValid(result.pages) && Packed(Words(result.pages), before) && Layout(result.pages) == Dense(rowIdx)
    modifies result`pages
    ensures |before + FixedColumn.PageRows(4, page)| <= numRows ==> ok
    ensures AllValid(result.pages)
    ensures ok ==> rowIdx' == |before + FixedColumn.PageRows(4, page)| && Layout(result.pages) == Dense(rowIdx')
    ensures ok ==> Packed(Words(result.pages), before + FixedColumn.PageRows(4, page))
  {
    hide Rank, Rows, Bit, U16, Words, I32, PutInt32, AllValid, Appended, Grown;
    var n := U16(page, 0);
    var bitmap := FixedColumn.BitmapOf(page, n);
    ghost var payloads := FixedColumn.Payloads(4, page, U16(page, 2));
    ghost var rows := Rows(bitmap, n, payloads);
    var dataIdx := 0;
    rowIdx' := rowIdx;
    NoPayloads(bitmap, payloads);
    assert before + rows[..0] == before;
    for i := 0 to n
      invariant dataIdx == Rank(bitmap, i) <= |payloads| && rowIdx' == rowIdx + i
      invariant AllValid(result.pages) && Layout(result.pages) == Dense(rowIdx')
      invariant Packed(Words(result.pages), before + rows[..i])
    {
      RowAt(bitmap, i, n, payloads);
      assert before + rows[..i + 1] == before + rows[..i] + [rows[i]];
      if Bit(bitmap, i) {
        var value := I32(FixedColumn.Cell(4, page, dataIdx));
        dataIdx := dataIdx + 1;
        if rowIdx' >= numRows {
          return false, rowIdx';
        }
        result.Append(PutInt32(value));
      } else {
        result.Append(MakeNull());
      }
      rowIdx' := rowIdx' + 1;
    }
    assert rows[..n] == rows;
    ok := true;
  }

  method ScanPacked(pages: seq<Bytes>, numRows: nat, result: ColumnT) returns (ok: bool)
    requires FixedColumn.ColumnOk(4, pages) && result.pages == []
    modifies result`pages
    ensures |FixedColumn.ColumnRows(4, pages)| <= numRows ==> ok
    ensures AllValid(result.pages)
    ensures ok ==> Packed(Words(result.pages), FixedColumn.ColumnRows(4, pages))
    ensures ok ==> Layout(result.pages) == Dense(|FixedColumn.ColumnRows(4, pages)|)
  {
    hide U16, Rank, Rows, PackedWord, Dense, FixedColumn.PageRows;
    var rowIdx := 0;
    NoWords();
    for p := 0 to |pages|
      invariant AllValid(result.pages) && rowIdx == |FixedColumn.ColumnRows(4, pages[..p])|
      invariant Packed(Words(result.pages), FixedColumn.ColumnRows(4, pages[..p]))
      invariant Layout(result.pages) == Dense(rowIdx)
    {
      assert pages[..p + 1] == pages[..p] + [pages[p]];
      FixedColumn.ColumnSnoc(4, pages[..p], pages[p]);
      FixedLonger(pages, p + 1);
      ok, rowIdx := ScanPackedPage(pages[p], numRows, rowIdx, result, FixedColumn.ColumnRows(4, pages[..p]));
      if !ok {
        return;
      }
    }
    assert pages[..|pages|] == pages;
    ok := true;
  }

  lemma NoWords()
    ensures AllValid([]) && Words([]) == [] && Layout([]) == Dense(0)
  {
  }

  lemma {:induction false} FixedLonger(pages: seq<Bytes>, k: nat)
    requires FixedColumn.ColumnOk(4, pages) && k <= |pages|
    ensures |FixedColumn.ColumnRows(4, pages[..k])| <= |FixedColumn.ColumnRows(4, pages)|
    decreases |pages|
  {
    hide FixedColumn.PageOk;
    if k < |pages| {
      var init := pages[..|pages| - 1];
      assert pages[..k] == init[..k];
      FixedLonger(init, k);
    } else {
      assert pages[..k] == pages;
    }
  }

  // -------- references --------

  // Words that hold these references of one column, or nulls.
  ghost predicate Encodes(words: seq<Word>, mode: nat, table: nat, column: nat, refs: seq<Option<Ref>>)
    requires mode < 3
  {
    && |words| == |refs|
    && forall i :: 0 <= i < |refs| ==> EncodesAt(words[i], mode, table, column, refs[i])
  }

  predicate EncodesAt(w: Word, mode: nat, table: nat, column: nat, ref: Option<Ref>)
    requires mode < 3
  {
    if ref.None? then w == MakeNull()
    else PutReference(mode, Reference(table, column, ref.value.page, ref.value.pos)) == Some(w)
  }

  // Every reference fits its bit fields.
  ghost predicate Addressable(table: nat, column: nat, refs: seq<Option<Ref>>) {
    forall i :: 0 <= i < |refs| && refs[i].Some? ==> ValueWords.Fits(Reference(table, column, refs[i].value.page, refs[i].value.pos))
  }

  lemma EncodesSnoc(words: seq<Word>, mode: nat, table: nat, column: nat, refs: seq<Option<Ref>>, w: Word, ref: Option<Ref>)
    requires mode < 3 && Encodes(words, mode, table, column, refs) && EncodesAt(w, mode, table, column, ref)
    ensures Encodes(words + [w], mode, table, column, refs + [ref])
  {
    hide EncodesAt;
  }

  lemma EncodesReads(w: Word, mode: nat, table: nat, column: nat, ref: Ref)
    requires mode < 3 && EncodesAt(w, mode, table, column, Some(ref))
    ensures Mode(w) == mode && GetReference(w) == Reference(table, column, ref.page, ref.pos)
  {
    hide PutReference, GetReference;
    ReferenceRoundTrip(mode, Reference(table, column, ref.page, ref.pos));
  }

  // -------- VARCHAR columns --------

  method ScanNormalPage(table: nat, column: nat, page: Bytes, pageIdx: nat, numRows: nat, rowIdx: nat,
                        result: ColumnT, ghost before: seq<Option<Ref>>, ghost longPos: nat -> nat)
      returns (ok: bool, rowIdx': nat)
    requires VarcharColumn.NormalOk(page) && |before| == rowIdx
    requires AllValid(result.pages) && Layout(result.pages) == Dense(rowIdx)
    requires Encodes(Words(result.pages), VARCHAR_MODE, table, column, before)
    modifies result`pages
    ensures AllValid(result.pages)
    ensures var refs := before + PageRefs(page, pageIdx, longPos);
      && (|refs| <= numRows && Addressable(table, column, refs) ==> ok)
      && (ok ==> rowIdx' == |refs| && Layout(result.pages) == Dense(|refs|))
      && (ok ==> Encodes(Words(result.pages), VARCHAR_MODE, table, column, refs))
  {
    hide Rank, Rows, Bit, U16, Words, AllValid, Appended, Grown, Encodes, PutReference;
    var n := U16(page, 0);
    var numNonNull := U16(page, 2);
    var bitmap := VarcharColumn.BitmapOf(page, n);
    ghost var starts := Starts(page, numNonNull, pageIdx);
    ghost var refs := Rows(bitmap, n, starts);
    var dataIdx := 0;
    var prevOffset := 0;
    rowIdx' := rowIdx;
    NoPayloads(bitmap, starts);
    assert before + refs[..0] == before;
    for i := 0 to n
      invariant dataIdx == Rank(bitmap, i) <= |starts| && rowIdx' == rowIdx + i
      invariant prevOffset == VarcharColumn.Off(page, dataIdx)
      invariant AllValid(result.pages) && Layout(result.pages) == Dense(rowIdx')
      invariant Encodes(Words(result.pages), VARCHAR_MODE, table, column, before + refs[..i])
    {
      RowAt(bitmap, i, n, starts);
      assert before + refs[..i + 1] == before + refs[..i] + [refs[i]];
      if Bit(bitmap, i) {
        var offset := VarcharColumn.EndAt(page, dataIdx);
        dataIdx := dataIdx + 1;
        var pos := prevOffset;
        prevOffset := offset;
        if rowIdx' >= numRows {
          return false, rowIdx';
        }
        var w := PutReference(VARCHAR_MODE, Reference(table, column, pageIdx, pos));
        if w.None? {
          assert (before + refs)[rowIdx'] == refs[i];
          return false, rowIdx';
        }
        EncodesSnoc(Words(result.pages), VARCHAR_MODE, table, column, before + refs[..i], w.value, refs[i]);
        result.Append(w.value);
      } else {
        EncodesSnoc(Words(result.pages), VARCHAR_MODE, table, column, before + refs[..i], MakeNull(), refs[i]);
        result.Append(MakeNull());
      }
      rowIdx' := rowIdx' + 1;
    }
    assert refs[..n] == refs;
    ok := true;
  }

  // Words are made of references that fit.
  lemma EncodesFits(words: seq<Word>, mode: nat, table: nat, column: nat, refs: seq<Option<Ref>>)
    requires mode < 3 && Encodes(words, mode, table, column, refs)
    ensures Addressable(table, column, refs)
  {
    forall i | 0 <= i < |refs| && refs[i].Some?
      ensures ValueWords.Fits(Reference(table, column, refs[i].value.page, refs[i].value.pos))
    {
      assert EncodesAt(words[i], mode, table, column, refs[i]);
    }
  }

  // Page p of a long string has a position.
  predicate Located(pages: seq<Bytes>, p: nat)
    requires VarcharColumn.PagesOk(pages) && p < |pages|
  {
    Mark(pages, p) == VarcharColumn.FIRST ==> LongPos(pages, p).Some?
  }

  method ScanStringPage(table: nat, column: nat, pages: seq<Bytes>, pageIdx: nat, numRows: nat, rowIdx: nat,
                        result: ColumnT, ghost before: seq<Option<Ref>>)
      returns (end: ScanEnd, rowIdx': nat)
    requires VarcharColumn.PagesOk(pages) && pageIdx < |pages| && |before| == rowIdx
    requires AllValid(result.pages) && Layout(result.pages) == Dense(rowIdx)
    requires Encodes(Words(result.pages), VARCHAR_MODE, table, column, before)
    modifies result`pages
    ensures AllValid(result.pages)
    ensures var refs := before + PageRefs(pages[pageIdx], pageIdx, PosOf(pages));
      && (|refs| <= numRows && Addressable(table, column, refs) ==> end == if Located(pages, pageIdx) then Done else Faults)
      && (end.Done? ==> Located(pages, pageIdx) && rowIdx' == |refs| && Layout(result.pages) == Dense(|refs|))
      && (end.Done? ==> Encodes(Words(result.pages), VARCHAR_MODE, table, column, refs))
      && (end.Faults? ==> !Located(pages, pageIdx))
      && (end.Throws? ==> |refs| > numRows || !Addressable(table, column, refs))
  {
    hide VarcharColumn.OffsetsOk, Rank, U16, Dense, Encodes, Addressable, PutReference, AllValid, Words, LongPos;
    var page := pages[pageIdx];
    rowIdx' := rowIdx;
    if U16(page, 0) == VarcharColumn.FIRST {
      var found := FindLongPos(pages, pageIdx);
      if found.None? {
        return Faults, rowIdx;
      }
      var pos := found.value;
      var w := PutReference(VARCHAR_MODE, Reference(table, column, pageIdx, pos));
      if w.None? {
        NotAddressable(table, column, before, Ref(pageIdx, pos));
        return Throws, rowIdx;
      }
      EncodesSnoc(Words(result.pages), VARCHAR_MODE, table, column, before, w.value, Some(Ref(pageIdx, pos)));
      result.Append(w.value);
      DenseSnoc(rowIdx);
      rowIdx' := rowIdx + 1;
    } else if U16(page, 0) == VarcharColumn.NEXT {
      assert before + [] == before;
    } else {
      var ok;
      ok, rowIdx' := ScanNormalPage(table, column, page, pageIdx, numRows, rowIdx, result, before, PosOf(pages));
      end := if ok then Done else Throws;
      return;
    }
    end := Done;
  }

  lemma AllLocated(pages: seq<Bytes>)
    requires VarcharColumn.PagesOk(pages) && forall i :: 0 <= i < |pages| ==> Located(pages, i)
    ensures InBounds(pages)
  {
    hide VarcharColumn.PageOk, U16, LongPos;
    forall i | 0 <= i < |pages| && Mark(pages, i) == VarcharColumn.FIRST
      ensures LongPos(pages, i).Some?
    {
      assert Located(pages, i);
    }
  }

  method ScanStrings(table: nat, column: nat, pages: seq<Bytes>, numRows: nat, result: ColumnT) returns (end: ScanEnd)
    requires VarcharColumn.PagesOk(pages) && result.pages == []
    modifies result`pages, result`dtype
    ensures AllValid(result.pages)
    ensures result.dtype == if pages == [] then old(result.dtype) else VARCHAR
    ensures var refs := ColumnRefs(pages, PosOf(pages));
      && (|refs| <= numRows ==> (end.Done? <==> InBounds(pages) && Addressable(table, column, refs)))
      && (|refs| <= numRows && Addressable(table, column, refs) && !InBounds(pages) ==> end.Faults?)
      && (end.Done? ==> InBounds(pages) && Layout(result.pages) == Dense(|refs|) && Encodes(Words(result.pages), VARCHAR_MODE, table, column, refs))
      && (end.Faults? ==> !InBounds(pages))
  {
    hide VarcharColumn.PageOk, U16, Dense, Encodes, Addressable, PutReference, AllValid, Words, PageRefs, LongPos;
    var rowIdx := 0;
    ghost var longPos := PosOf(pages);
    NoWords();
    EncodesNothing(VARCHAR_MODE, table, column);
    for p := 0 to |pages|
      invariant AllValid(result.pages) && rowIdx == |ColumnRefs(pages[..p], longPos)|
      invariant Encodes(Words(result.pages), VARCHAR_MODE, table, column, ColumnRefs(pages[..p], longPos))
      invariant Layout(result.pages) == Dense(rowIdx)
      invariant result.dtype == if p == 0 then old(result.dtype) else VARCHAR
      invariant forall i :: 0 <= i < p ==> Located(pages, i)
    {
      ghost var before := ColumnRefs(pages[..p], longPos);
      assert pages[..p + 1][..p] == pages[..p];
      assert ColumnRefs(pages[..p + 1], longPos) == before + PageRefs(pages[p], p, longPos);
      RefsLonger(pages, p + 1, longPos, table, column);
      result.dtype := VARCHAR;
      end, rowIdx := ScanStringPage(table, column, pages, p, numRows, rowIdx, result, before);
      if !end.Done? {
        return;
      }
    }
    assert pages[..|pages|] == pages;
    EncodesFits(Words(result.pages), VARCHAR_MODE, table, column, ColumnRefs(pages, longPos));
    AllLocated(pages);
    end := Done;
  }

  lemma EncodesNothing(mode: nat, table: nat, column: nat)
    requires mode < 3
    ensures Encodes([], mode, table, column, [])
  {
  }

  lemma DenseSnoc(n: nat)
    ensures Dense(n + 1) == Grown(Dense(n))
  {
  }

  lemma NotAddressable(table: nat, column: nat, before: seq<Option<Ref>>, ref: Ref)
    requires !ValueWords.Fits(Reference(table, column, ref.page, ref.pos))
    ensures !Addressable(table, column, before + [Some(ref)])
  {
    assert (before + [Some(ref)])[|before|] == Some(ref);
  }

  lemma {:induction false} RefsLonger(pages: seq<Bytes>, k: nat, longPos: nat -> nat, table: nat, column: nat)
    requires VarcharColumn.PagesOk(pages) && k <= |pages|
    ensures |ColumnRefs(pages[..k], longPos)| <= |ColumnRefs(pages, longPos)|
    ensures Addressable(table, column, ColumnRefs(pages, longPos)) ==> Addressable(table, column, ColumnRefs(pages[..k], longPos))
    decreases |pages|
  {
    hide VarcharColumn.PageOk, PageRefs;
    if k < |pages| {
      var init := pages[..|pages| - 1];
      assert pages[..k] == init[..k];
      RefsLonger(init, k, longPos, table, column);
      var a, b := ColumnRefs(init, longPos), ColumnRefs(pages, longPos);
      assert forall i :: 0 <= i < |a| ==> a[i] == b[i];
    } else {
      assert pages[..k] == pages;
    }
  }

  // -------- INT32 columns without nulls --------

  // Word j of a column whose pages are full but the last.
  lemma {:induction false} WordsAt(pages: seq<ColumnPage>, n: nat)
    requires AllValid(pages) && Layout(pages) == Dense(n)
    ensures |Words(pages)| == n
    ensures forall j :: 0 <= j < n ==> j / 1024 < |pages| && Words(pages)[j] == pages[j / 1024].buffer[j % 1024]
  {
    DenseIs(n);
    WordsUpTo(pages, n, |pages|);
    assert pages[..|pages|] == pages;
  }

  lemma {:induction false} WordsUpTo(pages: seq<ColumnPage>, n: nat, k: nat)
    requires AllValid(pages) && Layout(pages) == Dense(n) && k <= |pages|
    requires |Dense(n)| == (n + 1023) / 1024
    requires forall p :: 0 <= p < |Dense(n)| ==> Dense(n)[p] == if p < n / 1024 then 1024 else n % 1024
    ensures |Words(pages[..k])| == if k == |pages| then n else 1024 * k
    ensures forall j :: 0 <= j < |Words(pages[..k])| ==>
      j / 1024 < k && Words(pages[..k])[j] == pages[j / 1024].buffer[j % 1024]
  {
    hide Dense;
    if k > 0 {
      WordsUpTo(pages, n, k - 1);
      assert Paged(pages[..k]) == Paged(pages[..k - 1]) + [pages[k - 1].Values()];
      FlattenSnoc(Paged(pages[..k - 1]), pages[k - 1].Values());
      assert Layout(pages)[k - 1] == pages[k - 1].count;
      var a := Words(pages[..k - 1]);
      assert |a| == 1024 * (k - 1);
      forall j | 0 <= j < |Words(pages[..k])|
        ensures j / 1024 < k && Words(pages[..k])[j] == pages[j / 1024].buffer[j % 1024]
      {
        if j >= |a| {
          assert j == 1024 * (k - 1) + (j - |a|) && j - |a| < 1024;
          assert j / 1024 == k - 1 && j % 1024 == j - |a|;
        }
      }
    }
  }

  // The first |ws| words of n are in place; page idx is being filled and holds pos of them.
  ghost predicate FilledTo(pages: seq<ColumnPage>, n: nat, ws: seq<Word>, idx: nat, pos: nat) {
    && AllValid(pages) && |pages| == (n + 1023) / 1024 && idx < |pages|
    && pos <= 1024 && |ws| == 1024 * idx + pos <= n
    && (forall p :: 0 <= p < |pages| ==> pages[p].count == if p < idx then 1024 else 0)
    && (forall j :: 0 <= j < |ws| ==> ws[j] == pages[j / 1024].buffer[j % 1024])
  }

  // One word, moving to the next page first when the current one is full.
  method PutWord(result: ColumnT, n: nat, idx: nat, pos: nat, w: Word, ghost ws: seq<Word>) returns (idx': nat, pos': nat)
    requires FilledTo(result.pages, n, ws, idx, pos) && |ws| < n
    modifies result`pages
    ensures FilledTo(result.pages, n, ws + [w], idx', pos')
  {
    idx', pos' := idx, pos;
    if pos' == BUF_SIZE {
      result.pages := result.pages[idx' := result.pages[idx'].(count := pos')];
      idx' := idx' + 1;
      pos' := 0;
    }
    var page := result.pages[idx'];
    result.pages := result.pages[idx' := page.(buffer := page.buffer[pos' := w])];
    assert (1024 * idx' + pos') / 1024 == idx' && (1024 * idx' + pos') % 1024 == pos';
    pos' := pos' + 1;
  }

  lemma FilledIsDense(pages: seq<ColumnPage>, n: nat, ws: seq<Word>, idx: nat, pos: nat)
    requires FilledTo(pages, n, ws, idx, pos) && |ws| == n > 0
    ensures idx < |pages| && pos <= 1024 && AllValid(pages[idx := pages[idx].(count := pos)])
    ensures Words(pages[idx := pages[idx].(count := pos)]) == ws
    ensures Layout(pages[idx := pages[idx].(count := pos)]) == Dense(n)
  {
    hide Words, Dense;
    var done := pages[idx := pages[idx].(count := pos)];
    DenseIs(n);
    assert Layout(done) == Dense(n);
    WordsAt(done, n);
  }

  // num_rows of every page
  function TotalRows(pages: seq<Bytes>): nat
    requires FixedColumn.ColumnOk(4, pages)
  {
    if pages == [] then 0 else TotalRows(pages[..|pages| - 1]) + U16(pages[|pages| - 1], 0)
  }

  lemma {:induction false} TotalRowsIs(pages: seq<Bytes>)
    requires FixedColumn.ColumnOk(4, pages)
    ensures TotalRows(pages) == |IntRefs(pages)|
  {
    if pages != [] {
      TotalRowsIs(pages[..|pages| - 1]);
    }
  }

  lemma {:induction false} IntRefsPrefix(pages: seq<Bytes>, k: nat)
    requires FixedColumn.ColumnOk(4, pages) && k <= |pages|
    ensures |IntRefs(pages[..k])| <= |IntRefs(pages)| && IntRefs(pages)[..|IntRefs(pages[..k])|] == IntRefs(pages[..k])
    decreases |pages|
  {
    if k < |pages| {
      var init := pages[..|pages| - 1];
      assert pages[..k] == init[..k];
      IntRefsPrefix(init, k);
    } else {
      assert pages[..k] == pages;
    }
  }

  // The references of one page go into the pages made beforehand.
  method PutPage(table: nat, column: nat, n: nat, page: nat, numRows: nat, result: ColumnT, idx: nat, pos: nat,
                 ghost ws: seq<Word>, ghost refs: seq<Option<Ref>>)
      returns (ok: bool, idx': nat, pos': nat, ghost ws': seq<Word>)
    requires FilledTo(result.pages, n, ws, idx, pos) && |ws| + numRows <= n
    requires Encodes(ws, INT32_NO_NULL_MODE, table, column, refs)
    modifies result`pages
    ensures var refs' := refs + PageIntRefs(page, numRows);
      && (ok <== Addressable(table, column, refs'))
      && (ok ==> FilledTo(result.pages, n, ws', idx', pos') && Encodes(ws', INT32_NO_NULL_MODE, table, column, refs'))
    ensures AllValid(result.pages)
  {
    hide FilledTo, Encodes, PutReference, AllValid;
    idx', pos', ws' := idx, pos, ws;
    ghost var added := PageIntRefs(page, numRows);
    EncodesLength(ws, INT32_NO_NULL_MODE, table, column, refs);
    FilledValid(result.pages, n, ws, idx, pos);
    assert refs + added[..0] == refs;
    for i := 0 to numRows
      invariant FilledTo(result.pages, n, ws', idx', pos') && |ws'| == |ws| + i
      invariant Encodes(ws', INT32_NO_NULL_MODE, table, column, refs + added[..i])
    {
      var w := PutReference(INT32_NO_NULL_MODE, Reference(table, column, page, i));
      if w.None? {
        assert (refs + added)[|refs| + i] == Some(Ref(page, i));
        FilledValid(result.pages, n, ws', idx', pos');
        return false, idx', pos', ws';
      }
      assert refs + added[..i + 1] == refs + added[..i] + [Some(Ref(page, i))];
      EncodesSnoc(ws', INT32_NO_NULL_MODE, table, column, refs + added[..i], w.value, Some(Ref(page, i)));
      idx', pos' := PutWord(result, n, idx', pos', w.value, ws');
      ws' := ws' + [w.value];
    }
    assert added[..numRows] == added;
    FilledValid(result.pages, n, ws', idx', pos');
    ok := true;
  }

  lemma EncodesLength(words: seq<Word>, mode: nat, table: nat, column: nat, refs: seq<Option<Ref>>)
    requires mode < 3 && Encodes(words, mode, table, column, refs)
    ensures |words| == |refs|
  {
  }

  lemma FilledValid(pages: seq<ColumnPage>, n: nat, ws: seq<Word>, idx: nat, pos: nat)
    requires FilledTo(pages, n, ws, idx, pos)
    ensures AllValid(pages)
  {
  }

  method ScanNoNulls(table: nat, column: nat, pages: seq<Bytes>, result: ColumnT) returns (ok: bool)
    requires FixedColumn.ColumnOk(4, pages) && result.pages == []
    modifies result`pages
    ensures AllValid(result.pages)
    ensures var refs := IntRefs(pages);
      && (ok <==> Addressable(table, column, refs))
      && (ok ==> Layout(result.pages) == Dense(|refs|) && Encodes(Words(result.pages), INT32_NO_NULL_MODE, table, column, refs))
  {
    hide FixedColumn.PageOk, FilledTo, Encodes, Addressable, Words, Dense, U16;
    var totalRows := 0;
    for k := 0 to |pages|
      invariant totalRows == TotalRows(pages[..k]) && result.pages == []
    {
      assert pages[..k + 1][..k] == pages[..k];
      PageSize(pages, k);
      totalRows := totalRows + U16(pages[k], 0);
    }
    assert pages[..|pages|] == pages;
    TotalRowsIs(pages);
    NoWords();
    EncodesNothing(INT32_NO_NULL_MODE, table, column);
    if totalRows == 0 {
      assert IntRefs(pages) == [];
      EncodesFits([], INT32_NO_NULL_MODE, table, column, []);
      return true;
    }
    result.CreatePages(totalRows);
    var idx: nat, pos: nat := 0, 0;
    ghost var ws: seq<Word> := [];
    NothingFilled(result.pages, totalRows);
    for k := 0 to |pages|
      invariant FilledTo(result.pages, totalRows, ws, idx, pos)
      invariant Encodes(ws, INT32_NO_NULL_MODE, table, column, IntRefs(pages[..k]))
    {
      ghost var refs := IntRefs(pages[..k]);
      EncodesLength(ws, INT32_NO_NULL_MODE, table, column, refs);
      assert pages[..k + 1][..k] == pages[..k];
      PageSize(pages, k);
      IntRefsPrefix(pages, k + 1);
      AddressablePrefix(table, column, IntRefs(pages), |IntRefs(pages[..k + 1])|);
      ok, idx, pos, ws := PutPage(table, column, totalRows, k, U16(pages[k], 0), result, idx, pos, ws, refs);
      if !ok {
        return;
      }
    }
    EncodesLength(ws, INT32_NO_NULL_MODE, table, column, IntRefs(pages));
    EncodesFits(ws, INT32_NO_NULL_MODE, table, column, IntRefs(pages));
    FilledIsDense(result.pages, totalRows, ws, idx, pos);
    result.pages := result.pages[idx := result.pages[idx].(count := pos)];
    ok := true;
  }

  lemma PageSize(pages: seq<Bytes>, k: nat)
    requires FixedColumn.ColumnOk(4, pages) && k < |pages|
    ensures |pages[k]| == PAGE_SIZE
  {
  }

  lemma NothingFilled(pages: seq<ColumnPage>, n: nat)
    requires n > 0 && AllValid(pages) && |pages| == (n + 1023) / 1024 && forall p :: 0 <= p < |pages| ==> pages[p].count == 0
    ensures FilledTo(pages, n, [], 0, 0)
  {
  }

  lemma AddressablePrefix(table: nat, column: nat, refs: seq<Option<Ref>>, k: nat)
    requires k <= |refs|
    ensures Addressable(table, column, refs) ==> Addressable(table, column, refs[..k])
  {
  }

  // -------- column_t_copy_scan --------

  // Words that stand for these values.
  ghost predicate Holds(inputs: seq<ColumnarTable>, t: DataType, original: seq<Bytes>, words: seq<Word>, fields: seq<Field>) {
    && |words| == |fields|
    && forall i :: 0 <= i < |words| ==> Resolvable(inputs, t, original, words[i]) && Resolve(inputs, t, original, words[i]) == fields[i]
  }

  // Every value of the column has an address that fits a word.
  ghost predicate HasAddresses(table: nat, column: nat, c: Column)
    requires Scannable(c)
  {
    if c.dtype == VARCHAR then Addressable(table, column, ColumnRefs(c.pages, PosOf(c.pages)))
    else NoNulls(c.pages) ==> Addressable(table, column, IntRefs(c.pages))
  }

  // The scan of the column stays inside its pages.
  ghost predicate StaysInside(c: Column)
    requires Scannable(c)
  {
    c.dtype == VARCHAR ==> InBounds(c.pages)
  }

  ghost predicate CanAddress(table: nat, column: nat, c: Column)
    requires Scannable(c)
  {
    StaysInside(c) && HasAddresses(table, column, c)
  }

  // A column of a result before anything is written to it: value-initialised.
  ghost predicate Blank(result: ColumnT)
    reads result
  {
    result.pages == [] && !result.isNoNull && result.originalPages == [] && result.dtype == INT32
  }

  // A column of a result that holds what the scan of c yields.
  ghost predicate Scanned(inputs: seq<ColumnarTable>, c: Column, result: ColumnT)
    requires Scannable(c)
    reads result
  {
    && AllValid(result.pages)
    && Holds(inputs, c.dtype, result.originalPages, Words(result.pages), ScanFields(c))
    && Layout(result.pages) == Dense(|ScanFields(c)|)
    && result.dtype == (if c.pages == [] then INT32 else c.dtype)
    && result.isNoNull == (c.dtype == INT32 && NoNulls(c.pages))
    && result.originalPages == if result.isNoNull then c.pages else []
  }

  lemma PackedHolds(inputs: seq<ColumnarTable>, c: Column, original: seq<Bytes>, words: seq<Word>)
    requires Scannable(c) && c.dtype == INT32 && !NoNulls(c.pages) && Packed(words, ColumnRows(c))
    ensures Holds(inputs, INT32, original, words, ScanFields(c))
  {
    hide FixedColumn.ColumnOk, FixedColumn.ColumnRows, NoNulls, PackedWord, PackedField, ResolvableInt, ResolveInt;
    CellWidths(c);
    var rows := ColumnRows(c);
    forall i | 0 <= i < |words|
      ensures Resolvable(inputs, INT32, original, words[i]) && Resolve(inputs, INT32, original, words[i]) == ScanFields(c)[i]
    {
      PackedReads(original, rows[i]);
    }
  }

  lemma IntRefsHold(inputs: seq<ColumnarTable>, table: nat, column: nat, c: Column, words: seq<Word>)
    requires Scannable(c) && c.dtype == INT32 && NoNulls(c.pages)
    requires Encodes(words, INT32_NO_NULL_MODE, table, column, IntRefs(c.pages))
    ensures Holds(inputs, INT32, c.pages, words, ScanFields(c))
  {
    hide FixedColumn.ColumnOk, FixedColumn.ColumnRows, NoNulls, EncodesAt, IntRefs, I32;
    CellWidths(c);
    IntRefsRead(c.pages);
    var rows, refs := ColumnRows(c), IntRefs(c.pages);
    forall i | 0 <= i < |words|
      ensures Resolvable(inputs, INT32, c.pages, words[i]) && Resolve(inputs, INT32, c.pages, words[i]) == ScanFields(c)[i]
    {
      assert IntRefReads(c.pages, refs[i].value, rows[i]);
      EncodesReads(words[i], INT32_NO_NULL_MODE, table, column, refs[i].value);
    }
  }

  lemma StringRefsHold(inputs: seq<ColumnarTable>, table: nat, column: nat, c: Column, words: seq<Word>, longPos: nat -> nat)
    requires Scannable(c) && c.dtype == VARCHAR
    requires table < |inputs| && column < |inputs[table].columns| && inputs[table].columns[column] == c
    requires Encodes(words, VARCHAR_MODE, table, column, ColumnRefs(c.pages, longPos))
    ensures forall original :: Holds(inputs, VARCHAR, original, words, ScanFields(c))
  {
    hide VarcharColumn.PagesOk, VarcharColumn.Chained, ColumnRefs, RereadRows, ReadString, LateStrings.Readable, PutReference;
    RefsRead(c.pages, longPos);
    var refs, rows := ColumnRefs(c.pages, longPos), RereadRows(c.pages);
    forall original, i | 0 <= i < |words|
      ensures Resolvable(inputs, VARCHAR, original, words[i])
      ensures Resolve(inputs, VARCHAR, original, words[i]) == ScanFields(c)[i]
    {
      assert AgreeAt(c.pages, refs[i], rows[i]);
      assert EncodesAt(words[i], VARCHAR_MODE, table, column, refs[i]);
      if refs[i].Some? {
        EncodesReads(words[i], VARCHAR_MODE, table, column, refs[i].value);
      }
    }
  }

  lemma RowCounts(c: Column, longPos: nat -> nat)
    requires Scannable(c)
    ensures |ScanFields(c)| == |ColumnRows(c)|
    ensures c.dtype == VARCHAR ==> |ColumnRefs(c.pages, longPos)| == |ScanFields(c)|
    ensures c.dtype == INT32 && NoNulls(c.pages) ==> |IntRefs(c.pages)| == |ScanFields(c)|
  {
    hide FixedColumn.ColumnOk, FixedColumn.ColumnRows, NoNulls, VarcharColumn.PagesOk, VarcharColumn.Chained,
         RereadRows, VarcharColumn.ColumnRows, Searchable, ColumnRefs, IntRefs, AgreeAt;
    if c.dtype == VARCHAR {
      SearchableRows(c.pages);
      RefsRead(c.pages, longPos);
    } else if NoNulls(c.pages) {
      IntRefsRead(c.pages);
    }
  }

  // The check that stops at the first page with a null.
  method CheckNoNulls(pages: seq<Bytes>) returns (noNulls: bool)
    requires FixedColumn.ColumnOk(4, pages)
    ensures noNulls <==> NoNulls(pages)
  {
    hide FixedColumn.PageOk, U16;
    for k := 0 to |pages|
      invariant forall i :: 0 <= i < k ==> |pages[i]| == PAGE_SIZE && U16(pages[i], 0) == U16(pages[i], 2)
    {
      PageSize(pages, k);
      if U16(pages[k], 0) != U16(pages[k], 2) {
        return false;
      }
    }
    noNulls := true;
  }

  method ScanColumn(table: nat, column: nat, c: Column, numRows: nat, result: ColumnT, ghost inputs: seq<ColumnarTable>)
      returns (end: ScanEnd)
    requires Scannable(c) && Blank(result)
    requires table < |inputs| && column < |inputs[table].columns| && inputs[table].columns[column] == c
    modifies result
    ensures |ColumnRows(c)| <= numRows ==> (end.Done? <==> CanAddress(table, column, c))
    ensures |ColumnRows(c)| <= numRows && HasAddresses(table, column, c) && !StaysInside(c) ==> end.Faults?
    ensures end.Faults? ==> !StaysInside(c)
    ensures end.Done? ==> Scanned(inputs, c, result)
  {
    hide FixedColumn.ColumnOk, FixedColumn.ColumnRows, NoNulls, VarcharColumn.PagesOk, VarcharColumn.Chained, VarcharColumn.ColumnRows,
         ColumnRefs, IntRefs, Dense, Words, Encodes, Packed, Holds, Addressable, ScanFields, AllValid, InBounds, PosOf;
    if c.dtype == INT32 {
      RowCounts(c, (i: nat) => 0);
      var noNulls := CheckNoNulls(c.pages);
      result.dtype := INT32;
      var ok;
      if noNulls {
        result.isNoNull := true;
        result.originalPages := c.pages;
        ok := ScanNoNulls(table, column, c.pages, result);
        if ok {
          IntRefsHold(inputs, table, column, c, Words(result.pages));
        }
      } else {
        ok := ScanPacked(c.pages, numRows, result);
        if ok {
          PackedHolds(inputs, c, [], Words(result.pages));
        }
      }
      end := if ok then Done else Throws;
    } else {
      RowCounts(c, PosOf(c.pages));
      end := ScanStrings(table, column, c.pages, numRows, result);
      if end.Done? {
        StringRefsHold(inputs, table, column, c, Words(result.pages), PosOf(c.pages));
      }
    }
  }

  ghost predicate Distinct(results: seq<ColumnT>) {
    forall i, j :: 0 <= i < j < |results| ==> results[i] != results[j]
  }

  // The columns a scan is asked for.
  predicate AttrsOk(t: ColumnarTable, attrs: seq<nat>) {
    forall j :: 0 <= j < |attrs| ==> attrs[j] < |t.columns| && Scannable(t.columns[attrs[j]])
  }

  // These columns have no more rows than the table.
  predicate Counted(t: ColumnarTable, attrs: seq<nat>)
    requires AttrsOk(t, attrs)
  {
    forall j :: 0 <= j < |attrs| ==> |ColumnRows(t.columns[attrs[j]])| <= t.numRows
  }

  ghost predicate AllCanAddress(table: nat, t: ColumnarTable, attrs: seq<nat>)
    requires AttrsOk(t, attrs)
  {
    forall j :: 0 <= j < |attrs| ==> CanAddress(table, attrs[j], t.columns[attrs[j]])
  }

  ghost predicate AllStayInside(t: ColumnarTable, attrs: seq<nat>)
    requires AttrsOk(t, attrs)
  {
    forall j :: 0 <= j < |attrs| ==> StaysInside(t.columns[attrs[j]])
  }

  // The thread pool hands out every output column once, in some order.
  method CopyScan(table: nat, inputs: seq<ColumnarTable>, attrs: seq<nat>, order: seq<nat>)
      returns (end: ScanEnd, results: seq<ColumnT>)
    requires table < |inputs| && AttrsOk(inputs[table], attrs)
    requires forall k :: 0 <= k < |order| ==> order[k] < |attrs|
    requires forall j :: 0 <= j < |attrs| ==> j in order
    requires forall i, j :: 0 <= i < j < |order| ==> order[i] != order[j]
    ensures |results| == |attrs| && Distinct(results) && fresh(results)
    ensures Counted(inputs[table], attrs) ==> (end.Done? <==> AllCanAddress(table, inputs[table], attrs))
    ensures end.Faults? ==> !AllStayInside(inputs[table], attrs)
    ensures end.Done? ==> forall j :: 0 <= j < |attrs| ==> Scanned(inputs, inputs[table].columns[attrs[j]], results[j])
  {
    hide Scannable, CanAddress, HasAddresses, StaysInside, ColumnRows, Scanned;
    results := [];
    for j := 0 to |attrs|
      invariant |results| == j && Distinct(results) && fresh(results)
      invariant forall i :: 0 <= i < j ==> Blank(results[i])
    {
      var column := new ColumnT(INT32);
      results := results + [column];
    }
    ghost var fits := Counted(inputs[table], attrs);
    for k := 0 to |order|
      invariant forall i :: k <= i < |order| ==> Blank(results[order[i]])
      invariant forall i :: 0 <= i < k ==> Scanned(inputs, inputs[table].columns[attrs[order[i]]], results[order[i]])
      invariant fits ==> forall i :: 0 <= i < k ==> CanAddress(table, attrs[order[i]], inputs[table].columns[attrs[order[i]]])
    {
      var j := order[k];
      end := ScanColumn(table, attrs[j], inputs[table].columns[attrs[j]], inputs[table].numRows, results[j], inputs);
      if !end.Done? {
        return;
      }
    }
    end := Done;
    forall j | 0 <= j < |attrs|
      ensures Scanned(inputs, inputs[table].columns[attrs[j]], results[j])
      ensures fits ==> CanAddress(table, attrs[j], inputs[table].columns[attrs[j]])
    {
      assert j in order;
      var i :| 0 <= i < |order| && order[i] == j;
    }
  }

  // A caller's check: few enough tables, columns, pages and pages behind the start of a long string.
  lemma SmallIsAddressable(table: nat, column: nat, c: Column)
    requires Scannable(c) && table < 32 && column < 0x8000 && |c.pages| <= 0x400_0000
    requires c.dtype == VARCHAR ==> forall k :: 0 <= k < |c.pages| ==> PosOf(c.pages)(k) < 0x1_0000
    ensures HasAddresses(table, column, c)
  {
    hide FixedColumn.ColumnOk, VarcharColumn.PagesOk, VarcharColumn.Chained, PosOf;
    if c.dtype == VARCHAR {
      SmallStrings(table, column, c.pages, PosOf(c.pages));
    } else {
      SmallInts(table, column, c.pages);
    }
  }

  // A long string whose position takes more than 16 bits is refused.
  lemma FarPositionThrows(table: nat, column: nat, pages: seq<Bytes>, i: nat)
    requires VarcharColumn.PagesOk(pages) && i < |pages| && Mark(pages, i) == VarcharColumn.FIRST && PosOf(pages)(i) >= 0x1_0000
    ensures !Addressable(table, column, ColumnRefs(pages, PosOf(pages)))
  {
    hide VarcharColumn.PageOk, U16, LongPos;
    var longPos := PosOf(pages);
    var refs := ColumnRefs(pages[..i + 1], longPos);
    assert pages[..i + 1][..i] == pages[..i];
    assert refs == ColumnRefs(pages[..i], longPos) + [Some(Ref(i, longPos(i)))];
    NotAddressable(table, column, ColumnRefs(pages[..i], longPos), Ref(i, longPos(i)));
    RefsLonger(pages, i + 1, longPos, table, column);
  }

  // A VARCHAR column with one row, a string over 8185 bytes, as Table::to_columnar writes it, makes
  // the scan read behind its last page.
  method ScanLoneLongString(table: nat, column: nat, value: Bytes) returns (end: ScanEnd)
    requires |value| > VarcharWriter.LONGEST
    ensures !end.Done?
  {
    hide VarcharColumn.PagesOk, VarcharColumn.Chained, VarcharColumn.ColumnRows, InBounds;
    var pages := VarcharWriter.ToColumnar([Some(value)]);
    LoneLongString(pages, value);
    var result := new ColumnT(INT32);
    end := ScanStrings(table, column, pages, 1, result);
  }

  lemma {:induction false} SmallInts(table: nat, column: nat, pages: seq<Bytes>)
    requires FixedColumn.ColumnOk(4, pages) && table < 32 && column < 0x8000 && |pages| <= 0x400_0000
    ensures Addressable(table, column, IntRefs(pages))
  {
    hide Rank, U16;
    if pages != [] {
      SmallInts(table, column, pages[..|pages| - 1]);
      assert U16(pages[|pages| - 1], 0) < 0xfffe;
    }
  }

  lemma {:induction false} SmallStrings(table: nat, column: nat, pages: seq<Bytes>, longPos: nat -> nat)
    requires VarcharColumn.PagesOk(pages) && table < 32 && column < 0x8000 && |pages| <= 0x400_0000
    requires forall k :: 0 <= k < |pages| ==> longPos(k) < 0x1_0000
    ensures Addressable(table, column, ColumnRefs(pages, longPos))
  {
    hide VarcharColumn.OffsetsOk, Rank, U16;
    if pages != [] {
      var j := |pages| - 1;
      SmallStrings(table, column, pages[..j], longPos);
      if U16(pages[j], 0) < VarcharColumn.NEXT {
        SmallPage(table, column, pages[j], j, longPos);
      }
    }
  }

  lemma SmallPage(table: nat, column: nat, p: Bytes, page: nat, longPos: nat -> nat)
    requires VarcharColumn.NormalOk(p) && table < 32 && column < 0x8000 && page < 0x400_0000
    ensures Addressable(table, column, PageRefs(p, page, longPos))
  {
    hide Rank, U16;
    var n, k := U16(p, 0), U16(p, 2);
    var starts := Starts(p, k, page);
    forall i | 0 <= i < n && PageRefs(p, page, longPos)[i].Some?
      ensures PageRefs(p, page, longPos)[i].value in starts
    {
      RowsFrom(VarcharColumn.BitmapOf(p, n), n, starts, i);
    }
  }
}
