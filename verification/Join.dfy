// JoinAlgorithm::run<int32_t> (src/execute.cpp): build a hash table over the key column of one side,
// probe it in parallel with the key column of the other side, and concatenate the workers' results.
// For every schedule of the workers the result is the nested-loop join.
module Join {
  import opened Bits
  import opened Options
  import opened SeqFacts
  import opened PageBytes
  import opened ValueWords
  import opened ColumnPages
  import opened ChunkLists
  import opened HashWords
  import opened ProbeWorkers
  import opened NestedLoops
  import Late
  import Tables
  import Directory
  import Partitioning
  import UnchainedTable

  type Row = seq<Word>

  // pages[a / BOXES]->value_buffer[a % BOXES]
  function WordAt(pages: seq<ColumnPage>, a: nat): Word {
    if a / 1024 < |pages| && a % 1024 < |pages[a / 1024].buffer| then pages[a / 1024].buffer[a % 1024] else 0
  }

  // The join key in a word, if it has one.
  function KeyOf(original: seq<Bytes>, w: Word): Option<int32> {
    if IsInt32(w) then Some(GetInt32(w))
    else if IsInt32NoNull(w) && Late.HasCell(original, w) then Some(Late.CellAt(original, w))
    else None
  }

  function KeyIn(cols: seq<seq<ColumnPage>>, col: nat, original: seq<Bytes>): nat -> Option<int32> {
    (a: nat) => if col < |cols| then KeyOf(original, WordAt(cols[col], a)) else None
  }

  // The two operands and what the plan asks for.
  datatype Operands = Operands(left: seq<seq<ColumnPage>>, right: seq<seq<ColumnPage>>,
                               leftOriginal: seq<Bytes>, rightOriginal: seq<Bytes>,
                               leftCol: nat, rightCol: nat, attrs: seq<nat>)
  {
    function LeftKey(): nat -> Option<int32> { KeyIn(left, leftCol, leftOriginal) }

    function RightKey(): nat -> Option<int32> { KeyIn(right, rightCol, rightOriginal) }

    // The rows at addresses l and r have equal keys, and neither key is null.
    function Match(): (nat, nat) -> bool {
      (l: nat, r: nat) => LeftKey()(l).Some? && LeftKey()(l) == RightKey()(r)
    }

    // The word of output column j for the rows at addresses l and r.
    function OutWord(j: nat, l: nat, r: nat): Word {
      if j >= |attrs| then 0
      else if attrs[j] < |left| then WordAt(left[attrs[j]], l)
      else if attrs[j] - |left| < |right| then WordAt(right[attrs[j] - |left|], r)
      else 0
    }

    function Out(): (nat, nat) -> Row {
      (l: nat, r: nat) => seq(|attrs|, j requires 0 <= j => OutWord(j, l, r))
    }

    ghost predicate Valid() {
      && leftCol < |left| && rightCol < |right|
      && SameLayout(left, Layout(left[leftCol])) && SameLayout(right, Layout(right[rightCol]))
      && (forall j :: 0 <= j < |attrs| ==> attrs[j] < |left| + |right|)
      && HasCells(left[leftCol], leftOriginal) && HasCells(right[rightCol], rightOriginal)
    }

    function LeftAddresses(): seq<nat>
      requires leftCol < |left|
    {
      Addresses(Layout(left[leftCol]))
    }

    function RightAddresses(): seq<nat>
      requires rightCol < |right|
    {
      Addresses(Layout(right[rightCol]))
    }

    // The nested-loop join of the operands.
    ghost function NestedLoop(): seq<Row>
      requires Valid()
    {
      Pairs(LeftAddresses(), RightAddresses(), Match(), Out())
    }
  }

  // All columns of an operand agree page by page on how many words they hold.
  ghost predicate SameLayout(cols: seq<seq<ColumnPage>>, layout: seq<nat>) {
    forall j :: 0 <= j < |cols| ==> AllValid(cols[j]) && Layout(cols[j]) == layout
  }

  // Every page reference of the key column leads to a cell.
  ghost predicate HasCells(pages: seq<ColumnPage>, original: seq<Bytes>) {
    forall p, s :: 0 <= p < |pages| && 0 <= s < pages[p].count && s < |pages[p].buffer| ==> CellOk(original, pages[p].buffer[s])
  }

  predicate CellOk(original: seq<Bytes>, w: Word) {
    IsInt32NoNull(w) ==> Late.HasCell(original, w)
  }

  // No word of the key column has VARCHAR mode.
  ghost predicate AllKeys(pages: seq<ColumnPage>) {
    forall p, s :: 0 <= p < |pages| && 0 <= s < pages[p].count && s < |pages[p].buffer| ==> !IsVarchar(pages[p].buffer[s])
  }

  // -------- the build side --------

  // The (key, position) tuples of the non-null keys at these addresses.
  function Entries(addresses: seq<nat>, key: nat -> Option<int32>): seq<HTEntry> {
    if addresses == [] then []
    else
      var a := addresses[|addresses| - 1];
      Entries(addresses[..|addresses| - 1], key) + (if key(a).Some? then [HTEntry(key(a).value, a)] else [])
  }

  lemma EntriesSnoc(addresses: seq<nat>, a: nat, key: nat -> Option<int32>)
    ensures Entries(addresses + [a], key) == Entries(addresses, key) + (if key(a).Some? then [HTEntry(key(a).value, a)] else [])
  {
    assert (addresses + [a])[..|addresses|] == addresses;
  }

  lemma {:induction false} EntriesFewer(addresses: seq<nat>, key: nat -> Option<int32>)
    ensures |Entries(addresses, key)| <= |addresses|
  {
    if addresses != [] {
      EntriesFewer(addresses[..|addresses| - 1], key);
    }
  }

  // get_int32 or get_int32_value_from_page; ok is false for the "wrong type of field" exception.
  method ReadKey(w: Word, original: seq<Bytes>) returns (ok: bool, key: Option<int32>)
    requires CellOk(original, w)
    ensures ok <==> !IsVarchar(w)
    ensures ok ==> key == KeyOf(original, w)
  {
    ok, key := true, None;
    if IsInt32(w) {
      key := Some(GetInt32(w));
    } else if IsInt32NoNull(w) {
      key := Some(Late.CellAt(original, w));
    } else if !IsNull(w) {
      ok := false;
    }
  }

  lemma AddressOf(pages: seq<ColumnPage>, p: nat, s: nat)
    requires AllValid(pages) && p < |pages| && s < 1024
    ensures (p * 1024 + s) / 1024 == p && (p * 1024 + s) % 1024 == s
    ensures WordAt(pages, p * 1024 + s) == pages[p].buffer[s]
  {
  }

  // collect_build: positions are stored in 32 bits.
  method CollectBuild(ht: UnchainedTable.UnchainedHashTable, cols: seq<seq<ColumnPage>>, col: nat, original: seq<Bytes>)
      returns (ok: bool)
    requires col < |cols| && AllValid(cols[col]) && HasCells(cols[col], original)
    requires |cols[col]| <= 0x40_0000 && ht.tempKeysPos == []
    modifies ht`tempKeysPos
    ensures AllKeys(cols[col]) ==> ok
    ensures ok ==> ht.tempKeysPos == Entries(Addresses(Layout(cols[col])), KeyIn(cols, col, original))
  {
    hide Entries, KeyOf, IsVarchar, CellOk;
    var pages := cols[col];
    ghost var layout := Layout(pages);
    ghost var key := KeyIn(cols, col, original);
    NoEntries(key);
    for p := 0 to |pages|
      invariant ht.tempKeysPos == Entries(Addresses(layout[..p]), key)
    {
      ghost var before := Addresses(layout[..p]);
      assert layout[..p + 1][..p] == layout[..p];
      ghost var here := PageAddresses(p, pages[p].count);
      assert before + here[..0] == before;
      for s := 0 to pages[p].count
        invariant ht.tempKeysPos == Entries(before + here[..s], key)
      {
        AddressOf(pages, p, s);
        var k;
        ok, k := ReadKey(pages[p].buffer[s], original);
        if !ok {
          return;
        }
        EntriesSnoc(before + here[..s], p * 1024 + s, key);
        assert before + here[..s + 1] == (before + here[..s]) + [p * 1024 + s];
        if k.Some? {
          ht.InsertTempKey(k.value, (p * BUF_SIZE + s) % 0x1_0000_0000);
        }
      }
      assert here[..pages[p].count] == here;
    }
    assert layout[..|pages|] == layout;
    ok := true;
  }

  lemma NoEntries(key: nat -> Option<int32>)
    ensures Entries([], key) == [] && Addresses([]) == []
  {
  }

  lemma NoFilter<T>(p: T -> bool)
    ensures Filter([], p) == []
  {
  }

  function OutWith<T>(out: (nat, nat) -> T, a: nat): nat -> T {
    (b: nat) => out(a, b)
  }

  // What a probe of the table returns is what the nested loop pairs the probing row with.
  lemma {:induction false} ProbePairs<T>(a: nat, k: int32, addresses: seq<nat>, key: nat -> Option<int32>, match_: (nat, nat) -> bool, out: (nat, nat) -> T)
    requires forall i :: 0 <= i < |addresses| ==> match_(a, addresses[i]) == (key(addresses[i]) == Some(k))
    ensures RowPairs(a, addresses, match_, out) == Map(OutWith(out, a), Directory.Matches(Entries(addresses, key), k))
  {
    hide Map, Filter;
    if addresses == [] {
      NoFilter(HasKey(k));
      NoImages(OutWith(out, a));
      NoImages(Position());
    } else {
      var init, b := addresses[..|addresses| - 1], addresses[|addresses| - 1];
      var es := Entries(init, key);
      ProbePairs(a, k, init, key, match_, out);
      if key(b).Some? {
        var e := HTEntry(key(b).value, b);
        FilterSnoc(es, e, HasKey(k));
        assert Entries(addresses, key) == es + [e];
        if e.key == k {
          MapSnoc(Position(), Filter(es, HasKey(k)), e);
          MapSnoc(OutWith(out, a), Directory.Matches(es, k), b);
        } else {
          assert Filter(es + [e], HasKey(k)) == Filter(es, HasKey(k));
        }
      } else {
        assert Entries(addresses, key) == es;
      }
    }
  }

  // -------- the probe side --------

  // Column j of rows of words.
  function ColumnOf(rows: seq<Row>, j: nat): (r: seq<Word>)
    ensures |r| == |rows|
  {
    seq(|rows|, i requires 0 <= i < |rows| => if j < |rows[i]| then rows[i][j] else 0)
  }

  ghost predicate ColumnIs(pages: seq<ColumnPage>, rows: seq<Row>, j: nat, layout: seq<nat>) {
    AllValid(pages) && Words(pages) == ColumnOf(rows, j) && Layout(pages) == layout
  }

  // The columns of one worker hold these rows, appended one by one.
  ghost predicate ThreadOk(cols: seq<ColumnT>, rows: seq<Row>)
    reads cols
  {
    forall j :: 0 <= j < |cols| ==> ColumnIs(cols[j].pages, rows, j, Dense(|rows|))
  }

  ghost predicate Distinct<T>(s: seq<T>) {
    forall i, j :: 0 <= i < j < |s| ==> s[i] != s[j]
  }

  lemma ColumnOfSnoc(rows: seq<Row>, row: Row, j: nat)
    ensures ColumnOf(rows + [row], j) == ColumnOf(rows, j) + [if j < |row| then row[j] else 0]
  {
  }

  lemma ColumnGrows(pages: seq<ColumnPage>, pages': seq<ColumnPage>, rows: seq<Row>, row: Row, j: nat)
    requires ColumnIs(pages, rows, j, Dense(|rows|)) && j < |row|
    requires AllValid(pages') && Words(pages') == Words(pages) + [row[j]] && Layout(pages') == Grown(Layout(pages))
    ensures ColumnIs(pages', rows + [row], j, Dense(|rows| + 1))
  {
    hide Words, ColumnOf, Grown;
    ColumnOfSnoc(rows, row, j);
  }

  // The probing row comes first, whichever operand it is from.
  function ProbeMatch(ops: Operands, buildLeft: bool): (nat, nat) -> bool {
    if buildLeft then Flip<nat, nat, bool>(ops.Match()) else ops.Match()
  }

  function ProbeOut(ops: Operands, buildLeft: bool): (nat, nat) -> Row {
    if buildLeft then Flip<nat, nat, Row>(ops.Out()) else ops.Out()
  }

  function ProbeKeyAt(ops: Operands, buildLeft: bool, a: nat): Option<int32> {
    if buildLeft then ops.RightKey()(a) else ops.LeftKey()(a)
  }

  function BuildKey(ops: Operands, buildLeft: bool): nat -> Option<int32> {
    if buildLeft then ops.LeftKey() else ops.RightKey()
  }

  function BuildAddresses(ops: Operands, buildLeft: bool): seq<nat>
    requires ops.leftCol < |ops.left| && ops.rightCol < |ops.right|
  {
    if buildLeft then ops.LeftAddresses() else ops.RightAddresses()
  }

  function ProbePages(ops: Operands, buildLeft: bool): seq<ColumnPage>
    requires ops.leftCol < |ops.left| && ops.rightCol < |ops.right|
  {
    if buildLeft then ops.right[ops.rightCol] else ops.left[ops.leftCol]
  }

  function BuildPages(ops: Operands, buildLeft: bool): seq<ColumnPage>
    requires ops.leftCol < |ops.left| && ops.rightCol < |ops.right|
  {
    if buildLeft then ops.left[ops.leftCol] else ops.right[ops.rightCol]
  }

  // The rows that the probing row at address a forms with the build side.
  ghost function NewRows(ops: Operands, buildLeft: bool, a: nat): seq<Row>
    requires ops.leftCol < |ops.left| && ops.rightCol < |ops.right|
  {
    RowPairs(a, BuildAddresses(ops, buildLeft), ProbeMatch(ops, buildLeft), ProbeOut(ops, buildLeft))
  }

  // Positions that name a slot on each side.
  predicate InRange(ops: Operands, buildLeft: bool, probePos: nat, buildPos: nat)
    requires ops.leftCol < |ops.left| && ops.rightCol < |ops.right|
  {
    probePos / 1024 < |ProbePages(ops, buildLeft)| && buildPos / 1024 < |BuildPages(ops, buildLeft)|
  }

  // One output value of a match.
  method OutputWord(ops: Operands, buildLeft: bool, probePos: nat, buildPos: nat, resColId: nat) returns (w: Word)
    requires ops.Valid() && InRange(ops, buildLeft, probePos, buildPos) && resColId < |ops.attrs|
    ensures |ProbeOut(ops, buildLeft)(probePos, buildPos)| == |ops.attrs|
    ensures w == ProbeOut(ops, buildLeft)(probePos, buildPos)[resColId]
  {
    hide HasCells;
    var pidx, posidx := buildPos / BUF_SIZE, buildPos % BUF_SIZE;
    var probePidx, probePosidx := probePos / BUF_SIZE, probePos % BUF_SIZE;
    var colIdx := ops.attrs[resColId];
    if colIdx < |ops.left| {
      var srcCol := ops.left[colIdx];
      assert |srcCol| == |Layout(srcCol)| == |Layout(ops.left[ops.leftCol])|;
      w := if buildLeft then srcCol[pidx].buffer[posidx] else srcCol[probePidx].buffer[probePosidx];
    } else {
      var srcCol := ops.right[colIdx - |ops.left|];
      assert |srcCol| == |Layout(srcCol)| == |Layout(ops.right[ops.rightCol])|;
      w := if buildLeft then srcCol[probePidx].buffer[probePosidx] else srcCol[pidx].buffer[posidx];
    }
  }

  // One match: a word for every output column.
  method EmitRow(cols: seq<ColumnT>, ops: Operands, buildLeft: bool, probePos: nat, buildPos: nat, ghost rows: seq<Row>)
    requires ops.Valid() && InRange(ops, buildLeft, probePos, buildPos)
    requires |cols| == |ops.attrs| && Distinct(cols) && ThreadOk(cols, rows)
    modifies cols
    ensures ThreadOk(cols, rows + [ProbeOut(ops, buildLeft)(probePos, buildPos)])
  {
    hide ProbeOut, ColumnIs, InRange;
    ghost var row := ProbeOut(ops, buildLeft)(probePos, buildPos);
    for j := 0 to |cols|
      invariant forall k :: 0 <= k < j ==> ColumnIs(cols[k].pages, rows + [row], k, Dense(|rows| + 1))
      invariant forall k :: j <= k < |cols| ==> ColumnIs(cols[k].pages, rows, k, Dense(|rows|))
    {
      var w := OutputWord(ops, buildLeft, probePos, buildPos, j);
      ghost var before := cols[j].pages;
      ColumnValid(before, rows, j, Dense(|rows|));
      cols[j].Append(w);
      ColumnGrows(before, cols[j].pages, rows, row, j);
    }
  }

  lemma ColumnValid(pages: seq<ColumnPage>, rows: seq<Row>, j: nat, layout: seq<nat>)
    requires ColumnIs(pages, rows, j, layout)
    ensures AllValid(pages)
  {
  }

  method EmitMatches(cols: seq<ColumnT>, ops: Operands, buildLeft: bool, probePos: nat, matches: seq<nat>, ghost rows: seq<Row>)
      returns (ghost rows': seq<Row>)
    requires ops.Valid() && |cols| == |ops.attrs| && Distinct(cols) && ThreadOk(cols, rows)
    requires forall m :: 0 <= m < |matches| ==> InRange(ops, buildLeft, probePos, matches[m])
    modifies cols
    ensures rows' == rows + Map(OutWith(ProbeOut(ops, buildLeft), probePos), matches) && ThreadOk(cols, rows')
  {
    hide Map, ProbeOut, ThreadOk, InRange, Operands.Valid;
    ghost var f := OutWith(ProbeOut(ops, buildLeft), probePos);
    rows' := rows;
    NoImages(f);
    assert matches[..0] == [] && rows + [] == rows;
    for m := 0 to |matches|
      invariant rows' == rows + Map(f, matches[..m]) && ThreadOk(cols, rows')
    {
      EmitRow(cols, ops, buildLeft, probePos, matches[m], rows');
      MapSnoc(f, matches[..m], matches[m]);
      assert matches[..m + 1] == matches[..m] + [matches[m]];
      rows' := rows' + [f(matches[m])];
    }
    assert matches[..|matches|] == matches;
  }

  // A table that answers for the build side.
  ghost predicate TableFor(ht: UnchainedTable.UnchainedHashTable, ops: Operands, buildLeft: bool)
    requires ops.Valid()
    reads ht, ht.entries, ht.directory
  {
    && ht.tempKeysPos == Entries(BuildAddresses(ops, buildLeft), BuildKey(ops, buildLeft))
    && ht.Built(|ht.tempKeysPos|)
  }

  lemma {:induction false} EntriesFrom(addresses: seq<nat>, key: nat -> Option<int32>, i: nat)
    requires i < |Entries(addresses, key)|
    ensures Entries(addresses, key)[i].keyPos in addresses
  {
    var init := addresses[..|addresses| - 1];
    if i < |Entries(init, key)| {
      EntriesFrom(init, key, i);
    }
  }

  lemma MatchFrom(addresses: seq<nat>, key: nat -> Option<int32>, k: int32, b: nat)
    requires b in Directory.Matches(Entries(addresses, key), k)
    ensures b in addresses
  {
    hide Entries, Filter;
    var es := Entries(addresses, key);
    var m :| 0 <= m < |Directory.Matches(es, k)| && Directory.Matches(es, k)[m] == b;
    FilterElements(es, HasKey(k));
    var e := Filter(es, HasKey(k))[m];
    var i :| 0 <= i < |es| && es[i] == e;
    EntriesFrom(addresses, key, i);
  }

  lemma LayoutFits(pages: seq<ColumnPage>, a: nat)
    requires AllValid(pages) && a in Addresses(Layout(pages))
    ensures a / 1024 < |pages|
  {
    hide Addresses;
    var i :| 0 <= i < |Addresses(Layout(pages))| && Addresses(Layout(pages))[i] == a;
    AddressBound(Layout(pages), i);
  }

  // The matches of a probe lie in the build side.
  lemma MatchesInRange(ops: Operands, buildLeft: bool, k: int32, b: nat)
    requires ops.Valid()
    requires b in Directory.Matches(Entries(BuildAddresses(ops, buildLeft), BuildKey(ops, buildLeft)), k)
    ensures b / 1024 < |BuildPages(ops, buildLeft)|
  {
    hide Entries, Addresses, Directory.Matches, HasCells;
    MatchFrom(BuildAddresses(ops, buildLeft), BuildKey(ops, buildLeft), k, b);
    LayoutFits(BuildPages(ops, buildLeft), b);
  }

  lemma ProbeKeyPairs(ops: Operands, buildLeft: bool, a: nat, k: int32)
    requires ops.Valid() && ProbeKeyAt(ops, buildLeft, a) == Some(k)
    ensures var key := BuildKey(ops, buildLeft);
      NewRows(ops, buildLeft, a) == Map(OutWith(ProbeOut(ops, buildLeft), a), Directory.Matches(Entries(BuildAddresses(ops, buildLeft), key), k))
  {
    hide Map, Entries, RowPairs, Directory.Matches, KeyIn, HasCells;
    var key := BuildKey(ops, buildLeft);
    forall b: nat
      ensures ProbeMatch(ops, buildLeft)(a, b) == (key(b) == Some(k))
    {
      if buildLeft {
        assert ops.RightKey()(a) == Some(k);
        assert ProbeMatch(ops, buildLeft)(a, b) == ops.Match()(b, a);
        assert ops.Match()(b, a) == (ops.LeftKey()(b).Some? && ops.LeftKey()(b) == ops.RightKey()(a));
      } else {
        assert ops.LeftKey()(a) == Some(k);
        assert ProbeMatch(ops, buildLeft)(a, b) == ops.Match()(a, b);
        assert ops.Match()(a, b) == (ops.LeftKey()(a).Some? && ops.LeftKey()(a) == ops.RightKey()(b));
      }
    }
    ProbePairs(a, k, BuildAddresses(ops, buildLeft), key, ProbeMatch(ops, buildLeft), ProbeOut(ops, buildLeft));
  }

  lemma {:induction false} NullPairs<T>(a: nat, rs: seq<nat>, match_: (nat, nat) -> bool, out: (nat, nat) -> T)
    requires forall i :: 0 <= i < |rs| ==> !match_(a, rs[i])
    ensures RowPairs(a, rs, match_, out) == []
  {
    if rs != [] {
      NullPairs(a, rs[..|rs| - 1], match_, out);
    }
  }

  // One probe: the worker's columns gain the rows that the probing row forms with the build side.
  method ProbeKey(cols: seq<ColumnT>, ops: Operands, buildLeft: bool, ht: UnchainedTable.UnchainedHashTable,
                  a: nat, key: int32, ghost rows: seq<Row>)
      returns (ghost rows': seq<Row>)
    requires ops.Valid() && TableFor(ht, ops, buildLeft)
    requires |cols| == |ops.attrs| && Distinct(cols) && ThreadOk(cols, rows)
    requires a / 1024 < |ProbePages(ops, buildLeft)|
    requires ProbeKeyAt(ops, buildLeft, a) == Some(key)
    modifies cols
    ensures ThreadOk(cols, rows')
    ensures multiset(rows') == multiset(rows) + multiset(NewRows(ops, buildLeft, a))
  {
    hide Map, Entries, NewRows, Directory.Matches, KeyIn, HasCells, SameLayout, ProbeOut, ProbeMatch, ThreadOk,
         UnchainedTable.UnchainedHashTable.Built, BuildAddresses;
    ghost var buildKey := BuildKey(ops, buildLeft);
    ghost var es := Entries(BuildAddresses(ops, buildLeft), buildKey);
    ghost var expected := Directory.Matches(es, key);
    var matches := ht.Probe(key, [], |ht.tempKeysPos|);
    assert es[..|es|] == es;
    forall m | 0 <= m < |matches|
      ensures InRange(ops, buildLeft, a, matches[m])
    {
      assert matches[m] in multiset(matches);
      assert matches[m] in multiset(expected);
      MatchesInRange(ops, buildLeft, key, matches[m]);
    }
    rows' := EmitMatches(cols, ops, buildLeft, a, matches, rows);
    MapMultiset(OutWith(ProbeOut(ops, buildLeft), a), matches, expected);
    ProbeKeyPairs(ops, buildLeft, a, key);
  }

  // -------- the workers --------

  datatype Pool = Pool(counter: nat, workers: seq<Worker>)

  // What the proof remembers about a run: how far each page has been probed, the addresses probed in
  // order, and the rows each worker has produced.
  datatype Trace = Trace(progress: seq<nat>, processed: seq<nat>, rows: seq<seq<Row>>)

  ghost function Bags(rows: seq<seq<Row>>): (r: seq<multiset<Row>>)
    ensures |r| == |rows| && forall i :: 0 <= i < |rows| ==> r[i] == multiset(rows[i])
  {
    seq(|rows|, i requires 0 <= i < |rows| => multiset(rows[i]))
  }

  // The workers' rows together are the pairs of the addresses probed so far.
  ghost predicate State(ops: Operands, buildLeft: bool, pool: Pool, trace: Trace)
    requires ops.Valid()
  {
    && |pool.workers| == |trace.rows| == NUM_THREADS
    && Protocol(Layout(ProbePages(ops, buildLeft)), pool.counter, pool.workers, trace.progress, trace.processed)
    && Sum(Bags(trace.rows))
       == multiset(Pairs(trace.processed, BuildAddresses(ops, buildLeft), ProbeMatch(ops, buildLeft), ProbeOut(ops, buildLeft)))
  }

  // The workers' result columns: all objects distinct, each worker's columns hold its rows.
  ghost predicate Threads(threads: seq<seq<ColumnT>>, n: nat, heap: set<ColumnT>) {
    && (forall i :: 0 <= i < |threads| ==> |threads[i]| == n && Distinct(threads[i]))
    && (forall i, j :: 0 <= i < |threads| && 0 <= j < n && j < |threads[i]| ==> threads[i][j] in heap)
    && (forall i, k :: 0 <= i < |threads| && 0 <= k < |threads| && i != k ==> Apart(threads[i], threads[k]))
  }

  ghost predicate Apart(a: seq<ColumnT>, b: seq<ColumnT>) {
    forall j :: 0 <= j < |a| ==> a[j] !in b
  }

  ghost predicate Results(threads: seq<seq<ColumnT>>, n: nat, heap: set<ColumnT>, rows: seq<seq<Row>>)
    reads heap
  {
    && Threads(threads, n, heap) && |threads| == |rows|
    && forall i :: 0 <= i < |threads| ==> InHeap(threads[i], heap) && ThreadOk(threads[i], rows[i])
  }

  ghost predicate InHeap(cols: seq<ColumnT>, heap: set<ColumnT>)
    ensures InHeap(cols, heap) ==> forall c :: c in cols ==> c in heap
  {
    forall c :: c in cols ==> c in heap
  }

  lemma SlotAdvances(ops: Operands, buildLeft: bool, pool: Pool, trace: Trace, i: nat, rows': seq<Row>)
    requires ops.Valid() && State(ops, buildLeft, pool, trace) && i < NUM_THREADS && pool.workers[i].Holding?
    requires pool.workers[i].page < |ProbePages(ops, buildLeft)|
    requires pool.workers[i].slot < ProbePages(ops, buildLeft)[pool.workers[i].page].count
    requires multiset(rows') == multiset(trace.rows[i])
      + multiset(NewRows(ops, buildLeft, pool.workers[i].page * 1024 + pool.workers[i].slot))
    ensures |trace.progress| == |ProbePages(ops, buildLeft)|
    ensures var p, s := pool.workers[i].page, pool.workers[i].slot;
      State(ops, buildLeft, Pool(pool.counter, pool.workers[i := Holding(p, s + 1)]),
            Trace(trace.progress[p := s + 1], trace.processed + [p * 1024 + s], trace.rows[i := rows']))
  {
    hide Sum, RowPairs, Pairs, Protocol, ProbeMatch, ProbeOut, BuildAddresses, HasCells, SameLayout;
    var p, s := pool.workers[i].page, pool.workers[i].slot;
    SlotStep(Layout(ProbePages(ops, buildLeft)), pool.counter, pool.workers, trace.progress, trace.processed, i);
    var a: nat := p * 1024 + s;
    var added := NewRows(ops, buildLeft, a);
    PairsSnoc(trace.processed, a, BuildAddresses(ops, buildLeft), ProbeMatch(ops, buildLeft), ProbeOut(ops, buildLeft));
    SumAdd(Bags(trace.rows), i, multiset(added));
    assert Bags(trace.rows[i := rows']) == Bags(trace.rows)[i := Bags(trace.rows)[i] + multiset(added)];
  }

  // One slot of a probe page.
  method ProbeSlot(cols: seq<ColumnT>, ops: Operands, buildLeft: bool, ht: UnchainedTable.UnchainedHashTable,
                   p: nat, s: nat, ghost rows: seq<Row>)
      returns (ok: bool, ghost rows': seq<Row>)
    requires ops.Valid() && TableFor(ht, ops, buildLeft)
    requires |cols| == |ops.attrs| && Distinct(cols) && ThreadOk(cols, rows)
    requires p < |ProbePages(ops, buildLeft)| && s < ProbePages(ops, buildLeft)[p].count <= 1024
    modifies cols
    ensures AllKeys(ProbePages(ops, buildLeft)) ==> ok
    ensures ok ==> ThreadOk(cols, rows')
    ensures ok ==> multiset(rows') == multiset(rows) + multiset(NewRows(ops, buildLeft, p * 1024 + s))
  {
    hide NewRows, ProbeOut, ThreadOk, Entries, BuildAddresses, UnchainedTable.UnchainedHashTable.Built, KeyOf, IsVarchar, CellOk;
    var pages := ProbePages(ops, buildLeft);
    var original := if buildLeft then ops.rightOriginal else ops.leftOriginal;
    ghost var a: nat := p * 1024 + s;
    AddressOf(pages, p, s);
    var key;
    ok, key := ReadKey(pages[p].buffer[s], original);
    rows' := rows;
    if !ok {
      return;
    }
    assert ProbeKeyAt(ops, buildLeft, a) == key;
    if key.Some? {
      var probePos := p * BUF_SIZE + s;
      rows' := ProbeKey(cols, ops, buildLeft, ht, probePos, key.value, rows);
    } else {
      NullProbe(ops, buildLeft, a);
    }
  }

  lemma NullProbe(ops: Operands, buildLeft: bool, a: nat)
    requires ops.Valid() && ProbeKeyAt(ops, buildLeft, a) == None
    ensures NewRows(ops, buildLeft, a) == []
  {
    hide RowPairs, KeyIn, ProbeOut;
    forall b: nat
      ensures !ProbeMatch(ops, buildLeft)(a, b)
    {
      if buildLeft {
        assert ProbeMatch(ops, buildLeft)(a, b) == ops.Match()(b, a);
      } else {
        assert ProbeMatch(ops, buildLeft)(a, b) == ops.Match()(a, b);
      }
    }
    NullPairs(a, BuildAddresses(ops, buildLeft), ProbeMatch(ops, buildLeft), ProbeOut(ops, buildLeft));
  }

  // How far a worker is from its next claim.
  function Remaining(w: Worker, layout: seq<nat>): nat {
    match w
    case Done => 0
    case Idle => 1
    case Holding(p, s) => if p < |layout| && s < layout[p] then layout[p] - s + 2 else 2
  }

  function Unclaimed(counter: nat, pages: nat): nat {
    if counter < pages then pages - counter else 0
  }

  // The next step of worker i: claim a page, probe a slot, or leave a finished page.
  method WorkerStep(threads: seq<seq<ColumnT>>, ops: Operands, buildLeft: bool, ht: UnchainedTable.UnchainedHashTable,
                    i: nat, pool: Pool, ghost trace: Trace, ghost heap: set<ColumnT>)
      returns (ok: bool, pool': Pool, ghost trace': Trace)
    requires ops.Valid() && TableFor(ht, ops, buildLeft) && State(ops, buildLeft, pool, trace) && i < NUM_THREADS
    requires Results(threads, |ops.attrs|, heap, trace.rows)
    modifies threads[i]
    ensures AllKeys(ProbePages(ops, buildLeft)) ==> ok
    ensures ok ==> State(ops, buildLeft, pool', trace') && Results(threads, |ops.attrs|, heap, trace'.rows)
    ensures ok && !pool.workers[i].Done? ==>
      var layout := Layout(ProbePages(ops, buildLeft));
      || Unclaimed(pool'.counter, |layout|) < Unclaimed(pool.counter, |layout|)
      || (pool'.counter >= pool.counter && Remaining(pool'.workers[i], layout) < Remaining(pool.workers[i], layout))
    ensures ok ==> forall k :: 0 <= k < NUM_THREADS && k != i ==> pool'.workers[k] == pool.workers[k]
    ensures ok && pool.workers[i].Done? ==> pool' == pool
  {
    hide Sum, Pairs, RowPairs, ProbeMatch, ProbeOut, BuildAddresses, ThreadOk, TableFor, HasCells, Threads, InHeap, Protocol;
    var pages := ProbePages(ops, buildLeft);
    ghost var layout := Layout(pages);
    HoldsPage(ops, buildLeft, pool, trace, i);
    ok, pool', trace' := true, pool, trace;
    match pool.workers[i]
    case Idle =>
      ClaimStep(layout, pool.counter, pool.workers, trace.progress, trace.processed, i);
      var p := pool.counter;
      pool' := Pool(pool.counter + 1, pool.workers[i := if p >= |pages| then Done else Holding(p, 0)]);
    case Holding(p, s) =>
      if s < pages[p].count {
        ghost var rows;
        ThreadsAt(threads, |ops.attrs|, heap, i);
        ok, rows := ProbeSlot(threads[i], ops, buildLeft, ht, p, s, trace.rows[i]);
        if ok {
          SlotAdvances(ops, buildLeft, pool, trace, i, rows);
          pool' := Pool(pool.counter, pool.workers[i := Holding(p, s + 1)]);
          trace' := Trace(trace.progress[p := s + 1], trace.processed + [p * 1024 + s], trace.rows[i := rows]);
        }
      } else {
        PageStep(layout, pool.counter, pool.workers, trace.progress, trace.processed, i);
        pool' := Pool(pool.counter, pool.workers[i := Idle]);
      }
    case Done =>
  }

  lemma HoldsPage(ops: Operands, buildLeft: bool, pool: Pool, trace: Trace, i: nat)
    requires ops.Valid() && State(ops, buildLeft, pool, trace) && i < NUM_THREADS
    ensures |trace.progress| == |ProbePages(ops, buildLeft)|
    ensures pool.workers[i].Holding? ==> pool.workers[i].page < |ProbePages(ops, buildLeft)|
    ensures AllValid(ProbePages(ops, buildLeft))
  {
    hide Sum, Pairs, HasCells;
  }

  lemma ThreadsAt(threads: seq<seq<ColumnT>>, n: nat, heap: set<ColumnT>, i: nat)
    requires Threads(threads, n, heap) && i < |threads|
    ensures |threads[i]| == n && Distinct(threads[i])
    ensures forall k, j :: 0 <= k < |threads| && k != i && 0 <= j < |threads[k]| ==> threads[k][j] !in threads[i]
  {
  }

  // The result columns of sixteen workers.
  method MakeThreads(n: nat) returns (threads: seq<seq<ColumnT>>, ghost heap: set<ColumnT>)
    ensures |threads| == NUM_THREADS && fresh(heap) && Results(threads, n, heap, seq(NUM_THREADS, i => []))
  {
    hide ColumnIs;
    threads := [];
    heap := {};
    for i := 0 to NUM_THREADS
      invariant |threads| == i && fresh(heap) && Threads(threads, n, heap)
      invariant forall c :: c in heap ==> c.pages == []
    {
      var cols := MakeColumns(n);
      forall k | 0 <= k < i
        ensures Apart(threads[k], cols) && Apart(cols, threads[k])
      {
        assert forall j :: 0 <= j < n ==> threads[k][j] in heap;
      }
      heap := heap + set c | c in cols;
      threads := threads + [cols];
    }
    forall i | 0 <= i < NUM_THREADS
      ensures InHeap(threads[i], heap) && ThreadOk(threads[i], [])
    {
      assert forall j :: 0 <= j < |threads[i]| ==> threads[i][j] in heap;
      NothingIs();
    }
  }

  lemma NothingIs()
    ensures forall j :: ColumnIs([], [], j, Dense(0))
  {
  }

  method MakeColumns(n: nat) returns (cols: seq<ColumnT>)
    ensures |cols| == n && Distinct(cols) && fresh(cols)
    ensures forall j :: 0 <= j < n ==> cols[j].pages == []
  {
    cols := [];
    for j := 0 to n
      invariant |cols| == j && Distinct(cols) && fresh(cols)
      invariant forall k :: 0 <= k < j ==> cols[k].pages == []
    {
      var c := new ColumnT(Tables.INT32);
      cols := cols + [c];
    }
  }

  // Let the workers take steps in the given order, then wait for each of them (pthread_join).  Every
  // interleaving of the workers is some schedule.
  method RunWorkers(threads: seq<seq<ColumnT>>, ops: Operands, buildLeft: bool, ht: UnchainedTable.UnchainedHashTable,
                    schedule: seq<nat>, ghost heap: set<ColumnT>)
      returns (ok: bool, ghost rows: seq<seq<Row>>)
    requires ops.Valid() && TableFor(ht, ops, buildLeft)
    requires forall k :: 0 <= k < |schedule| ==> schedule[k] < NUM_THREADS
    requires Results(threads, |ops.attrs|, heap, seq(NUM_THREADS, i => []))
    modifies heap
    ensures AllKeys(ProbePages(ops, buildLeft)) ==> ok
    ensures ok ==> Results(threads, |ops.attrs|, heap, rows) && |rows| == NUM_THREADS
    ensures ok ==> Sum(Bags(rows)) == multiset(Pairs(Addresses(Layout(ProbePages(ops, buildLeft))), BuildAddresses(ops, buildLeft),
                                                     ProbeMatch(ops, buildLeft), ProbeOut(ops, buildLeft)))
  {
    hide Sum, Pairs, RowPairs, ProbeMatch, ProbeOut, BuildAddresses, ThreadOk, TableFor, Threads, SameLayout, HasCells, AllKeys, State, Bags, Protocol;
    ghost var layout := Layout(ProbePages(ops, buildLeft));
    var pool := Pool(0, seq(NUM_THREADS, i => Idle));
    ghost var trace := Trace(seq(|layout|, p => 0), [], seq(NUM_THREADS, i => []));
    StateStart(ops, buildLeft);
    for k := 0 to |schedule|
      invariant State(ops, buildLeft, pool, trace) && Results(threads, |ops.attrs|, heap, trace.rows)
      invariant |pool.workers| == NUM_THREADS
    {
      ThreadHeap(threads, |ops.attrs|, heap, schedule[k]);
      ok, pool, trace := WorkerStep(threads, ops, buildLeft, ht, schedule[k], pool, trace, heap);
      if !ok {
        return false, [];
      }
      StateWorkers(ops, buildLeft, pool, trace);
    }
    for i := 0 to NUM_THREADS
      invariant State(ops, buildLeft, pool, trace) && Results(threads, |ops.attrs|, heap, trace.rows)
      invariant |pool.workers| == NUM_THREADS && forall k :: 0 <= k < i ==> pool.workers[k].Done?
    {
      ThreadHeap(threads, |ops.attrs|, heap, i);
      while !pool.workers[i].Done?
        invariant State(ops, buildLeft, pool, trace) && Results(threads, |ops.attrs|, heap, trace.rows)
        invariant |pool.workers| == NUM_THREADS && forall k :: 0 <= k < i ==> pool.workers[k].Done?
        decreases Unclaimed(pool.counter, |layout|), Remaining(pool.workers[i], layout)
      {
        ok, pool, trace := WorkerStep(threads, ops, buildLeft, ht, i, pool, trace, heap);
        if !ok {
          return false, [];
        }
        StateWorkers(ops, buildLeft, pool, trace);
      }
    }
    ok, rows := true, trace.rows;
    StateEnd(ops, buildLeft, pool, trace);
  }

  lemma ThreadHeap(threads: seq<seq<ColumnT>>, n: nat, heap: set<ColumnT>, i: nat)
    requires Threads(threads, n, heap) && i < |threads|
    ensures forall c :: c in threads[i] ==> c in heap
  {
  }

  lemma StateWorkers(ops: Operands, buildLeft: bool, pool: Pool, trace: Trace)
    requires ops.Valid() && State(ops, buildLeft, pool, trace)
    ensures |pool.workers| == NUM_THREADS == |trace.rows|
  {
  }

  lemma StateStart(ops: Operands, buildLeft: bool)
    requires ops.Valid()
    ensures State(ops, buildLeft, Pool(0, seq(NUM_THREADS, i => Idle)),
                  Trace(seq(|Layout(ProbePages(ops, buildLeft))|, p => 0), [], seq(NUM_THREADS, i => [])))
  {
    hide Sum, ProbeMatch, ProbeOut, BuildAddresses, RowPairs, HasCells;
    var layout := Layout(ProbePages(ops, buildLeft));
    ProtocolStart(layout, seq(NUM_THREADS, i => Idle));
    assert seq(|layout|, p => 0) == seq(|layout|, p => 0);
    SumEmpty(Bags(seq(NUM_THREADS, i => [])));
  }

  lemma StateEnd(ops: Operands, buildLeft: bool, pool: Pool, trace: Trace)
    requires ops.Valid() && State(ops, buildLeft, pool, trace) && forall k :: 0 <= k < NUM_THREADS ==> pool.workers[k].Done?
    ensures Sum(Bags(trace.rows)) == multiset(Pairs(Addresses(Layout(ProbePages(ops, buildLeft))), BuildAddresses(ops, buildLeft),
                                                    ProbeMatch(ops, buildLeft), ProbeOut(ops, buildLeft)))
  {
    hide Sum, Pairs, ProbeMatch, ProbeOut, BuildAddresses, HasCells, Bags, Protocol;
    var layout := Layout(ProbePages(ops, buildLeft));
    AllProbed(layout, pool.counter, pool.workers, trace.progress, trace.processed);
    PairsMultiset(trace.processed, Addresses(layout), BuildAddresses(ops, buildLeft), ProbeMatch(ops, buildLeft), ProbeOut(ops, buildLeft));
  }

  // -------- the result --------

  // The layout of the workers' columns one after another.
  function MergedLayout(rows: seq<seq<Row>>): seq<nat> {
    if rows == [] then [] else MergedLayout(rows[..|rows| - 1]) + Dense(|rows[|rows| - 1]|)
  }

  lemma ColumnConcat(a: seq<ColumnPage>, b: seq<ColumnPage>, r: seq<Row>, s: seq<Row>, j: nat, layout: seq<nat>, layout': seq<nat>)
    requires ColumnIs(a, r, j, layout) && ColumnIs(b, s, j, layout')
    ensures ColumnIs(a + b, r + s, j, layout + layout')
  {
    hide Flatten;
    assert Paged(a + b) == Paged(a) + Paged(b);
    FlattenConcat(Paged(a), Paged(b));
  }

  // The pages of src move to the end of dst.
  method PushPages(dst: ColumnT, src: ColumnT)
    requires dst != src
    modifies dst`pages, src`pages
    ensures dst.pages == old(dst.pages) + old(src.pages) && src.pages == []
  {
    var p := 0;
    while p < |src.pages|
      invariant p <= |src.pages| && src.pages == old(src.pages) && dst.pages == old(dst.pages) + src.pages[..p]
    {
      dst.pages := dst.pages + [src.pages[p]];
      p := p + 1;
    }
    src.pages := [];
  }

  // The columns of one worker go behind the results so far.
  method PushThread(results: seq<ColumnT>, cols: seq<ColumnT>, ghost before: seq<Row>, ghost layout: seq<nat>, ghost rows: seq<Row>)
    requires |results| == |cols| && Distinct(results) && Distinct(cols) && Apart(results, cols)
    requires forall j :: 0 <= j < |results| ==> ColumnIs(results[j].pages, before, j, layout)
    requires ThreadOk(cols, rows)
    modifies results`pages, cols`pages
    ensures forall j :: 0 <= j < |results| ==> ColumnIs(results[j].pages, before + rows, j, layout + Dense(|rows|))
  {
    hide ColumnIs;
    for j := 0 to |results|
      invariant forall k :: 0 <= k < j ==> ColumnIs(results[k].pages, before + rows, k, layout + Dense(|rows|))
      invariant forall k :: j <= k < |results| ==> ColumnIs(results[k].pages, before, k, layout)
      invariant forall k :: j <= k < |results| ==> ColumnIs(cols[k].pages, rows, k, Dense(|rows|))
    {
      ColumnConcat(results[j].pages, cols[j].pages, before, rows, j, layout, Dense(|rows|));
      PushPages(results[j], cols[j]);
    }
  }

  method Merge(results: seq<ColumnT>, threads: seq<seq<ColumnT>>, ghost heap: set<ColumnT>, ghost rows: seq<seq<Row>>)
    requires Distinct(results) && Results(threads, |results|, heap, rows)
    requires forall j :: 0 <= j < |results| ==> results[j].pages == [] && results[j] !in heap
    modifies results`pages, heap`pages
    ensures forall j :: 0 <= j < |results| ==> ColumnIs(results[j].pages, Flatten(rows), j, MergedLayout(rows))
  {
    hide ColumnIs, ThreadOk, Threads, InHeap;
    MergeNothing(rows);
    for i := 0 to |threads|
      invariant forall j :: 0 <= j < |results| ==> ColumnIs(results[j].pages, Flatten(rows[..i]), j, MergedLayout(rows[..i]))
      invariant forall k :: i <= k < |threads| ==> InHeap(threads[k], heap) && ThreadOk(threads[k], rows[k])
    {
      ThreadsAt(threads, |results|, heap, i);
      assert rows[..i + 1][..i] == rows[..i];
      PushThread(results, threads[i], Flatten(rows[..i]), MergedLayout(rows[..i]), rows[i]);
    }
    assert rows[..|rows|] == rows;
  }

  lemma MergeNothing(rows: seq<seq<Row>>)
    ensures Flatten(rows[..0]) == [] && MergedLayout(rows[..0]) == []
    ensures forall j :: ColumnIs([], [], j, [])
  {
  }

  // What the workers produced is the nested-loop join, whichever side was probed.
  lemma ProbedIsNestedLoop(ops: Operands, buildLeft: bool, rows: seq<seq<Row>>)
    requires ops.Valid()
    requires Sum(Bags(rows)) == multiset(Pairs(Addresses(Layout(ProbePages(ops, buildLeft))), BuildAddresses(ops, buildLeft),
                                               ProbeMatch(ops, buildLeft), ProbeOut(ops, buildLeft)))
    ensures multiset(Flatten(rows)) == multiset(ops.NestedLoop())
  {
    hide Sum, Pairs, Flatten, HasCells, SameLayout;
    FlattenMultiset(rows);
    assert Bags(rows) == seq(|rows|, i requires 0 <= i < |rows| => multiset(rows[i]));
    if buildLeft {
      PairsSwap(ops.LeftAddresses(), ops.RightAddresses(), ops.Match(), ops.Out());
    }
  }

  lemma {:induction false} AddressCount(layout: seq<nat>)
    requires forall p :: 0 <= p < |layout| ==> layout[p] <= 1024
    ensures |Addresses(layout)| <= 1024 * |layout|
  {
    if layout != [] {
      AddressCount(layout[..|layout| - 1]);
    }
  }

  // Each worker leaves at most one page partly filled.
  lemma {:induction false} MergedPages(rows: seq<seq<Row>>)
    ensures |MergedLayout(rows)| <= |Flatten(rows)| / 1024 + |rows|
  {
    if rows != [] {
      MergedPages(rows[..|rows| - 1]);
      DenseIs(|rows[|rows| - 1]|);
    }
  }

  // JoinAlgorithm::run<int32_t>, for every hash function and every schedule of all three parallel
  // phases: the output columns hold, page by page alike, the rows of the nested-loop join.
  method Run(ops: Operands, buildLeft: bool, results: seq<ColumnT>, hash: Hash,
             partitionSchedule: nat -> seq<nat>, mergeSchedule: seq<nat>, probeSchedule: seq<nat>)
      returns (ok: bool, ghost rows: seq<Row>, ghost layout: seq<nat>)
    requires ops.Valid() && |results| == |ops.attrs| && Distinct(results)
    requires forall j :: 0 <= j < |results| ==> results[j].pages == []
    requires |BuildPages(ops, buildLeft)| < 0x20_0000
    requires forall count :: Partitioning.PartitionSchedule(partitionSchedule(count), count)
    requires Partitioning.MergeSchedule(mergeSchedule)
    requires forall k :: 0 <= k < |probeSchedule| ==> probeSchedule[k] < NUM_THREADS
    modifies results`pages
    ensures AllKeys(ops.left[ops.leftCol]) && AllKeys(ops.right[ops.rightCol]) ==> ok
    ensures ok ==> multiset(rows) == multiset(ops.NestedLoop())
    ensures ok ==> forall j :: 0 <= j < |results| ==> ColumnIs(results[j].pages, rows, j, layout)
    ensures |layout| <= |rows| / 1024 + 16
  {
    hide Operands.NestedLoop, Pairs, Sum, Entries, Addresses, AllKeys, ColumnIs, Partitioning.PartitionSchedule, Partitioning.MergeSchedule,
         ProbeMatch, ProbeOut, Results, Bags, HasCells, UnchainedTable.UnchainedHashTable.Built;
    rows, layout := [], [];
    var ht := new UnchainedTable.UnchainedHashTable(hash);
    if buildLeft {
      ok := CollectBuild(ht, ops.left, ops.leftCol, ops.leftOriginal);
    } else {
      ok := CollectBuild(ht, ops.right, ops.rightCol, ops.rightOriginal);
    }
    if !ok {
      return;
    }
    var count := |ht.tempKeysPos|;
    EntriesFewer(BuildAddresses(ops, buildLeft), BuildKey(ops, buildLeft));
    AddressCount(Layout(BuildPages(ops, buildLeft)));
    ht.BuildParallel(count, partitionSchedule(count), mergeSchedule);
    var threads;
    ghost var heap;
    threads, heap := MakeThreads(|ops.attrs|);
    ghost var parts;
    ok, parts := RunWorkers(threads, ops, buildLeft, ht, probeSchedule, heap);
    if !ok {
      return;
    }
    ProbedIsNestedLoop(ops, buildLeft, parts);
    Merge(results, threads, heap, parts);
    MergedPages(parts);
    rows, layout := Flatten(parts), MergedLayout(parts);
  }
}
