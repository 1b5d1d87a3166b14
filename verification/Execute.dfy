// execute_impl and execute (src/execute.cpp): a plan is evaluated bottom up; whatever the hash
// function, the build sides and the interleavings, the result has the rows the plan means.
module Execute {
  import opened ValueWords
  import opened Tables
  import opened Late
  import opened ColumnPages
  import opened HashWords
  import opened NestedLoops
  import opened Plans
  import opened Decoding
  import LongPositions
  import Materialize
  import Partitioning
  import Scan
  import Join

  // What execution leaves open: the hash function, and for each node the order in which the workers
  // of its parallel phases take their steps.
  datatype Env = Env(hash: Hash, partition: nat -> nat -> seq<nat>, merge: nat -> seq<nat>, probe: nat -> seq<nat>,
                     scan: nat -> seq<nat>)

  ghost predicate OrderOk(order: seq<nat>, n: nat) {
    && (forall k :: 0 <= k < |order| ==> order[k] < n)
    && (forall j :: 0 <= j < n ==> j in order)
    && (forall i, j :: 0 <= i < j < |order| ==> order[i] != order[j])
  }

  ghost predicate EnvOk(plan: Plan, env: Env) {
    && (forall n, count :: Partitioning.PartitionSchedule(env.partition(n)(count), count))
    && (forall n :: Partitioning.MergeSchedule(env.merge(n)))
    && (forall n :: ProbeOrder(env.probe(n)))
    && (forall n :: 0 <= n < |plan.nodes| ==> OrderOk(env.scan(n), |plan.nodes[n].outputAttrs|))
  }

  // Some execution exists, whatever the plan and the hash function.
  lemma EnvExists(plan: Plan, hash: Hash) returns (env: Env)
    ensures EnvOk(plan, env) && env.hash == hash
  {
    hide Partitioning.PartitionSchedule, Partitioning.MergeSchedule, Partitioning.InTurn;
    var scan := (n: nat) => if n < |plan.nodes| then seq(|plan.nodes[n].outputAttrs|, j => j) else [];
    env := Env(hash, n => count => Partitioning.InTurn(Partitioning.Shares(count), NUM_THREADS),
               n => Partitioning.InTurn(Partitioning.Merges(), NUM_THREADS), n => [], scan);
    forall n: nat, count: nat
      ensures Partitioning.PartitionSchedule(env.partition(n)(count), count)
    {
      Partitioning.SchedulesExist(count);
      assert env.partition(n)(count) == Partitioning.InTurn(Partitioning.Shares(count), NUM_THREADS);
    }
    forall n: nat
      ensures Partitioning.MergeSchedule(env.merge(n)) && ProbeOrder(env.probe(n))
    {
      Partitioning.SchedulesExist(0);
      assert env.merge(n) == Partitioning.InTurn(Partitioning.Merges(), NUM_THREADS);
    }
    forall n | 0 <= n < |plan.nodes|
      ensures OrderOk(env.scan(n), |plan.nodes[n].outputAttrs|)
    {
      forall j | 0 <= j < |plan.nodes[n].outputAttrs|
        ensures j in env.scan(n)
      {
        assert env.scan(n)[j] == j;
      }
    }
  }

  predicate ProbeOrder(schedule: seq<nat>) {
    forall k :: 0 <= k < |schedule| ==> schedule[k] < NUM_THREADS
  }

  // Every column scanned below node n stays inside its pages and has addresses that fit a word.
  ghost predicate CanScan(plan: Plan, n: nat)
    requires PlanOk(plan) && n < |plan.nodes|
    decreases n
  {
    assert NodeOk(plan, n);
    match plan.nodes[n].data
    case ScanNode(table) => ScanAttrsOk(plan, n); Scan.AllCanAddress(table, plan.inputs[table], Indices(plan.nodes[n].outputAttrs))
    case JoinNode(_, left, right, _, _) => CanScan(plan, left) && CanScan(plan, right)
  }

  ghost predicate StaysInside(plan: Plan, n: nat)
    requires PlanOk(plan) && n < |plan.nodes|
    decreases n
  {
    assert NodeOk(plan, n);
    match plan.nodes[n].data
    case ScanNode(table) => ScanAttrsOk(plan, n); Scan.AllStayInside(plan.inputs[table], Indices(plan.nodes[n].outputAttrs))
    case JoinNode(_, left, right, _, _) => StaysInside(plan, left) && StaysInside(plan, right)
  }

  lemma ScanAttrsOk(plan: Plan, n: nat)
    requires n < |plan.nodes| && NodeOk(plan, n) && plan.nodes[n].data.ScanNode?
    ensures var t := plan.inputs[plan.nodes[n].data.baseTableId];
      Scan.AttrsOk(t, Indices(plan.nodes[n].outputAttrs)) && Scan.Counted(t, Indices(plan.nodes[n].outputAttrs))
  {
    hide Scannable, ColumnRows;
  }

  // Sizes that fit the bit fields of a word.
  predicate Small(inputs: seq<ColumnarTable>) {
    && |inputs| <= 32
    && forall t :: 0 <= t < |inputs| ==> SmallTable(inputs[t])
  }

  // With so few pages, the positions of long strings fit 16 bits too.
  predicate SmallTable(t: ColumnarTable) {
    && |t.columns| <= 0x8000
    && forall c :: 0 <= c < |t.columns| ==> |t.columns[c].pages| <= 0x1_0000
  }

  // A caller's check: scans of small tables succeed when they stay inside the pages.
  lemma {:induction false} SmallCanScan(plan: Plan, n: nat)
    requires PlanOk(plan) && n < |plan.nodes| && Small(plan.inputs)
    ensures CanScan(plan, n) <==> StaysInside(plan, n)
    decreases n
  {
    hide Scannable, ColumnRows, Scan.HasAddresses, Scan.StaysInside;
    assert NodeOk(plan, n);
    match plan.nodes[n].data
    case ScanNode(table) =>
      var attrs := plan.nodes[n].outputAttrs;
      ScanAttrsOk(plan, n);
      forall j | 0 <= j < |attrs|
        ensures Scan.HasAddresses(table, attrs[j].index, plan.inputs[table].columns[attrs[j].index])
      {
        SmallColumn(table, attrs[j].index, plan.inputs[table]);
      }
    case JoinNode(_, left, right, _, _) =>
      SmallCanScan(plan, left);
      SmallCanScan(plan, right);
  }

  lemma SmallColumn(table: nat, column: nat, t: ColumnarTable)
    requires table < 32 && SmallTable(t) && column < |t.columns| && Scannable(t.columns[column])
    ensures Scan.HasAddresses(table, column, t.columns[column])
  {
    hide Scan.HasAddresses;
    var c := t.columns[column];
    if c.dtype == VARCHAR {
      forall k | 0 <= k < |c.pages|
        ensures LongPositions.PosOf(c.pages)(k) < 0x1_0000
      {
      }
    }
    Scan.SmallIsAddressable(table, column, c);
  }

  // No build side outgrows 32-bit positions and int ranges.
  ghost predicate SmallBuilds(plan: Plan)
    requires PlanOk(plan)
  {
    forall n :: 0 <= n < |plan.nodes| && plan.nodes[n].data.JoinNode? ==> SmallBuildAt(plan, n)
  }

  ghost predicate SmallBuildAt(plan: Plan, n: nat)
    requires PlanOk(plan) && n < |plan.nodes| && plan.nodes[n].data.JoinNode?
  {
    assert NodeOk(plan, n);
    |Meaning(plan, BuildChild(plan.nodes[n].data), true)| <= 0x7FFF_0000
  }

  ghost function View(c: ColumnT): ColumnView
    reads c
  {
    ColumnView(c.dtype, c.pages, c.isNoNull, c.originalPages)
  }

  ghost function Views(cs: seq<ColumnT>): (r: seq<ColumnView>)
    reads cs
    ensures |r| == |cs| && forall j :: 0 <= j < |cs| ==> r[j] == View(cs[j])
  {
    seq(|cs|, j requires 0 <= j < |cs| reads cs => View(cs[j]))
  }

  // The columns computed for a node hold, in some order, the rows it means.
  ghost predicate Computed(plan: Plan, n: nat, cols: seq<ColumnView>, rows: seq<FieldRow>, layout: seq<nat>)
    requires PlanOk(plan) && n < |plan.nodes|
  {
    && NodeHolds(plan.inputs, plan.nodes[n].outputAttrs, cols, rows, layout)
    && multiset(rows) == multiset(Meaning(plan, n, true))
    && |layout| <= |rows| / 1024 + 16
  }

  // -------- scans --------

  lemma ScannedHolds(inputs: seq<ColumnarTable>, c: Column, result: ColumnT)
    requires Scannable(c) && Scan.Scanned(inputs, c, result)
    ensures Decoding.ColumnHolds(inputs, c.dtype, View(result), ScanFields(c), Dense(|ScanFields(c)|))
  {
    hide Words, ScanFields, Dense, Scannable, AllValid, Resolve, HasCell, CellAt, NoNulls;
    if c.pages == [] {
      Materialize.NoRowsWithoutPages(c);
    }
    if !result.isNoNull {
      forall i | 0 <= i < |Words(result.pages)|
        ensures !IsInt32NoNull(Words(result.pages)[i])
      {
        NotAReference(inputs, c.dtype, Words(result.pages)[i]);
      }
    }
  }

  // Without original pages, a readable word is no cell reference.
  lemma NotAReference(inputs: seq<ColumnarTable>, t: DataType, w: Word)
    requires Resolvable(inputs, t, [], w)
    ensures !IsInt32NoNull(w)
  {
  }

  lemma DenseSize(n: nat)
    ensures |Dense(n)| <= n / 1024 + 1 && forall p :: 0 <= p < |Dense(n)| ==> Dense(n)[p] <= 1024
  {
    DenseIs(n);
  }

  lemma ScanComputed(plan: Plan, n: nat, results: seq<ColumnT>)
    requires PlanOk(plan) && n < |plan.nodes| && plan.nodes[n].data.ScanNode?
    requires |results| == |plan.nodes[n].outputAttrs|
    requires forall j :: 0 <= j < |results| ==>
      (assert NodeOk(plan, n);
       Scan.Scanned(plan.inputs, plan.inputs[plan.nodes[n].data.baseTableId].columns[plan.nodes[n].outputAttrs[j].index], results[j]))
    ensures Computed(plan, n, Views(results), Meaning(plan, n, true), Dense(|Meaning(plan, n, true)|))
  {
    hide Scannable, ScanFields, TrueFields, Scan.Scanned, Decoding.ColumnHolds, ColumnRows;
    assert NodeOk(plan, n);
    var table, attrs := plan.nodes[n].data.baseTableId, plan.nodes[n].outputAttrs;
    var rows := Meaning(plan, n, true);
    var columns := ScanColumnsOf(plan.inputs, table, attrs, true);
    DenseSize(plan.inputs[table].numRows);
    forall j | 0 <= j < |attrs|
      ensures Decoding.ColumnHolds(plan.inputs, attrs[j].dtype, Views(results)[j], FieldColumn(rows, j), Dense(plan.inputs[table].numRows))
    {
      ScannedHolds(plan.inputs, plan.inputs[table].columns[attrs[j].index], results[j]);
      assert FieldColumn(rows, j) == columns[j];
    }
  }

  method ExecuteScan(plan: Plan, n: nat, env: Env) returns (end: Scan.ScanEnd, results: seq<ColumnT>)
    requires PlanOk(plan) && EnvOk(plan, env)
    requires n < |plan.nodes| && plan.nodes[n].data.ScanNode?
    ensures fresh(results) && Scan.Distinct(results)
    ensures end.Done? <==> CanScan(plan, n)
    ensures end.Faults? ==> !StaysInside(plan, n)
    ensures end.Done? ==> Computed(plan, n, Views(results), Meaning(plan, n, true), Dense(|Meaning(plan, n, true)|))
  {
    hide Scannable, ScanFields, Scan.Scanned, Computed, Meaning, ColumnRows, Scan.CanAddress, PlanOk, Scan.Counted, Scan.AllCanAddress, Scan.AllStayInside;
    assert NodeOk(plan, n) by {
      PlanNodeOk(plan, n);
    }
    ScanAttrsOk(plan, n);
    var table, attrs := plan.nodes[n].data.baseTableId, plan.nodes[n].outputAttrs;
    end, results := Scan.CopyScan(table, plan.inputs, Indices(attrs), env.scan(n));
    if end.Done? {
      ScanComputed(plan, n, results);
    }
  }

  lemma PlanNodeOk(plan: Plan, n: nat)
    requires PlanOk(plan) && n < |plan.nodes|
    ensures NodeOk(plan, n)
  {
  }

  // -------- joins --------

  // An empty output column with the null information of the column it comes from.
  ghost predicate Initial(c: ColumnT, left: seq<ColumnView>, right: seq<ColumnView>, attr: Attr)
    reads c
  {
    && c.pages == [] && c.dtype == attr.dtype
    && c.originalPages == Inherited(left, right, attr.index) && c.isNoNull == Kept(left, right, attr.index)
  }

  method InitColumn(left: seq<ColumnT>, right: seq<ColumnT>, attr: Attr) returns (column: ColumnT)
    ensures fresh(column) && Initial(column, Views(left), Views(right), attr)
  {
    var colIdx := attr.index;
    column := new ColumnT(attr.dtype);
    if colIdx < |left| && left[colIdx].isNoNull {
      column.isNoNull := true;
      column.originalPages := left[colIdx].originalPages;
    } else if colIdx >= |left| && colIdx - |left| < |right| && right[colIdx - |left|].isNoNull {
      column.isNoNull := true;
      column.originalPages := right[colIdx - |left|].originalPages;
    }
  }

  // The result columns of a join.
  method InitColumns(left: seq<ColumnT>, right: seq<ColumnT>, attrs: seq<Attr>) returns (results: seq<ColumnT>)
    ensures |results| == |attrs| && fresh(results) && Join.Distinct(results)
    ensures forall j :: 0 <= j < |attrs| ==> Initial(results[j], Views(left), Views(right), attrs[j])
  {
    hide Initial;
    results := [];
    for j := 0 to |attrs|
      invariant |results| == j && fresh(results) && Join.Distinct(results)
      invariant forall k :: 0 <= k < j ==> Initial(results[k], Views(left), Views(right), attrs[k])
    {
      var column := InitColumn(left, right, attrs[j]);
      results := results + [column];
    }
  }

  method ReadPages(cols: seq<ColumnT>) returns (pages: seq<seq<ColumnPage>>)
    ensures pages == Decoding.PagesOf(Views(cols))
  {
    pages := [];
    for j := 0 to |cols|
      invariant |pages| == j && forall k :: 0 <= k < j ==> pages[k] == cols[k].pages
    {
      pages := pages + [cols[j].pages];
    }
  }

  ghost function SideOf(plan: Plan, child: nat, cols: seq<ColumnView>, rows: seq<FieldRow>, layout: seq<nat>, key: nat): Side
    requires child < |plan.nodes|
  {
    Side(plan.nodes[child].outputAttrs, cols, rows, layout, key)
  }

  // A build side is small enough for 32-bit positions.
  lemma SmallBuild(plan: Plan, child: nat, cols: seq<ColumnView>, rows: seq<FieldRow>, layout: seq<nat>, key: nat)
    requires PlanOk(plan) && child < |plan.nodes| && Computed(plan, child, cols, rows, layout)
    requires |Meaning(plan, child, true)| <= 0x7FFF_0000 && key < |cols|
    ensures |cols[key].pages| < 0x20_0000
  {
    hide Meaning, Words, Scan.Holds;
    assert |multiset(rows)| == |multiset(Meaning(plan, child, true))|;
    var attrs := plan.nodes[child].outputAttrs;
    assert Decoding.ColumnHolds(plan.inputs, attrs[key].dtype, cols[key], FieldColumn(rows, key), layout);
    assert |cols[key].pages| == |layout|;
  }

  // What the join of two computed children means.
  lemma JoinComputed(plan: Plan, n: nat, l: Side, r: Side, cols: seq<ColumnView>, words: seq<Join.Row>, layout: seq<nat>)
      returns (rows: seq<FieldRow>)
    requires PlanOk(plan) && n < |plan.nodes| && plan.nodes[n].data.JoinNode?
    requires var node := plan.nodes[n].data;
      && node.left < n && node.right < n
      && l == SideOf(plan, node.left, l.cols, l.rows, l.layout, node.leftAttr) && Computed(plan, node.left, l.cols, l.rows, l.layout)
      && r == SideOf(plan, node.right, r.cols, r.rows, r.layout, node.rightAttr) && Computed(plan, node.right, r.cols, r.rows, r.layout)
    requires SideOk(plan.inputs, l) && SideOk(plan.inputs, r) && OutputsOk(l, r, plan.nodes[n].outputAttrs)
    requires OperandsOf(l, r, plan.nodes[n].outputAttrs).Valid()
    requires multiset(words) == multiset(OperandsOf(l, r, plan.nodes[n].outputAttrs).NestedLoop())
    requires |cols| == |plan.nodes[n].outputAttrs|
    requires forall j :: 0 <= j < |cols| ==> OutputColumn(l, r, plan.nodes[n].outputAttrs[j], cols[j], words, layout, j)
    requires |layout| <= |words| / 1024 + 16
    ensures Computed(plan, n, cols, rows, layout)
  {
    hide Join.Operands.Valid, Join.Operands.NestedLoop, Pairs, NodeHolds, OutputsOk, OutputColumn, FieldMatch, FieldOut;
    assert NodeOk(plan, n);
    var node, attrs := plan.nodes[n].data, plan.nodes[n].outputAttrs;
    rows := JoinResult(plan.inputs, l, r, attrs, cols, words, layout);
    PairsBothMultisets(l.rows, Meaning(plan, node.left, true), r.rows, Meaning(plan, node.right, true),
                       FieldMatch(node.leftAttr, node.rightAttr), FieldOut(attrs));
  }

  // A join on keys that are not INT32 runs nothing and leaves its columns empty.
  lemma NothingComputed(plan: Plan, n: nat, cols: seq<ColumnView>)
    requires PlanOk(plan) && n < |plan.nodes| && plan.nodes[n].data.JoinNode?
    requires var node := plan.nodes[n].data;
      node.left < n && node.leftAttr < |plan.nodes[node.left].outputAttrs|
      && plan.nodes[node.left].outputAttrs[node.leftAttr].dtype != INT32
    requires |cols| == |plan.nodes[n].outputAttrs|
    requires forall j :: 0 <= j < |cols| ==> cols[j].pages == [] && cols[j].dtype == plan.nodes[n].outputAttrs[j].dtype
    ensures Computed(plan, n, cols, [], [])
  {
    assert NodeOk(plan, n);
    assert Meaning(plan, n, true) == [];
    forall j | 0 <= j < |cols|
      ensures Decoding.ColumnHolds(plan.inputs, plan.nodes[n].outputAttrs[j].dtype, cols[j], FieldColumn([], j), [])
    {
      Scan.NoWords();
    }
  }

  // JoinAlgorithm::run<int32_t> on the columns of the two children.
  method RunJoin(plan: Plan, n: nat, env: Env, left: seq<ColumnT>, right: seq<ColumnT>, results: seq<ColumnT>, ghost l: Side, ghost r: Side)
      returns (ghost rows: seq<FieldRow>, ghost layout: seq<nat>)
    requires PlanOk(plan) && EnvOk(plan, env) && SmallBuilds(plan) && n < |plan.nodes| && plan.nodes[n].data.JoinNode?
    requires var node := plan.nodes[n].data;
      && node.left < n && node.right < n
      && l == SideOf(plan, node.left, Views(left), l.rows, l.layout, node.leftAttr) && Computed(plan, node.left, l.cols, l.rows, l.layout)
      && r == SideOf(plan, node.right, Views(right), r.rows, r.layout, node.rightAttr) && Computed(plan, node.right, r.cols, r.rows, r.layout)
    requires SideOk(plan.inputs, l) && SideOk(plan.inputs, r) && OutputsOk(l, r, plan.nodes[n].outputAttrs)
    requires |results| == |plan.nodes[n].outputAttrs| && Join.Distinct(results)
    requires forall j :: 0 <= j < |results| ==> Initial(results[j], Views(left), Views(right), plan.nodes[n].outputAttrs[j])
    modifies results`pages
    ensures Computed(plan, n, Views(results), rows, layout)
  {
    hide Meaning, PlanOk, SmallBuilds, Join.Operands.NestedLoop, Join.Operands.Valid, Join.AllKeys, Join.ColumnIs, NodeHolds, Computed,
         Partitioning.PartitionSchedule, Partitioning.MergeSchedule, SideOk, OutputsOk;
    var node, attrs := plan.nodes[n].data, plan.nodes[n].outputAttrs;
    OperandsValid(plan.inputs, l, r, attrs);
    ChildColumns(plan, node.left, l.cols, l.rows, l.layout);
    ChildColumns(plan, node.right, r.cols, r.rows, r.layout);
    JoinAttrs(plan, n);
    BuildIsSmall(plan, n);
    if node.buildLeft {
      SmallBuild(plan, node.left, l.cols, l.rows, l.layout, node.leftAttr);
    } else {
      SmallBuild(plan, node.right, r.cols, r.rows, r.layout, node.rightAttr);
    }
    var leftPages := ReadPages(left);
    var rightPages := ReadPages(right);
    var ops := Join.Operands(leftPages, rightPages, left[node.leftAttr].originalPages, right[node.rightAttr].originalPages,
                             node.leftAttr, node.rightAttr, Indices(attrs));
    assert ops == OperandsOf(l, r, attrs);
    var ok;
    ghost var words;
    ghost var before := Views(results);
    ok, words, layout := Join.Run(ops, node.buildLeft, results, env.hash, env.partition(n), env.merge(n), env.probe(n));
    assert ok;
    forall j | 0 <= j < |results|
      ensures OutputColumn(l, r, attrs[j], Views(results)[j], words, layout, j)
    {
      assert View(results[j]).dtype == before[j].dtype;
    }
    rows := JoinComputed(plan, n, l, r, Views(results), words, layout);
  }

  // The key positions of a join node.
  lemma JoinAttrs(plan: Plan, n: nat)
    requires PlanOk(plan) && n < |plan.nodes| && plan.nodes[n].data.JoinNode?
    ensures var node := plan.nodes[n].data;
      && node.left < n && node.right < n && node.leftAttr < |plan.nodes[node.left].outputAttrs|
      && node.rightAttr < |plan.nodes[node.right].outputAttrs|
  {
    assert NodeOk(plan, n);
  }

  // execute_hash_join, given its executed children.
  method ExecuteHashJoin(plan: Plan, n: nat, env: Env, left: seq<ColumnT>, right: seq<ColumnT>,
                         ghost leftRows: seq<FieldRow>, ghost leftLayout: seq<nat>,
                         ghost rightRows: seq<FieldRow>, ghost rightLayout: seq<nat>)
      returns (results: seq<ColumnT>, ghost rows: seq<FieldRow>, ghost layout: seq<nat>)
    requires PlanOk(plan) && EnvOk(plan, env) && SmallBuilds(plan) && n < |plan.nodes| && plan.nodes[n].data.JoinNode?
    requires plan.nodes[n].data.left < n && plan.nodes[n].data.right < n
    requires Computed(plan, plan.nodes[n].data.left, Views(left), leftRows, leftLayout)
    requires Computed(plan, plan.nodes[n].data.right, Views(right), rightRows, rightLayout)
    ensures fresh(results) && Computed(plan, n, Views(results), rows, layout)
  {
    hide Meaning, PlanOk, SmallBuilds, NodeHolds, EnvOk, Join.Operands.Valid;
    PlanNodeOk(plan, n);
    var node, attrs := plan.nodes[n].data, plan.nodes[n].outputAttrs;
    var leftTypes, rightTypes := plan.nodes[node.left].outputAttrs, plan.nodes[node.right].outputAttrs;
    results := InitColumns(left, right, attrs);
    rows, layout := [], [];
    if (if node.buildLeft then leftTypes[node.leftAttr].dtype else rightTypes[node.rightAttr].dtype) == INT32 {
      ghost var l := SideOf(plan, node.left, Views(left), leftRows, leftLayout, node.leftAttr);
      ghost var r := SideOf(plan, node.right, Views(right), rightRows, rightLayout, node.rightAttr);
      rows, layout := RunJoin(plan, n, env, left, right, results, l, r);
    } else {
      NothingComputed(plan, n, Views(results));
    }
  }

  lemma BuildIsSmall(plan: Plan, n: nat)
    requires PlanOk(plan) && SmallBuilds(plan) && n < |plan.nodes| && plan.nodes[n].data.JoinNode?
    ensures BuildChild(plan.nodes[n].data) < n && |Meaning(plan, BuildChild(plan.nodes[n].data), true)| <= 0x7FFF_0000
  {
    hide Meaning;
    assert NodeOk(plan, n) && SmallBuildAt(plan, n);
  }

  lemma ChildColumns(plan: Plan, child: nat, cols: seq<ColumnView>, rows: seq<FieldRow>, layout: seq<nat>)
    requires PlanOk(plan) && child < |plan.nodes| && Computed(plan, child, cols, rows, layout)
    ensures |cols| == |plan.nodes[child].outputAttrs|
  {
    hide Meaning;
  }

  // execute_impl: for every plan whose children come before their parents.
  method ExecuteImpl(plan: Plan, n: nat, env: Env)
      returns (end: Scan.ScanEnd, results: seq<ColumnT>, ghost rows: seq<FieldRow>, ghost layout: seq<nat>)
    requires PlanOk(plan) && EnvOk(plan, env) && SmallBuilds(plan) && n < |plan.nodes|
    ensures fresh(results)
    ensures end.Done? <==> CanScan(plan, n)
    ensures end.Faults? ==> !StaysInside(plan, n)
    ensures end.Done? ==> Computed(plan, n, Views(results), rows, layout)
    decreases n
  {
    hide Meaning, Computed, EnvOk, SmallBuilds, PlanOk;
    PlanNodeOk(plan, n);
    rows, layout := [], [];
    match plan.nodes[n].data
    case ScanNode(_) =>
      end, results := ExecuteScan(plan, n, env);
      rows, layout := Meaning(plan, n, true), Dense(|Meaning(plan, n, true)|);
    case JoinNode(_, leftIdx, rightIdx, _, _) =>
      var left, right;
      ghost var leftRows, leftLayout, rightRows, rightLayout;
      end, left, leftRows, leftLayout := ExecuteImpl(plan, leftIdx, env);
      if !end.Done? {
        results := [];
        return;
      }
      end, right, rightRows, rightLayout := ExecuteImpl(plan, rightIdx, env);
      if !end.Done? {
        results := [];
        return;
      }
      results, rows, layout := ExecuteHashJoin(plan, n, env, left, right, leftRows, leftLayout, rightRows, rightLayout);
  }

  // -------- the whole query --------

  // A column of the root can be materialised.
  lemma RootColumn(inputs: seq<ColumnarTable>, t: DataType, c: ColumnT, fields: seq<Field>, layout: seq<nat>)
    requires Decoding.ColumnHolds(inputs, t, View(c), fields, layout) && (t == INT32 || t == VARCHAR)
    ensures Materialize.ResultOk(inputs, c) && (c.dtype == INT32 || c.dtype == VARCHAR)
    ensures Scan.Holds(inputs, c.dtype, c.originalPages, Words(c.pages), fields) && |Words(c.pages)| == |fields|
  {
    hide Words, AllValid, Resolve, Resolvable;
  }

  lemma {:induction false} AttrTypes(plan: Plan, n: nat, j: nat)
    requires PlanOk(plan) && n < |plan.nodes| && j < |plan.nodes[n].outputAttrs|
    ensures plan.nodes[n].outputAttrs[j].dtype == INT32 || plan.nodes[n].outputAttrs[j].dtype == VARCHAR
    decreases n
  {
    hide Scannable;
    PlanNodeOk(plan, n);
    var attr := plan.nodes[n].outputAttrs[j];
    match plan.nodes[n].data
    case ScanNode(table) =>
      ScannableType(plan.inputs[table].columns[attr.index]);
    case JoinNode(_, left, right, _, _) =>
      var k := |plan.nodes[left].outputAttrs|;
      if attr.index < k {
        AttrTypes(plan, left, attr.index);
      } else {
        AttrTypes(plan, right, attr.index - k);
      }
  }

  lemma ScannableType(c: Column)
    requires Scannable(c)
    ensures c.dtype == INT32 || c.dtype == VARCHAR
  {
  }

  // All columns of the table have its row count.
  predicate WellShaped(t: ColumnarTable) {
    forall j :: 0 <= j < |t.columns| ==> Scannable(t.columns[j]) && |TrueFields(t.columns[j])| == t.numRows
  }

  function TableFields(t: ColumnarTable): (r: seq<seq<Field>>)
    requires WellShaped(t)
    ensures |r| == |t.columns| && forall j :: 0 <= j < |r| ==> |r[j]| == t.numRows
  {
    seq(|t.columns|, j requires 0 <= j < |t.columns| => TrueFields(t.columns[j]))
  }

  // The rows stored in a table.
  function TableRows(t: ColumnarTable): (rows: seq<FieldRow>)
    requires WellShaped(t)
    ensures |rows| == t.numRows
  {
    Transposed(t.numRows, TableFields(t))
  }

  lemma RowsOfColumns(t: ColumnarTable, rows: seq<FieldRow>)
    requires t.numRows == |rows| && forall i :: 0 <= i < |rows| ==> |rows[i]| == |t.columns|
    requires forall j :: 0 <= j < |t.columns| ==> Scannable(t.columns[j]) && TrueFields(t.columns[j]) == FieldColumn(rows, j)
    ensures WellShaped(t) && TableRows(t) == rows
  {
    hide Scannable, TrueFields;
    forall i | 0 <= i < |rows|
      ensures TableRows(t)[i] == rows[i]
    {
      forall j | 0 <= j < |rows[i]|
        ensures TableRows(t)[i][j] == rows[i][j]
      {
        assert TableFields(t)[j] == FieldColumn(rows, j);
      }
    }
  }

  // execute(plan): it ends with a table exactly when every scan below the root does, and then the
  // table has, in some order, the rows of the plan's meaning.
  method Execute(plan: Plan, env: Env) returns (end: Scan.ScanEnd, t: ColumnarTable)
    requires PlanOk(plan) && EnvOk(plan, env) && SmallBuilds(plan) && plan.root < |plan.nodes|
    ensures end.Done? <==> CanScan(plan, plan.root)
    ensures end.Faults? ==> !StaysInside(plan, plan.root)
    ensures end.Done? ==> |t.columns| == |plan.nodes[plan.root].outputAttrs| && WellShaped(t)
    ensures end.Done? ==> multiset(TableRows(t)) == multiset(Meaning(plan, plan.root, true))
    ensures end.Done? && AllSurvive(plan) ==> multiset(TableRows(t)) == multiset(Meaning(plan, plan.root, false))
  {
    hide Meaning, EnvOk, SmallBuilds, PlanOk, Words, AllSurvive, TrueFields, Scannable, Materialize.Materialized, Decoding.ColumnHolds;
    hide WellShaped, TableRows, CanScan, StaysInside;
    t := ColumnarTable(0, []);
    PlanNodeOk(plan, plan.root);
    var attrs := plan.nodes[plan.root].outputAttrs;
    var results;
    ghost var rows, layout;
    end, results, rows, layout := ExecuteImpl(plan, plan.root, env);
    if !end.Done? {
      return;
    }
    forall j | 0 <= j < |attrs|
      ensures Materialize.ResultOk(plan.inputs, results[j]) && (results[j].dtype == INT32 || results[j].dtype == VARCHAR)
      ensures Scan.Holds(plan.inputs, results[j].dtype, results[j].originalPages, Words(results[j].pages), FieldColumn(rows, j))
      ensures |Words(results[j].pages)| == |rows|
    {
      AttrTypes(plan, plan.root, j);
      RootColumn(plan.inputs, attrs[j].dtype, results[j], FieldColumn(rows, j), layout);
    }
    var ok;
    ok, t := Materialize.ToColumnarFromColumn(results, plan.inputs);
    forall j | 0 <= j < |attrs|
      ensures Scannable(t.columns[j]) && TrueFields(t.columns[j]) == FieldColumn(rows, j)
    {
      Materialize.MaterializedFields(plan.inputs, results[j], t.columns[j], FieldColumn(rows, j));
    }
    RowsOfColumns(t, rows);
    if AllSurvive(plan) {
      MeaningIsRelational(plan, plan.root);
    }
  }
}
