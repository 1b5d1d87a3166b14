// Plans (include/plan.h) and what they mean: rows of values, computed by nested loops.
module Plans {
  import opened Tables
  import opened Late
  import opened NestedLoops
  import Scan

  datatype Attr = Attr(index: nat, dtype: DataType)

  datatype Node =
    | ScanNode(baseTableId: nat)
    | JoinNode(buildLeft: bool, left: nat, right: nat, leftAttr: nat, rightAttr: nat)

  function BuildChild(node: Node): nat
    requires node.JoinNode?
  {
    if node.buildLeft then node.left else node.right
  }

  datatype PlanNode = PlanNode(data: Node, outputAttrs: seq<Attr>)

  datatype Plan = Plan(nodes: seq<PlanNode>, inputs: seq<ColumnarTable>, root: nat)

  type FieldRow = seq<Field>

  function Indices(attrs: seq<Attr>): (r: seq<nat>)
    ensures |r| == |attrs| && forall j :: 0 <= j < |attrs| ==> r[j] == attrs[j].index
  {
    seq(|attrs|, j requires 0 <= j < |attrs| => attrs[j].index)
  }

  // Every output column is a column of the table, of the type the plan says, and has all its rows.
  predicate ScanOk(inputs: seq<ColumnarTable>, table: nat, attrs: seq<Attr>) {
    && table < |inputs|
    && forall j :: 0 <= j < |attrs| ==>
      && attrs[j].index < |inputs[table].columns|
      && var c := inputs[table].columns[attrs[j].index];
      c.dtype == attrs[j].dtype && Scannable(c) && |ColumnRows(c)| == inputs[table].numRows
  }

  // Children come before their parent; keys and outputs name columns of the children, with their types.
  predicate JoinOk(nodes: seq<PlanNode>, n: nat, node: Node, attrs: seq<Attr>)
    requires node.JoinNode?
  {
    && node.left < n && node.right < n && n <= |nodes|
    && var left, right := nodes[node.left].outputAttrs, nodes[node.right].outputAttrs;
    && node.leftAttr < |left| && node.rightAttr < |right|
    && left[node.leftAttr].dtype == right[node.rightAttr].dtype
    && forall j :: 0 <= j < |attrs| ==>
      attrs[j].index < |left| + |right| && attrs[j].dtype == (left + right)[attrs[j].index].dtype
  }

  predicate NodeOk(plan: Plan, n: nat)
    requires n < |plan.nodes|
  {
    var node := plan.nodes[n];
    && node.outputAttrs != []
    && match node.data
       case ScanNode(table) => ScanOk(plan.inputs, table, node.outputAttrs)
       case JoinNode(_, _, _, _, _) => JoinOk(plan.nodes, n, node.data, node.outputAttrs)
  }

  predicate PlanOk(plan: Plan) {
    forall n :: 0 <= n < |plan.nodes| ==> NodeOk(plan, n)
  }

  // -------- meaning --------

  function FieldColumn(rows: seq<FieldRow>, j: nat): (r: seq<Field>)
    ensures |r| == |rows|
  {
    seq(|rows|, i requires 0 <= i < |rows| => if j < |rows[i]| then rows[i][j] else Field.Null)
  }

  // Rows made of columns of equal length.
  function Transposed(n: nat, columns: seq<seq<Field>>): (rows: seq<FieldRow>)
    requires forall j :: 0 <= j < |columns| ==> |columns[j]| == n
    ensures |rows| == n && forall i :: 0 <= i < n ==> |rows[i]| == |columns|
    ensures forall i, j :: 0 <= i < n && 0 <= j < |columns| ==> rows[i][j] == columns[j][i]
  {
    seq(n, i requires 0 <= i < n => seq(|columns|, j requires 0 <= j < |columns| => columns[j][i]))
  }

  // Keys are equal, and neither is null.
  function FieldMatch(leftAttr: nat, rightAttr: nat): (FieldRow, FieldRow) -> bool {
    (x: FieldRow, y: FieldRow) => leftAttr < |x| && rightAttr < |y| && x[leftAttr].Int? && x[leftAttr] == y[rightAttr]
  }

  // The output attributes of the two rows side by side.
  function FieldOut(attrs: seq<Attr>): (FieldRow, FieldRow) -> FieldRow {
    (x: FieldRow, y: FieldRow) =>
      seq(|attrs|, j requires 0 <= j < |attrs| => if attrs[j].index < |x + y| then (x + y)[attrs[j].index] else Field.Null)
  }

  lemma ScanColumns(inputs: seq<ColumnarTable>, table: nat, attrs: seq<Attr>)
    requires ScanOk(inputs, table, attrs)
    ensures forall j :: 0 <= j < |attrs| ==> |ScanFields(inputs[table].columns[attrs[j].index])| == inputs[table].numRows
    ensures forall j :: 0 <= j < |attrs| ==> |TrueFields(inputs[table].columns[attrs[j].index])| == inputs[table].numRows
  {
    hide ColumnRows, Scannable, ScanFields, TrueFields;
    forall j | 0 <= j < |attrs|
      ensures |ScanFields(inputs[table].columns[attrs[j].index])| == inputs[table].numRows
      ensures |TrueFields(inputs[table].columns[attrs[j].index])| == inputs[table].numRows
    {
      Scan.RowCounts(inputs[table].columns[attrs[j].index], (i: nat) => 0);
      TrueCount(inputs[table].columns[attrs[j].index]);
    }
  }

  lemma TrueCount(c: Column)
    requires Scannable(c)
    ensures |TrueFields(c)| == |ColumnRows(c)|
  {
  }

  // The values of the scanned columns, as the scan reads them (exact) or as they are stored.
  function ScanColumnsOf(inputs: seq<ColumnarTable>, table: nat, attrs: seq<Attr>, exact: bool): (r: seq<seq<Field>>)
    requires ScanOk(inputs, table, attrs)
    ensures |r| == |attrs|
    ensures forall j :: 0 <= j < |attrs| ==> |r[j]| == inputs[table].numRows
    ensures forall j :: 0 <= j < |attrs| ==>
      r[j] == if exact then ScanFields(inputs[table].columns[attrs[j].index]) else TrueFields(inputs[table].columns[attrs[j].index])
  {
    ScanColumns(inputs, table, attrs);
    seq(|attrs|, j requires 0 <= j < |attrs| =>
      if exact then ScanFields(inputs[table].columns[attrs[j].index]) else TrueFields(inputs[table].columns[attrs[j].index]))
  }

  // The rows of a node.  A join on keys that are not INT32 yields nothing.
  ghost function Meaning(plan: Plan, n: nat, exact: bool): (rows: seq<FieldRow>)
    requires PlanOk(plan) && n < |plan.nodes|
    ensures forall i :: 0 <= i < |rows| ==> |rows[i]| == |plan.nodes[n].outputAttrs|
    decreases n
  {
    assert NodeOk(plan, n);
    var node := plan.nodes[n];
    match node.data
    case ScanNode(table) =>
      Transposed(plan.inputs[table].numRows, ScanColumnsOf(plan.inputs, table, node.outputAttrs, exact))
    case JoinNode(_, left, right, leftAttr, rightAttr) =>
      if plan.nodes[left].outputAttrs[leftAttr].dtype != INT32 then []
      else
        JoinWidths(Meaning(plan, left, exact), Meaning(plan, right, exact), leftAttr, rightAttr, node.outputAttrs);
        Pairs(Meaning(plan, left, exact), Meaning(plan, right, exact), FieldMatch(leftAttr, rightAttr), FieldOut(node.outputAttrs))
  }

  lemma {:induction false} PairsFrom<A, B, T>(ls: seq<A>, rs: seq<B>, match_: (A, B) -> bool, out: (A, B) -> T, i: nat)
    requires i < |Pairs(ls, rs, match_, out)|
    ensures exists a, b :: 0 <= a < |ls| && 0 <= b < |rs| && match_(ls[a], rs[b]) && Pairs(ls, rs, match_, out)[i] == out(ls[a], rs[b])
    decreases |ls|
  {
    hide RowPairs;
    var init, l := ls[..|ls| - 1], ls[|ls| - 1];
    var n := |Pairs(init, rs, match_, out)|;
    if i < n {
      PairsFrom(init, rs, match_, out, i);
      var a, b :| 0 <= a < |init| && 0 <= b < |rs| && match_(init[a], rs[b]) && Pairs(init, rs, match_, out)[i] == out(init[a], rs[b]);
      assert ls[a] == init[a];
    } else {
      RowPairsFrom(l, rs, match_, out, i - n);
      var b :| 0 <= b < |rs| && match_(l, rs[b]) && RowPairs(l, rs, match_, out)[i - n] == out(l, rs[b]);
      assert ls[|ls| - 1] == l;
    }
  }

  lemma {:induction false} RowPairsFrom<A, B, T>(l: A, rs: seq<B>, match_: (A, B) -> bool, out: (A, B) -> T, i: nat)
    requires i < |RowPairs(l, rs, match_, out)|
    ensures exists b :: 0 <= b < |rs| && match_(l, rs[b]) && RowPairs(l, rs, match_, out)[i] == out(l, rs[b])
    decreases |rs|
  {
    var init, r := rs[..|rs| - 1], rs[|rs| - 1];
    if i < |RowPairs(l, init, match_, out)| {
      RowPairsFrom(l, init, match_, out, i);
      var b :| 0 <= b < |init| && match_(l, init[b]) && RowPairs(l, init, match_, out)[i] == out(l, init[b]);
      assert rs[b] == init[b];
    } else {
      assert rs[|rs| - 1] == r;
    }
  }

  lemma JoinWidths(ls: seq<FieldRow>, rs: seq<FieldRow>, leftAttr: nat, rightAttr: nat, attrs: seq<Attr>)
    ensures forall i :: 0 <= i < |Pairs(ls, rs, FieldMatch(leftAttr, rightAttr), FieldOut(attrs))| ==>
      |Pairs(ls, rs, FieldMatch(leftAttr, rightAttr), FieldOut(attrs))[i]| == |attrs|
  {
    hide Pairs;
    var rows := Pairs(ls, rs, FieldMatch(leftAttr, rightAttr), FieldOut(attrs));
    forall i | 0 <= i < |rows|
      ensures |rows[i]| == |attrs|
    {
      PairsFrom(ls, rs, FieldMatch(leftAttr, rightAttr), FieldOut(attrs), i);
    }
  }

  // The places of a left and a right row with equal keys that are not null.
  ghost predicate KeysEqual(ls: seq<FieldRow>, rs: seq<FieldRow>, leftAttr: nat, rightAttr: nat, p: Place) {
    && p.left < |ls| && p.right < |rs| && leftAttr < |ls[p.left]| && rightAttr < |rs[p.right]|
    && ls[p.left][leftAttr].Int? && rs[p.right][rightAttr].Int? && ls[p.left][leftAttr].v == rs[p.right][rightAttr].v
  }

  // The meaning of a join on INT32 keys: one row for each such pair of places, with the output columns
  // taken from the left row and, behind it, the right row.
  lemma JoinMeaning(plan: Plan, n: nat, exact: bool) returns (places: seq<Place>)
    requires PlanOk(plan) && n < |plan.nodes| && plan.nodes[n].data.JoinNode?
    requires var node := plan.nodes[n].data;
      node.left < n && node.right < n && node.leftAttr < |plan.nodes[node.left].outputAttrs|
      && plan.nodes[node.left].outputAttrs[node.leftAttr].dtype == INT32
    ensures var node, attrs := plan.nodes[n].data, plan.nodes[n].outputAttrs;
      var ls, rs, rows := Meaning(plan, node.left, exact), Meaning(plan, node.right, exact), Meaning(plan, n, exact);
      && |places| == |rows|
      && (forall i, j :: 0 <= i < j < |places| ==> places[i] != places[j])
      && (forall p :: p in places <==> KeysEqual(ls, rs, node.leftAttr, node.rightAttr, p))
      && (forall i, j :: 0 <= i < |rows| && 0 <= j < |attrs| ==>
            && places[i].left < |ls| && places[i].right < |rs|
            && var row := ls[places[i].left] + rs[places[i].right];
            attrs[j].index < |row| && rows[i][j] == row[attrs[j].index])
  {
    hide Pairs, Places, ScanOk, FieldMatch, KeysEqual;
    assert NodeOk(plan, n);
    var node, attrs := plan.nodes[n].data, plan.nodes[n].outputAttrs;
    var ls, rs := Meaning(plan, node.left, exact), Meaning(plan, node.right, exact);
    var m := FieldMatch(node.leftAttr, node.rightAttr);
    places := Places(ls, rs, m);
    PlacesAre(ls, rs, m, FieldOut(attrs));
    forall p
      ensures Matches(ls, rs, m, p) <==> KeysEqual(ls, rs, node.leftAttr, node.rightAttr, p)
    {
      KeysMatch(ls, rs, node.leftAttr, node.rightAttr, p);
    }
  }

  lemma KeysMatch(ls: seq<FieldRow>, rs: seq<FieldRow>, leftAttr: nat, rightAttr: nat, p: Place)
    ensures Matches(ls, rs, FieldMatch(leftAttr, rightAttr), p) <==> KeysEqual(ls, rs, leftAttr, rightAttr, p)
  {
  }

  // Every scanned column comes through its scan unchanged.
  ghost predicate AllSurvive(plan: Plan)
    requires PlanOk(plan)
  {
    forall n, j :: 0 <= n < |plan.nodes| && plan.nodes[n].data.ScanNode? && 0 <= j < |plan.nodes[n].outputAttrs| ==>
      (assert NodeOk(plan, n); Survives(plan.inputs[plan.nodes[n].data.baseTableId].columns[plan.nodes[n].outputAttrs[j].index]))
  }

  // Then the scans are projections, and the meaning is the relational one.
  lemma {:induction false} MeaningIsRelational(plan: Plan, n: nat)
    requires PlanOk(plan) && n < |plan.nodes| && AllSurvive(plan)
    ensures Meaning(plan, n, true) == Meaning(plan, n, false)
    decreases n
  {
    hide Scannable, ScanFields, TrueFields, Survives, Pairs;
    assert NodeOk(plan, n);
    var node := plan.nodes[n];
    match node.data
    case ScanNode(table) =>
      forall j | 0 <= j < |node.outputAttrs|
        ensures ScanColumnsOf(plan.inputs, table, node.outputAttrs, true)[j] == ScanColumnsOf(plan.inputs, table, node.outputAttrs, false)[j]
      {
        ScanIsIdentity(plan.inputs[table].columns[node.outputAttrs[j].index]);
      }
      assert ScanColumnsOf(plan.inputs, table, node.outputAttrs, true) == ScanColumnsOf(plan.inputs, table, node.outputAttrs, false);
    case JoinNode(_, left, right, _, _) =>
      MeaningIsRelational(plan, left);
      MeaningIsRelational(plan, right);
  }
}
