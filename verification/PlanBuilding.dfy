// load_join_pipeline (tests/read_sql.cpp): the compiler itself, on top of PlanCompiler's account of
// what its output means.
module PlanBuilding {
  import opened Options
  import opened SeqFacts
  import opened Tables
  import opened Late
  import opened Plans
  import opened PlanCompiler
  import opened PlanTrees

  datatype OutputColumn = OutputColumn(col: Col, dtype: DataType)

  // The plan under construction (include/plan.h).
  class PlanBuilder {
    var nodes: seq<PlanNode>
    var inputs: seq<ColumnarTable>

    constructor ()
      ensures nodes == [] && inputs == []
    {
      nodes, inputs := [], [];
    }

    function AsPlan(): Plan
      reads this
    {
      Plan(nodes, inputs, 0)
    }

    method NewInput(input: ColumnarTable) returns (id: nat)
      modifies this`inputs
      ensures inputs == old(inputs) + [input] && id == |old(inputs)|
    {
      id := |inputs|;
      inputs := inputs + [input];
    }

    method NewScanNode(baseTableId: nat, outputAttrs: seq<Attr>) returns (id: nat)
      modifies this`nodes
      ensures nodes == old(nodes) + [PlanNode(ScanNode(baseTableId), outputAttrs)] && id == |old(nodes)|
    {
      id := |nodes|;
      nodes := nodes + [PlanNode(ScanNode(baseTableId), outputAttrs)];
    }

    method NewJoinNode(buildLeft: bool, left: nat, right: nat, leftAttr: nat, rightAttr: nat, outputAttrs: seq<Attr>) returns (id: nat)
      modifies this`nodes
      ensures nodes == old(nodes) + [PlanNode(JoinNode(buildLeft, left, right, leftAttr, rightAttr), outputAttrs)] && id == |old(nodes)|
    {
      id := |nodes|;
      nodes := nodes + [PlanNode(JoinNode(buildLeft, left, right, leftAttr, rightAttr), outputAttrs)];
    }
  }

  // -------- helpers of recurse --------

  // Exactly the required columns, in order, with their types.
  ghost predicate Outputs(q: Query, columns: seq<OutputColumn>, required: seq<Col>) {
    && |columns| == |required|
    && forall j :: 0 <= j < |required| ==> columns[j].col == required[j] && Exists(q, required[j]) && columns[j].dtype == TypeOf(q, required[j])
  }

  // One of the join conditions between the two sides.
  predicate IsCondition(q: Query, a: set<nat>, b: set<nat>, l: Col, r: Col) {
    Condition(q, a, b, l.entity, r.entity) && q.graph[l.entity][r.entity] == Names(l.name, r.name)
  }

  // The loops over the entities on the left and their neighbours, in any order; the last hit wins.
  method FindCondition(q: Query, leftEntities: set<nat>, rightEntities: set<nat>) returns (found: bool, leftCol: Col, rightCol: Col)
    ensures found <==> HasCondition(q, leftEntities, rightEntities)
    ensures found ==> IsCondition(q, leftEntities, rightEntities, leftCol, rightCol)
  {
    found, leftCol, rightCol := false, Col(0, ""), Col(0, "");
    var rest := leftEntities;
    while rest != {}
      invariant rest <= leftEntities
      invariant !found ==> forall e, f :: e in leftEntities - rest ==> !Condition(q, leftEntities, rightEntities, e, f)
      invariant found ==> IsCondition(q, leftEntities, rightEntities, leftCol, rightCol)
    {
      var e :| e in rest;
      if e in q.graph {
        var adjacent := q.graph[e].Keys;
        while adjacent != {}
          invariant adjacent <= q.graph[e].Keys
          invariant !found ==> forall e', f :: e' in leftEntities - rest ==> !Condition(q, leftEntities, rightEntities, e', f)
          invariant !found ==> forall f :: f in q.graph[e].Keys - adjacent ==> f !in rightEntities
          invariant found ==> IsCondition(q, leftEntities, rightEntities, leftCol, rightCol)
        {
          var f :| f in adjacent;
          if f in rightEntities {
            leftCol, rightCol := Col(e, q.graph[e][f].left), Col(f, q.graph[e][f].right);
            found := true;
          }
          adjacent := adjacent - {f};
        }
      }
      rest := rest - {e};
    }
  }

  // Every required column of one side, and the join column.
  ghost predicate Needed(side: set<nat>, needed: seq<Col>, joinCol: Col, required: seq<Col>, other: set<nat>) {
    && joinCol in needed
    && (forall c :: c in needed ==> c.entity in side && (c == joinCol || c in required))
    && (forall c :: c in required && c.entity in side && c.entity !in other ==> c in needed)
  }

  // left_required and right_required; ok is false when a column is in neither child.
  method SplitRequired(required: seq<Col>, leftEntities: set<nat>, rightEntities: set<nat>, leftCol: Col, rightCol: Col)
      returns (ok: bool, leftRequired: seq<Col>, rightRequired: seq<Col>)
    requires leftCol.entity in leftEntities && rightCol.entity in rightEntities
    ensures ok <==> forall i :: 0 <= i < |required| ==> required[i].entity in leftEntities + rightEntities
    ensures ok ==> Needed(leftEntities, leftRequired, leftCol, required, {})
    ensures ok ==> Needed(rightEntities, rightRequired, rightCol, required, leftEntities)
  {
    leftRequired, rightRequired := [], [];
    var leftIn, rightIn := false, false;
    for i := 0 to |required|
      invariant forall k :: 0 <= k < i ==> required[k].entity in leftEntities + rightEntities
      invariant leftIn <==> leftCol in leftRequired
      invariant rightIn ==> rightCol in rightRequired
      invariant forall c :: c in leftRequired ==> c.entity in leftEntities && c in required
      invariant forall c :: c in rightRequired ==> c.entity in rightEntities && c in required
      invariant forall k :: 0 <= k < i && required[k].entity in leftEntities ==> required[k] in leftRequired
      invariant forall k :: 0 <= k < i && required[k].entity !in leftEntities ==> required[k] in rightRequired
    {
      if required[i].entity in leftEntities {
        if required[i] == leftCol {
          leftIn := true;
        }
        leftRequired := leftRequired + [required[i]];
      } else if required[i].entity in rightEntities {
        if required[i] == rightCol {
          rightIn := true;
        }
        rightRequired := rightRequired + [required[i]];
      } else {
        return false, [], [];
      }
    }
    if !leftIn {
      leftRequired := leftRequired + [leftCol];
    }
    if !rightIn {
      rightRequired := rightRequired + [rightCol];
    }
    ok := true;
  }

  ghost predicate HasColumn(columns: seq<OutputColumn>, c: Col) {
    exists k :: 0 <= k < |columns| && columns[k].col == c
  }

  ghost predicate IsFirst(columns: seq<OutputColumn>, c: Col, i: nat) {
    i < |columns| && columns[i].col == c && forall k :: 0 <= k < i ==> columns[k].col != c
  }

  // The index of the first output column with this name.
  method FindColumn(columns: seq<OutputColumn>, c: Col) returns (found: bool, idx: nat)
    ensures found <==> HasColumn(columns, c)
    ensures found ==> IsFirst(columns, c, idx)
  {
    idx := 0;
    while idx < |columns|
      invariant idx <= |columns| && forall k :: 0 <= k < idx ==> columns[k].col != c
    {
      if columns[idx].col == c {
        return true, idx;
      }
      idx := idx + 1;
    }
    found := false;
  }

  // output_attrs and output_columns of a join node.
  method PickOutputs(columns: seq<OutputColumn>, required: seq<Col>) returns (ok: bool, attrs: seq<Attr>, outputs: seq<OutputColumn>)
    ensures ok <==> forall j :: 0 <= j < |required| ==> HasColumn(columns, required[j])
    ensures ok ==> |attrs| == |outputs| == |required|
    ensures ok ==> forall j :: 0 <= j < |required| ==>
      && IsFirst(columns, required[j], attrs[j].index)
      && attrs[j].dtype == columns[attrs[j].index].dtype && outputs[j] == OutputColumn(required[j], attrs[j].dtype)
  {
    attrs, outputs := [], [];
    for j := 0 to |required|
      invariant |attrs| == |outputs| == j
      invariant forall i :: 0 <= i < j ==> HasColumn(columns, required[i])
      invariant forall i :: 0 <= i < j ==>
        && IsFirst(columns, required[i], attrs[i].index)
        && attrs[i].dtype == columns[attrs[i].index].dtype && outputs[i] == OutputColumn(required[i], attrs[i].dtype)
    {
      var found, inputIdx := FindColumn(columns, required[j]);
      if !found {
        return false, [], [];
      }
      attrs := attrs + [Attr(inputIdx, columns[inputIdx].dtype)];
      outputs := outputs + [OutputColumn(required[j], columns[inputIdx].dtype)];
    }
    ok := true;
  }

  // output_attrs and output_columns of a scan node.
  method PickAttributes(q: Query, entity: nat, required: seq<Col>) returns (ok: bool, attrs: seq<Attr>, outputs: seq<OutputColumn>)
    ensures ok <==> forall j :: 0 <= j < |required| ==> required[j].entity == entity && Exists(q, required[j])
    ensures ok ==> attrs == ScanAttrs(q, required) && Outputs(q, outputs, required)
  {
    attrs, outputs := [], [];
    for j := 0 to |required|
      invariant |attrs| == |outputs| == j
      invariant forall i :: 0 <= i < j ==> required[i].entity == entity && Exists(q, required[i])
      invariant forall i :: 0 <= i < j ==> attrs[i] == Attr(NameIndex(q.schema(entity), required[i].name), TypeOf(q, required[i]))
      invariant forall i :: 0 <= i < j ==> outputs[i] == OutputColumn(required[i], TypeOf(q, required[i]))
    {
      var attributes := q.schema(entity);
      var inputIdx := NameIndex(attributes, required[j].name);
      if required[j].entity != entity || inputIdx == |attributes| {
        return false, [], [];
      }
      attrs := attrs + [Attr(inputIdx, attributes[inputIdx].dtype)];
      outputs := outputs + [OutputColumn(required[j], attributes[inputIdx].dtype)];
    }
    ok := true;
  }

  // -------- recurse --------

  // What recurse returns for a tree and the columns required of it.
  ghost predicate Compiled(q: Query, plan: Plan, n: nat, named: Named, j: Json, required: seq<Col>, columns: seq<OutputColumn>)
    requires QueryOk(q) && PlanOk(plan)
  {
    && n < |plan.nodes| && Reads(q, named, j)
    && Carries(q, plan.nodes[n].outputAttrs, required) && Outputs(q, columns, required)
    && Computes(q, plan, n, named, required)
  }

  // m is the build side of a join of the tree: what lies below its Hash node.
  ghost predicate IsBuild(j: Json, named: Named, m: Named)
    decreases j
  {
    match j
    case Passthrough(c) => IsBuild(c, named, m)
    case HashJoin(l, r) =>
      && named.NamedJoin?
      && (|| m == (if l.Hash? then named.left else named.right)
          || IsBuild(if l.Hash? then l.child else l, named.left, m)
          || IsBuild(if r.Hash? then r.child else r, named.right, m))
    case _ => false
  }

  // The build side of node n computes a build side of the tree.
  ghost predicate BuildsAt(q: Query, plan: Plan, n: nat, j: Json, named: Named)
    requires QueryOk(q) && PlanOk(plan) && n < |plan.nodes| && plan.nodes[n].data.JoinNode?
  {
    exists m, required :: BuildsThis(q, plan, n, j, named, m, required)
  }

  ghost predicate BuildsThis(q: Query, plan: Plan, n: nat, j: Json, named: Named, m: Named, required: seq<Col>)
    requires QueryOk(q) && PlanOk(plan) && n < |plan.nodes| && plan.nodes[n].data.JoinNode?
  {
    IsBuild(j, named, m) && BuildChild(plan.nodes[n].data) < |plan.nodes| && Computes(q, plan, BuildChild(plan.nodes[n].data), m, required)
  }

  // So do those of all nodes from number first on.
  ghost predicate BuildsFrom(q: Query, plan: Plan, first: nat, j: Json, named: Named)
    requires QueryOk(q) && PlanOk(plan)
  {
    forall n :: first <= n < |plan.nodes| && plan.nodes[n].data.JoinNode? ==> BuildsAt(q, plan, n, j, named)
  }

  // Larger trees and plans keep what is known of a node.
  lemma BuildsAtKept(q: Query, plan: Plan, more: Plan, n: nat, j: Json, named: Named, whole: Json, all: Named)
    requires QueryOk(q) && PlanOk(plan) && PlanOk(more) && Extends(plan, more)
    requires n < |plan.nodes| && plan.nodes[n].data.JoinNode? && BuildsAt(q, plan, n, j, named)
    requires forall m :: IsBuild(j, named, m) ==> IsBuild(whole, all, m)
    ensures BuildsAt(q, more, n, whole, all)
  {
    hide QueryOk, PlanOk, Computes, IsBuild;
    var m, required :| BuildsThis(q, plan, n, j, named, m, required);
    ComputesExtends(q, plan, more, BuildChild(plan.nodes[n].data), m, required);
    assert BuildsThis(q, more, n, whole, all, m, required);
  }

  lemma SideBuilds(j: Json, named: Named)
    requires j.HashJoin? && named.NamedJoin?
    ensures forall m :: IsBuild(Below(j.left), named.left, m) ==> IsBuild(j, named, m)
    ensures forall m :: IsBuild(Below(j.right), named.right, m) ==> IsBuild(j, named, m)
    ensures IsBuild(j, named, if j.left.Hash? then named.left else named.right)
  {
    assert Below(j.left) == if j.left.Hash? then j.left.child else j.left;
    assert Below(j.right) == if j.right.Hash? then j.right.child else j.right;
  }

  lemma PassthroughBuilds(q: Query, plan: Plan, first: nat, c: Json, named: Named)
    requires QueryOk(q) && PlanOk(plan) && BuildsFrom(q, plan, first, c, named)
    ensures BuildsFrom(q, plan, first, Passthrough(c), named)
  {
    hide QueryOk, PlanOk, Computes, BuildsAt;
    forall n | first <= n < |plan.nodes| && plan.nodes[n].data.JoinNode?
      ensures BuildsAt(q, plan, n, Passthrough(c), named)
    {
      BuildsAtKept(q, plan, plan, n, c, named, Passthrough(c), named);
    }
  }

  // The nodes of both children and the join itself.
  lemma JoinBuilds(q: Query, start: Plan, middle: Plan, plan: Plan, more: Plan, j: Json, named: Named,
                   leftRequired: seq<Col>, rightRequired: seq<Col>)
    requires QueryOk(q) && PlanOk(start) && PlanOk(middle) && PlanOk(plan) && PlanOk(more)
    requires Extends(start, middle) && Extends(middle, plan) && Extends(plan, more) && |more.nodes| == |plan.nodes| + 1
    requires j.HashJoin? && named.NamedJoin?
    requires BuildsFrom(q, middle, |start.nodes|, Below(j.left), named.left)
    requires BuildsFrom(q, plan, |middle.nodes|, Below(j.right), named.right)
    requires var node := more.nodes[|plan.nodes|].data;
      && node.JoinNode? && node.buildLeft == j.left.Hash? && node.left < |more.nodes| && node.right < |more.nodes|
      && Computes(q, more, node.left, named.left, leftRequired) && Computes(q, more, node.right, named.right, rightRequired)
    ensures BuildsFrom(q, more, |start.nodes|, j, named)
  {
    hide QueryOk, PlanOk, Computes, IsBuild, BuildsAt;
    SideBuilds(j, named);
    forall n | |start.nodes| <= n < |more.nodes| && more.nodes[n].data.JoinNode?
      ensures BuildsAt(q, more, n, j, named)
    {
      if n < |middle.nodes| {
        ExtendsTrans(middle, plan, more);
        BuildsAtKept(q, middle, more, n, Below(j.left), named.left, j, named);
      } else if n < |plan.nodes| {
        BuildsAtKept(q, plan, more, n, Below(j.right), named.right, j, named);
      } else {
        ThisBuilds(q, more, n, j, named, leftRequired, rightRequired);
      }
    }
  }

  lemma ThisBuilds(q: Query, plan: Plan, n: nat, j: Json, named: Named, leftRequired: seq<Col>, rightRequired: seq<Col>)
    requires QueryOk(q) && PlanOk(plan) && n < |plan.nodes| && j.HashJoin? && named.NamedJoin?
    requires IsBuild(j, named, if j.left.Hash? then named.left else named.right)
    requires var node := plan.nodes[n].data;
      && node.JoinNode? && node.buildLeft == j.left.Hash? && node.left < |plan.nodes| && node.right < |plan.nodes|
      && Computes(q, plan, node.left, named.left, leftRequired) && Computes(q, plan, node.right, named.right, rightRequired)
    ensures BuildsAt(q, plan, n, j, named)
  {
    hide QueryOk, PlanOk, Computes, IsBuild;
    var m, required := if j.left.Hash? then named.left else named.right, if j.left.Hash? then leftRequired else rightRequired;
    assert BuildsThis(q, plan, n, j, named, m, required);
  }

  lemma AddNode(plan: Plan, more: Plan, node: PlanNode)
    requires PlanOk(plan) && more.nodes == plan.nodes + [node] && more.inputs == plan.inputs
    requires node.outputAttrs != []
    requires match node.data
             case ScanNode(table) => ScanOk(plan.inputs, table, node.outputAttrs)
             case JoinNode(_, _, _, _, _) => JoinOk(plan.nodes, |plan.nodes|, node.data, node.outputAttrs)
    ensures PlanOk(more) && Extends(plan, more)
  {
    hide ScanOk;
    forall n | 0 <= n < |more.nodes|
      ensures NodeOk(more, n)
    {
      if n < |plan.nodes| {
        assert NodeOk(plan, n);
      }
    }
  }

  lemma AddInput(plan: Plan, more: Plan, input: ColumnarTable)
    requires PlanOk(plan) && more.nodes == plan.nodes && more.inputs == plan.inputs + [input]
    ensures PlanOk(more) && Extends(plan, more)
  {
    hide Scannable, ColumnRows;
    forall n | 0 <= n < |more.nodes|
      ensures NodeOk(more, n)
    {
      assert NodeOk(plan, n);
    }
  }

  lemma ExtendsTrans(a: Plan, b: Plan, c: Plan)
    requires Extends(a, b) && Extends(b, c)
    ensures Extends(a, c)
  {
  }

  method CompileScan(b: PlanBuilder, q: Query, j: Json, required: seq<Col>)
      returns (ok: bool, node: nat, columns: seq<OutputColumn>, ghost named: Named)
    requires QueryOk(q) && PlanOk(b.AsPlan()) && required != [] && j.ScanJson?
    modifies b
    ensures PlanOk(b.AsPlan()) && Extends(old(b.AsPlan()), b.AsPlan())
    ensures ok <==> Supported(q, j) && RequiredOk(q, j, required)
    ensures ok ==> Compiled(q, b.AsPlan(), node, named, j, required, columns)
    ensures ok ==> BuildsFrom(q, b.AsPlan(), |old(b.nodes)|, j, named)
  {
    hide QueryOk, PlanOk, ScanOk, Computes, Carries, Outputs, ScanAttrs, Exists;
    node, columns, named := 0, [], NamedScan(0);
    var found := ScanEntity(j);
    if found.None? {
      ok := false;
      return;
    }
    var entity := found.value;
    named := NamedScan(entity);
    ghost var before := b.AsPlan();
    var input := b.NewInput(q.table(entity));
    AddInput(before, b.AsPlan(), q.table(entity));
    ghost var between := b.AsPlan();
    var attrs;
    ok, attrs, columns := PickAttributes(q, entity, required);
    if !ok {
      return;
    }
    ScanAttrsOk(q, b.inputs, input, entity, required);
    ScanAttrsSize(q, required);
    node := b.NewScanNode(input, attrs);
    AddNode(between, b.AsPlan(), PlanNode(ScanNode(input), attrs));
    ScanComputes(q, b.AsPlan(), node, input, entity, required);
  }

  lemma ScanAttrsSize(q: Query, required: seq<Col>)
    requires forall j :: 0 <= j < |required| ==> Exists(q, required[j])
    ensures |ScanAttrs(q, required)| == |required|
  {
  }

  // -------- joins --------

  lemma {:induction false} SourcesAre(j: Json)
    ensures Entities(j).Some? ==> Sources(j) == Entities(j).value
    decreases j
  {
    match j
    case Passthrough(c) => SourcesAre(c);
    case _ =>
  }

  lemma SupportedJoin(q: Query, j: Json)
    requires j.HashJoin?
    ensures Supported(q, j) <==>
      && j.left.Hash? != j.right.Hash?
      && Entities(Below(j.left)).Some? && Entities(Below(j.right)).Some?
      && HasCondition(q, Entities(Below(j.left)).value, Entities(Below(j.right)).value)
      && Supported(q, Below(j.left)) && Supported(q, Below(j.right))
  {
    hide Entities, HasCondition;
    assert Below(j.left) == if j.left.Hash? then j.left.child else j.left;
  }

  lemma ConditionColumns(q: Query, l: Col, r: Col)
    requires QueryOk(q) && l.entity in q.graph && r.entity in q.graph[l.entity]
    requires q.graph[l.entity][r.entity] == Names(l.name, r.name)
    ensures Exists(q, l) && Exists(q, r) && TypeOf(q, l) == TypeOf(q, r)
  {
    hide TableOk, Exists, TypeOf;
    var names := q.graph[l.entity][r.entity];
    assert Col(l.entity, names.left) == l && Col(r.entity, names.right) == r;
  }

  // What a supported tree with good columns offers its children.
  lemma ChildrenOk(q: Query, j: Json, required: seq<Col>, pl: Json, pr: Json, leftCol: Col, rightCol: Col,
                   leftRequired: seq<Col>, rightRequired: seq<Col>)
    requires QueryOk(q) && j.HashJoin? && j.left.Hash? != j.right.Hash? && pl == Below(j.left) && pr == Below(j.right)
    requires Entities(pl).Some? && Entities(pr).Some?
    requires IsCondition(q, Entities(pl).value, Entities(pr).value, leftCol, rightCol)
    requires Needed(Entities(pl).value, leftRequired, leftCol, required, {})
    requires Needed(Entities(pr).value, rightRequired, rightCol, required, Entities(pl).value)
    ensures Supported(q, j) <==> Supported(q, pl) && Supported(q, pr)
    ensures RequiredOk(q, j, required) ==> RequiredOk(q, pl, leftRequired) && RequiredOk(q, pr, rightRequired)
  {
    hide QueryOk, Exists, Supported;
    SupportedJoin(q, j);
    SourcesAre(pl);
    SourcesAre(pr);
    SourcesAre(j);
    ConditionColumns(q, leftCol, rightCol);
    assert Condition(q, Entities(pl).value, Entities(pr).value, leftCol.entity, rightCol.entity);
    if RequiredOk(q, j, required) {
      NeededExists(q, required, Entities(pl).value, leftRequired, leftCol, {});
      NeededExists(q, required, Entities(pr).value, rightRequired, rightCol, Entities(pl).value);
    }
  }

  lemma NeededExists(q: Query, required: seq<Col>, side: set<nat>, needed: seq<Col>, joinCol: Col, other: set<nat>)
    requires Needed(side, needed, joinCol, required, other) && Exists(q, joinCol)
    requires forall i :: 0 <= i < |required| ==> Exists(q, required[i])
    ensures forall i :: 0 <= i < |needed| ==> needed[i].entity in side && Exists(q, needed[i])
  {
    hide Exists;
    forall i | 0 <= i < |needed|
      ensures needed[i].entity in side && Exists(q, needed[i])
    {
      assert needed[i] in needed;
    }
  }

  // Everything required is among the columns of the children, on the side its table is on.
  lemma ColumnsPlaced(q: Query, left: set<nat>, right: set<nat>, leftRequired: seq<Col>, rightRequired: seq<Col>, required: seq<Col>,
                      leftCol: Col, rightCol: Col, columns: seq<OutputColumn>, j: nat)
    requires Needed(left, leftRequired, leftCol, required, {}) && Needed(right, rightRequired, rightCol, required, left)
    requires |columns| == |leftRequired + rightRequired|
    requires forall k :: 0 <= k < |columns| ==> columns[k].col == (leftRequired + rightRequired)[k]
    requires j < |required| && required[j].entity in left + right
    ensures HasColumn(columns, required[j])
    ensures forall i: nat :: IsFirst(columns, required[j], i) ==> (required[j].entity in left <==> i < |leftRequired|)
  {
    var c := required[j];
    assert c in required;
    if c.entity in left {
      assert c in leftRequired;
      var k :| 0 <= k < |leftRequired| && leftRequired[k] == c;
      assert columns[k].col == c;
    } else {
      assert c in rightRequired;
      var k :| 0 <= k < |rightRequired| && rightRequired[k] == c;
      assert (leftRequired + rightRequired)[|leftRequired| + k] == c;
      assert columns[|leftRequired| + k].col == c;
      forall i: nat | i < |leftRequired|
        ensures columns[i].col != c
      {
        assert leftRequired[i] in leftRequired;
      }
    }
  }

  lemma HasNeeded(q: Query, columns: seq<OutputColumn>, needed: seq<Col>, c: Col)
    requires Outputs(q, columns, needed) && c in needed
    ensures HasColumn(columns, c)
  {
    var k :| 0 <= k < |needed| && needed[k] == c;
    assert columns[k].col == c;
  }

  // The columns of the two children side by side.
  lemma SideBySide(q: Query, leftColumns: seq<OutputColumn>, rightColumns: seq<OutputColumn>, leftRequired: seq<Col>, rightRequired: seq<Col>)
    requires Outputs(q, leftColumns, leftRequired) && Outputs(q, rightColumns, rightRequired)
    ensures Outputs(q, leftColumns + rightColumns, leftRequired + rightRequired)
  {
    hide Exists;
  }

  // The join node the compiler appends.
  lemma JoinNodeOk(q: Query, plan: Plan, node: Node, attrs: seq<Attr>, leftRequired: seq<Col>, rightRequired: seq<Col>,
                   required: seq<Col>, leftCol: Col, rightCol: Col)
    requires QueryOk(q) && PlanOk(plan) && node.JoinNode? && node.left < |plan.nodes| && node.right < |plan.nodes|
    requires Carries(q, plan.nodes[node.left].outputAttrs, leftRequired) && Carries(q, plan.nodes[node.right].outputAttrs, rightRequired)
    requires node.leftAttr < |leftRequired| && leftRequired[node.leftAttr] == leftCol
    requires node.rightAttr < |rightRequired| && rightRequired[node.rightAttr] == rightCol
    requires leftCol.entity in q.graph && rightCol.entity in q.graph[leftCol.entity]
    requires q.graph[leftCol.entity][rightCol.entity] == Names(leftCol.name, rightCol.name)
    requires Placed(required, leftRequired + rightRequired, attrs)
    requires forall j :: 0 <= j < |required| ==> Exists(q, required[j]) && attrs[j].dtype == TypeOf(q, required[j])
    ensures JoinOk(plan.nodes, |plan.nodes|, node, attrs)
  {
    hide QueryOk, PlanOk, Exists, TypeOf;
    ConditionColumns(q, leftCol, rightCol);
    var left: seq<Attr>, right: seq<Attr> := plan.nodes[node.left].outputAttrs, plan.nodes[node.right].outputAttrs;
    forall j | 0 <= j < |attrs|
      ensures attrs[j].index < |left| + |right| && attrs[j].dtype == (left + right)[attrs[j].index].dtype
    {
      var i := attrs[j].index;
      assert (leftRequired + rightRequired)[i] == required[j];
      if i < |left| {
        assert left[i].dtype == TypeOf(q, leftRequired[i]);
      } else {
        assert right[i - |left|].dtype == TypeOf(q, rightRequired[i - |left|]);
      }
    }
    assert left[node.leftAttr].dtype == TypeOf(q, leftCol) && right[node.rightAttr].dtype == TypeOf(q, rightCol);
  }

  // left_attr, right_attr and output_attrs of a join node.
  method PickPositions(q: Query, leftColumns: seq<OutputColumn>, rightColumns: seq<OutputColumn>, required: seq<Col>, leftCol: Col, rightCol: Col,
                       ghost leftRequired: seq<Col>, ghost rightRequired: seq<Col>, ghost left: set<nat>, ghost right: set<nat>)
      returns (leftAttr: nat, rightAttr: nat, attrs: seq<Attr>, columns: seq<OutputColumn>)
    requires Outputs(q, leftColumns, leftRequired) && Outputs(q, rightColumns, rightRequired)
    requires Needed(left, leftRequired, leftCol, required, {}) && Needed(right, rightRequired, rightCol, required, left)
    requires forall k :: 0 <= k < |required| ==> required[k].entity in left + right
    ensures leftAttr < |leftRequired| && leftRequired[leftAttr] == leftCol
    ensures rightAttr < |rightRequired| && rightRequired[rightAttr] == rightCol
    ensures Outputs(q, columns, required) && Placed(required, leftRequired + rightRequired, attrs) && Carries(q, attrs, required)
    ensures forall j :: 0 <= j < |required| ==> Exists(q, required[j]) && attrs[j].dtype == TypeOf(q, required[j])
    ensures Sided(left, leftRequired, rightRequired, required, attrs)
  {
    hide Carries, Outputs, Exists, Needed, HasColumn;
    NeededSome(left, leftRequired, leftCol, required, {});
    NeededSome(right, rightRequired, rightCol, required, left);
    HasNeeded(q, leftColumns, leftRequired, leftCol);
    HasNeeded(q, rightColumns, rightRequired, rightCol);
    var leftSet, rightSet;
    leftSet, leftAttr := FindColumn(leftColumns, leftCol);
    rightSet, rightAttr := FindColumn(rightColumns, rightCol);
    SideBySide(q, leftColumns, rightColumns, leftRequired, rightRequired);
    OutputsNames(q, leftColumns, leftRequired);
    OutputsNames(q, rightColumns, rightRequired);
    OutputsNames(q, leftColumns + rightColumns, leftRequired + rightRequired);
    forall k | 0 <= k < |required|
      ensures HasColumn(leftColumns + rightColumns, required[k])
    {
      ColumnsPlaced(q, left, right, leftRequired, rightRequired, required, leftCol, rightCol, leftColumns + rightColumns, k);
    }
    var ok;
    ok, attrs, columns := PickOutputs(leftColumns + rightColumns, required);
    OutputTypes(q, leftColumns + rightColumns, leftRequired + rightRequired, required, attrs, columns);
    forall k | 0 <= k < |required|
      ensures required[k].entity in left <==> attrs[k].index < |leftRequired|
    {
      ColumnsPlaced(q, left, right, leftRequired, rightRequired, required, leftCol, rightCol, leftColumns + rightColumns, k);
    }
  }

  method CompileJoin(b: PlanBuilder, q: Query, j: Json, required: seq<Col>)
      returns (ok: bool, node: nat, columns: seq<OutputColumn>, ghost named: Named)
    requires QueryOk(q) && PlanOk(b.AsPlan()) && required != [] && j.HashJoin?
    modifies b
    ensures PlanOk(b.AsPlan()) && Extends(old(b.AsPlan()), b.AsPlan())
    ensures ok <==> Supported(q, j) && RequiredOk(q, j, required)
    ensures ok ==> Compiled(q, b.AsPlan(), node, named, j, required, columns)
    ensures ok ==> BuildsFrom(q, b.AsPlan(), |old(b.nodes)|, j, named)
    decreases j, 0
  {
    hide QueryOk, PlanOk, Computes, Carries, Outputs, Exists, Supported, RequiredOk, IsCondition, Needed, BuildsFrom;
    node, columns, named, ok := 0, [], NamedScan(0), false;
    JoinSupported(q, j, required);
    if j.left.Hash? == j.right.Hash? {
      return;
    }
    var buildLeft := j.left.Hash?;
    var pl, pr := Below(j.left), Below(j.right);
    var leftFound := Entities(pl);
    if leftFound.None? {
      return;
    }
    var rightFound := Entities(pr);
    if rightFound.None? {
      return;
    }
    var leftEntities, rightEntities := leftFound.value, rightFound.value;
    var found, leftCol, rightCol := FindCondition(q, leftEntities, rightEntities);
    if !found {
      return;
    }
    ConditionHolds(q, leftEntities, rightEntities, leftCol, rightCol);
    var split, leftRequired, rightRequired := SplitRequired(required, leftEntities, rightEntities, leftCol, rightCol);
    if !split {
      return;
    }
    ChildrenOk(q, j, required, pl, pr, leftCol, rightCol, leftRequired, rightRequired);
    NeededSome(leftEntities, leftRequired, leftCol, required, {});
    NeededSome(rightEntities, rightRequired, rightCol, required, leftEntities);
    ghost var start := b.AsPlan();
    var leftOk, left, leftColumns;
    ghost var leftNamed;
    leftOk, left, leftColumns, leftNamed := Recurse(b, q, pl, leftRequired);
    if !leftOk {
      return;
    }
    ghost var middle := b.AsPlan();
    var rightOk, right, rightColumns;
    ghost var rightNamed;
    rightOk, right, rightColumns, rightNamed := Recurse(b, q, pr, rightRequired);
    ghost var plan := b.AsPlan();
    ExtendsTrans(start, middle, plan);
    if !rightOk {
      return;
    }
    ComputesExtends(q, middle, plan, left, leftNamed, leftRequired);
    var leftAttr, rightAttr, attrs;
    leftAttr, rightAttr, attrs, columns := PickPositions(q, leftColumns, rightColumns, required, leftCol, rightCol,
                                                         leftRequired, rightRequired, leftEntities, rightEntities);
    ok := true;
    var data := JoinNode(buildLeft, left, right, leftAttr, rightAttr);
    named := NamedJoin(leftNamed, rightNamed, leftCol, rightCol);
    JoinNodeOk(q, plan, data, attrs, leftRequired, rightRequired, required, leftCol, rightCol);
    node := b.NewJoinNode(buildLeft, left, right, leftAttr, rightAttr, attrs);
    AddNode(plan, b.AsPlan(), PlanNode(data, attrs));
    ExtendsTrans(start, plan, b.AsPlan());
    ComputesExtends(q, plan, b.AsPlan(), left, leftNamed, leftRequired);
    ComputesExtends(q, plan, b.AsPlan(), right, rightNamed, rightRequired);
    ReadsEntities(q, leftNamed, pl);
    ReadsEntities(q, rightNamed, pr);
    JoinComputes(q, b.AsPlan(), node, named, required, leftRequired, rightRequired);
    JoinBuilds(q, start, middle, plan, b.AsPlan(), j, named, leftRequired, rightRequired);
    JoinRequired(q, j, required);
  }

  lemma ConditionHolds(q: Query, a: set<nat>, b: set<nat>, l: Col, r: Col)
    requires IsCondition(q, a, b, l, r)
    ensures Condition(q, a, b, l.entity, r.entity) && q.graph[l.entity][r.entity] == Names(l.name, r.name)
  {
  }

  lemma NeededSome(side: set<nat>, needed: seq<Col>, joinCol: Col, required: seq<Col>, other: set<nat>)
    requires Needed(side, needed, joinCol, required, other)
    ensures needed != [] && joinCol in needed
  {
  }

  lemma OutputsNames(q: Query, columns: seq<OutputColumn>, required: seq<Col>)
    requires Outputs(q, columns, required)
    ensures |columns| == |required| && forall k :: 0 <= k < |columns| ==> columns[k].col == required[k]
  {
  }

  // What is needed of a join before its children are looked at.
  lemma JoinSupported(q: Query, j: Json, required: seq<Col>)
    requires j.HashJoin?
    ensures Supported(q, j) ==> j.left.Hash? != j.right.Hash? && Entities(Below(j.left)).Some? && Entities(Below(j.right)).Some?
    ensures Supported(q, j) ==> HasCondition(q, Entities(Below(j.left)).value, Entities(Below(j.right)).value)
    ensures Supported(q, j) && RequiredOk(q, j, required) ==> forall i :: 0 <= i < |required| ==>
      required[i].entity in Entities(Below(j.left)).value + Entities(Below(j.right)).value
  {
    hide Supported, Condition;
    SupportedJoin(q, j);
    SourcesAre(j);
  }

  lemma JoinRequired(q: Query, j: Json, required: seq<Col>)
    requires j.HashJoin? && j.left.Hash? != j.right.Hash? && Entities(Below(j.left)).Some? && Entities(Below(j.right)).Some?
    requires forall i :: 0 <= i < |required| ==>
      Exists(q, required[i]) && required[i].entity in Entities(Below(j.left)).value + Entities(Below(j.right)).value
    ensures RequiredOk(q, j, required) && Entities(j).Some?
  {
    hide Exists;
    SourcesAre(j);
  }

  lemma OutputTypes(q: Query, columns: seq<OutputColumn>, all: seq<Col>, required: seq<Col>, attrs: seq<Attr>, outputs: seq<OutputColumn>)
    requires Outputs(q, columns, all) && |attrs| == |outputs| == |required|
    requires forall j :: 0 <= j < |required| ==>
      && attrs[j].index < |columns| && columns[attrs[j].index].col == required[j]
      && attrs[j].dtype == columns[attrs[j].index].dtype && outputs[j] == OutputColumn(required[j], attrs[j].dtype)
    ensures Outputs(q, outputs, required) && Placed(required, all, attrs) && Carries(q, attrs, required)
    ensures forall j :: 0 <= j < |required| ==> Exists(q, required[j]) && attrs[j].dtype == TypeOf(q, required[j])
  {
    hide Exists, TypeOf;
  }

  // recurse: success for exactly the supported trees with known columns, and then a node that
  // outputs the required columns of the named join, in order.
  method Recurse(b: PlanBuilder, q: Query, j: Json, required: seq<Col>)
      returns (ok: bool, node: nat, columns: seq<OutputColumn>, ghost named: Named)
    requires QueryOk(q) && PlanOk(b.AsPlan()) && required != []
    modifies b
    ensures PlanOk(b.AsPlan()) && Extends(old(b.AsPlan()), b.AsPlan())
    ensures ok <==> Supported(q, j) && RequiredOk(q, j, required)
    ensures ok ==> Compiled(q, b.AsPlan(), node, named, j, required, columns)
    ensures ok ==> BuildsFrom(q, b.AsPlan(), |old(b.nodes)|, j, named)
    decreases j, 1
  {
    hide QueryOk, PlanOk, Computes, Carries, Outputs, Exists, BuildsAt;
    match j
    case Passthrough(c) =>
      ok, node, columns, named := Recurse(b, q, c, required);
      if ok {
        PassthroughBuilds(q, b.AsPlan(), |old(b.nodes)|, c, named);
      }
    case HashJoin(_, _) =>
      ok, node, columns, named := CompileJoin(b, q, j, required);
    case ScanJson(_, _) =>
      ok, node, columns, named := CompileScan(b, q, j, required);
    case _ =>
      ok, node, columns, named := false, 0, [], NamedScan(0);
  }

  // load_join_pipeline: the plan's root computes the required columns of the named join.
  method Load(q: Query, j: Json, outputAttrs: seq<Col>) returns (ok: bool, plan: Plan, ghost named: Named)
    requires QueryOk(q) && outputAttrs != []
    ensures ok <==> exists n :: Answers(q, j, n, outputAttrs)
    ensures forall n :: Drawn(q, j, n) ==> (ok <==> Available(q, n, outputAttrs)) && (ok ==> ReadAs(q, named, n))
    ensures ok ==> PlanOk(plan) && plan.root < |plan.nodes| && Reads(q, named, j)
    ensures ok ==> forall exact :: Meaning(plan, plan.root, exact) == Map(Project(outputAttrs), NamedRows(q, named, exact))
    ensures ok ==> |plan.nodes[plan.root].outputAttrs| == |outputAttrs| && BuildsFrom(q, plan, 0, j, named)
  {
    hide QueryOk, Outputs, Exists, Supported, RequiredOk, Reads, NamedRows, Map, IsBuild, Drawn, Available, Answers, ReadAs;
    CompilesExactly(q, j, outputAttrs);
    forall n | Drawn(q, j, n)
      ensures Supported(q, j) && RequiredOk(q, j, outputAttrs) <==> Available(q, n, outputAttrs)
      ensures forall m :: Reads(q, m, j) ==> ReadAs(q, m, n)
    {
      DrawnExactly(q, j, n, outputAttrs);
    }
    var b := new PlanBuilder();
    var node, columns;
    ok, node, columns, named := Recurse(b, q, j, outputAttrs);
    plan := Plan(b.nodes, b.inputs, node);
    RootIgnored(b.AsPlan(), plan);
    if ok {
      forall exact: bool
        ensures Meaning(plan, plan.root, exact) == Map(Project(outputAttrs), NamedRows(q, named, exact))
      {
        MeaningExtends(b.AsPlan(), plan, node, exact);
      }
      forall n | 0 <= n < |plan.nodes| && plan.nodes[n].data.JoinNode?
        ensures BuildsAt(q, plan, n, j, named)
      {
        BuildsAtKept(q, b.AsPlan(), plan, n, j, named, j, named);
      }
    }
  }

  // Pass-through operators change neither success nor, up to the picked conditions, the rows.
  method LoadBared(q: Query, j: Json, outputAttrs: seq<Col>)
      returns (ok: bool, plan: Plan, okBared: bool, planBared: Plan, ghost named: Named, ghost namedBared: Named)
    requires QueryOk(q) && outputAttrs != [] && Tidy(j)
    ensures ok <==> okBared
    ensures ok ==> PlanOk(plan) && plan.root < |plan.nodes| && PlanOk(planBared) && planBared.root < |planBared.nodes|
    ensures ok ==> SameTree(namedBared, named)
    ensures ok ==> forall exact ::
      && Meaning(plan, plan.root, exact) == Map(Project(outputAttrs), NamedRows(q, named, exact))
      && Meaning(planBared, planBared.root, exact) == Map(Project(outputAttrs), NamedRows(q, namedBared, exact))
  {
    hide QueryOk, Supported, RequiredOk, Reads, NamedRows, Map, Drawn, Available, Answers, SameTree, BuildsFrom, Meaning, PlanOk;
    CompilesExactly(q, j, outputAttrs);
    CompilesExactly(q, Bared(j), outputAttrs);
    BaredSame(q, j);
    BaredRequired(q, j, outputAttrs);
    ok, plan, named := Load(q, j, outputAttrs);
    okBared, planBared, namedBared := Load(q, Bared(j), outputAttrs);
    if ok {
      ReadAlike(q, namedBared, named, j);
    }
  }

  lemma BaredRequired(q: Query, j: Json, required: seq<Col>)
    requires Tidy(j)
    ensures RequiredOk(q, Bared(j), required) <==> RequiredOk(q, j, required)
  {
    hide Exists;
    BaredSame(q, j);
  }

  lemma RootIgnored(plan: Plan, more: Plan)
    requires PlanOk(plan) && more.nodes == plan.nodes && more.inputs == plan.inputs
    ensures PlanOk(more) && Extends(plan, more)
  {
    hide ScanOk, JoinOk;
    forall n | 0 <= n < |more.nodes|
      ensures NodeOk(more, n)
    {
      assert NodeOk(plan, n);
    }
  }
}
