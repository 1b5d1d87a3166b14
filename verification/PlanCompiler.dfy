// Plan compilation (tests/read_sql.cpp, load_join_pipeline): a tree of joins over named columns becomes
// a positional plan whose nodes carry only the columns that are needed above them.
module PlanCompiler {
  import opened Options
  import opened SeqFacts
  import opened Tables
  import opened Late
  import opened NestedLoops
  import opened Plans
  import LateStrings
  import VarcharColumn

  // -------- inputs --------

  // A column of a table of the query (a TableEntity, here a number).
  datatype Col = Col(entity: nat, name: string)

  datatype Attribute = Attribute(name: string, dtype: DataType)

  // How a scan node names its table.
  datatype Lookup = Missing | Unknown | Known(entity: nat)

  // The JSON plan: operators that are passed through, joins, the Hash node below one child of a hash
  // join, scans, and anything else.
  datatype Json =
    | Passthrough(child: Json)
    | HashJoin(left: Json, right: Json)
    | OtherJoin(left: Json, right: Json)
    | Hash(child: Json)
    | ScanJson(alias: Lookup, relation: Lookup)
    | OtherNode

  datatype Names = Names(left: string, right: string)

  type JoinGraph = map<nat, map<nat, Names>>

  datatype Query = Query(schema: nat -> seq<Attribute>, table: nat -> ColumnarTable, graph: JoinGraph)

  // The first attribute with this name.
  function NameIndex(attributes: seq<Attribute>, name: string): (k: nat)
    ensures k <= |attributes|
    ensures k < |attributes| ==> attributes[k].name == name
    ensures forall i :: 0 <= i < k ==> attributes[i].name != name
    decreases |attributes|
  {
    if attributes == [] then 0
    else if attributes[0].name == name then 0
    else 1 + NameIndex(attributes[1..], name)
  }

  predicate Exists(q: Query, c: Col) {
    NameIndex(q.schema(c.entity), c.name) < |q.schema(c.entity)|
  }

  function TypeOf(q: Query, c: Col): DataType
    requires Exists(q, c)
  {
    q.schema(c.entity)[NameIndex(q.schema(c.entity), c.name)].dtype
  }

  // The tables are as the schema says, and join conditions compare existing columns of one type.
  predicate TableOk(attributes: seq<Attribute>, t: ColumnarTable) {
    && |t.columns| == |attributes|
    && forall k :: 0 <= k < |attributes| ==>
      t.columns[k].dtype == attributes[k].dtype && Scannable(t.columns[k]) && |ColumnRows(t.columns[k])| == t.numRows
  }

  ghost predicate QueryOk(q: Query) {
    && (forall e :: TableOk(q.schema(e), q.table(e)))
    && (forall e, f :: e in q.graph && f in q.graph[e] ==>
          && Exists(q, Col(e, q.graph[e][f].left)) && Exists(q, Col(f, q.graph[e][f].right))
          && TypeOf(q, Col(e, q.graph[e][f].left)) == TypeOf(q, Col(f, q.graph[e][f].right)))
  }

  // -------- which trees compile --------

  // The child to join: what lies below a Hash node.
  function Below(j: Json): Json {
    if j.Hash? then j.child else j
  }

  // extract_entities; None for its exceptions.
  function Entities(j: Json): Option<set<nat>>
    decreases j
  {
    match j
    case Passthrough(c) => Entities(c)
    case HashJoin(l, r) =>
      if l.Hash? == r.Hash? then None
      else
        var a, b := Entities(if l.Hash? then l.child else l), Entities(if r.Hash? then r.child else r);
        if a.None? || b.None? then None else Some(a.value + b.value)
    case ScanJson(Known(e), _) => Some({e})
    case _ => None
  }

  // The table of a scan.
  function ScanEntity(j: Json): Option<nat>
    requires j.ScanJson?
  {
    match j.alias
    case Known(e) => Some(e)
    case Unknown => None
    case Missing => if j.relation.Known? then Some(j.relation.entity) else None
  }

  // The graph has a condition between the two sides.
  predicate Condition(q: Query, a: set<nat>, b: set<nat>, e: nat, f: nat) {
    e in a && f in b && e in q.graph && f in q.graph[e]
  }

  ghost predicate HasCondition(q: Query, a: set<nat>, b: set<nat>) {
    exists e, f :: Condition(q, a, b, e, f)
  }

  ghost predicate Supported(q: Query, j: Json)
    decreases j
  {
    match j
    case Passthrough(c) => Supported(q, c)
    case HashJoin(l, r) =>
      && l.Hash? != r.Hash?
      && var pl, pr := if l.Hash? then l.child else l, if r.Hash? then r.child else r;
      && Entities(pl).Some? && Entities(pr).Some?
      && HasCondition(q, Entities(pl).value, Entities(pr).value)
      && Supported(q, pl) && Supported(q, pr)
    case ScanJson(_, _) => ScanEntity(j).Some?
    case _ => false
  }

  // The tables whose columns a tree has.
  function Sources(j: Json): set<nat> {
    if j.Passthrough? then Sources(j.child)
    else if j.ScanJson? then (if ScanEntity(j).Some? then {ScanEntity(j).value} else {})
    else if Entities(j).Some? then Entities(j).value else {}
  }

  predicate RequiredOk(q: Query, j: Json, required: seq<Col>) {
    forall i :: 0 <= i < |required| ==> required[i].entity in Sources(j) && Exists(q, required[i])
  }

  // -------- named joins --------

  // The tree with the join conditions that were picked.
  datatype Named = NamedScan(entity: nat) | NamedJoin(left: Named, right: Named, leftCol: Col, rightCol: Col)

  // A row with all columns, by name.
  type NamedRow = Col -> Field

  function EntitiesOf(n: Named): set<nat> {
    match n
    case NamedScan(e) => {e}
    case NamedJoin(l, r, _, _) => EntitiesOf(l) + EntitiesOf(r)
  }

  ghost function ColumnFields(c: Column, exact: bool): seq<Field>
    requires Scannable(c)
  {
    if exact then ScanFields(c) else TrueFields(c)
  }

  // Row i of a table, by name.
  ghost function TableRow(q: Query, entity: nat, i: nat, exact: bool): NamedRow
    requires QueryOk(q)
  {
    (c: Col) =>
      if c.entity == entity && Exists(q, c) then CellOf(q, entity, NameIndex(q.schema(entity), c.name), i, exact) else Field.Null
  }

  ghost function CellOf(q: Query, entity: nat, k: nat, i: nat, exact: bool): Field
    requires QueryOk(q) && k < |q.schema(entity)|
  {
    assert TableOk(q.schema(entity), q.table(entity));
    var fields := ColumnFields(q.table(entity).columns[k], exact);
    if i < |fields| then fields[i] else Field.Null
  }

  function NamedMatch(l: Col, r: Col): (NamedRow, NamedRow) -> bool {
    (x: NamedRow, y: NamedRow) => x(l).Int? && x(l) == y(r)
  }

  // The columns of both rows.
  function NamedOut(left: set<nat>): (NamedRow, NamedRow) -> NamedRow {
    (x: NamedRow, y: NamedRow) => (c: Col) => if c.entity in left then x(c) else y(c)
  }

  // The join of whole tables on named columns.
  ghost function NamedRows(q: Query, n: Named, exact: bool): seq<NamedRow>
    requires QueryOk(q)
  {
    match n
    case NamedScan(e) => seq(q.table(e).numRows, i requires 0 <= i => TableRow(q, e, i, exact))
    case NamedJoin(l, r, lc, rc) =>
      Pairs(NamedRows(q, l, exact), NamedRows(q, r, exact), NamedMatch(lc, rc), NamedOut(EntitiesOf(l)))
  }

  // SELECT required
  function Project(required: seq<Col>): NamedRow -> FieldRow {
    (x: NamedRow) => seq(|required|, j requires 0 <= j < |required| => x(required[j]))
  }

  // n is a reading of the tree: same shape, and every condition is one of the join graph between the
  // two sides.
  ghost predicate Reads(q: Query, n: Named, j: Json)
    decreases j
  {
    match j
    case Passthrough(c) => Reads(q, n, c)
    case HashJoin(l, r) =>
      && n.NamedJoin? && l.Hash? != r.Hash? && Entities(j).Some?
      && Reads(q, n.left, if l.Hash? then l.child else l) && Reads(q, n.right, if r.Hash? then r.child else r)
      && Condition(q, EntitiesOf(n.left), EntitiesOf(n.right), n.leftCol.entity, n.rightCol.entity)
      && q.graph[n.leftCol.entity][n.rightCol.entity] == Names(n.leftCol.name, n.rightCol.name)
    case ScanJson(_, _) => ScanEntity(j).Some? && n == NamedScan(ScanEntity(j).value)
    case _ => false
  }

  lemma {:induction false} ReadsEntities(q: Query, n: Named, j: Json)
    requires Reads(q, n, j)
    ensures EntitiesOf(n) == Sources(j)
    ensures Entities(j).Some? ==> EntitiesOf(n) == Entities(j).value
    decreases j
  {
    match j
    case Passthrough(c) => ReadsEntities(q, n, c);
    case HashJoin(l, r) =>
      ReadsEntities(q, n.left, if l.Hash? then l.child else l);
      ReadsEntities(q, n.right, if r.Hash? then r.child else r);
    case ScanJson(_, _) =>
  }

  // -------- what a compiled node means --------

  // The positional columns of a node stand for these named ones.
  ghost predicate Carries(q: Query, attrs: seq<Attr>, required: seq<Col>) {
    && |attrs| == |required|
    && forall j :: 0 <= j < |required| ==> Exists(q, required[j]) && attrs[j].dtype == TypeOf(q, required[j])
  }

  // The node computes the projection of the named join.
  ghost predicate Computes(q: Query, plan: Plan, n: nat, named: Named, required: seq<Col>)
    requires QueryOk(q) && PlanOk(plan) && n < |plan.nodes|
  {
    forall exact :: Meaning(plan, n, exact) == Map(Project(required), NamedRows(q, named, exact))
  }

  // A scan node's attributes for these columns of one table.
  function ScanAttrs(q: Query, required: seq<Col>): (attrs: seq<Attr>)
    requires forall j :: 0 <= j < |required| ==> Exists(q, required[j])
    ensures |attrs| == |required|
    ensures forall j :: 0 <= j < |required| ==>
      attrs[j] == Attr(NameIndex(q.schema(required[j].entity), required[j].name), TypeOf(q, required[j]))
  {
    seq(|required|, j requires 0 <= j < |required| =>
      Attr(NameIndex(q.schema(required[j].entity), required[j].name), TypeOf(q, required[j])))
  }

  lemma ScanAttrsOk(q: Query, inputs: seq<ColumnarTable>, table: nat, entity: nat, required: seq<Col>)
    requires QueryOk(q) && table < |inputs| && inputs[table] == q.table(entity)
    requires forall j :: 0 <= j < |required| ==> required[j].entity == entity && Exists(q, required[j])
    ensures ScanOk(inputs, table, ScanAttrs(q, required)) && Carries(q, ScanAttrs(q, required), required)
  {
    hide Scannable, ColumnRows;
    assert TableOk(q.schema(entity), q.table(entity));
  }

  lemma ScanComputes(q: Query, plan: Plan, n: nat, table: nat, entity: nat, required: seq<Col>)
    requires QueryOk(q) && PlanOk(plan) && n < |plan.nodes|
    requires plan.nodes[n].data == ScanNode(table) && table < |plan.inputs| && plan.inputs[table] == q.table(entity)
    requires forall j :: 0 <= j < |required| ==> required[j].entity == entity && Exists(q, required[j])
    requires plan.nodes[n].outputAttrs == ScanAttrs(q, required)
    ensures Computes(q, plan, n, NamedScan(entity), required)
  {
    hide Scannable, ColumnRows, ScanFields, TrueFields;
    ScanAttrsOk(q, plan.inputs, table, entity, required);
    var attrs := plan.nodes[n].outputAttrs;
    forall exact: bool
      ensures Meaning(plan, n, exact) == Map(Project(required), NamedRows(q, NamedScan(entity), exact))
    {
      var rows := NamedRows(q, NamedScan(entity), exact);
      assert NodeOk(plan, n);
      var columns := ScanColumnsOf(plan.inputs, table, attrs, exact);
      forall i | 0 <= i < q.table(entity).numRows
        ensures Meaning(plan, n, exact)[i] == Project(required)(rows[i])
      {
        forall j | 0 <= j < |required|
          ensures columns[j][i] == rows[i](required[j])
        {
          assert |columns[j]| == q.table(entity).numRows;
        }
      }
    }
  }

  // In a VARCHAR column no value is an integer.
  lemma {:induction false} NamedTyped(q: Query, n: Named, exact: bool, i: nat, c: Col)
    requires QueryOk(q) && i < |NamedRows(q, n, exact)| && Exists(q, c) && NamedRows(q, n, exact)[i](c).Int?
    ensures TypeOf(q, c) == INT32
    decreases n
  {
    hide Pairs, RowPairs;
    match n
    case NamedScan(e) =>
      assert TableOk(q.schema(e), q.table(e));
      StringsAreNotInts(q.table(e).columns[NameIndex(q.schema(e), c.name)], exact);
    case NamedJoin(l, r, lc, rc) =>
      PairsFrom(NamedRows(q, l, exact), NamedRows(q, r, exact), NamedMatch(lc, rc), NamedOut(EntitiesOf(l)), i);
      var a, b :| 0 <= a < |NamedRows(q, l, exact)| && 0 <= b < |NamedRows(q, r, exact)|
        && NamedRows(q, n, exact)[i] == NamedOut(EntitiesOf(l))(NamedRows(q, l, exact)[a], NamedRows(q, r, exact)[b]);
      if c.entity in EntitiesOf(l) {
        NamedTyped(q, l, exact, a, c);
      } else {
        NamedTyped(q, r, exact, b, c);
      }
  }

  lemma StringsAreNotInts(c: Column, exact: bool)
    requires Scannable(c)
    ensures c.dtype == VARCHAR ==> forall i :: 0 <= i < |ColumnFields(c, exact)| ==> !ColumnFields(c, exact)[i].Int?
  {
    hide VarcharColumn.PagesOk, LateStrings.RereadRows, VarcharColumn.ColumnRows;
  }

  lemma {:induction false} NoMatches<A, B, T>(ls: seq<A>, rs: seq<B>, match_: (A, B) -> bool, out: (A, B) -> T)
    requires forall a, b :: 0 <= a < |ls| && 0 <= b < |rs| ==> !match_(ls[a], rs[b])
    ensures Pairs(ls, rs, match_, out) == []
  {
    hide RowPairs;
    if ls != [] {
      NoMatches(ls[..|ls| - 1], rs, match_, out);
      NoRowMatches(ls[|ls| - 1], rs, match_, out);
    }
  }

  lemma {:induction false} NoRowMatches<A, B, T>(l: A, rs: seq<B>, match_: (A, B) -> bool, out: (A, B) -> T)
    requires forall b :: 0 <= b < |rs| ==> !match_(l, rs[b])
    ensures RowPairs(l, rs, match_, out) == []
  {
    if rs != [] {
      NoRowMatches(l, rs[..|rs| - 1], match_, out);
    }
  }

  // Where the required columns sit among the columns of both children.
  ghost predicate Placed(required: seq<Col>, columns: seq<Col>, attrs: seq<Attr>) {
    && |attrs| == |required|
    && forall j :: 0 <= j < |required| ==> attrs[j].index < |columns| && columns[attrs[j].index] == required[j]
  }

  // The columns of the left child are those of its tables, and any other comes from the right.
  ghost predicate Sided(left: set<nat>, leftRequired: seq<Col>, rightRequired: seq<Col>, required: seq<Col>, attrs: seq<Attr>)
    requires |attrs| == |required|
  {
    forall j :: 0 <= j < |required| ==> (required[j].entity in left <==> attrs[j].index < |leftRequired|)
  }

  lemma JoinPair(left: set<nat>, leftRequired: seq<Col>, rightRequired: seq<Col>, required: seq<Col>, attrs: seq<Attr>,
                 lc: Col, rc: Col, la: nat, ra: nat, x: NamedRow, y: NamedRow)
    requires Placed(required, leftRequired + rightRequired, attrs)
    requires Sided(left, leftRequired, rightRequired, required, attrs)
    requires la < |leftRequired| && leftRequired[la] == lc && ra < |rightRequired| && rightRequired[ra] == rc
    ensures var f, g := Project(leftRequired), Project(rightRequired);
      && NamedMatch(lc, rc)(x, y) == FieldMatch(la, ra)(f(x), g(y))
      && Project(required)(NamedOut(left)(x, y)) == FieldOut(attrs)(f(x), g(y))
  {
    var f, g := Project(leftRequired), Project(rightRequired);
    var a, b := Project(required)(NamedOut(left)(x, y)), FieldOut(attrs)(f(x), g(y));
    forall j | 0 <= j < |required|
      ensures a[j] == b[j]
    {
      assert (f(x) + g(y))[attrs[j].index] == if attrs[j].index < |leftRequired| then x(required[j]) else y(required[j]);
    }
    assert a == b;
  }

  // What the compiler has established about a join node's children and columns.
  ghost predicate JoinShape(q: Query, plan: Plan, n: nat, named: Named, required: seq<Col>, leftRequired: seq<Col>, rightRequired: seq<Col>)
    requires QueryOk(q) && PlanOk(plan) && n < |plan.nodes|
  {
    var node, attrs := plan.nodes[n].data, plan.nodes[n].outputAttrs;
    && node.JoinNode? && named.NamedJoin? && node.left < n && node.right < n
    && Computes(q, plan, node.left, named.left, leftRequired) && Computes(q, plan, node.right, named.right, rightRequired)
    && Carries(q, plan.nodes[node.left].outputAttrs, leftRequired) && Carries(q, plan.nodes[node.right].outputAttrs, rightRequired)
    && Placed(required, leftRequired + rightRequired, attrs)
    && Sided(EntitiesOf(named.left), leftRequired, rightRequired, required, attrs)
    && node.leftAttr < |leftRequired| && leftRequired[node.leftAttr] == named.leftCol
    && node.rightAttr < |rightRequired| && rightRequired[node.rightAttr] == named.rightCol
  }

  lemma JoinComputes(q: Query, plan: Plan, n: nat, named: Named, required: seq<Col>, leftRequired: seq<Col>, rightRequired: seq<Col>)
    requires QueryOk(q) && PlanOk(plan) && n < |plan.nodes|
    requires JoinShape(q, plan, n, named, required, leftRequired, rightRequired)
    ensures Computes(q, plan, n, named, required)
  {
    hide QueryOk, PlanOk, Carries, Sided, Pairs;
    forall exact: bool
      ensures Meaning(plan, n, exact) == Map(Project(required), NamedRows(q, named, exact))
    {
      JoinMeans(q, plan, n, named, required, leftRequired, rightRequired, exact);
    }
  }

  lemma JoinMeans(q: Query, plan: Plan, n: nat, named: Named, required: seq<Col>, leftRequired: seq<Col>, rightRequired: seq<Col>, exact: bool)
    requires QueryOk(q) && PlanOk(plan) && n < |plan.nodes|
    requires JoinShape(q, plan, n, named, required, leftRequired, rightRequired)
    ensures Meaning(plan, n, exact) == Map(Project(required), NamedRows(q, named, exact))
  {
    hide QueryOk, PlanOk, Meaning, Sided, Placed, Pairs, Map, TypeOf, FieldMatch, FieldOut, NamedMatch, NamedOut, Project;
    var node, attrs := plan.nodes[n].data, plan.nodes[n].outputAttrs;
    var ls, rs := NamedRows(q, named.left, exact), NamedRows(q, named.right, exact);
    MeaningOfJoin(plan, n, exact);
    if plan.nodes[node.left].outputAttrs[node.leftAttr].dtype != INT32 {
      forall a, b | 0 <= a < |ls| && 0 <= b < |rs|
        ensures !NamedMatch(named.leftCol, named.rightCol)(ls[a], rs[b])
      {
        NotAnInteger(q, named, exact, a, rs[b]);
      }
      NoMatches(ls, rs, NamedMatch(named.leftCol, named.rightCol), NamedOut(EntitiesOf(named.left)));
      NoImages(Project(required));
    } else {
      PairsProject(EntitiesOf(named.left), leftRequired, rightRequired, required, attrs,
                   named.leftCol, named.rightCol, node.leftAttr, node.rightAttr, ls, rs);
    }
  }

  lemma MeaningOfJoin(plan: Plan, n: nat, exact: bool)
    requires PlanOk(plan) && n < |plan.nodes| && plan.nodes[n].data.JoinNode?
    ensures var node := plan.nodes[n].data;
      && node.left < n && node.right < n && node.leftAttr < |plan.nodes[node.left].outputAttrs|
      && Meaning(plan, n, exact) ==
           if plan.nodes[node.left].outputAttrs[node.leftAttr].dtype != INT32 then []
           else Pairs(Meaning(plan, node.left, exact), Meaning(plan, node.right, exact),
                      FieldMatch(node.leftAttr, node.rightAttr), FieldOut(plan.nodes[n].outputAttrs))
  {
    hide Pairs, FieldMatch, FieldOut;
    assert NodeOk(plan, n);
  }

  // Projecting the named join is joining the projections.
  lemma PairsProject(left: set<nat>, leftRequired: seq<Col>, rightRequired: seq<Col>, required: seq<Col>, attrs: seq<Attr>,
                     lc: Col, rc: Col, la: nat, ra: nat, ls: seq<NamedRow>, rs: seq<NamedRow>)
    requires Placed(required, leftRequired + rightRequired, attrs) && Sided(left, leftRequired, rightRequired, required, attrs)
    requires la < |leftRequired| && leftRequired[la] == lc && ra < |rightRequired| && rightRequired[ra] == rc
    ensures Map(Project(required), Pairs(ls, rs, NamedMatch(lc, rc), NamedOut(left)))
         == Pairs(Map(Project(leftRequired), ls), Map(Project(rightRequired), rs), FieldMatch(la, ra), FieldOut(attrs))
  {
    hide Sided, Placed, Pairs, Map, FieldMatch, FieldOut, NamedMatch, NamedOut, Project;
    var f, g, h := Project(leftRequired), Project(rightRequired), Project(required);
    var m, o := NamedMatch(lc, rc), NamedOut(left);
    forall a, b | 0 <= a < |ls| && 0 <= b < |rs|
      ensures m(ls[a], rs[b]) == FieldMatch(la, ra)(f(ls[a]), g(rs[b]))
      ensures h(o(ls[a], rs[b])) == FieldOut(attrs)(f(ls[a]), g(rs[b]))
    {
      JoinPair(left, leftRequired, rightRequired, required, attrs, lc, rc, la, ra, ls[a], rs[b]);
    }
    PairsMap(ls, rs, m, o, f, g, h, FieldMatch(la, ra), FieldOut(attrs));
  }

  // Keys that are not INT32 never match.
  lemma NotAnInteger(q: Query, named: Named, exact: bool, a: nat, y: NamedRow)
    requires QueryOk(q) && named.NamedJoin? && Exists(q, named.leftCol) && TypeOf(q, named.leftCol) != INT32
    requires a < |NamedRows(q, named.left, exact)|
    ensures !NamedMatch(named.leftCol, named.rightCol)(NamedRows(q, named.left, exact)[a], y)
  {
    hide TypeOf, Pairs;
    if NamedRows(q, named.left, exact)[a](named.leftCol).Int? {
      NamedTyped(q, named.left, exact, a, named.leftCol);
    }
  }

  // -------- growing plans --------

  // Later nodes and inputs change nothing for earlier nodes.
  ghost predicate Extends(plan: Plan, more: Plan) {
    && |plan.nodes| <= |more.nodes| && |plan.inputs| <= |more.inputs|
    && (forall n :: 0 <= n < |plan.nodes| ==> more.nodes[n] == plan.nodes[n])
    && (forall t :: 0 <= t < |plan.inputs| ==> more.inputs[t] == plan.inputs[t])
  }

  lemma {:induction false} MeaningExtends(plan: Plan, more: Plan, n: nat, exact: bool)
    requires PlanOk(plan) && PlanOk(more) && Extends(plan, more) && n < |plan.nodes|
    ensures Meaning(more, n, exact) == Meaning(plan, n, exact)
    decreases n
  {
    hide ScanOk, JoinOk, Pairs;
    assert NodeOk(plan, n) && NodeOk(more, n);
    var node := plan.nodes[n];
    match node.data
    case ScanNode(table) =>
      ScanExtends(plan, more, n, table, exact);
    case JoinNode(_, left, right, _, _) =>
      JoinChildren(plan, n);
      MeaningExtends(plan, more, left, exact);
      MeaningExtends(plan, more, right, exact);
  }

  lemma JoinChildren(plan: Plan, n: nat)
    requires PlanOk(plan) && n < |plan.nodes| && plan.nodes[n].data.JoinNode?
    ensures plan.nodes[n].data.left < n && plan.nodes[n].data.right < n
  {
    assert NodeOk(plan, n);
  }

  lemma ScanExtends(plan: Plan, more: Plan, n: nat, table: nat, exact: bool)
    requires PlanOk(plan) && PlanOk(more) && Extends(plan, more) && n < |plan.nodes| && plan.nodes[n].data == ScanNode(table)
    ensures Meaning(more, n, exact) == Meaning(plan, n, exact)
  {
    hide ScanFields, TrueFields, Scannable, ColumnRows;
    assert NodeOk(plan, n) && NodeOk(more, n);
    assert plan.inputs[table] == more.inputs[table];
    assert ScanColumnsOf(plan.inputs, table, plan.nodes[n].outputAttrs, exact) == ScanColumnsOf(more.inputs, table, plan.nodes[n].outputAttrs, exact);
  }

  lemma ComputesExtends(q: Query, plan: Plan, more: Plan, n: nat, named: Named, required: seq<Col>)
    requires QueryOk(q) && PlanOk(plan) && PlanOk(more) && Extends(plan, more) && n < |plan.nodes|
    requires Computes(q, plan, n, named, required)
    ensures Computes(q, more, n, named, required)
  {
    hide QueryOk, PlanOk, Meaning, NamedRows, Map;
    forall exact: bool
      ensures Meaning(more, n, exact) == Map(Project(required), NamedRows(q, named, exact))
    {
      MeaningExtends(plan, more, n, exact);
    }
  }
}
