// JSON plans built from trees of joins (the plans of plans.json), to say which plans compile
// (tests/read_sql.cpp) without going through the compiler's own case distinctions.
module PlanTrees {
  import opened Options
  import opened Plans
  import opened PlanCompiler

  // -------- drawing a tree --------

  // How to draw a tree: how many pass-through operators above each node, which side of a join goes below
  // a Hash node, and which relation name a scan carries beside its alias.
  datatype Style =
    | ScanStyle(above: nat, relation: Lookup)
    | JoinStyle(above: nat, buildLeft: bool, left: Style, right: Style)

  predicate Fits(n: Named, style: Style) {
    match n
    case NamedScan(_) => style.ScanStyle?
    case NamedJoin(l, r, _, _) => style.JoinStyle? && Fits(l, style.left) && Fits(r, style.right)
  }

  function Wrapped(above: nat, j: Json): Json {
    if above == 0 then j else Passthrough(Wrapped(above - 1, j))
  }

  function Draw(n: Named, style: Style): Json
    requires Fits(n, style)
  {
    match n
    case NamedScan(e) => Wrapped(style.above, ScanJson(Known(e), style.relation))
    case NamedJoin(l, r, _, _) =>
      var left, right := Draw(l, style.left), Draw(r, style.right);
      Wrapped(style.above, if style.buildLeft then HashJoin(Hash(left), right) else HashJoin(left, Hash(right)))
  }

  // Every join of the tree has its condition in the graph, between its two sides.
  predicate Joined(q: Query, n: Named) {
    n.NamedJoin? ==>
      && n.leftCol.entity in EntitiesOf(n.left) && n.rightCol.entity in EntitiesOf(n.right)
      && n.leftCol.entity in q.graph && n.rightCol.entity in q.graph[n.leftCol.entity]
      && q.graph[n.leftCol.entity][n.rightCol.entity] == Names(n.leftCol.name, n.rightCol.name)
      && Joined(q, n.left) && Joined(q, n.right)
  }

  // The columns are columns of the tree's tables.
  ghost predicate Available(q: Query, n: Named, columns: seq<Col>) {
    forall i :: 0 <= i < |columns| ==> columns[i].entity in EntitiesOf(n) && HasAttribute(q.schema(columns[i].entity), columns[i].name)
  }

  ghost predicate HasAttribute(attributes: seq<Attribute>, name: string) {
    exists k :: 0 <= k < |attributes| && attributes[k].name == name
  }

  // The same tables joined in the same shape, on whichever conditions.
  predicate SameTree(m: Named, n: Named) {
    match n
    case NamedScan(e) => m == n
    case NamedJoin(l, r, _, _) => m.NamedJoin? && SameTree(m.left, l) && SameTree(m.right, r)
  }

  // There is no other condition between the sides of a join.
  ghost predicate OnlyConditions(q: Query, n: Named) {
    n.NamedJoin? ==>
      && (forall e, f :: Condition(q, EntitiesOf(n.left), EntitiesOf(n.right), e, f) ==> e == n.leftCol.entity && f == n.rightCol.entity)
      && OnlyConditions(q, n.left) && OnlyConditions(q, n.right)
  }

  // -------- drawn trees compile --------

  lemma {:induction false} WrappedSame(q: Query, above: nat, j: Json)
    ensures Supported(q, Wrapped(above, j)) == Supported(q, j)
    ensures Entities(Wrapped(above, j)) == Entities(j) && Sources(Wrapped(above, j)) == Sources(j)
    ensures !j.Hash? ==> !Wrapped(above, j).Hash?
    ensures forall m :: Reads(q, m, Wrapped(above, j)) <==> Reads(q, m, j)
  {
    if above > 0 {
      WrappedSame(q, above - 1, j);
    }
  }

  lemma {:induction false} DrawnIsSupported(q: Query, n: Named, style: Style)
    requires Fits(n, style) && Joined(q, n)
    ensures Supported(q, Draw(n, style)) && !Draw(n, style).Hash?
    ensures Entities(Draw(n, style)) == Some(EntitiesOf(n)) && Sources(Draw(n, style)) == EntitiesOf(n)
  {
    hide HasCondition;
    match n
    case NamedScan(e) =>
      WrappedSame(q, style.above, ScanJson(Known(e), style.relation));
    case NamedJoin(l, r, lc, rc) =>
      DrawnIsSupported(q, l, style.left);
      DrawnIsSupported(q, r, style.right);
      var left, right := Draw(l, style.left), Draw(r, style.right);
      assert HasCondition(q, EntitiesOf(l), EntitiesOf(r)) by {
        ConditionThere(q, EntitiesOf(l), EntitiesOf(r), lc.entity, rc.entity);
      }
      var j := if style.buildLeft then HashJoin(Hash(left), right) else HashJoin(left, Hash(right));
      WrappedSame(q, style.above, j);
  }

  lemma ConditionThere(q: Query, a: set<nat>, b: set<nat>, e: nat, f: nat)
    requires Condition(q, a, b, e, f)
    ensures HasCondition(q, a, b)
  {
  }

  // Whatever the compiler reads in a drawn tree has its shape.
  lemma {:induction false} DrawnReads(q: Query, m: Named, n: Named, style: Style)
    requires Fits(n, style) && Reads(q, m, Draw(n, style))
    ensures SameTree(m, n) && Joined(q, m) && EntitiesOf(m) == EntitiesOf(n)
  {
    match n
    case NamedScan(e) =>
      WrappedSame(q, style.above, ScanJson(Known(e), style.relation));
    case NamedJoin(l, r, _, _) =>
      var left, right := Draw(l, style.left), Draw(r, style.right);
      DrawnNotHash(l, style.left);
      DrawnNotHash(r, style.right);
      var j := if style.buildLeft then HashJoin(Hash(left), right) else HashJoin(left, Hash(right));
      WrappedSame(q, style.above, j);
      DrawnReads(q, m.left, l, style.left);
      DrawnReads(q, m.right, r, style.right);
  }

  lemma {:induction false} DrawnNotHash(n: Named, style: Style)
    requires Fits(n, style)
    ensures !Draw(n, style).Hash?
  {
  }

  // Where no other condition is to be found, the tree itself is read.
  lemma {:induction false} OnlyReading(q: Query, m: Named, n: Named)
    requires SameTree(m, n) && Joined(q, m) && Joined(q, n) && OnlyConditions(q, n)
    ensures m == n
  {
    if n.NamedJoin? {
      OnlyReading(q, m.left, n.left);
      OnlyReading(q, m.right, n.right);
      assert Condition(q, EntitiesOf(n.left), EntitiesOf(n.right), m.leftCol.entity, m.rightCol.entity);
    }
  }

  lemma AttributeExists(q: Query, c: Col)
    ensures Exists(q, c) <==> HasAttribute(q.schema(c.entity), c.name)
  {
  }

  // What success comes to for a drawn tree.
  lemma DrawnCompiles(q: Query, n: Named, style: Style, columns: seq<Col>)
    requires Fits(n, style) && Joined(q, n)
    ensures Supported(q, Draw(n, style)) && (RequiredOk(q, Draw(n, style), columns) <==> Available(q, n, columns))
  {
    hide Exists, HasAttribute, Supported, Draw;
    DrawnIsSupported(q, n, style);
    forall i | 0 <= i < |columns|
      ensures Exists(q, columns[i]) <==> HasAttribute(q.schema(columns[i].entity), columns[i].name)
    {
      AttributeExists(q, columns[i]);
    }
  }

  // A scan alone may be named by its relation; an alias, known or not, comes first.
  lemma LoneScan(q: Query, above: nat, alias: Lookup, relation: Lookup, columns: seq<Col>)
    ensures var j := Wrapped(above, ScanJson(alias, relation));
      && (alias.Unknown? || (alias.Missing? && !relation.Known?) ==> !Supported(q, j))
      && (alias.Missing? && relation.Known? ==>
            var n := NamedScan(relation.entity);
            Supported(q, j) && (RequiredOk(q, j, columns) <==> Available(q, n, columns)) && forall m :: Reads(q, m, j) ==> m == n)
  {
    hide Exists, HasAttribute;
    WrappedSame(q, above, ScanJson(alias, relation));
    forall i | 0 <= i < |columns|
      ensures Exists(q, columns[i]) <==> HasAttribute(q.schema(columns[i].entity), columns[i].name)
    {
      AttributeExists(q, columns[i]);
    }
  }

  // -------- exactly these trees compile --------

  ghost predicate DrawnAs(q: Query, j: Json, n: Named, style: Style) {
    Fits(n, style) && Joined(q, n) && j == Draw(n, style)
  }

  ghost predicate Drawn(q: Query, j: Json, n: Named) {
    exists style :: DrawnAs(q, j, n, style)
  }

  // A scan without an alias, named by its relation.
  ghost predicate NamedByRelation(j: Json, n: Named) {
    n.NamedScan? && exists above: nat :: j == Wrapped(above, ScanJson(Missing, Known(n.entity)))
  }

  // n is what the plan joins, and it has the columns asked for.
  ghost predicate Answers(q: Query, j: Json, n: Named, columns: seq<Col>) {
    (Drawn(q, j, n) || NamedByRelation(j, n)) && Available(q, n, columns)
  }

  // How a tree that can be read is drawn.
  lemma {:induction false} StyleOf(q: Query, m: Named, j: Json) returns (style: Style)
    requires Reads(q, m, j) && Entities(j).Some?
    ensures Fits(m, style) && j == Draw(m, style)
    decreases j
  {
    match j
    case Passthrough(c) =>
      var inner := StyleOf(q, m, c);
      style := inner.(above := inner.above + 1);
      assert Wrapped(style.above, if m.NamedScan? then ScanJson(Known(m.entity), inner.relation) else j) ==
        Passthrough(Wrapped(inner.above, if m.NamedScan? then ScanJson(Known(m.entity), inner.relation) else j));
    case HashJoin(l, r) =>
      var left := StyleOf(q, m.left, if l.Hash? then l.child else l);
      var right := StyleOf(q, m.right, if r.Hash? then r.child else r);
      style := JoinStyle(0, l.Hash?, left, right);
    case ScanJson(alias, relation) =>
      style := ScanStyle(0, relation);
  }

  lemma {:induction false} SupportedReads(q: Query, j: Json) returns (m: Named)
    requires Supported(q, j)
    ensures Reads(q, m, j)
    decreases j
  {
    match j
    case Passthrough(c) => m := SupportedReads(q, c);
    case HashJoin(l, r) =>
      var pl, pr := if l.Hash? then l.child else l, if r.Hash? then r.child else r;
      var left := SupportedReads(q, pl);
      var right := SupportedReads(q, pr);
      ReadsEntities(q, left, pl);
      ReadsEntities(q, right, pr);
      var e, f :| Condition(q, Entities(pl).value, Entities(pr).value, e, f);
      m := NamedJoin(left, right, Col(e, q.graph[e][f].left), Col(f, q.graph[e][f].right));
    case ScanJson(_, _) => m := NamedScan(ScanEntity(j).value);
  }

  // A supported tree whose tables extract_entities does not know is a scan named by its relation.
  lemma {:induction false} OnlyRelation(q: Query, m: Named, j: Json) returns (above: nat)
    requires Supported(q, j) && Reads(q, m, j) && Entities(j).None?
    ensures m.NamedScan? && j == Wrapped(above, ScanJson(Missing, Known(m.entity)))
    decreases j
  {
    match j
    case Passthrough(c) =>
      above := OnlyRelation(q, m, c);
      above := above + 1;
    case ScanJson(_, _) =>
      above := 0;
  }

  // Success means that the plan is drawn from a tree with the columns asked for, or a lone relation.
  lemma CompilesExactly(q: Query, j: Json, columns: seq<Col>)
    ensures Supported(q, j) && RequiredOk(q, j, columns) <==> exists n :: Answers(q, j, n, columns)
  {
    hide Supported, RequiredOk, Available, Draw, Fits, Joined;
    if Supported(q, j) && RequiredOk(q, j, columns) {
      var m := SupportedReads(q, j);
      if Entities(j).Some? {
        var style := StyleOf(q, m, j);
        DrawnReads(q, m, m, style);
        DrawnCompiles(q, m, style, columns);
        assert DrawnAs(q, j, m, style);
      } else {
        var above := OnlyRelation(q, m, j);
        LoneScan(q, above, Missing, Known(m.entity), columns);
      }
      assert Answers(q, j, m, columns);
    }
    forall n | Answers(q, j, n, columns)
      ensures Supported(q, j) && RequiredOk(q, j, columns)
    {
      if Drawn(q, j, n) {
        var style :| DrawnAs(q, j, n, style);
        DrawnCompiles(q, n, style, columns);
      } else {
        var above: nat :| j == Wrapped(above, ScanJson(Missing, Known(n.entity)));
        LoneScan(q, above, Missing, Known(n.entity), columns);
      }
    }
  }

  // For a drawn tree success is having the columns, and the tree is what is read.
  lemma DrawnExactly(q: Query, j: Json, n: Named, columns: seq<Col>)
    requires Drawn(q, j, n)
    ensures Supported(q, j) && RequiredOk(q, j, columns) <==> Available(q, n, columns)
    ensures forall m :: Reads(q, m, j) ==> ReadAs(q, m, n)
  {
    hide Supported, RequiredOk, Available, Draw, Fits, Joined, Reads, SameTree, OnlyConditions;
    var style :| DrawnAs(q, j, n, style);
    DrawnCompiles(q, n, style, columns);
    forall m | Reads(q, m, j)
      ensures ReadAs(q, m, n)
    {
      DrawnReads(q, m, n, style);
      if OnlyConditions(q, n) {
        OnlyReading(q, m, n);
      }
    }
  }

  // m is n up to the picked conditions, and n itself where there is nothing to pick.
  ghost predicate ReadAs(q: Query, m: Named, n: Named) {
    SameTree(m, n) && Joined(q, m) && (OnlyConditions(q, n) ==> m == n)
  }

  // -------- without pass-through operators --------

  function Bared(j: Json): Json {
    match j
    case Passthrough(c) => Bared(c)
    case HashJoin(l, r) => HashJoin(Bared(l), Bared(r))
    case OtherJoin(l, r) => OtherJoin(Bared(l), Bared(r))
    case Hash(c) => Hash(Bared(c))
    case ScanJson(_, _) => j
    case OtherNode => j
  }

  // No pass-through operator stands between a join and its Hash node.
  predicate Tidy(j: Json) {
    match j
    case Passthrough(c) => Tidy(c)
    case HashJoin(l, r) => (Bared(l).Hash? ==> l.Hash?) && (Bared(r).Hash? ==> r.Hash?) && Tidy(l) && Tidy(r)
    case OtherJoin(_, _) => true
    case Hash(c) => Tidy(c)
    case ScanJson(_, _) => true
    case OtherNode => true
  }

  lemma {:induction false} BaredSame(q: Query, j: Json)
    requires Tidy(j)
    ensures Entities(Bared(j)) == Entities(j) && Supported(q, Bared(j)) == Supported(q, j)
    ensures Sources(Bared(j)) == Sources(j)
    ensures forall m :: Reads(q, m, Bared(j)) <==> Reads(q, m, j)
    decreases j
  {
    hide HasCondition;
    match j
    case Passthrough(c) => BaredSame(q, c);
    case HashJoin(l, r) =>
      BaredSame(q, if l.Hash? then l.child else l);
      BaredSame(q, if r.Hash? then r.child else r);
    case Hash(c) => BaredSame(q, c);
    case _ =>
  }

  // Readings of one tree have one shape.
  lemma {:induction false} ReadAlike(q: Query, m: Named, n: Named, j: Json)
    requires Reads(q, m, j) && Reads(q, n, j)
    ensures SameTree(m, n)
    decreases j
  {
    match j
    case Passthrough(c) => ReadAlike(q, m, n, c);
    case HashJoin(l, r) =>
      ReadAlike(q, m.left, n.left, if l.Hash? then l.child else l);
      ReadAlike(q, m.right, n.right, if r.Hash? then r.child else r);
    case ScanJson(_, _) =>
  }

  // Between a join and its Hash node a pass-through operator does make a difference.
  lemma UntidyIsRefused(q: Query, e: nat, f: nat)
    requires e in q.graph && f in q.graph[e]
    ensures var j := HashJoin(Passthrough(Hash(ScanJson(Known(e), Missing))), ScanJson(Known(f), Missing));
      !Supported(q, j) && Supported(q, Bared(j))
  {
    ConditionThere(q, {e}, {f}, e, f);
    var left, right := ScanJson(Known(e), Missing), ScanJson(Known(f), Missing);
    assert Bared(Passthrough(Hash(left))) == Bared(Hash(left)) == Hash(left);
    assert Bared(HashJoin(Passthrough(Hash(left)), right)) == HashJoin(Hash(left), right);
    assert Entities(left) == Some({e}) && Entities(right) == Some({f}) && Supported(q, left) && Supported(q, right);
  }
}
