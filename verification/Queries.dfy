// From the united columns of a query and its tree of joins to the rows of the result: parse_sql and
// load_join_pipeline (tests/read_sql.cpp), then execute (src/execute.cpp).
module Queries {
  import opened SeqFacts
  import opened Tables
  import opened Plans
  import opened PlanCompiler
  import opened PlanTrees
  import opened PlanBuilding
  import opened JoinConditions
  import opened DisjointSets
  import Graphs = JoinGraph
  import Execute
  import Scan

  // -------- the join graph by names --------

  function Sources(graph: map<Pair, Pair>): set<nat> {
    set k | k in graph :: k.fst
  }

  function Neighbours(graph: map<Pair, Pair>, e: nat): set<nat> {
    set k | k in graph && k.fst == e :: k.snd
  }

  // The graph on column numbers, as maps from table to table to column names.
  function ByName(graph: map<Pair, Pair>, columns: seq<Col>): JoinGraph
    requires forall k :: k in graph ==> graph[k].fst < |columns| && graph[k].snd < |columns|
  {
    map e | e in Sources(graph) ::
      map f | f in Neighbours(graph, e) :: Names(columns[graph[Pair(e, f)].fst].name, columns[graph[Pair(e, f)].snd].name)
  }

  predicate Tabled(entity: seq<nat>, columns: seq<Col>) {
    |entity| == |columns| && forall i :: 0 <= i < |columns| ==> entity[i] == columns[i].entity
  }

  // What an edge of the graph compares: two connected columns of its tables.
  lemma EdgeColumns(graph: map<Pair, Pair>, entity: seq<nat>, done: set<Pair>, key: Pair)
    requires Graphs.GraphIs(graph, entity, done) && key in graph
    ensures var p := graph[key];
      && p.fst < |entity| && p.snd < |entity| && entity[p.fst] == key.fst && entity[p.snd] == key.snd
      && (p in done || Pair(p.snd, p.fst) in done)
  {
    assert Graphs.FromCondition(entity, done, key);
    var p :| p in done && Graphs.InRange(entity, p)
      && (key == Pair(entity[p.fst], entity[p.snd]) || key == Pair(entity[p.snd], entity[p.fst]));
    assert Graphs.InGraph(graph, entity, p);
  }

  lemma ByNameIs(graph: map<Pair, Pair>, columns: seq<Col>, e: nat, f: nat)
    requires forall k :: k in graph ==> graph[k].fst < |columns| && graph[k].snd < |columns|
    ensures var g := ByName(graph, columns);
      && (e in g && f in g[e] <==> Pair(e, f) in graph)
      && (Pair(e, f) in graph ==> g[e][f] == Names(columns[graph[Pair(e, f)].fst].name, columns[graph[Pair(e, f)].snd].name))
  {
    if Pair(e, f) in graph {
      assert Pair(e, f).fst == e && Pair(e, f).snd == f;
    }
  }

  // The united columns exist and have equal types, two by two.
  predicate Typed(q: Query, columns: seq<Col>, pairs: seq<Pair>) {
    && (forall i :: 0 <= i < |columns| ==> Exists(q, columns[i]))
    && forall k :: 0 <= k < |pairs| ==>
      pairs[k].fst < |columns| && pairs[k].snd < |columns| && TypeOf(q, columns[pairs[k].fst]) == TypeOf(q, columns[pairs[k].snd])
  }

  lemma {:induction false} PathTyped(q: Query, columns: seq<Col>, pairs: seq<Pair>, path: seq<nat>)
    requires Typed(q, columns, pairs) && Path(pairs, path) && path != []
    requires forall i :: 0 <= i < |path| ==> path[i] < |columns|
    ensures TypeOf(q, columns[path[0]]) == TypeOf(q, columns[path[|path| - 1]])
  {
    hide Exists, TypeOf;
    if |path| > 1 {
      var last := |path| - 1;
      assert Edge(pairs, path[last - 1], path[last]);
      assert forall i :: 0 <= i < last - 1 ==> path[..last][i] == path[i];
      PathTyped(q, columns, pairs, path[..last]);
    }
  }

  lemma ConnectedTyped(q: Query, columns: seq<Col>, pairs: seq<Pair>, a: nat, b: nat)
    requires Typed(q, columns, pairs) && a < |columns| && b < |columns| && Connected(pairs, a, b)
    ensures TypeOf(q, columns[a]) == TypeOf(q, columns[b])
  {
    hide TypeOf, Exists;
    var path :| PathFrom(pairs, path, a, b);
    if |path| > 1 {
      PathInRange(|columns|, pairs, path);
    }
    PathTyped(q, columns, pairs, path);
  }

  // The graph of the united columns, as JoinGraph.Build leaves it.
  ghost predicate Mirrors(graph: map<Pair, Pair>, entity: seq<nat>, root: seq<nat>, pairs: seq<Pair>, done: set<Pair>) {
    && Graphs.GraphIs(graph, entity, done) && (forall p :: p in done <==> Graphs.Joined(root, p))
    && Closed(root, pairs) && |root| == |entity|
  }

  // An edge of the named graph compares two columns connected by the united pairs.
  lemma EdgeConnects(graph: map<Pair, Pair>, entity: seq<nat>, root: seq<nat>, pairs: seq<Pair>, done: set<Pair>, columns: seq<Col>,
                     e: nat, f: nat) returns (a: nat, b: nat)
    requires Mirrors(graph, entity, root, pairs, done) && Tabled(entity, columns) && Pair(e, f) in graph
    ensures a < |columns| && b < |columns| && graph[Pair(e, f)] == Pair(a, b) && Connected(pairs, a, b)
    ensures a != b && columns[a].entity == e && columns[b].entity == f
  {
    hide Connected;
    EdgeColumns(graph, entity, done, Pair(e, f));
    a, b := graph[Pair(e, f)].fst, graph[Pair(e, f)].snd;
  }

  // The named graph has only conditions between existing columns of one type.
  lemma GraphOk(q: Query, graph: map<Pair, Pair>, entity: seq<nat>, root: seq<nat>, pairs: seq<Pair>, done: set<Pair>, columns: seq<Col>)
    requires Mirrors(graph, entity, root, pairs, done) && Tabled(entity, columns) && Typed(q, columns, pairs)
    requires forall e :: TableOk(q.schema(e), q.table(e))
    requires InColumns(graph, columns) && q.graph == ByName(graph, columns)
    ensures QueryOk(q)
  {
    hide TableOk, Mirrors, Connected, Exists, TypeOf, ByName;
    forall e, f | e in q.graph && f in q.graph[e]
      ensures Exists(q, Col(e, q.graph[e][f].left)) && Exists(q, Col(f, q.graph[e][f].right))
      ensures TypeOf(q, Col(e, q.graph[e][f].left)) == TypeOf(q, Col(f, q.graph[e][f].right))
    {
      ByNameIs(graph, columns, e, f);
      var a, b := EdgeConnects(graph, entity, root, pairs, done, columns, e, f);
      assert Col(e, q.graph[e][f].left) == columns[a] && Col(f, q.graph[e][f].right) == columns[b];
      ConnectedTyped(q, columns, pairs, a, b);
    }
  }

  predicate InColumns(graph: map<Pair, Pair>, columns: seq<Col>) {
    forall k :: k in graph ==> graph[k].fst < |columns| && graph[k].snd < |columns|
  }

  // The join conditions as they are written in the query.
  predicate WrittenHold(columns: seq<Col>, pairs: seq<Pair>, row: NamedRow)
    requires forall k :: 0 <= k < |pairs| ==> pairs[k].fst < |columns| && pairs[k].snd < |columns|
  {
    forall k :: 0 <= k < |pairs| && pairs[k].fst != pairs[k].snd ==> Equal(row, columns[pairs[k].fst], columns[pairs[k].snd])
  }

  lemma {:induction false} PathEqual(columns: seq<Col>, pairs: seq<Pair>, row: NamedRow, path: seq<nat>)
    requires forall k :: 0 <= k < |pairs| ==> pairs[k].fst < |columns| && pairs[k].snd < |columns|
    requires WrittenHold(columns, pairs, row) && Path(pairs, path) && path != []
    requires forall i :: 0 <= i < |path| ==> path[i] < |columns|
    ensures path[0] == path[|path| - 1] || Equal(row, columns[path[0]], columns[path[|path| - 1]])
  {
    if |path| > 1 {
      var last := |path| - 1;
      assert Edge(pairs, path[last - 1], path[last]);
      assert forall i :: 0 <= i < last ==> path[..last][i] == path[i];
      PathEqual(columns, pairs, row, path[..last]);
      EdgeEqual(columns, pairs, row, path[last - 1], path[last]);
    }
  }

  lemma EdgeEqual(columns: seq<Col>, pairs: seq<Pair>, row: NamedRow, a: nat, b: nat)
    requires forall k :: 0 <= k < |pairs| ==> pairs[k].fst < |columns| && pairs[k].snd < |columns|
    requires WrittenHold(columns, pairs, row) && Edge(pairs, a, b)
    ensures a < |columns| && b < |columns| && (a == b || Equal(row, columns[a], columns[b]))
  {
    if Pair(a, b) in pairs {
      var k :| 0 <= k < |pairs| && pairs[k] == Pair(a, b);
    } else {
      var k :| 0 <= k < |pairs| && pairs[k] == Pair(b, a);
    }
  }

  // Two different columns of one set are compared by the graph.
  lemma JoinedEqual(q: Query, graph: map<Pair, Pair>, entity: seq<nat>, root: seq<nat>, pairs: seq<Pair>, done: set<Pair>, columns: seq<Col>,
                    entities: set<nat>, row: NamedRow, a: nat, b: nat)
    requires Mirrors(graph, entity, root, pairs, done) && Tabled(entity, columns)
    requires InColumns(graph, columns) && q.graph == ByName(graph, columns) && AllHold(q, entities, row)
    requires a < b < |columns| && root[a] == root[b] && columns[a].entity in entities && columns[b].entity in entities
    ensures Equal(row, columns[a], columns[b])
  {
    hide Connected, ByName;
    var p := Pair(a, b);
    assert p in done && Graphs.InGraph(graph, entity, p);
    ByNameIs(graph, columns, columns[a].entity, columns[b].entity);
    assert Among(q, entities, columns[a].entity, columns[b].entity);
  }

  // The conditions of the graph between all tables of the query are the written ones.
  lemma GraphIsWritten(q: Query, graph: map<Pair, Pair>, entity: seq<nat>, root: seq<nat>, pairs: seq<Pair>, done: set<Pair>, columns: seq<Col>,
                       entities: set<nat>, row: NamedRow)
    requires Mirrors(graph, entity, root, pairs, done) && Tabled(entity, columns)
    requires InColumns(graph, columns) && q.graph == ByName(graph, columns)
    requires forall i :: 0 <= i < |columns| ==> columns[i].entity in entities
    ensures forall k :: 0 <= k < |pairs| ==> pairs[k].fst < |columns| && pairs[k].snd < |columns|
    ensures AllHold(q, entities, row) <==> WrittenHold(columns, pairs, row)
  {
    hide Connected, ByName;
    assert forall k :: 0 <= k < |pairs| ==> pairs[k] in pairs;
    if AllHold(q, entities, row) {
      forall k | 0 <= k < |pairs| && pairs[k].fst != pairs[k].snd
        ensures Equal(row, columns[pairs[k].fst], columns[pairs[k].snd])
      {
        var a, b := pairs[k].fst, pairs[k].snd;
        assert Edge(pairs, a, b);
        ConnectedEdge(pairs, a, b);
        if a < b {
          JoinedEqual(q, graph, entity, root, pairs, done, columns, entities, row, a, b);
        } else {
          JoinedEqual(q, graph, entity, root, pairs, done, columns, entities, row, b, a);
        }
      }
    }
    if WrittenHold(columns, pairs, row) {
      WrittenIsAsked(q, graph, entity, root, pairs, done, columns, entities, row);
    }
  }

  lemma WrittenIsAsked(q: Query, graph: map<Pair, Pair>, entity: seq<nat>, root: seq<nat>, pairs: seq<Pair>, done: set<Pair>, columns: seq<Col>,
                       entities: set<nat>, row: NamedRow)
    requires Mirrors(graph, entity, root, pairs, done) && Tabled(entity, columns)
    requires InColumns(graph, columns) && q.graph == ByName(graph, columns)
    requires forall k :: 0 <= k < |pairs| ==> pairs[k].fst < |columns| && pairs[k].snd < |columns|
    requires WrittenHold(columns, pairs, row)
    ensures AllHold(q, entities, row)
  {
    hide Mirrors, ByName, WrittenHold, Path;
    forall e, f | Among(q, entities, e, f)
      ensures Equal(row, Col(e, q.graph[e][f].left), Col(f, q.graph[e][f].right))
    {
      ByNameIs(graph, columns, e, f);
      var a, b := EdgeConnects(graph, entity, root, pairs, done, columns, e, f);
      assert Col(e, q.graph[e][f].left) == columns[a] && Col(f, q.graph[e][f].right) == columns[b];
      var path :| PathFrom(pairs, path, a, b);
      assert |path| > 1;
      PathInRange(|columns|, pairs, path);
      PathEqual(columns, pairs, row, path);
    }
  }

  // -------- the whole way --------

  // parse_sql, from the united columns on: the query with its join graph, or an exception when two
  // conditions are about the same pair of tables.
  method Parse(dsu: DSU, entity: seq<nat>, columns: seq<Col>, schema: nat -> seq<Attribute>, table: nat -> ColumnarTable)
      returns (ok: bool, q: Query, ghost graph: map<Pair, Pair>, ghost done: set<Pair>)
    requires dsu.Valid() && |dsu.pa| == |columns| && Tabled(entity, columns)
    requires (forall e :: TableOk(schema(e), table(e))) && Typed(Query(schema, table, map[]), columns, dsu.pairs)
    modifies dsu`pa
    ensures dsu.Valid() && |dsu.root| == |entity|
    ensures ok <==> !Graphs.Clash(entity, dsu.root)
    ensures ok ==> QueryOk(q) && Mirrors(graph, entity, dsu.root, dsu.pairs, done)
    ensures ok ==> InColumns(graph, columns) && q == Query(schema, table, ByName(graph, columns))
  {
    hide TableOk, Exists, TypeOf, Graphs.GraphIs, Forest, Connected;
    q := Query(schema, table, map[]);
    graph, done := map[], {};
    var pairGraph;
    ok, pairGraph, done := Graphs.Build(dsu, entity);
    if ok {
      graph := pairGraph;
      forall k | k in graph
        ensures graph[k].fst < |columns| && graph[k].snd < |columns|
      {
        EdgeColumns(graph, entity, done, k);
      }
      q := Query(schema, table, ByName(pairGraph, columns));
      SameTypes(Query(schema, table, map[]), q, columns, dsu.pairs);
      GraphOk(q, graph, entity, dsu.root, dsu.pairs, done, columns);
    }
  }

  lemma SameTypes(q: Query, q': Query, columns: seq<Col>, pairs: seq<Pair>)
    requires Typed(q, columns, pairs) && q'.schema == q.schema
    ensures Typed(q', columns, pairs)
  {
  }

  // No build side of the tree outgrows 32-bit positions, whichever conditions are picked.
  ghost predicate SmallTree(q: Query, j: Json)
    requires QueryOk(q)
  {
    forall named, m :: Reads(q, named, j) && IsBuild(j, named, m) ==> |NamedRows(q, m, true)| <= 0x7FFF_0000
  }

  lemma SmallTreeBuilds(q: Query, plan: Plan, j: Json, named: Named)
    requires QueryOk(q) && PlanOk(plan) && SmallTree(q, j) && Reads(q, named, j) && BuildsFrom(q, plan, 0, j, named)
    ensures Execute.SmallBuilds(plan)
  {
    hide QueryOk, PlanOk, Reads, IsBuild, NamedRows, Meaning, Map;
    forall n | 0 <= n < |plan.nodes| && plan.nodes[n].data.JoinNode?
      ensures Execute.SmallBuildAt(plan, n)
    {
      assert BuildsAt(q, plan, n, j, named);
      var m, required :| BuildsThis(q, plan, n, j, named, m, required);
      assert Meaning(plan, BuildChild(plan.nodes[n].data), true) == Map(Project(required), NamedRows(q, m, true));
    }
  }

  // From a tree of joins to the rows of the result.
  method Run(q: Query, j: Json, outputAttrs: seq<Col>, env: Plan -> Execute.Env)
      returns (ok: bool, plan: Plan, end: Scan.ScanEnd, t: ColumnarTable, ghost named: Named)
    requires QueryOk(q) && outputAttrs != [] && SmallTree(q, j)
    requires forall p :: PlanOk(p) ==> Execute.EnvOk(p, env(p))
    ensures ok <==> exists n :: Answers(q, j, n, outputAttrs)
    ensures forall n :: Drawn(q, j, n) ==> (ok <==> Available(q, n, outputAttrs)) && (ok ==> ReadAs(q, named, n))
    ensures ok ==> Reads(q, named, j) && PlanOk(plan) && plan.root < |plan.nodes| && (end.Done? <==> Execute.CanScan(plan, plan.root))
    ensures ok && end.Done? ==> Execute.WellShaped(t) && |t.columns| == |outputAttrs|
    ensures ok && end.Done? ==>
              multiset(Execute.TableRows(t)) == multiset(Map(Project(outputAttrs), NamedRows(q, named, true)))
    ensures ok && end.Done? && AllSurvive(plan) && Unrepeated(named) && Implied(q, named) ==>
              multiset(Execute.TableRows(t)) == multiset(Map(Project(outputAttrs), Where(q, named, false)))
  {
    hide QueryOk, PlanOk, Drawn, Available, Answers, ReadAs, Reads, NamedRows, Map, Meaning, Execute.EnvOk, Execute.CanScan, Execute.TableRows,
         Execute.WellShaped, AllSurvive, Unrepeated, Implied, Where, SmallTree, Execute.SmallBuilds, BuildsFrom;
    end, t := Scan.Throws, ColumnarTable(0, []);
    ok, plan, named := Load(q, j, outputAttrs);
    if ok {
      SmallTreeBuilds(q, plan, j, named);
      end, t := Execute.Execute(plan, env(plan));
      if Unrepeated(named) && Implied(q, named) {
        ImpliedIsWhere(q, named, j, false);
      }
    }
  }
}
