// The join graph that parse_sql builds from the united columns (tests/read_sql.cpp).
module JoinGraph {
  import opened DisjointSets

  // Two different columns in one set.
  predicate Joined(root: seq<nat>, p: Pair) {
    p.fst < p.snd < |root| && root[p.fst] == root[p.snd]
  }

  // The conditions p and q are about the same pair of tables.
  predicate SameTables(entity: seq<nat>, p: Pair, q: Pair)
    requires p.fst < |entity| && p.snd < |entity| && q.fst < |entity| && q.snd < |entity|
  {
    || (entity[p.fst] == entity[q.fst] && entity[p.snd] == entity[q.snd])
    || (entity[p.fst] == entity[q.snd] && entity[p.snd] == entity[q.fst])
  }

  predicate InRange(entity: seq<nat>, p: Pair) {
    p.fst < |entity| && p.snd < |entity|
  }

  // The key of an edge of the graph comes from one of these conditions.
  ghost predicate FromCondition(entity: seq<nat>, done: set<Pair>, key: Pair) {
    exists p :: p in done && InRange(entity, p) && (key == Pair(entity[p.fst], entity[p.snd]) || key == Pair(entity[p.snd], entity[p.fst]))
  }

  // A condition is in the graph, in both directions.
  predicate InGraph(graph: map<Pair, Pair>, entity: seq<nat>, p: Pair)
    requires InRange(entity, p)
  {
    var e, f := entity[p.fst], entity[p.snd];
    && Pair(e, f) in graph && graph[Pair(e, f)] == p
    && Pair(f, e) in graph && (e != f ==> graph[Pair(f, e)] == Pair(p.snd, p.fst))
  }

  // The graph holds these conditions, each in both directions, and nothing else.
  ghost predicate GraphIs(graph: map<Pair, Pair>, entity: seq<nat>, done: set<Pair>) {
    && (forall p :: p in done ==> InRange(entity, p) && InGraph(graph, entity, p))
    && (forall key :: key in graph ==> FromCondition(entity, done, key))
  }

  ghost predicate Clash(entity: seq<nat>, root: seq<nat>) {
    exists p, q :: Joined(root, p) && Joined(root, q) && p != q && InRange(entity, p) && InRange(entity, q) && SameTables(entity, p, q)
  }

  // One join condition; ok is false for "At least two conditions between a same pair of tables."
  method AddCondition(graph: map<Pair, Pair>, entity: seq<nat>, i: nat, j: nat, ghost done: set<Pair>) returns (ok: bool, graph': map<Pair, Pair>)
    requires GraphIs(graph, entity, done) && i < j < |entity| && Pair(i, j) !in done
    ensures ok ==> GraphIs(graph', entity, done + {Pair(i, j)})
    ensures !ok ==> exists q :: q in done && InRange(entity, q) && SameTables(entity, Pair(i, j), q)
  {
    var left, right := entity[i], entity[j];
    graph' := graph;
    if Pair(left, right) in graph {
      ok := false;
      assert FromCondition(entity, done, Pair(left, right));
    } else {
      ok := true;
      Symmetric(graph, entity, done, left, right);
      graph' := graph'[Pair(left, right) := Pair(i, j)];
      if Pair(right, left) !in graph' {
        graph' := graph'[Pair(right, left) := Pair(j, i)];
      }
      Added(graph, graph', entity, done, Pair(i, j));
    }
  }

  // The graph is symmetric.
  lemma Symmetric(graph: map<Pair, Pair>, entity: seq<nat>, done: set<Pair>, e: nat, f: nat)
    requires GraphIs(graph, entity, done)
    ensures Pair(f, e) in graph ==> Pair(e, f) in graph
  {
    if Pair(f, e) in graph {
      assert FromCondition(entity, done, Pair(f, e));
      var p :| p in done && InRange(entity, p) && (Pair(f, e) == Pair(entity[p.fst], entity[p.snd]) || Pair(f, e) == Pair(entity[p.snd], entity[p.fst]));
      assert InGraph(graph, entity, p);
    }
  }

  lemma Added(graph: map<Pair, Pair>, graph': map<Pair, Pair>, entity: seq<nat>, done: set<Pair>, p: Pair)
    requires GraphIs(graph, entity, done) && InRange(entity, p)
    requires Pair(entity[p.fst], entity[p.snd]) !in graph && Pair(entity[p.snd], entity[p.fst]) !in graph
    requires graph'.Keys == graph.Keys + {Pair(entity[p.fst], entity[p.snd]), Pair(entity[p.snd], entity[p.fst])}
    requires forall key :: key in graph ==> graph'[key] == graph[key]
    requires InGraph(graph', entity, p)
    ensures GraphIs(graph', entity, done + {p})
  {
    forall q | q in done + {p}
      ensures InRange(entity, q) && InGraph(graph', entity, q)
    {
      if q in done {
        assert InGraph(graph, entity, q);
      }
    }
    forall key | key in graph'
      ensures FromCondition(entity, done + {p}, key)
    {
      if key in graph {
        assert FromCondition(entity, done, key);
        var q :| q in done && InRange(entity, q) && (key == Pair(entity[q.fst], entity[q.snd]) || key == Pair(entity[q.snd], entity[q.fst]));
        assert q in done + {p};
      } else {
        assert p in done + {p};
      }
    }
  }

  // The members of one set, in ascending order.
  predicate Ascending(items: seq<nat>) {
    forall a, b :: 0 <= a < b < |items| ==> items[a] < items[b]
  }

  // joined_columns: the columns before n grouped by their root.
  ghost predicate Grouped(groups: map<nat, seq<nat>>, root: seq<nat>, n: nat) {
    && n <= |root|
    && (forall r :: r in groups ==> GroupOk(groups[r], root, n, r))
    && (forall i :: 0 <= i < n ==> root[i] in groups && i in groups[root[i]])
  }

  ghost predicate GroupOk(items: seq<nat>, root: seq<nat>, n: nat, r: nat) {
    Ascending(items) && forall a :: 0 <= a < |items| ==> items[a] < n <= |root| && root[items[a]] == r
  }

  method Group(dsu: DSU) returns (groups: map<nat, seq<nat>>)
    requires dsu.Valid()
    modifies dsu`pa
    ensures dsu.Valid() && |dsu.pa| == |old(dsu.pa)| && Grouped(groups, dsu.root, |dsu.root|)
  {
    hide Forest, Closed;
    ForestSize(dsu.pa, dsu.rank, dsu.root);
    groups := map[];
    for i := 0 to |dsu.pa|
      invariant dsu.Valid() && |dsu.pa| == |old(dsu.pa)| == |dsu.root| && Grouped(groups, dsu.root, i)
    {
      var set_ := dsu.Find(i);
      if set_ in groups {
        groups := groups[set_ := groups[set_] + [i]];
      } else {
        groups := groups[set_ := [i]];
      }
    }
  }

  // The conditions of the groups already visited.
  ghost predicate Visited(root: seq<nat>, roots: set<nat>, done: set<Pair>) {
    forall p :: p in done <==> Joined(root, p) && root[p.fst] in roots
  }

  // Plus those of the group at hand, up to the positions (a, b).
  ghost predicate Visiting(root: seq<nat>, roots: set<nat>, items: seq<nat>, a: nat, b: nat, done: set<Pair>) {
    forall p :: p in done <==> (Joined(root, p) && root[p.fst] in roots) || Earlier(items, a, b, p)
  }

  ghost predicate Earlier(items: seq<nat>, a: nat, b: nat, p: Pair) {
    exists x, y :: EarlierAt(items, a, b, p, x, y)
  }

  predicate EarlierAt(items: seq<nat>, a: nat, b: nat, p: Pair, x: nat, y: nat) {
    x < y < |items| && (x < a || (x == a && y < b)) && p == Pair(items[x], items[y])
  }

  ghost predicate NoClash(entity: seq<nat>, done: set<Pair>) {
    forall p, q :: p in done && q in done && p != q && InRange(entity, p) && InRange(entity, q) ==> !SameTables(entity, p, q)
  }

  lemma EarlierNext(items: seq<nat>, a: nat, b: nat, q: Pair)
    requires a < b < |items|
    ensures Earlier(items, a, b + 1, q) <==> Earlier(items, a, b, q) || q == Pair(items[a], items[b])
  {
    if Earlier(items, a, b + 1, q) {
      var x, y :| EarlierAt(items, a, b + 1, q, x, y);
      assert EarlierAt(items, a, b, q, x, y) || (x == a && y == b);
    }
    if Earlier(items, a, b, q) {
      var x, y :| EarlierAt(items, a, b, q, x, y);
      assert EarlierAt(items, a, b + 1, q, x, y);
    }
    if q == Pair(items[a], items[b]) {
      assert EarlierAt(items, a, b + 1, q, a, b);
    }
  }

  lemma AscendingInjective(items: seq<nat>, i: nat, j: nat)
    requires Ascending(items) && i < |items| && j < |items| && items[i] == items[j]
    ensures i == j
  {
  }

  lemma NotEarlier(items: seq<nat>, a: nat, b: nat)
    requires Ascending(items) && a < b < |items|
    ensures !Earlier(items, a, b, Pair(items[a], items[b]))
  {
    forall x: nat, y: nat
      ensures !EarlierAt(items, a, b, Pair(items[a], items[b]), x, y)
    {
      if x < |items| && items[x] == items[a] {
        AscendingInjective(items, x, a);
      }
      if y < |items| && items[y] == items[b] {
        AscendingInjective(items, y, b);
      }
    }
  }

  lemma NextPair(root: seq<nat>, roots: set<nat>, items: seq<nat>, r: nat, a: nat, b: nat, done: set<Pair>)
    requires GroupOk(items, root, |root|, r) && r !in roots && a < b < |items|
    requires Visiting(root, roots, items, a, b, done)
    ensures Pair(items[a], items[b]) !in done && Joined(root, Pair(items[a], items[b]))
    ensures Visiting(root, roots, items, a, b + 1, done + {Pair(items[a], items[b])})
  {
    hide Earlier;
    NotEarlier(items, a, b);
    forall q
      ensures Earlier(items, a, b + 1, q) <==> Earlier(items, a, b, q) || q == Pair(items[a], items[b])
    {
      EarlierNext(items, a, b, q);
    }
  }

  lemma NextRow(root: seq<nat>, roots: set<nat>, items: seq<nat>, a: nat, done: set<Pair>)
    requires Visiting(root, roots, items, a, |items|, done)
    ensures Visiting(root, roots, items, a + 1, a + 2, done)
  {
    forall q
      ensures Earlier(items, a, |items|, q) <==> Earlier(items, a + 1, a + 2, q)
    {
      if Earlier(items, a, |items|, q) {
        var x, y :| EarlierAt(items, a, |items|, q, x, y);
        assert EarlierAt(items, a + 1, a + 2, q, x, y);
      }
      if Earlier(items, a + 1, a + 2, q) {
        var x, y :| EarlierAt(items, a + 1, a + 2, q, x, y);
        assert EarlierAt(items, a, |items|, q, x, y);
      }
    }
  }

  lemma FirstRow(root: seq<nat>, roots: set<nat>, items: seq<nat>, done: set<Pair>)
    requires Visited(root, roots, done)
    ensures Visiting(root, roots, items, 0, 1, done)
  {
  }

  lemma LastRow(root: seq<nat>, roots: set<nat>, items: seq<nat>, r: nat, a: nat, done: set<Pair>)
    requires GroupOk(items, root, |root|, r) && a + 1 >= |items|
    requires forall i :: 0 <= i < |root| && root[i] == r ==> i in items
    requires Visiting(root, roots, items, a, a + 1, done)
    ensures Visited(root, roots + {r}, done)
  {
    forall p | Joined(root, p) && root[p.fst] == r
      ensures Earlier(items, a, a + 1, p)
    {
      var x :| 0 <= x < |items| && items[x] == p.fst;
      var y :| 0 <= y < |items| && items[y] == p.snd;
      assert EarlierAt(items, a, a + 1, p, x, y);
    }
  }

  // The loop over the sets, in any order.  It succeeds exactly when no two join conditions, written
  // or implied, are about the same pair of tables; then the graph holds every condition both ways.
  method Build(dsu: DSU, entity: seq<nat>) returns (ok: bool, graph: map<Pair, Pair>, ghost done: set<Pair>)
    requires dsu.Valid() && |entity| == |dsu.pa|
    modifies dsu`pa
    ensures dsu.Valid() && |dsu.root| == |entity|
    ensures ok <==> !Clash(entity, dsu.root)
    ensures ok ==> GraphIs(graph, entity, done) && forall p :: p in done <==> Joined(dsu.root, p)
  {
    hide Forest, Closed, GraphIs, Visiting, Visited, Grouped, InRange, SameTables;
    var groups := Group(dsu);
    ForestSize(dsu.pa, dsu.rank, dsu.root);
    ghost var root := dsu.root;
    graph, done := map[], {};
    var rest := groups.Keys;
    ghost var seen: set<nat> := {};
    NothingYet(entity, root);
    while rest != {}
      invariant dsu.Valid() && |dsu.pa| == |entity|
      invariant seen + rest == groups.Keys && seen !! rest && GraphIs(graph, entity, done)
      invariant Visited(root, seen, done) && NoClash(entity, done)
    {
      var r :| r in rest;
      rest := rest - {r};
      var items := groups[r];
      GroupFacts(groups, root, r);
      FirstRow(root, seen, items, done);
      var a: nat := 0;
      while a + 1 < |items|
        invariant dsu.Valid() && |dsu.pa| == |entity|
        invariant GraphIs(graph, entity, done) && NoClash(entity, done) && Visiting(root, seen, items, a, a + 1, done)
      {
        for b := a + 1 to |items|
          invariant dsu.Valid() && |dsu.pa| == |entity|
          invariant GraphIs(graph, entity, done) && NoClash(entity, done) && Visiting(root, seen, items, a, b, done)
        {
          NextPair(root, seen, items, r, a, b, done);
          VisitingJoined(root, seen, items, r, a, b, done);
          ok, graph := AddCondition(graph, entity, items[a], items[b], done);
          if !ok {
            ClashFound(entity, root, seen, items, r, a, b, done);
            return;
          }
          NoNewClash(graph, entity, done, Pair(items[a], items[b]));
          done := done + {Pair(items[a], items[b])};
        }
        NextRow(root, seen, items, a, done);
        a := a + 1;
      }
      LastRow(root, seen, items, r, a, done);
      seen := seen + {r};
    }
    ok := true;
    AllVisited(groups, entity, root, seen, done);
  }

  lemma NothingYet(entity: seq<nat>, root: seq<nat>)
    ensures GraphIs(map[], entity, {}) && Visited(root, {}, {})
  {
  }

  lemma GroupFacts(groups: map<nat, seq<nat>>, root: seq<nat>, r: nat)
    requires Grouped(groups, root, |root|) && r in groups
    ensures GroupOk(groups[r], root, |root|, r)
    ensures forall i :: 0 <= i < |root| && root[i] == r ==> i in groups[r]
  {
  }

  lemma VisitingJoined(root: seq<nat>, roots: set<nat>, items: seq<nat>, r: nat, a: nat, b: nat, done: set<Pair>)
    requires GroupOk(items, root, |root|, r) && Visiting(root, roots, items, a, b, done)
    ensures forall p :: p in done ==> Joined(root, p)
  {
  }

  lemma ClashFound(entity: seq<nat>, root: seq<nat>, roots: set<nat>, items: seq<nat>, r: nat, a: nat, b: nat, done: set<Pair>)
    requires GroupOk(items, root, |root|, r) && a < b < |items| && |entity| == |root|
    requires Visiting(root, roots, items, a, b, done) && Pair(items[a], items[b]) !in done && Joined(root, Pair(items[a], items[b]))
    requires exists q :: q in done && InRange(entity, q) && SameTables(entity, Pair(items[a], items[b]), q)
    ensures Clash(entity, root)
  {
    VisitingJoined(root, roots, items, r, a, b, done);
    var q :| q in done && InRange(entity, q) && SameTables(entity, Pair(items[a], items[b]), q);
    assert Joined(root, q) && q != Pair(items[a], items[b]);
  }

  // In the graph, every pair of tables has one condition.
  lemma NoNewClash(graph: map<Pair, Pair>, entity: seq<nat>, done: set<Pair>, p: Pair)
    requires GraphIs(graph, entity, done + {p}) && NoClash(entity, done) && p.fst < p.snd
    requires forall q :: q in done ==> q.fst < q.snd
    ensures NoClash(entity, done + {p})
  {
    forall x, y | x in done + {p} && y in done + {p} && x != y && InRange(entity, x) && InRange(entity, y)
      ensures !SameTables(entity, x, y)
    {
      assert InGraph(graph, entity, x) && InGraph(graph, entity, y);
    }
  }

  lemma AllVisited(groups: map<nat, seq<nat>>, entity: seq<nat>, root: seq<nat>, seen: set<nat>, done: set<Pair>)
    requires Grouped(groups, root, |root|) && seen == groups.Keys && Visited(root, seen, done) && NoClash(entity, done)
    ensures forall p :: p in done <==> Joined(root, p)
    ensures !Clash(entity, root)
  {
  }
}
