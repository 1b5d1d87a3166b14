// What a tree of named joins selects, in terms of the join graph (tests/read_sql.cpp): a join keeps one
// condition between its sides, while the query asks for all of them.
module JoinConditions {
  import opened Bits
  import opened SeqFacts
  import opened NestedLoops
  import opened Options
  import opened Tables
  import opened Late
  import opened PlanCompiler
  import opened PageBytes
  import FixedColumn
  import VarcharWriter

  // -------- selecting from the product of all tables --------

  function Always<A, B>(): (A, B) -> bool {
    (x: A, y: B) => true
  }

  // FROM all tables of the tree
  ghost function Cross(q: Query, n: Named, exact: bool): seq<NamedRow>
    requires QueryOk(q)
  {
    match n
    case NamedScan(_) => NamedRows(q, n, exact)
    case NamedJoin(l, r, _, _) => Pairs(Cross(q, l, exact), Cross(q, r, exact), Always(), NamedOut(EntitiesOf(l)))
  }

  predicate Equal(row: NamedRow, l: Col, r: Col) {
    row(l).Int? && row(l) == row(r)
  }

  // The conditions that the joins of the tree were given.
  predicate PickedHold(n: Named, row: NamedRow) {
    n.NamedJoin? ==> Equal(row, n.leftCol, n.rightCol) && PickedHold(n.left, row) && PickedHold(n.right, row)
  }

  function PickedTest(n: Named): NamedRow -> bool {
    (row: NamedRow) => PickedHold(n, row)
  }

  // A condition of the graph between two of these tables.
  predicate Among(q: Query, entities: set<nat>, e: nat, f: nat) {
    e in entities && f in entities && e in q.graph && f in q.graph[e]
  }

  // All of them hold.
  ghost predicate AllHold(q: Query, entities: set<nat>, row: NamedRow) {
    forall e, f :: Among(q, entities, e, f) ==> Equal(row, Col(e, q.graph[e][f].left), Col(f, q.graph[e][f].right))
  }

  ghost function WhereTest(q: Query, entities: set<nat>): NamedRow -> bool {
    (row: NamedRow) => AllHold(q, entities, row)
  }

  // SELECT * FROM all tables of the tree WHERE all conditions of the graph between them
  ghost function Where(q: Query, n: Named, exact: bool): seq<NamedRow>
    requires QueryOk(q)
  {
    Filter(Cross(q, n, exact), WhereTest(q, EntitiesOf(n)))
  }

  // No table is scanned twice.
  predicate Unrepeated(n: Named) {
    n.NamedJoin? ==> EntitiesOf(n.left) !! EntitiesOf(n.right) && Unrepeated(n.left) && Unrepeated(n.right)
  }

  // Every condition is between the two sides of its join.
  predicate WellSided(n: Named) {
    n.NamedJoin? ==>
      && n.leftCol.entity in EntitiesOf(n.left) && n.rightCol.entity in EntitiesOf(n.right)
      && WellSided(n.left) && WellSided(n.right)
  }

  lemma {:induction false} ReadsSided(q: Query, n: Named, j: Json)
    requires Reads(q, n, j)
    ensures WellSided(n)
    decreases j
  {
    match j
    case Passthrough(c) => ReadsSided(q, n, c);
    case HashJoin(l, r) =>
      ReadsSided(q, n.left, if l.Hash? then l.child else l);
      ReadsSided(q, n.right, if r.Hash? then r.child else r);
    case ScanJson(_, _) =>
  }

  // -------- pushing the conditions down --------

  lemma {:induction false} RowFilter<A, B, T>(l: A, rs: seq<B>, p: B -> bool, match_: (A, B) -> bool, out: (A, B) -> T, test: T -> bool)
    requires forall b :: 0 <= b < |rs| ==> (test(out(l, rs[b])) <==> p(rs[b]) && match_(l, rs[b]))
    ensures RowPairs(l, Filter(rs, p), match_, out) == Filter(RowPairs(l, rs, Always(), out), test)
  {
    if rs != [] {
      var init, r := rs[..|rs| - 1], rs[|rs| - 1];
      RowFilter(l, init, p, match_, out, test);
      FilterSnoc(RowPairs(l, init, Always(), out), out(l, r), test);
      RowPairsSnoc(l, Filter(init, p), r, match_, out);
      assert test(out(l, r)) <==> p(r) && match_(l, r);
      if p(r) {
        assert Filter(rs, p) == Filter(init, p) + [r];
      } else {
        assert Filter(rs, p) == Filter(init, p);
      }
    }
  }

  lemma {:induction false} RowNone<A, B, T>(l: A, rs: seq<B>, out: (A, B) -> T, test: T -> bool)
    requires forall b :: 0 <= b < |rs| ==> !test(out(l, rs[b]))
    ensures Filter(RowPairs(l, rs, Always(), out), test) == []
  {
    if rs != [] {
      RowNone(l, rs[..|rs| - 1], out, test);
      FilterSnoc(RowPairs(l, rs[..|rs| - 1], Always(), out), out(l, rs[|rs| - 1]), test);
    }
  }

  // Joining filtered rows is filtering the product.
  lemma {:induction false} PairsFilter<A, B, T>(ls: seq<A>, rs: seq<B>, p: A -> bool, p': B -> bool,
                                                match_: (A, B) -> bool, out: (A, B) -> T, test: T -> bool)
    requires forall a, b :: 0 <= a < |ls| && 0 <= b < |rs| ==> (test(out(ls[a], rs[b])) <==> p(ls[a]) && p'(rs[b]) && match_(ls[a], rs[b]))
    ensures Pairs(Filter(ls, p), Filter(rs, p'), match_, out) == Filter(Pairs(ls, rs, Always(), out), test)
  {
    hide RowPairs;
    if ls != [] {
      var init, l := ls[..|ls| - 1], ls[|ls| - 1];
      PairsFilter(init, rs, p, p', match_, out, test);
      FilterConcat(Pairs(init, rs, Always(), out), RowPairs(l, rs, Always(), out), test);
      if p(l) {
        RowFilter(l, rs, p', match_, out, test);
        PairsSnoc(Filter(init, p), l, Filter(rs, p'), match_, out);
      } else {
        RowNone(l, rs, out, test);
        assert Filter(ls, p) == Filter(init, p);
      }
    }
  }

  // The picked conditions look at columns of the tree's tables only.
  lemma {:induction false} PickedDependsOn(n: Named, row: NamedRow, row': NamedRow)
    requires WellSided(n) && forall c: Col :: c.entity in EntitiesOf(n) ==> row(c) == row'(c)
    ensures PickedHold(n, row) <==> PickedHold(n, row')
  {
    if n.NamedJoin? {
      PickedDependsOn(n.left, row, row');
      PickedDependsOn(n.right, row, row');
    }
  }

  // The named joins yield the rows of the product that meet the picked conditions.
  lemma {:induction false} JoinsFilter(q: Query, n: Named, exact: bool)
    requires QueryOk(q) && Unrepeated(n) && WellSided(n)
    ensures NamedRows(q, n, exact) == Filter(Cross(q, n, exact), PickedTest(n))
  {
    hide QueryOk, Pairs, Filter;
    match n
    case NamedScan(_) =>
      FilterAll(Cross(q, n, exact), PickedTest(n));
    case NamedJoin(l, r, lc, rc) =>
      JoinsFilter(q, l, exact);
      JoinsFilter(q, r, exact);
      var ls, rs := Cross(q, l, exact), Cross(q, r, exact);
      var out := NamedOut(EntitiesOf(l));
      forall a, b | 0 <= a < |ls| && 0 <= b < |rs|
        ensures PickedTest(n)(out(ls[a], rs[b])) <==>
          PickedTest(l)(ls[a]) && PickedTest(r)(rs[b]) && NamedMatch(lc, rc)(ls[a], rs[b])
      {
        PickedDependsOn(l, out(ls[a], rs[b]), ls[a]);
        PickedDependsOn(r, out(ls[a], rs[b]), rs[b]);
      }
      PairsFilter(ls, rs, PickedTest(l), PickedTest(r), NamedMatch(lc, rc), out, PickedTest(n));
  }

  // -------- the conditions that were not picked --------

  lemma {:induction false} PickedIsAsked(q: Query, n: Named, j: Json, entities: set<nat>, row: NamedRow)
    requires Reads(q, n, j) && EntitiesOf(n) <= entities && AllHold(q, entities, row)
    ensures PickedHold(n, row)
    decreases j
  {
    match j
    case Passthrough(c) => PickedIsAsked(q, n, c, entities, row);
    case HashJoin(l, r) =>
      PickedIsAsked(q, n.left, if l.Hash? then l.child else l, entities, row);
      PickedIsAsked(q, n.right, if r.Hash? then r.child else r, entities, row);
      assert Among(q, entities, n.leftCol.entity, n.rightCol.entity);
    case ScanJson(_, _) =>
  }

  // A stronger test selects the same exactly when everything selected passes it.
  lemma {:induction false} FilterStronger<T>(s: seq<T>, p: T -> bool, w: T -> bool)
    requires forall x :: w(x) ==> p(x)
    ensures Filter(s, p) == Filter(s, w) <==> forall i :: 0 <= i < |Filter(s, p)| ==> w(Filter(s, p)[i])
  {
    if forall i :: 0 <= i < |Filter(s, p)| ==> w(Filter(s, p)[i]) {
      SameFilter(s, p, w);
    } else {
      FilterElements(s, w);
    }
  }

  lemma {:induction false} SameFilter<T>(s: seq<T>, p: T -> bool, w: T -> bool)
    requires forall x :: w(x) ==> p(x)
    requires forall i :: 0 <= i < |Filter(s, p)| ==> w(Filter(s, p)[i])
    ensures Filter(s, p) == Filter(s, w)
  {
    if s != [] {
      var init := s[..|s| - 1];
      assert forall i :: 0 <= i < |Filter(init, p)| ==> Filter(init, p)[i] == Filter(s, p)[i];
      SameFilter(init, p, w);
      if p(s[|s| - 1]) {
        assert Filter(s, p)[|Filter(s, p)| - 1] == s[|s| - 1];
      }
    }
  }

  // The tree of joins yields what the query asks for exactly when none of its rows violates a condition
  // that was not picked.
  lemma JoinsAreWhere(q: Query, n: Named, j: Json, exact: bool)
    requires QueryOk(q) && Reads(q, n, j) && Unrepeated(n)
    ensures NamedRows(q, n, exact) == Where(q, n, exact) <==>
      forall i :: 0 <= i < |NamedRows(q, n, exact)| ==> AllHold(q, EntitiesOf(n), NamedRows(q, n, exact)[i])
  {
    hide QueryOk, Reads, AllHold, PickedHold, Filter;
    ReadsSided(q, n, j);
    JoinsFilter(q, n, exact);
    var w := WhereTest(q, EntitiesOf(n));
    forall row | w(row)
      ensures PickedTest(n)(row)
    {
      PickedIsAsked(q, n, j, EntitiesOf(n), row);
    }
    FilterStronger(Cross(q, n, exact), PickedTest(n), w);
  }

  // -------- conditions that follow --------

  // The two columns are compared by a join of the tree.
  predicate Compared(n: Named, a: Col, b: Col) {
    n.NamedJoin? &&
      ((a == n.leftCol && b == n.rightCol) || (a == n.rightCol && b == n.leftCol) || Compared(n.left, a, b) || Compared(n.right, a, b))
  }

  // Neighbours on the path are compared.
  predicate Chain(n: Named, path: seq<Col>) {
    |path| > 1 && forall i :: 0 <= i < |path| - 1 ==> Compared(n, path[i], path[i + 1])
  }

  predicate ChainFrom(n: Named, path: seq<Col>, a: Col, b: Col) {
    Chain(n, path) && path[0] == a && path[|path| - 1] == b
  }

  // Every condition of the graph follows from the picked ones.
  ghost predicate Implied(q: Query, n: Named) {
    forall e, f :: Among(q, EntitiesOf(n), e, f) ==>
      exists path: seq<Col> :: ChainFrom(n, path, Col(e, q.graph[e][f].left), Col(f, q.graph[e][f].right))
  }

  lemma {:induction false} ComparedEqual(n: Named, row: NamedRow, a: Col, b: Col)
    requires PickedHold(n, row) && Compared(n, a, b)
    ensures Equal(row, a, b)
  {
    if Compared(n.left, a, b) {
      ComparedEqual(n.left, row, a, b);
    } else if Compared(n.right, a, b) {
      ComparedEqual(n.right, row, a, b);
    }
  }

  lemma {:induction false} ChainEqual(n: Named, row: NamedRow, path: seq<Col>)
    requires PickedHold(n, row) && Chain(n, path)
    ensures Equal(row, path[0], path[|path| - 1])
  {
    hide PickedHold, Compared;
    var last := |path| - 1;
    ComparedEqual(n, row, path[last - 1], path[last]);
    if last > 1 {
      ChainEqual(n, row, path[..last]);
    }
  }

  // Then the joins yield what the query asks for, whatever is in the tables.
  lemma ImpliedIsWhere(q: Query, n: Named, j: Json, exact: bool)
    requires QueryOk(q) && Reads(q, n, j) && Unrepeated(n) && Implied(q, n)
    ensures NamedRows(q, n, exact) == Where(q, n, exact)
  {
    hide QueryOk, Reads, PickedHold, Filter, Chain;
    ReadsSided(q, n, j);
    JoinsFilter(q, n, exact);
    FilterElements(Cross(q, n, exact), PickedTest(n));
    var rows := NamedRows(q, n, exact);
    forall i | 0 <= i < |rows|
      ensures AllHold(q, EntitiesOf(n), rows[i])
    {
      forall e, f | Among(q, EntitiesOf(n), e, f)
        ensures Equal(rows[i], Col(e, q.graph[e][f].left), Col(f, q.graph[e][f].right))
      {
        var path: seq<Col> :| ChainFrom(n, path, Col(e, q.graph[e][f].left), Col(f, q.graph[e][f].right));
        ChainEqual(n, rows[i], path);
      }
    }
    JoinsAreWhere(q, n, j, exact);
  }

  // -------- a condition that is lost --------

  // Tables 0, 1 and 2 with columns p and q, and three conditions: 0.p = 1.p, 0.q = 2.p and 2.q = 1.q.
  function Triangle(one: Column, two: Column): Query {
    Query((e: nat) => [Attribute("p", INT32), Attribute("q", INT32)],
          (e: nat) => ColumnarTable(1, if e == 1 then [two, one] else [one, one]),
          map[0 := map[1 := Names("p", "p"), 2 := Names("q", "p")],
              1 := map[0 := Names("p", "p"), 2 := Names("q", "q")],
              2 := map[0 := Names("p", "q"), 1 := Names("q", "q")]])
  }

  // (0 join 2) join 1
  function TriangleTree(): Json {
    HashJoin(HashJoin(ScanJson(Known(0), Missing), Hash(ScanJson(Known(2), Missing))), Hash(ScanJson(Known(1), Missing)))
  }

  // The outer join has two conditions between its sides; this is the reading that keeps 2.q = 1.q.
  function TriangleNamed(): Named {
    NamedJoin(NamedJoin(NamedScan(0), NamedScan(2), Col(0, "q"), Col(2, "p")), NamedScan(1), Col(2, "q"), Col(1, "q"))
  }

  ghost predicate Single(c: Column, v: Field) {
    Scannable(c) && c.dtype == INT32 && TrueFields(c) == [v] && |ColumnRows(c)| == 1
  }

  lemma OnePair<A, B, T>(x: A, y: B, match_: (A, B) -> bool, out: (A, B) -> T)
    requires match_(x, y)
    ensures Pairs([x], [y], match_, out) == [out(x, y)]
  {
    assert [x][..0] == [] && [y][..0] == [];
    assert RowPairs(x, [], match_, out) == [];
  }

  lemma TriangleNames()
    ensures NameIndex([Attribute("p", INT32), Attribute("q", INT32)], "p") == 0
    ensures NameIndex([Attribute("p", INT32), Attribute("q", INT32)], "q") == 1
  {
    var attributes := [Attribute("p", INT32), Attribute("q", INT32)];
    assert attributes[0].name == "p" && attributes[1].name == "q";
    assert "p"[0] != "q"[0];
  }

  lemma TriangleOk(one: Column, two: Column)
    requires Single(one, Int(1)) && Single(two, Int(2))
    ensures QueryOk(Triangle(one, two))
  {
    hide Exists, TypeOf, TableOk, Triangle;
    var q := Triangle(one, two);
    forall e
      ensures TableOk(q.schema(e), q.table(e))
    {
      TriangleTable(one, two, e);
    }
    forall e, f | e in q.graph && f in q.graph[e]
      ensures Exists(q, Col(e, q.graph[e][f].left)) && Exists(q, Col(f, q.graph[e][f].right))
      ensures TypeOf(q, Col(e, q.graph[e][f].left)) == TypeOf(q, Col(f, q.graph[e][f].right))
    {
      TriangleEdge(one, two, e, f);
      TriangleTyped(one, two, e);
      TriangleTyped(one, two, f);
    }
  }

  lemma TriangleEdge(one: Column, two: Column, e: nat, f: nat)
    requires var g := Triangle(one, two).graph; e in g && f in g[e]
    ensures var names := Triangle(one, two).graph[e][f];
      (names.left == "p" || names.left == "q") && (names.right == "p" || names.right == "q")
  {
  }

  lemma TriangleTable(one: Column, two: Column, e: nat)
    requires Single(one, Int(1)) && Single(two, Int(2))
    ensures var q := Triangle(one, two);
      q.schema(e) == [Attribute("p", INT32), Attribute("q", INT32)] && TableOk(q.schema(e), q.table(e))
      && q.table(e) == ColumnarTable(1, if e == 1 then [two, one] else [one, one])
  {
    hide Scannable, TrueFields, ColumnRows;
  }

  lemma TriangleTyped(one: Column, two: Column, e: nat)
    ensures var q := Triangle(one, two);
      Exists(q, Col(e, "p")) && Exists(q, Col(e, "q")) && TypeOf(q, Col(e, "p")) == INT32 == TypeOf(q, Col(e, "q"))
  {
    hide NameIndex;
    TriangleNames();
  }

  // The only row of table e.
  lemma TriangleRow(one: Column, two: Column, e: nat)
    requires Single(one, Int(1)) && Single(two, Int(2)) && QueryOk(Triangle(one, two))
    ensures var q := Triangle(one, two);
      && NamedRows(q, NamedScan(e), false) == [TableRow(q, e, 0, false)]
      && TableRow(q, e, 0, false)(Col(e, "p")) == Int(if e == 1 then 2 else 1)
      && TableRow(q, e, 0, false)(Col(e, "q")) == Int(1)
  {
    hide Scannable, TrueFields, ColumnRows, NameIndex, QueryOk, TableOk;
    TriangleNames();
    TriangleTable(one, two, e);
    var q := Triangle(one, two);
    assert Exists(q, Col(e, "p")) && Exists(q, Col(e, "q"));
    assert CellOf(q, e, 0, 0, false) == Int(if e == 1 then 2 else 1) && CellOf(q, e, 1, 0, false) == Int(1);
  }

  // With 0.p = 1 and 1.p = 2 and all else 1, the tree yields a row although no row meets the conditions.
  lemma TriangleLosesCondition(one: Column, two: Column)
    requires Single(one, Int(1)) && Single(two, Int(2))
    ensures var q, n := Triangle(one, two), TriangleNamed();
      && QueryOk(q) && Reads(q, n, TriangleTree()) && Unrepeated(n)
      && NamedRows(q, n, false) != Where(q, n, false)
  {
    hide QueryOk, Scannable, TrueFields, ColumnRows, Pairs, TableRow, Filter, Reads, Where, Cross, Unrepeated, Single, TriangleTree;
    var q, n := Triangle(one, two), TriangleNamed();
    TriangleOk(one, two);
    var a, b, d := TableRow(q, 0, 0, false), TableRow(q, 1, 0, false), TableRow(q, 2, 0, false);
    TriangleRow(one, two, 0);
    TriangleRow(one, two, 1);
    TriangleRow(one, two, 2);
    OnePair(a, d, NamedMatch(Col(0, "q"), Col(2, "p")), NamedOut({0}));
    var ad := NamedOut({0})(a, d);
    OnePair(ad, b, NamedMatch(Col(2, "q"), Col(1, "q")), NamedOut({0} + {2}));
    var row := NamedOut({0} + {2})(ad, b);
    assert EntitiesOf(n.left) == {0} + {2};
    assert NamedRows(q, n.left, false) == [ad];
    assert NamedRows(q, n, false) == [row];
    assert row(Col(0, "p")) == Int(1) && row(Col(1, "p")) == Int(2);
    TriangleReads(q, one, two);
    assert Among(q, EntitiesOf(n), 0, 1);
    assert q.graph[0][1] == Names("p", "p");
    JoinsAreWhere(q, n, TriangleTree(), false);
    assert NamedRows(q, n, false)[0] == row;
  }

  lemma TriangleReads(q: Query, one: Column, two: Column)
    requires q == Triangle(one, two)
    ensures Reads(q, TriangleNamed(), TriangleTree()) && Unrepeated(TriangleNamed())
  {
    var n, j := TriangleNamed(), TriangleTree();
    assert Entities(Below(j.left.right)) == Some({2}) && Entities(j.left.left) == Some({0});
    assert Entities(j.left) == Some({0} + {2}) && Entities(Below(j.right)) == Some({1});
    assert Condition(q, {0}, {2}, 0, 2) && Condition(q, {0} + {2}, {1}, 2, 1);
    assert Reads(q, n.left.left, j.left.left) && Reads(q, n.left.right, Below(j.left.right)) && Reads(q, n.right, Below(j.right));
    assert Reads(q, n.left, j.left);
  }

  // -------- conditions that do not follow --------

  // The keys of all joins are INT32; a join on other keys yields nothing.
  predicate IntJoins(q: Query, n: Named) {
    n.NamedJoin? ==> Exists(q, n.leftCol) && TypeOf(q, n.leftCol) == INT32 && IntJoins(q, n.left) && IntJoins(q, n.right)
  }

  // No condition compares a column with itself.
  predicate Proper(q: Query) {
    forall e, f :: e in q.graph && f in q.graph[e] ==> Col(e, q.graph[e][f].left) != Col(f, q.graph[e][f].right)
  }

  ghost predicate LinkedTo(n: Named, a: Col, c: Col) {
    c == a || exists path: seq<Col> :: ChainFrom(n, path, a, c)
  }

  lemma {:induction false} ComparedBack(n: Named, c: Col, d: Col)
    requires Compared(n, c, d)
    ensures Compared(n, d, c)
  {
    if Compared(n.left, c, d) {
      ComparedBack(n.left, c, d);
    } else if Compared(n.right, c, d) {
      ComparedBack(n.right, c, d);
    }
  }

  lemma LinkedFurther(n: Named, a: Col, c: Col, d: Col)
    requires LinkedTo(n, a, c) && Compared(n, c, d)
    ensures LinkedTo(n, a, d)
  {
    hide Compared;
    if c == a {
      assert ChainFrom(n, [a, d], a, d);
    } else {
      var path: seq<Col> :| ChainFrom(n, path, a, c);
      var longer := path + [d];
      forall i | 0 <= i < |longer| - 1
        ensures Compared(n, longer[i], longer[i + 1])
      {
        if i < |path| - 1 {
          assert Compared(n, path[i], path[i + 1]);
        }
      }
      assert ChainFrom(n, longer, a, d);
    }
  }

  lemma LinkedAlike(n: Named, a: Col, c: Col, d: Col)
    requires Compared(n, c, d)
    ensures LinkedTo(n, a, c) <==> LinkedTo(n, a, d)
  {
    hide LinkedTo;
    ComparedBack(n, c, d);
    if LinkedTo(n, a, c) {
      LinkedFurther(n, a, c, d);
    }
    if LinkedTo(n, a, d) {
      LinkedFurther(n, a, d, c);
    }
  }

  // Columns of one row to fill tables with.
  datatype Samples = Samples(one: Column, two: Column, text: Column) {
    ghost predicate Ok() {
      && Single(one, Int(1)) && Single(two, Int(2))
      && Scannable(text) && text.dtype == VARCHAR && |ColumnRows(text)| == 1
    }
  }

  // There are such columns.
  method MakeSamples() returns (s: Samples)
    ensures s.Ok()
  {
    hide Single;
    var one := MakeSingle(1);
    var two := MakeSingle(2);
    var pages := VarcharWriter.ToColumnar([None]);
    s := Samples(one, two, Column(VARCHAR, pages));
  }

  method MakeSingle(v: int32) returns (c: Column)
    ensures Single(c, Int(v))
  {
    hide FixedColumn.ColumnOk, FixedColumn.ColumnRows, I32Bytes, I32;
    I32RoundTrip(v);
    var pages := FixedColumn.ToColumnar(4, [Some(I32Bytes(v))]);
    c := Column(INT32, pages);
    assert |ColumnRows(c)| == 1 && ColumnRows(c)[0] == Some(I32Bytes(v));
    CellWidths(c);
    assert TrueFields(c) == [Int(v)];
  }

  ghost function Sample(s: Samples, n: Named, a: Col, c: Col, t: DataType): Column {
    if t != INT32 then s.text else if LinkedTo(n, a, c) then s.one else s.two
  }

  // Every table gets one row: 1 in the columns linked to a by the picked conditions, 2 in the others.
  ghost function SampleTable(q: Query, s: Samples, n: Named, a: Col): nat -> ColumnarTable {
    (e: nat) => ColumnarTable(1, seq(|q.schema(e)|, k requires 0 <= k < |q.schema(e)| =>
      Sample(s, n, a, Col(e, q.schema(e)[k].name), q.schema(e)[k].dtype)))
  }

  lemma SampleOk(q: Query, s: Samples, n: Named, a: Col)
    requires QueryOk(q) && s.Ok()
    ensures QueryOk(q.(table := SampleTable(q, s, n, a)))
  {
    hide Scannable, TrueFields, ColumnRows, LinkedTo, NameIndex;
    var q' := q.(table := SampleTable(q, s, n, a));
    forall e
      ensures TableOk(q'.schema(e), q'.table(e))
    {
      assert TableOk(q.schema(e), q.table(e));
      forall k | 0 <= k < |q.schema(e)|
        ensures q.schema(e)[k].dtype == INT32 || q.schema(e)[k].dtype == VARCHAR
      {
        ScannableTypes(q.table(e).columns[k]);
      }
    }
    assert forall c :: Exists(q', c) == Exists(q, c);
  }

  lemma ScannableTypes(c: Column)
    requires Scannable(c)
    ensures c.dtype == INT32 || c.dtype == VARCHAR
  {
  }

  // The row of the tree.
  ghost predicate IsSample(q: Query, n: Named, whole: Named, a: Col, row: NamedRow) {
    forall c: Col :: c.entity in EntitiesOf(n) && Exists(q, c) && TypeOf(q, c) == INT32 ==>
      row(c) == Int(if LinkedTo(whole, a, c) then 1 else 2)
  }

  lemma SampleScan(q: Query, s: Samples, whole: Named, a: Col, e: nat)
    requires QueryOk(q) && s.Ok()
    ensures var q' := q.(table := SampleTable(q, s, whole, a));
      && QueryOk(q') && NamedRows(q', NamedScan(e), false) == [TableRow(q', e, 0, false)]
      && IsSample(q, NamedScan(e), whole, a, TableRow(q', e, 0, false))
  {
    hide Scannable, TrueFields, ColumnRows, LinkedTo, NameIndex, QueryOk;
    SampleOk(q, s, whole, a);
    var q' := q.(table := SampleTable(q, s, whole, a));
    forall c: Col | c.entity == e && Exists(q, c) && TypeOf(q, c) == INT32
      ensures TableRow(q', e, 0, false)(c) == Int(if LinkedTo(whole, a, c) then 1 else 2)
    {
      var k := NameIndex(q.schema(e), c.name);
      NameFound(q.schema(e), c.name);
      assert q'.table(e).columns[k] == Sample(s, whole, a, c, INT32);
      assert Exists(q', c);
      assert CellOf(q', e, k, 0, false) == Int(if LinkedTo(whole, a, c) then 1 else 2);
    }
  }

  lemma NameFound(attributes: seq<Attribute>, name: string)
    ensures NameIndex(attributes, name) < |attributes| ==> attributes[NameIndex(attributes, name)].name == name
  {
  }

  predicate Inside(m: Named, n: Named) {
    m == n || (n.NamedJoin? && (Inside(m, n.left) || Inside(m, n.right)))
  }

  lemma {:induction false} InsideCompared(m: Named, n: Named)
    requires Inside(m, n) && m.NamedJoin?
    ensures Compared(n, m.leftCol, m.rightCol)
    ensures Inside(m.left, n) && Inside(m.right, n)
  {
    if m != n {
      if Inside(m, n.left) {
        InsideCompared(m, n.left);
      } else {
        InsideCompared(m, n.right);
      }
    }
  }

  // Every tree of joins on INT32 columns yields one row.
  lemma {:induction false} SampleRow(q: Query, s: Samples, n: Named, j: Json, whole: Named, a: Col) returns (row: NamedRow)
    requires QueryOk(q) && s.Ok() && Reads(q, n, j) && Unrepeated(n) && IntJoins(q, n) && Inside(n, whole)
    ensures var q' := q.(table := SampleTable(q, s, whole, a));
      QueryOk(q') && NamedRows(q', n, false) == [row] && IsSample(q, n, whole, a, row)
    decreases j
  {
    hide QueryOk, LinkedTo, Exists, TypeOf, Samples.Ok, Inside, TableRow, Pairs;
    SampleOk(q, s, whole, a);
    var q' := q.(table := SampleTable(q, s, whole, a));
    match j
    case Passthrough(c) => row := SampleRow(q, s, n, c, whole, a);
    case HashJoin(l, r) =>
      InsideCompared(n, whole);
      var x := SampleRow(q, s, n.left, if l.Hash? then l.child else l, whole, a);
      var y := SampleRow(q, s, n.right, if r.Hash? then r.child else r, whole, a);
      LinkedAlike(whole, a, n.leftCol, n.rightCol);
      ReadColumns(q, n, j);
      OnePair(x, y, NamedMatch(n.leftCol, n.rightCol), NamedOut(EntitiesOf(n.left)));
      row := NamedOut(EntitiesOf(n.left))(x, y);
      assert NamedRows(q', n, false) == [row];
    case ScanJson(_, _) =>
      SampleScan(q, s, whole, a, n.entity);
      row := TableRow(q', n.entity, 0, false);
  }

  lemma ReadColumns(q: Query, n: Named, j: Json)
    requires QueryOk(q) && Reads(q, n, j) && j.HashJoin?
    ensures n.NamedJoin? && Exists(q, n.leftCol) && Exists(q, n.rightCol) && TypeOf(q, n.leftCol) == TypeOf(q, n.rightCol)
  {
    hide TableOk, Exists, TypeOf;
    var e, f := n.leftCol.entity, n.rightCol.entity;
    assert Col(e, q.graph[e][f].left) == n.leftCol && Col(f, q.graph[e][f].right) == n.rightCol;
  }

  // When a condition does not follow from the picked ones, there are tables of the same schema for
  // which the joins yield a row that violates it.
  lemma NotImpliedLoses(q: Query, s: Samples, n: Named, j: Json) returns (q': Query)
    requires QueryOk(q) && s.Ok() && Reads(q, n, j) && Unrepeated(n) && IntJoins(q, n) && Proper(q) && !Implied(q, n)
    ensures q'.schema == q.schema && q'.graph == q.graph && QueryOk(q') && NamedRows(q', n, false) != Where(q', n, false)
  {
    hide QueryOk, Exists, TypeOf, Samples.Ok, Reads, Unrepeated, IntJoins, Where, Compared, TableRow;
    var e, f :| Among(q, EntitiesOf(n), e, f)
      && !exists path: seq<Col> :: ChainFrom(n, path, Col(e, q.graph[e][f].left), Col(f, q.graph[e][f].right));
    var a, b := Col(e, q.graph[e][f].left), Col(f, q.graph[e][f].right);
    SampleOk(q, s, n, a);
    q' := q.(table := SampleTable(q, s, n, a));
    var row := SampleRow(q, s, n, j, n, a);
    EdgeTyped(q, e, f);
    assert NamedRows(q', n, false)[0] == row;
    SameExists(q, q', a);
    if row(a).Int? {
      SampleTyped(q', n, a);
      assert LinkedTo(n, a, a) && !LinkedTo(n, a, b);
    }
    assert !Equal(row, a, b);
    SameReads(q, q', n, j);
    assert Among(q', EntitiesOf(n), e, f);
    JoinsAreWhere(q', n, j, false);
  }

  lemma EdgeTyped(q: Query, e: nat, f: nat)
    requires QueryOk(q) && e in q.graph && f in q.graph[e]
    ensures var a, b := Col(e, q.graph[e][f].left), Col(f, q.graph[e][f].right);
      Exists(q, a) && Exists(q, b) && TypeOf(q, a) == TypeOf(q, b)
  {
    hide TableOk, Exists, TypeOf;
  }

  lemma SampleTyped(q: Query, n: Named, a: Col)
    requires QueryOk(q) && |NamedRows(q, n, false)| == 1 && Exists(q, a) && NamedRows(q, n, false)[0](a).Int?
    ensures TypeOf(q, a) == INT32
  {
    hide QueryOk, Exists, TypeOf, NamedRows;
    NamedTyped(q, n, false, 0, a);
  }

  lemma SameExists(q: Query, q': Query, c: Col)
    requires q'.schema == q.schema
    ensures Exists(q', c) == Exists(q, c) && (Exists(q, c) ==> TypeOf(q', c) == TypeOf(q, c))
  {
  }

  lemma {:induction false} SameReads(q: Query, q': Query, n: Named, j: Json)
    requires q'.graph == q.graph
    ensures Reads(q', n, j) <==> Reads(q, n, j)
    decreases j
  {
    match j
    case Passthrough(c) => SameReads(q, q', n, c);
    case HashJoin(l, r) =>
      if n.NamedJoin? {
        SameReads(q, q', n.left, if l.Hash? then l.child else l);
        SameReads(q, q', n.right, if r.Hash? then r.child else r);
      }
    case _ =>
  }

  // With these tables, the joins yield what the query asks for.
  ghost predicate SelectsAsked(q: Query, n: Named, table: nat -> ColumnarTable) {
    var q' := q.(table := table);
    QueryOk(q') ==> NamedRows(q', n, false) == Where(q', n, false)
  }

  // A tree of INT32 joins yields what the query asks for, whatever is in the tables, exactly when every
  // condition of the graph follows from the picked ones.
  lemma AskedExactly(q: Query, s: Samples, n: Named, j: Json)
    requires QueryOk(q) && s.Ok() && Reads(q, n, j) && Unrepeated(n) && IntJoins(q, n) && Proper(q)
    ensures Implied(q, n) <==> forall table :: SelectsAsked(q, n, table)
  {
    hide QueryOk, Samples.Ok, Reads, Unrepeated, IntJoins, Proper, Where, NamedRows, ChainFrom;
    if Implied(q, n) {
      forall table
        ensures SelectsAsked(q, n, table)
      {
        var q' := q.(table := table);
        SameReads(q, q', n, j);
        SameImplied(q, q', n);
        if QueryOk(q') {
          ImpliedIsWhere(q', n, j, false);
        }
      }
    } else {
      var q' := NotImpliedLoses(q, s, n, j);
      assert q' == q.(table := q'.table);
      assert !SelectsAsked(q, n, q'.table);
    }
  }

  lemma SameImplied(q: Query, q': Query, n: Named)
    requires q'.graph == q.graph && Implied(q, n)
    ensures Implied(q', n)
  {
    hide ChainFrom;
    forall e, f | Among(q', EntitiesOf(n), e, f)
      ensures exists path: seq<Col> :: ChainFrom(n, path, Col(e, q'.graph[e][f].left), Col(f, q'.graph[e][f].right))
    {
      assert Among(q, EntitiesOf(n), e, f);
    }
  }
}
