// DSU (include/common.h): what it unites is the equivalence closure.
module DisjointSets {
  // A pair of columns.
  datatype Pair = Pair(fst: nat, snd: nat)

  // a and b were united directly.
  predicate Edge(pairs: seq<Pair>, a: nat, b: nat) {
    Pair(a, b) in pairs || Pair(b, a) in pairs
  }

  predicate Path(pairs: seq<Pair>, path: seq<nat>) {
    forall i :: 0 <= i < |path| - 1 ==> Edge(pairs, path[i], path[i + 1])
  }

  // The equivalence closure of the united pairs.
  ghost predicate Connected(pairs: seq<Pair>, a: nat, b: nat) {
    exists path: seq<nat> :: PathFrom(pairs, path, a, b)
  }

  predicate PathFrom(pairs: seq<Pair>, path: seq<nat>, a: nat, b: nat) {
    path != [] && path[0] == a && path[|path| - 1] == b && Path(pairs, path)
  }

  lemma ConnectedSelf(pairs: seq<Pair>, a: nat)
    ensures Connected(pairs, a, a)
  {
    assert PathFrom(pairs, [a], a, a);
  }

  lemma ConnectedTrans(pairs: seq<Pair>, a: nat, b: nat, c: nat)
    requires Connected(pairs, a, b) && Connected(pairs, b, c)
    ensures Connected(pairs, a, c)
  {
    var p :| PathFrom(pairs, p, a, b);
    var q :| PathFrom(pairs, q, b, c);
    var r := p + q[1..];
    forall i | 0 <= i < |r| - 1
      ensures Edge(pairs, r[i], r[i + 1])
    {
      if i >= |p| - 1 {
        assert r[i] == q[i - (|p| - 1)];
      }
    }
    assert PathFrom(pairs, r, a, c);
  }

  lemma ConnectedMore(pairs: seq<Pair>, e: Pair, a: nat, b: nat)
    requires Connected(pairs, a, b)
    ensures Connected(pairs + [e], a, b)
  {
    var p :| PathFrom(pairs, p, a, b);
    assert PathFrom(pairs + [e], p, a, b);
  }

  lemma ConnectedEdge(pairs: seq<Pair>, a: nat, b: nat)
    requires Edge(pairs, a, b)
    ensures Connected(pairs, a, b)
  {
    assert PathFrom(pairs, [a, b], a, b);
  }

  // root[z] after uniting the sets of x and y
  function United(root: seq<nat>, x: nat, y: nat): (r: seq<nat>)
    requires x < |root| && y < |root|
    ensures |r| == |root|
  {
    seq(|root|, z requires 0 <= z < |root| => if root[z] == root[x] then root[y] else root[z])
  }

  ghost predicate Closed(root: seq<nat>, pairs: seq<Pair>) {
    && (forall e :: e in pairs ==> e.fst < |root| && e.snd < |root|)
    && forall a, b :: 0 <= a < |root| && 0 <= b < |root| ==> (root[a] == root[b] <==> Connected(pairs, a, b))
  }

  // Along a path of the larger relation the new roots stay the same.
  lemma {:induction false} PathKeepsRoot(root: seq<nat>, pairs: seq<Pair>, x: nat, y: nat, path: seq<nat>)
    requires x < |root| && y < |root| && Closed(root, pairs) && Path(pairs + [Pair(x, y)], path) && path != []
    requires forall i :: 0 <= i < |path| ==> path[i] < |root|
    ensures United(root, x, y)[path[0]] == United(root, x, y)[path[|path| - 1]]
  {
    if |path| > 1 {
      var init := path[..|path| - 1];
      var a, b := path[|path| - 2], path[|path| - 1];
      forall i | 0 <= i < |init| - 1
        ensures Edge(pairs + [Pair(x, y)], init[i], init[i + 1])
      {
        assert Edge(pairs + [Pair(x, y)], path[i], path[i + 1]);
      }
      PathKeepsRoot(root, pairs, x, y, init);
      assert Edge(pairs + [Pair(x, y)], a, b);
      if Edge(pairs, a, b) {
        ConnectedEdge(pairs, a, b);
      }
    }
  }

  lemma PathInRange(n: nat, pairs: seq<Pair>, path: seq<nat>)
    requires Path(pairs, path) && |path| > 1 && forall e :: e in pairs ==> e.fst < n && e.snd < n
    ensures forall i :: 0 <= i < |path| ==> path[i] < n
  {
    forall i | 0 <= i < |path|
      ensures path[i] < n
    {
      var j := if i == 0 then 0 else i - 1;
      assert Edge(pairs, path[j], path[j + 1]);
    }
  }

  lemma UnitedClosed(root: seq<nat>, pairs: seq<Pair>, x: nat, y: nat)
    requires x < |root| && y < |root| && Closed(root, pairs)
    ensures Closed(United(root, x, y), pairs + [Pair(x, y)])
  {
    var root', pairs' := United(root, x, y), pairs + [Pair(x, y)];
    forall a, b | 0 <= a < |root| && 0 <= b < |root|
      ensures root'[a] == root'[b] <==> Connected(pairs', a, b)
    {
      if Connected(pairs', a, b) {
        var path :| PathFrom(pairs', path, a, b);
        if |path| > 1 {
          PathInRange(|root|, pairs', path);
        }
        PathKeepsRoot(root, pairs, x, y, path);
      }
      if root'[a] == root'[b] {
        Rejoined(root, pairs, x, y, a, b);
      }
    }
  }

  lemma Rejoined(root: seq<nat>, pairs: seq<Pair>, x: nat, y: nat, a: nat, b: nat)
    requires x < |root| && y < |root| && Closed(root, pairs) && a < |root| && b < |root|
    requires United(root, x, y)[a] == United(root, x, y)[b]
    ensures Connected(pairs + [Pair(x, y)], a, b)
  {
    var pairs' := pairs + [Pair(x, y)];
    assert Edge(pairs', x, y) && Edge(pairs', y, x);
    ConnectedEdge(pairs', x, y);
    ConnectedEdge(pairs', y, x);
    if root[a] == root[b] {
      ConnectedMore(pairs, Pair(x, y), a, b);
    } else if root[a] == root[x] {
      ConnectedMore(pairs, Pair(x, y), a, x);
      ConnectedMore(pairs, Pair(x, y), y, b);
      ConnectedTrans(pairs', a, x, y);
      ConnectedTrans(pairs', a, y, b);
    } else {
      ConnectedMore(pairs, Pair(x, y), a, y);
      ConnectedMore(pairs, Pair(x, y), x, b);
      ConnectedTrans(pairs', a, y, x);
      ConnectedTrans(pairs', a, x, b);
    }
  }

  // The chain of parents of x climbs in rank and ends at root[x].
  predicate Climbs(pa: seq<nat>, rank: seq<nat>, root: seq<nat>, x: nat)
    requires |pa| == |rank| == |root| && x < |pa|
  {
    && pa[x] < |pa| && root[x] < |pa|
    && (if pa[x] == x then root[x] == x else rank[pa[x]] > rank[x] && root[pa[x]] == root[x])
    && pa[root[x]] == root[x]
  }

  ghost predicate Forest(pa: seq<nat>, rank: seq<nat>, root: seq<nat>) {
    |pa| == |rank| == |root| && forall x :: 0 <= x < |pa| ==> Climbs(pa, rank, root, x)
  }

  lemma {:induction false} RootRank(pa: seq<nat>, rank: seq<nat>, root: seq<nat>, x: nat)
    requires Forest(pa, rank, root) && x < |pa|
    ensures root[x] < |pa| && (pa[x] != x ==> rank[root[x]] > rank[x]) && (pa[x] == x ==> root[x] == x)
    decreases MaxOf(rank) - rank[x]
  {
    assert Climbs(pa, rank, root, x);
    if pa[x] != x {
      MaxOfBound(rank, x);
      MaxOfBound(rank, pa[x]);
      RootRank(pa, rank, root, pa[x]);
    }
  }

  // Path compression.
  lemma Compressed(pa: seq<nat>, rank: seq<nat>, root: seq<nat>, x: nat)
    requires Forest(pa, rank, root) && x < |pa|
    ensures Forest(pa[x := root[x]], rank, root)
  {
    hide Climbs;
    RootRank(pa, rank, root, x);
    var pa' := pa[x := root[x]];
    forall z | 0 <= z < |pa|
      ensures Climbs(pa', rank, root, z)
    {
      CompressedAt(pa, rank, root, x, z);
    }
  }

  lemma CompressedAt(pa: seq<nat>, rank: seq<nat>, root: seq<nat>, x: nat, z: nat)
    requires Forest(pa, rank, root) && x < |pa| && z < |pa| && root[x] < |pa|
    requires (pa[x] != x ==> rank[root[x]] > rank[x]) && (pa[x] == x ==> root[x] == x)
    ensures Climbs(pa[x := root[x]], rank, root, z)
  {
    hide Forest;
    ForestSize(pa, rank, root);
    ForestAt(pa, rank, root, x);
    ForestAt(pa, rank, root, z);
    ForestAt(pa, rank, root, root[x]);
  }

  lemma ForestAt(pa: seq<nat>, rank: seq<nat>, root: seq<nat>, x: nat)
    requires Forest(pa, rank, root) && x < |pa|
    ensures Climbs(pa, rank, root, x)
  {
  }

  // One root becomes a child of another.
  function Linked(pa: seq<nat>, root: seq<nat>, x: nat, y: nat): seq<nat>
    requires x < |root| && y < |root| && root[x] < |pa| && root[y] < |pa|
  {
    pa[root[x] := root[y]]
  }

  function Raised(rank: seq<nat>, rx: nat, ry: nat): (r: seq<nat>)
    requires rx < |rank| && ry < |rank|
    ensures |r| == |rank|
  {
    if rx != ry && rank[ry] <= rank[rx] then rank[ry := rank[rx] + 1] else rank
  }

  lemma LinkedAt(pa: seq<nat>, rank: seq<nat>, root: seq<nat>, x: nat, y: nat, z: nat)
    requires Forest(pa, rank, root) && x < |pa| && y < |pa| && z < |pa| && root[x] < |pa| && root[y] < |pa|
    ensures Climbs(Linked(pa, root, x, y), Raised(rank, root[x], root[y]), United(root, x, y), z)
  {
    hide Forest;
    ForestSize(pa, rank, root);
    ForestAt(pa, rank, root, x);
    ForestAt(pa, rank, root, y);
    ForestAt(pa, rank, root, z);
    ForestAt(pa, rank, root, pa[z]);
    ForestAt(pa, rank, root, root[x]);
    ForestAt(pa, rank, root, root[y]);
    ForestAt(pa, rank, root, root[z]);
  }

  lemma LinkedForest(pa: seq<nat>, rank: seq<nat>, root: seq<nat>, x: nat, y: nat)
    requires Forest(pa, rank, root) && x < |pa| && y < |pa|
    ensures root[x] < |pa| && root[y] < |pa|
    ensures Forest(Linked(pa, root, x, y), Raised(rank, root[x], root[y]), United(root, x, y))
  {
    hide Climbs, Linked, Raised;
    RootRank(pa, rank, root, x);
    RootRank(pa, rank, root, y);
    LinkedSize(pa, root, x, y);
    forall z | 0 <= z < |pa|
      ensures Climbs(Linked(pa, root, x, y), Raised(rank, root[x], root[y]), United(root, x, y), z)
    {
      LinkedAt(pa, rank, root, x, y, z);
    }
  }

  lemma LinkedSize(pa: seq<nat>, root: seq<nat>, x: nat, y: nat)
    requires x < |root| && y < |root| && root[x] < |pa| && root[y] < |pa|
    ensures |Linked(pa, root, x, y)| == |pa|
  {
  }

  class DSU {
    var pa: seq<nat>
    ghost var rank: seq<nat>        // climbs along the parents, so chains of parents end
    ghost var root: seq<nat>        // where they end
    ghost var pairs: seq<Pair>      // what has been united

    ghost predicate Valid()
      reads this
    {
      Forest(pa, rank, root) && Closed(root, pairs)
    }

    constructor (size: nat)
      ensures Valid() && |pa| == size && pairs == []
    {
      pa := seq(size, i => i);
      rank := seq(size, i => 0);
      root := seq(size, i => i);
      pairs := [];
      new;
      StartClosed(size);
    }

    // The root of x; on the way back every element passed is made to point to it.
    method Find(x: nat) returns (r: nat)
      requires Valid() && x < |pa|
      modifies `pa
      ensures Valid() && |pa| == |old(pa)| && r == root[x] < |pa| && pa[r] == r
      decreases MaxOf(rank) - rank[x]
    {
      hide Closed, Forest;
      ForestAt(pa, rank, root, x);
      ForestSize(pa, rank, root);
      if pa[x] == x {
        return x;
      }
      MaxOfBound(rank, x);
      MaxOfBound(rank, pa[x]);
      r := Find(pa[x]);
      ForestSize(pa, rank, root);
      Compressed(pa, rank, root, x);
      pa := pa[x := r];
      ForestAt(pa, rank, root, x);
    }

    // The root of x is put below the root of y.
    method Unite(x: nat, y: nat)
      requires Valid() && x < |pa| && y < |pa|
      modifies this
      ensures Valid() && |pa| == |old(pa)| && pairs == old(pairs) + [Pair(x, y)]
    {
      hide Closed, Forest;
      ForestSize(pa, rank, root);
      var ry := Find(y);
      var rx := Find(x);
      ForestSize(pa, rank, root);
      UnitedClosed(root, pairs, x, y);
      LinkedForest(pa, rank, root, x, y);
      pa := pa[rx := ry];
      rank := Raised(rank, rx, ry);
      root := United(root, x, y);
      pairs := pairs + [Pair(x, y)];
    }
  }

  lemma ForestSize(pa: seq<nat>, rank: seq<nat>, root: seq<nat>)
    requires Forest(pa, rank, root)
    ensures |pa| == |rank| == |root|
  {
  }

  function MaxOf(s: seq<nat>): nat {
    if s == [] then 0 else if s[|s| - 1] > MaxOf(s[..|s| - 1]) then s[|s| - 1] else MaxOf(s[..|s| - 1])
  }

  lemma {:induction false} MaxOfBound(s: seq<nat>, i: nat)
    requires i < |s|
    ensures s[i] <= MaxOf(s)
  {
    if i < |s| - 1 {
      MaxOfBound(s[..|s| - 1], i);
    }
  }

  lemma StartClosed(size: nat)
    ensures Closed(seq(size, i => i), [])
  {
    var root: seq<nat> := seq(size, i => i);
    forall a, b | 0 <= a < size && 0 <= b < size
      ensures root[a] == root[b] <==> Connected([], a, b)
    {
      if Connected([], a, b) {
        var path :| PathFrom([], path, a, b);
        if |path| > 1 {
          assert Edge([], path[0], path[1]);
        }
      }
      if a == b {
        ConnectedSelf([], a);
      }
    }
  }
}
