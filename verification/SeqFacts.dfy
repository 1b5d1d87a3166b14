// Sequences and multisets: the counting facts every other module leans on.
module SeqFacts {

  function Filter<T>(s: seq<T>, p: T -> bool): (r: seq<T>)
  {
    if s == [] then []
    else Filter(s[..|s| - 1], p) + (if p(s[|s| - 1]) then [s[|s| - 1]] else [])
  }

  function Map<A, B>(f: A -> B, s: seq<A>): (r: seq<B>)
    ensures |r| == |s|
    ensures forall i :: 0 <= i < |s| ==> r[i] == f(s[i])
  {
    seq(|s|, i requires 0 <= i < |s| => f(s[i]))
  }

  // Concatenation of a sequence of sequences.
  function Flatten<T>(ss: seq<seq<T>>): (r: seq<T>)
  {
    if ss == [] then [] else Flatten(ss[..|ss| - 1]) + ss[|ss| - 1]
  }

  // Sum of a sequence of multisets.
  ghost function Sum<T>(ms: seq<multiset<T>>): (r: multiset<T>)
  {
    if ms == [] then multiset{} else Sum(ms[..|ms| - 1]) + ms[|ms| - 1]
  }

  lemma {:induction false} FilterCount<T>(s: seq<T>, p: T -> bool, x: T)
    ensures multiset(Filter(s, p))[x] == if p(x) then multiset(s)[x] else 0
  {
    if s == [] {
    } else {
      var init, last := s[..|s| - 1], s[|s| - 1];
      FilterCount(init, p, x);
      assert s == init + [last];
    }
  }

  // The multiset of a filtered sequence depends only on the multiset of the sequence.
  lemma FilterMultiset<T>(s: seq<T>, t: seq<T>, p: T -> bool)
    requires multiset(s) == multiset(t)
    ensures multiset(Filter(s, p)) == multiset(Filter(t, p))
  {
    var a, b := multiset(Filter(s, p)), multiset(Filter(t, p));
    forall x | x in a + b
      ensures a[x] == b[x]
    {
      FilterCount(s, p, x);
      FilterCount(t, p, x);
    }
    assert a <= b && b <= a;
  }

  lemma {:induction false} FilterConcat<T>(s: seq<T>, t: seq<T>, p: T -> bool)
    ensures Filter(s + t, p) == Filter(s, p) + Filter(t, p)
  {
    if t == [] {
      assert s + t == s;
    } else {
      var init, last := t[..|t| - 1], t[|t| - 1];
      FilterConcat(s, init, p);
      assert (s + t)[..|s + t| - 1] == s + init;
    }
  }

  lemma FilterSnoc<T>(s: seq<T>, x: T, p: T -> bool)
    ensures Filter(s + [x], p) == Filter(s, p) + (if p(x) then [x] else [])
  {
    assert (s + [x])[..|s|] == s;
  }

  lemma {:induction false} FilterAll<T>(s: seq<T>, p: T -> bool)
    requires forall i :: 0 <= i < |s| ==> p(s[i])
    ensures Filter(s, p) == s
  {
    if s == [] {
    } else {
      FilterAll(s[..|s| - 1], p);
    }
  }

  lemma {:induction false} FilterNone<T>(s: seq<T>, p: T -> bool)
    requires forall i :: 0 <= i < |s| ==> !p(s[i])
    ensures Filter(s, p) == []
  {
    if s == [] {
    } else {
      FilterNone(s[..|s| - 1], p);
    }
  }

  lemma {:induction false} FilterElements<T>(s: seq<T>, p: T -> bool)
    ensures forall i :: 0 <= i < |Filter(s, p)| ==> p(Filter(s, p)[i]) && Filter(s, p)[i] in s
  {
    if s == [] {
    } else {
      FilterElements(s[..|s| - 1], p);
    }
  }

  lemma {:induction false} FilterSome<T>(s: seq<T>, p: T -> bool, i: nat)
    requires i < |s| && p(s[i])
    ensures |Filter(s, p)| > 0
  {
    if i < |s| - 1 {
      FilterSome(s[..|s| - 1], p, i);
    }
  }

  lemma MapConcat<A, B>(f: A -> B, s: seq<A>, t: seq<A>)
    ensures Map(f, s + t) == Map(f, s) + Map(f, t)
  {
  }

  function Without<T>(s: seq<T>, k: nat): (r: seq<T>)
    requires k < |s|
    ensures |r| == |s| - 1
  {
    s[..k] + s[k + 1..]
  }

  // Taking one element out of a sequence takes its image out of the images.
  lemma MapWithout<A, B>(f: A -> B, s: seq<A>, k: nat)
    requires k < |s|
    ensures multiset(Without(s, k)) == multiset(s) - multiset{s[k]}
    ensures multiset(Map(f, s)) == multiset(Map(f, Without(s, k))) + multiset{f(s[k])}
  {
    assert s == s[..k] + [s[k]] + s[k + 1..];
    var m := Map(f, s);
    assert m == m[..k] + [m[k]] + m[k + 1..];
    assert Map(f, Without(s, k)) == m[..k] + m[k + 1..];
  }

  lemma {:induction false} MapMultiset<A, B>(f: A -> B, s: seq<A>, t: seq<A>)
    requires multiset(s) == multiset(t)
    ensures multiset(Map(f, s)) == multiset(Map(f, t))
    decreases |s|
  {
    hide Map, Without;
    if s == [] {
      assert |t| == |multiset(t)|;
    } else {
      assert s[0] in multiset(t);
      var k :| 0 <= k < |t| && t[k] == s[0];
      MapWithout(f, s, 0);
      MapWithout(f, t, k);
      MapMultiset(f, Without(s, 0), Without(t, k));
    }
  }

  lemma FlattenSnoc<T>(ss: seq<seq<T>>, s: seq<T>)
    ensures Flatten(ss + [s]) == Flatten(ss) + s
  {
    assert (ss + [s])[..|ss|] == ss;
  }

  lemma {:induction false} FlattenConcat<T>(ss: seq<seq<T>>, tt: seq<seq<T>>)
    ensures Flatten(ss + tt) == Flatten(ss) + Flatten(tt)
  {
    if tt == [] {
      assert ss + tt == ss;
    } else {
      var init := tt[..|tt| - 1];
      FlattenConcat(ss, init);
      assert (ss + tt)[..|ss + tt| - 1] == ss + init;
      assert Flatten(ss + tt) == Flatten(ss) + Flatten(init) + tt[|tt| - 1];
    }
  }

  lemma FlattenCons<T>(s: seq<T>, ss: seq<seq<T>>)
    ensures Flatten([s] + ss) == s + Flatten(ss)
  {
    FlattenConcat([s], ss);
    FlattenSnoc([], s);
    assert [] + [s] == [s];
  }

  lemma {:induction false} FlattenElements<T>(ss: seq<seq<T>>, x: T)
    ensures x in Flatten(ss) <==> exists i :: 0 <= i < |ss| && x in ss[i]
  {
    if ss == [] {
    } else {
      var init, last := ss[..|ss| - 1], ss[|ss| - 1];
      FlattenElements(init, x);
      if x in Flatten(init) {
        var i :| 0 <= i < |init| && x in init[i];
        assert x in ss[i];
      }
      if exists i :: 0 <= i < |ss| && x in ss[i] {
        var i :| 0 <= i < |ss| && x in ss[i];
        assert i < |init| ==> x in init[i];
      }
    }
  }

  lemma SumSnoc<T>(ms: seq<multiset<T>>, m: multiset<T>)
    ensures Sum(ms + [m]) == Sum(ms) + m
  {
    assert (ms + [m])[..|ms|] == ms;
  }

  lemma {:induction false} SumConcat<T>(ms: seq<multiset<T>>, ns: seq<multiset<T>>)
    ensures Sum(ms + ns) == Sum(ms) + Sum(ns)
  {
    if ns == [] {
      assert ms + ns == ms;
    } else {
      SumConcat(ms, ns[..|ns| - 1]);
      assert (ms + ns)[..|ms + ns| - 1] == ms + ns[..|ns| - 1];
    }
  }

  // Adding to one summand adds to the sum.
  lemma {:induction false} SumAdd<T>(ms: seq<multiset<T>>, i: nat, m: multiset<T>)
    requires i < |ms|
    ensures Sum(ms[i := ms[i] + m]) == Sum(ms) + m
  {
    var init, last := ms[..|ms| - 1], ms[|ms| - 1];
    if i == |ms| - 1 {
      assert ms[i := ms[i] + m][..|ms| - 1] == init;
    } else {
      SumAdd(init, i, m);
      assert ms[i := ms[i] + m][..|ms| - 1] == init[i := init[i] + m];
      assert (Sum(init) + m) + last == Sum(ms) + m;
    }
  }

  // Moving one summand into another one keeps the sum.
  lemma SumMove<T>(ms: seq<multiset<T>>, i: nat, j: nat)
    requires i < |ms| && j < |ms| && i != j
    ensures Sum(ms[i := ms[i] + ms[j]][j := multiset{}]) == Sum(ms)
  {
    var m := ms[j];
    var empty := ms[j := multiset{}];
    assert empty[j] + m == m;
    assert empty[j := empty[j] + m] == ms;
    SumAdd(empty, j, m);
    SumAdd(empty, i, m);
    assert ms[i := ms[i] + m][j := multiset{}] == empty[i := empty[i] + m];
  }

  lemma {:induction false} SumEmpty<T>(ms: seq<multiset<T>>)
    requires forall i :: 0 <= i < |ms| ==> ms[i] == multiset{}
    ensures Sum(ms) == multiset{}
  {
    if ms == [] {
    } else {
      SumEmpty(ms[..|ms| - 1]);
    }
  }

  // The multiset of a concatenation is the sum of the multisets.
  lemma {:induction false} FlattenMultiset<T>(ss: seq<seq<T>>)
    ensures multiset(Flatten(ss)) == Sum(seq(|ss|, i requires 0 <= i < |ss| => multiset(ss[i])))
  {
    var ms := seq(|ss|, i requires 0 <= i < |ss| => multiset(ss[i]));
    if ss == [] {
    } else {
      var init := ss[..|ss| - 1];
      FlattenMultiset(init);
      assert ms[..|ms| - 1] == seq(|init|, i requires 0 <= i < |init| => multiset(init[i]));
    }
  }
}
