// The nested-loop join, which every faster join has to agree with, as a sequence and up to order.
module NestedLoops {
  import opened SeqFacts

  // The rows that one left row forms with the right rows it matches.
  function RowPairs<A, B, T>(l: A, rs: seq<B>, match_: (A, B) -> bool, out: (A, B) -> T): seq<T> {
    if rs == [] then []
    else
      var r := rs[|rs| - 1];
      RowPairs(l, rs[..|rs| - 1], match_, out) + (if match_(l, r) then [out(l, r)] else [])
  }

  function Pairs<A, B, T>(ls: seq<A>, rs: seq<B>, match_: (A, B) -> bool, out: (A, B) -> T): seq<T> {
    if ls == [] then [] else Pairs(ls[..|ls| - 1], rs, match_, out) + RowPairs(ls[|ls| - 1], rs, match_, out)
  }

  function Flip<A, B, T>(f: (A, B) -> T): (B, A) -> T {
    (b, a) => f(a, b)
  }

  lemma PairsSnoc<A, B, T>(ls: seq<A>, l: A, rs: seq<B>, match_: (A, B) -> bool, out: (A, B) -> T)
    ensures Pairs(ls + [l], rs, match_, out) == Pairs(ls, rs, match_, out) + RowPairs(l, rs, match_, out)
  {
    assert (ls + [l])[..|ls|] == ls;
  }

  lemma RowPairsSnoc<A, B, T>(l: A, rs: seq<B>, r: B, match_: (A, B) -> bool, out: (A, B) -> T)
    ensures RowPairs(l, rs + [r], match_, out) == RowPairs(l, rs, match_, out) + (if match_(l, r) then [out(l, r)] else [])
  {
    assert (rs + [r])[..|rs|] == rs;
  }

  // Only the multiset of left rows matters to the multiset of pairs.
  lemma {:induction false} PairsConcat<A, B, T>(ls: seq<A>, ms: seq<A>, rs: seq<B>, match_: (A, B) -> bool, out: (A, B) -> T)
    ensures Pairs(ls + ms, rs, match_, out) == Pairs(ls, rs, match_, out) + Pairs(ms, rs, match_, out)
  {
    hide RowPairs;
    if ms == [] {
      assert ls + ms == ls;
    } else {
      var init, m := ms[..|ms| - 1], ms[|ms| - 1];
      PairsConcat(ls, init, rs, match_, out);
      assert ls + ms == (ls + init) + [m];
      PairsSnoc(ls + init, m, rs, match_, out);
    }
  }

  lemma {:induction false} PairsMultiset<A, B, T>(ls: seq<A>, ms: seq<A>, rs: seq<B>, match_: (A, B) -> bool, out: (A, B) -> T)
    requires multiset(ls) == multiset(ms)
    ensures multiset(Pairs(ls, rs, match_, out)) == multiset(Pairs(ms, rs, match_, out))
    decreases |ls|
  {
    hide Pairs, RowPairs;
    if ls == [] {
      assert |ms| == |multiset(ms)|;
      assert ms == ls;
    } else {
      var x := ls[0];
      assert x in multiset(ms);
      var k :| 0 <= k < |ms| && ms[k] == x;
      var before, after := ms[..k], ms[k + 1..];
      assert ls == [x] + ls[1..];
      assert ms == before + [x] + after;
      assert multiset(ls[1..]) == multiset(ls) - multiset{x};
      assert multiset(before + after) == multiset(ms) - multiset{x};
      PairsMultiset(ls[1..], before + after, rs, match_, out);
      PairsConcat([x], ls[1..], rs, match_, out);
      PairsMiddle(before, x, after, rs, match_, out);
    }
  }

  lemma PairsMiddle<A, B, T>(before: seq<A>, x: A, after: seq<A>, rs: seq<B>, match_: (A, B) -> bool, out: (A, B) -> T)
    ensures multiset(Pairs(before + [x] + after, rs, match_, out))
         == multiset(Pairs([x], rs, match_, out)) + multiset(Pairs(before + after, rs, match_, out))
  {
    hide Pairs, RowPairs;
    PairsConcat(before + [x], after, rs, match_, out);
    PairsConcat(before, [x], rs, match_, out);
    PairsConcat(before, after, rs, match_, out);
  }

  // One more right row adds its pairs with every left row.
  lemma {:induction false} PairsRightSnoc<A, B, T>(ls: seq<A>, rs: seq<B>, r: B, match_: (A, B) -> bool, out: (A, B) -> T)
    ensures multiset(Pairs(ls, rs + [r], match_, out))
         == multiset(Pairs(ls, rs, match_, out)) + multiset(RowPairs(r, ls, Flip(match_), Flip(out)))
  {
    hide RowPairs;
    if ls == [] {
      assert RowPairs(r, ls, Flip(match_), Flip(out)) == [] by {
        NoPairs(r, Flip(match_), Flip(out));
      }
    } else {
      var init, l := ls[..|ls| - 1], ls[|ls| - 1];
      PairsRightSnoc(init, rs, r, match_, out);
      RowPairsSnoc(l, rs, r, match_, out);
      assert ls == init + [l];
      RowPairsSnoc(r, init, l, Flip(match_), Flip(out));
    }
  }

  lemma NoPairs<A, B, T>(l: A, match_: (A, B) -> bool, out: (A, B) -> T)
    ensures RowPairs<A, B, T>(l, [], match_, out) == []
  {
  }

  lemma {:induction false} NoRightRows<A, B, T>(ls: seq<A>, match_: (A, B) -> bool, out: (A, B) -> T)
    ensures Pairs<A, B, T>(ls, [], match_, out) == []
  {
    if ls != [] {
      NoRightRows(ls[..|ls| - 1], match_, out);
    }
  }

  // The loops can be swapped.
  lemma {:induction false} PairsSwap<A, B, T>(ls: seq<A>, rs: seq<B>, match_: (A, B) -> bool, out: (A, B) -> T)
    ensures multiset(Pairs(ls, rs, match_, out)) == multiset(Pairs(rs, ls, Flip(match_), Flip(out)))
  {
    hide RowPairs;
    if rs == [] {
      NoRightRows(ls, match_, out);
    } else {
      var init, r := rs[..|rs| - 1], rs[|rs| - 1];
      PairsSwap(ls, init, match_, out);
      assert rs == init + [r];
      PairsRightSnoc(ls, init, r, match_, out);
    }
  }

  // Only the multisets on both sides matter.
  lemma PairsBothMultisets<A, B, T>(ls: seq<A>, ls': seq<A>, rs: seq<B>, rs': seq<B>, match_: (A, B) -> bool, out: (A, B) -> T)
    requires multiset(ls) == multiset(ls') && multiset(rs) == multiset(rs')
    ensures multiset(Pairs(ls, rs, match_, out)) == multiset(Pairs(ls', rs', match_, out))
  {
    hide Pairs;
    PairsMultiset(ls, ls', rs, match_, out);
    PairsSwap(ls', rs, match_, out);
    PairsMultiset(rs, rs', ls', Flip(match_), Flip(out));
    PairsSwap(ls', rs', match_, out);
  }

  // Joining images of rows, with output rows that are images of each other.
  lemma {:induction false} RowPairsMap<A, B, T, C, D, U>(l: A, rs: seq<B>, match_: (A, B) -> bool, out: (A, B) -> T,
      f: A -> C, g: B -> D, h: T -> U, match2: (C, D) -> bool, out2: (C, D) -> U)
    requires forall i :: 0 <= i < |rs| ==> match_(l, rs[i]) == match2(f(l), g(rs[i]))
    requires forall i :: 0 <= i < |rs| && match_(l, rs[i]) ==> h(out(l, rs[i])) == out2(f(l), g(rs[i]))
    ensures Map(h, RowPairs(l, rs, match_, out)) == RowPairs(f(l), Map(g, rs), match2, out2)
  {
    hide Map;
    if rs == [] {
      NoImages(g);
      NoImages(h);
    } else {
      var init, r := rs[..|rs| - 1], rs[|rs| - 1];
      RowPairsMap(l, init, match_, out, f, g, h, match2, out2);
      MapSnoc(g, init, r);
      assert rs == init + [r];
      RowPairsSnoc(f(l), Map(g, init), g(r), match2, out2);
      if match_(l, r) {
        MapSnoc(h, RowPairs(l, init, match_, out), out(l, r));
      } else {
        assert RowPairs(l, rs, match_, out) == RowPairs(l, init, match_, out);
      }
    }
  }

  lemma NoImages<A, B>(f: A -> B)
    ensures Map<A, B>(f, []) == []
  {
  }

  lemma MapSnoc<A, B>(f: A -> B, s: seq<A>, x: A)
    ensures Map(f, s + [x]) == Map(f, s) + [f(x)]
  {
  }

  lemma {:induction false} PairsMap<A, B, T, C, D, U>(ls: seq<A>, rs: seq<B>, match_: (A, B) -> bool, out: (A, B) -> T,
      f: A -> C, g: B -> D, h: T -> U, match2: (C, D) -> bool, out2: (C, D) -> U)
    requires forall i, j :: 0 <= i < |ls| && 0 <= j < |rs| ==> match_(ls[i], rs[j]) == match2(f(ls[i]), g(rs[j]))
    requires forall i, j :: 0 <= i < |ls| && 0 <= j < |rs| && match_(ls[i], rs[j]) ==> h(out(ls[i], rs[j])) == out2(f(ls[i]), g(rs[j]))
    ensures Map(h, Pairs(ls, rs, match_, out)) == Pairs(Map(f, ls), Map(g, rs), match2, out2)
  {
    hide Map, RowPairs;
    if ls == [] {
      NoImages(f);
      NoImages(h);
    } else {
      var init, l := ls[..|ls| - 1], ls[|ls| - 1];
      PairsMap(init, rs, match_, out, f, g, h, match2, out2);
      RowPairsMap(l, rs, match_, out, f, g, h, match2, out2);
      MapSnoc(f, init, l);
      assert ls == init + [l];
      PairsSnoc(Map(f, init), f(l), Map(g, rs), match2, out2);
      MapConcat(h, Pairs(init, rs, match_, out), RowPairs(l, rs, match_, out));
    }
  }

  // -------- which pairs there are --------

  // The places of a left and a right row.
  datatype Place = Place(left: nat, right: nat)

  ghost predicate Matches<A, B>(ls: seq<A>, rs: seq<B>, match_: (A, B) -> bool, p: Place) {
    p.left < |ls| && p.right < |rs| && match_(ls[p.left], rs[p.right])
  }

  // The places of the rows that a join pairs, in the order of its result.
  ghost function Places<A, B>(ls: seq<A>, rs: seq<B>, match_: (A, B) -> bool): seq<Place> {
    if ls == [] then [] else Places(ls[..|ls| - 1], rs, match_) + RowPlaces(ls, |ls| - 1, rs, match_)
  }

  ghost function RowPlaces<A, B>(ls: seq<A>, a: nat, rs: seq<B>, match_: (A, B) -> bool): seq<Place>
    requires a < |ls|
  {
    if rs == [] then []
    else
      RowPlaces(ls, a, rs[..|rs| - 1], match_) + (if match_(ls[a], rs[|rs| - 1]) then [Place(a, |rs| - 1)] else [])
  }

  lemma {:induction false} RowPlacesAre<A, B, T>(ls: seq<A>, a: nat, rs: seq<B>, match_: (A, B) -> bool, out: (A, B) -> T)
    requires a < |ls|
    ensures var places, rows := RowPlaces(ls, a, rs, match_), RowPairs(ls[a], rs, match_, out);
      && |places| == |rows|
      && (forall i :: 0 <= i < |rows| ==>
            places[i].left == a && Matches(ls, rs, match_, places[i]) && rows[i] == out(ls[a], rs[places[i].right]))
      && (forall i, j :: 0 <= i < j < |rows| ==> places[i] != places[j])
      && (forall b: nat :: Matches(ls, rs, match_, Place(a, b)) ==> Place(a, b) in places)
  {
    if rs != [] {
      var init := rs[..|rs| - 1];
      RowPlacesAre(ls, a, init, match_, out);
      var before, places := RowPlaces(ls, a, init, match_), RowPlaces(ls, a, rs, match_);
      forall i | 0 <= i < |before|
        ensures Matches(ls, rs, match_, before[i]) && rs[before[i].right] == init[before[i].right] && before[i].right < |init|
      {
        assert Matches(ls, init, match_, before[i]);
      }
      forall b: nat | Matches(ls, rs, match_, Place(a, b))
        ensures Place(a, b) in places
      {
        if b < |init| {
          assert Matches(ls, init, match_, Place(a, b));
        }
      }
    }
  }

  // A join has one row for each pair of places whose rows match, and no other.
  lemma {:induction false} PlacesAre<A, B, T>(ls: seq<A>, rs: seq<B>, match_: (A, B) -> bool, out: (A, B) -> T)
    ensures var places, rows := Places(ls, rs, match_), Pairs(ls, rs, match_, out);
      && |places| == |rows|
      && (forall i :: 0 <= i < |rows| ==>
            Matches(ls, rs, match_, places[i]) && rows[i] == out(ls[places[i].left], rs[places[i].right]))
      && (forall i, j :: 0 <= i < j < |rows| ==> places[i] != places[j])
      && (forall p :: Matches(ls, rs, match_, p) ==> p in places)
  {
    hide RowPlaces, RowPairs;
    if ls != [] {
      var init, a := ls[..|ls| - 1], |ls| - 1;
      PlacesAre(init, rs, match_, out);
      RowPlacesAre(ls, a, rs, match_, out);
      var before, places := Places(init, rs, match_), Places(ls, rs, match_);
      forall i | 0 <= i < |before|
        ensures Matches(ls, rs, match_, before[i]) && ls[before[i].left] == init[before[i].left] && before[i].left < a
      {
        assert Matches(init, rs, match_, before[i]);
      }
      forall p | Matches(ls, rs, match_, p)
        ensures p in places
      {
        if p.left < a {
          assert Matches(init, rs, match_, p);
        } else {
          assert Matches(ls, rs, match_, Place(a, p.right));
        }
      }
    }
  }
}
