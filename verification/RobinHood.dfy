// The Robin Hood table (include/robinhood.h): open addressing without wrap-around, displacement
// by probe length, and a rehash that doubles the table.
module RobinHood {
  import opened Bits
  import opened Options

  datatype HashNode<Key, Value> = Empty | Occupied(key: Key, value: Value, psl: nat)

  // hash_func
  function Home<Key>(hash: Key -> nat, size: nat, key: Key): nat
    requires size > 0
  {
    hash(key) % size
  }

  // Every item sits psl slots after its home; a displaced item follows an occupied slot whose
  // probe length is at most one shorter.  Hence homes never decrease along a run.
  ghost predicate Ordered<Key, Value>(hash: Key -> nat, b: seq<HashNode<Key, Value>>) {
    forall i :: 0 <= i < |b| && b[i].Occupied? ==>
      && b[i].psl <= i && Home(hash, |b|, b[i].key) == i - b[i].psl
      && (b[i].psl > 0 ==> b[i - 1].Occupied? && b[i].psl <= b[i - 1].psl + 1)
  }

  // A key is inserted only if it is absent.
  ghost function Inserted<Key, Value>(m: map<Key, Value>, key: Key, value: Value): map<Key, Value> {
    if key in m then m else m[key := value]
  }

  ghost predicate Holds<Key, Value>(b: seq<HashNode<Key, Value>>, i: int, key: Key) {
    0 <= i < |b| && b[i].Occupied? && b[i].key == key
  }

  // The buffer holds exactly the map m, every key once.
  ghost predicate Represents<Key, Value>(b: seq<HashNode<Key, Value>>, m: map<Key, Value>) {
    && (forall i :: 0 <= i < |b| && b[i].Occupied? ==> b[i].key in m && m[b[i].key] == b[i].value)
    && (forall k :: k in m ==> exists i :: Holds(b, i, k))
    && (forall i, j :: 0 <= i < j < |b| && b[i].Occupied? && b[j].Occupied? ==> b[i].key != b[j].key)
  }

  // All slots from an item's home up to it are occupied, by items that are at least as far from
  // that home: this is what makes both early exits of find sound.
  lemma {:induction false} PathIsOccupied<Key, Value>(hash: Key -> nat, b: seq<HashNode<Key, Value>>, j: nat, i: nat)
    requires Ordered(hash, b) && j < |b| && b[j].Occupied?
    requires j - b[j].psl <= i <= j
    ensures b[i].Occupied? && b[i].psl >= i - (j - b[j].psl)
    decreases j - i
  {
    if i < j {
      PathIsOccupied(hash, b, j, i + 1);
    }
  }

  // Homes are non-decreasing along every occupied run.
  lemma {:induction false} HomesNonDecreasing<Key, Value>(hash: Key -> nat, b: seq<HashNode<Key, Value>>, i: nat, j: nat)
    requires Ordered(hash, b) && i <= j < |b|
    requires forall k :: i <= k <= j ==> b[k].Occupied?
    ensures Home(hash, |b|, b[i].key) <= Home(hash, |b|, b[j].key)
    decreases j - i
  {
    if i < j {
      HomesNonDecreasing(hash, b, i, j - 1);
    }
  }

  // -------- one insertion step --------

  // The item in hand at slot i with probe length psl may be put there or carried on.
  ghost predicate InHand<Key, Value>(hash: Key -> nat, b: seq<HashNode<Key, Value>>, i: nat, key: Key, psl: nat) {
    && i < |b| && psl <= i && Home(hash, |b|, key) == i - psl
    && (psl > 0 ==> b[i - 1].Occupied? && psl <= b[i - 1].psl + 1)
  }

  lemma PlaceKeepsOrder<Key, Value>(hash: Key -> nat, b: seq<HashNode<Key, Value>>, i: nat, key: Key, value: Value, psl: nat)
    requires Ordered(hash, b) && InHand(hash, b, i, key, psl)
    requires b[i].Occupied? ==> psl >= b[i].psl
    ensures Ordered(hash, b[i := Occupied(key, value, psl)])
  {
  }

  lemma PlaceRepresents<Key, Value>(b: seq<HashNode<Key, Value>>, m: map<Key, Value>, i: nat, key: Key, value: Value, psl: nat)
    requires Represents(b, m) && i < |b| && b[i].Empty? && key !in m
    ensures Represents(b[i := Occupied(key, value, psl)], m[key := value])
  {
    var b', m' := b[i := Occupied(key, value, psl)], m[key := value];
    forall k | k in m'
      ensures exists j :: Holds(b', j, k)
    {
      if k == key {
        assert Holds(b', i, k);
      } else {
        var j :| Holds(b, j, k);
        assert Holds(b', j, k);
      }
    }
  }

  // The swap hands over the old occupant of slot i.
  lemma SwapRepresents<Key, Value>(b: seq<HashNode<Key, Value>>, m: map<Key, Value>, i: nat, key: Key, value: Value, psl: nat)
    requires Represents(b, m) && i < |b| && b[i].Occupied? && key !in m
    ensures b[i].key in m && b[i].key != key
    ensures Represents(b[i := Occupied(key, value, psl)], m[key := value] - {b[i].key})
    ensures (m[key := value] - {b[i].key})[b[i].key := b[i].value] == m[key := value]
  {
    var b', m' := b[i := Occupied(key, value, psl)], m[key := value] - {b[i].key};
    forall k | k in m'
      ensures exists j :: Holds(b', j, k)
    {
      if k == key {
        assert Holds(b', i, k);
      } else {
        var j :| Holds(b, j, k);
        assert Holds(b', j, k);
      }
    }
  }

  // -------- why doubling ends --------

  // A table of this size is big enough for all keys of u: no probe can reach its end and the
  // load threshold is out of reach.
  ghost predicate BigEnough<Key>(hash: Key -> nat, u: set<Key>, cap: nat) {
    && 2 * |u| + 1 < cap
    && (forall k :: k in u ==> hash(k) + |u| < cap)
  }

  lemma {:induction false} BigEnoughExists<Key>(hash: Key -> nat, u: set<Key>, v: set<Key>, n: nat) returns (cap: nat)
    requires v <= u && n == |u|
    ensures 2 * n + 1 < cap
    ensures forall k :: k in v ==> hash(k) + n < cap
    decreases |v|
  {
    if v == {} {
      cap := 2 * n + 2;
    } else {
      var k :| k in v;
      var rest := BigEnoughExists(hash, u, v - {k}, n);
      cap := Max(rest, hash(k) + n + 1);
    }
  }

  // Occupied slots hold distinct keys, so a full stretch is no longer than the number of keys.
  lemma {:induction false} StretchFits<Key, Value>(b: seq<HashNode<Key, Value>>, m: map<Key, Value>, u: set<Key>, i: nat, j: nat)
    requires Represents(b, m) && m.Keys <= u && i <= j <= |b|
    requires forall k :: i <= k < j ==> b[k].Occupied?
    ensures j - i <= |u|
  {
    var keys: set<Key> := {};
    var k := i;
    while k < j
      invariant i <= k <= j && |keys| == k - i && keys <= u
      invariant forall x :: x in keys ==> exists q :: i <= q < k && Holds(b, q, x)
    {
      assert b[k].key in m;
      assert b[k].key !in keys;
      forall x | x in keys + {b[k].key}
        ensures exists q :: i <= q < k + 1 && Holds(b, q, x)
      {
        if x in keys {
          var q :| i <= q < k && Holds(b, q, x);
        } else {
          assert Holds(b, k, x);
        }
      }
      keys := keys + {b[k].key};
      k := k + 1;
    }
    SubsetCardinality(keys, u);
  }

  lemma SubsetCardinality<T>(a: set<T>, b: set<T>)
    requires a <= b
    ensures |a| <= |b|
  {
    assert b == a + (b - a);
  }

  // -------- collecting the items of a buffer --------

  function ItemsOf<Key, Value>(b: seq<HashNode<Key, Value>>): seq<(Key, Value)> {
    if b == [] then []
    else
      var last := b[|b| - 1];
      ItemsOf(b[..|b| - 1]) + (if last.Occupied? then [(last.key, last.value)] else [])
  }

  // Insert the pairs from left to right, keeping the first value of a key.
  ghost function FirstWins<Key, Value>(items: seq<(Key, Value)>): map<Key, Value> {
    if items == [] then map[]
    else
      var m, last := FirstWins(items[..|items| - 1]), items[|items| - 1];
      if last.0 in m then m else m[last.0 := last.1]
  }

  ghost predicate FirstAt<Key, Value>(items: seq<(Key, Value)>, key: Key, i: int) {
    0 <= i < |items| && items[i].0 == key && forall j :: 0 <= j < i ==> items[j].0 != key
  }

  // FirstWins maps a key to the value of its first pair.
  lemma {:induction false} FirstWinsIsFirst<Key, Value>(items: seq<(Key, Value)>, key: Key)
    ensures key in FirstWins(items) <==> exists i :: FirstAt(items, key, i)
    ensures forall i :: FirstAt(items, key, i) ==> key in FirstWins(items) && FirstWins(items)[key] == items[i].1
  {
    if items == [] {
    } else {
      var init, last := items[..|items| - 1], items[|items| - 1];
      FirstWinsIsFirst(init, key);
      if key in FirstWins(init) {
        var i :| FirstAt(init, key, i);
        assert FirstAt(items, key, i);
      } else if last.0 == key {
        forall j | 0 <= j < |init|
          ensures init[j].0 != key
        {
          AbsentBefore(init, key, j);
        }
        assert FirstAt(items, key, |init|);
      } else {
        forall i | FirstAt(items, key, i)
          ensures FirstAt(init, key, i)
        {
        }
      }
    }
  }

  lemma {:induction false} AbsentBefore<Key, Value>(items: seq<(Key, Value)>, key: Key, j: nat)
    requires j < |items| && forall i :: !FirstAt(items, key, i)
    ensures items[j].0 != key
  {
    forall i | 0 <= i < j
      ensures items[i].0 != key
    {
      AbsentBefore(items, key, i);
    }
    assert !FirstAt(items, key, j);
  }

  lemma NoItems<Key, Value>(items: seq<(Key, Value)>)
    requires items == []
    ensures FirstWins(items) == map[]
  {
  }

  lemma FirstWinsSnoc<Key, Value>(items: seq<(Key, Value)>, item: (Key, Value))
    ensures FirstWins(items + [item])
         == Inserted(FirstWins(items), item.0, item.1)
  {
    assert (items + [item])[..|items|] == items;
  }

  // The items of a buffer are the map it represents.
  lemma {:induction false} ItemsRepresent<Key, Value>(b: seq<HashNode<Key, Value>>, m: map<Key, Value>)
    requires Represents(b, m)
    ensures FirstWins(ItemsOf(b)) == m
    decreases |b|
  {
    if b == [] {
      assert m == map[];
    } else {
      var init, last := b[..|b| - 1], b[|b| - 1];
      var m' := if last.Occupied? then m - {last.key} else m;
      forall k | k in m'
        ensures exists i :: Holds(init, i, k)
      {
        var i :| Holds(b, i, k);
        assert Holds(init, i, k);
      }
      ItemsRepresent(init, m');
      if last.Occupied? {
        FirstWinsSnoc(ItemsOf(init), (last.key, last.value));
        assert ItemsOf(b) == ItemsOf(init) + [(last.key, last.value)];
        assert last.key in m && m'[last.key := last.value] == m;
      } else {
        assert ItemsOf(b) == ItemsOf(init);
      }
    }
  }

  // All that matters about static_cast<size_t>(size * 0.7): at least half the table fills first.
  ghost predicate LoadBound(threshold: nat -> nat) {
    forall s: nat :: s > 0 ==> s / 2 <= threshold(s)
  }

  class HashTable<Key(==), Value> {
    const hash: Key -> nat
    const threshold: nat -> nat                // static_cast<size_t>(size * 0.7)
    var size: nat
    var buffer: array<HashNode<Key, Value>>
    var occupiedCount: nat
    ghost var contents: map<Key, Value>

    ghost predicate Valid()
      reads this, buffer
    {
      && buffer.Length == size > 0
      && Ordered(hash, buffer[..])
      && Represents(buffer[..], contents)
      && occupiedCount == |contents|
      && LoadBound(threshold)
    }

    constructor (s: nat, hash: Key -> nat, threshold: nat -> nat)
      requires s > 0
      requires LoadBound(threshold)
      ensures Valid() && contents == map[] && size == s && this.hash == hash && this.threshold == threshold
    {
      this.hash, this.threshold := hash, threshold;
      size := s;
      buffer := new HashNode<Key, Value>[s](_ => Empty);
      occupiedCount := 0;
      contents := map[];
    }

    // insert(key, value).  The ghost arguments bound the keys in play: u contains all of them and
    // a table of cap slots is big enough for u, which is why the mutual recursion ends.
    method Put(key: Key, value: Value, ghost u: set<Key>, ghost cap: nat)
      requires Valid() && contents.Keys <= u && key in u && BigEnough(hash, u, cap)
      modifies this, buffer
      ensures Valid() && (buffer == old(buffer) || fresh(buffer))
      ensures contents == Inserted(old(contents), key, value)
      ensures old(size) <= size <= Max(old(size), 2 * cap)
      decreases if size < cap then cap - size else 0, 3
    {
      hide Ordered, Represents, BigEnough, Inserted;
      if occupiedCount >= threshold(size) {
        LoadFits(hash, contents, u, cap, size, threshold);
        Rehash(u, cap);
      }
      Walk(key, value, u, cap);
    }

    // The probe loop of insert.
    method Walk(key: Key, value: Value, ghost u: set<Key>, ghost cap: nat)
      requires Valid() && contents.Keys <= u && key in u && BigEnough(hash, u, cap)
      modifies this, buffer
      ensures Valid() && (buffer == old(buffer) || fresh(buffer))
      ensures contents == Inserted(old(contents), key, value)
      ensures old(size) <= size <= Max(old(size), 2 * cap)
      decreases if size < cap then cap - size else 0, 2
    {
      hide Ordered, Represents, InHand, Carrying, Home, BigEnough, Inserted, LoadBound;
      var i: nat := Home(hash, size, key);
      var psl: nat := 0;
      var curKey, curValue := key, value;
      AtHome(hash, buffer[..], contents, key, value);
      ghost var start := contents;
      while i < size
        invariant Valid() && i < size == old(size) && buffer == old(buffer)
        invariant contents.Keys <= u && curKey in u
        invariant InHand(hash, buffer[..], i, curKey, psl)
        invariant Carrying(hash, buffer[..], contents, start, key, value, i, curKey, curValue)
        decreases size - i
      {
        StepFacts(hash, buffer[..], contents, start, key, value, i, curKey, curValue, psl);
        if buffer[i].Empty? {
          PlaceAt(i, curKey, curValue, psl);
          return;
        }
        if buffer[i].key == curKey {
          return;
        }
        if psl > buffer[i].psl {
          curKey, curValue, psl := SwapAt(i, curKey, curValue, psl, start, key, value, u);
        }
        if i == size - 1 {
          StepFacts(hash, buffer[..], contents, start, key, value, i, curKey, curValue, psl);
          Overflow(curKey, curValue, psl, u, cap);
          return;
        }
        CarryOn(hash, buffer[..], contents, start, key, value, i, curKey, curValue, psl);
        i, psl := i + 1, psl + 1;
      }
    }

    // The item in hand would leave the table: rehash and insert it anew.
    method Overflow(key: Key, value: Value, ghost psl: nat, ghost u: set<Key>, ghost cap: nat)
      requires Valid() && contents.Keys <= u && key in u && BigEnough(hash, u, cap)
      requires buffer[size - 1].Occupied? && psl <= buffer[size - 1].psl
      requires InHand(hash, buffer[..], size - 1, key, psl)
      modifies this, buffer
      ensures Valid() && (buffer == old(buffer) || fresh(buffer))
      ensures contents == Inserted(old(contents), key, value)
      ensures old(size) <= size <= Max(old(size), 2 * cap)
      decreases if size < cap then cap - size else 0, 1
    {
      hide Ordered, Represents, BigEnough, Inserted, LoadBound;
      EndIsFar(hash, buffer[..], contents, u, cap, key, psl);
      Rehash(u, cap);
      Put(key, value, u, cap);
    }

    // An empty slot takes the item in hand.
    method PlaceAt(i: nat, key: Key, value: Value, psl: nat)
      requires Valid() && i < size && buffer[i].Empty? && key !in contents
      requires InHand(hash, buffer[..], i, key, psl)
      modifies this, buffer
      ensures Valid() && buffer == old(buffer) && size == old(size)
      ensures contents == Inserted(old(contents), key, value)
    {
      PlaceKeepsOrder(hash, buffer[..], i, key, value, psl);
      PlaceRepresents(buffer[..], contents, i, key, value, psl);
      ghost var b := buffer[..];
      buffer[i] := Occupied(key, value, psl);
      assert buffer[..] == b[i := Occupied(key, value, psl)];
      occupiedCount := occupiedCount + 1;
      contents := contents[key := value];
    }

    // Robin Hood swapping: the item further from its home gets the slot.
    method SwapAt(i: nat, curKey: Key, curValue: Value, psl: nat,
                  ghost start: map<Key, Value>, ghost key: Key, ghost value: Value, ghost u: set<Key>)
        returns (nextKey: Key, nextValue: Value, nextPsl: nat)
      requires Valid() && i < size && buffer[i].Occupied? && psl > buffer[i].psl
      requires contents.Keys <= u && curKey in u && key !in start
      requires InHand(hash, buffer[..], i, curKey, psl)
      requires Carrying(hash, buffer[..], contents, start, key, value, i, curKey, curValue)
      modifies this, buffer
      ensures Valid() && buffer == old(buffer) && size == old(size)
      ensures buffer[i].Occupied? && nextPsl < buffer[i].psl && nextKey != buffer[i].key
      ensures InHand(hash, buffer[..], i, nextKey, nextPsl)
      ensures Carrying(hash, buffer[..], contents, start, key, value, i, nextKey, nextValue)
      ensures contents.Keys <= u && nextKey in u
    {
      PlaceKeepsOrder(hash, buffer[..], i, curKey, curValue, psl);
      SwapRepresents(buffer[..], contents, i, curKey, curValue, psl);
      ghost var b := buffer[..];
      nextKey, nextValue, nextPsl := buffer[i].key, buffer[i].value, buffer[i].psl;
      buffer[i] := Occupied(curKey, curValue, psl);
      assert buffer[..] == b[i := Occupied(curKey, curValue, psl)];
      contents := contents[curKey := curValue] - {nextKey};
    }

    method Rehash(ghost u: set<Key>, ghost cap: nat)
      requires Valid() && contents.Keys <= u && BigEnough(hash, u, cap) && size < cap
      modifies this, buffer
      ensures Valid() && fresh(buffer)
      ensures contents == old(contents)
      ensures 2 * old(size) <= size <= 2 * cap
      decreases cap - size, 0
    {
      hide Ordered, Represents, BigEnough, Inserted, FirstWins, LoadBound;
      var items := CollectItems();
      ghost var before := contents;
      Clear(2 * size);
      NoItems(items[..0]);
      for n := 0 to |items|
        invariant Valid() && fresh(buffer)
        invariant contents == FirstWins(items[..n])
        invariant contents.Keys <= before.Keys <= u
        invariant 2 * old(size) <= size <= 2 * cap
      {
        ItemKeys(items, before, n);
        InsertedKeys(contents, items[n].0, items[n].1);
        Put(items[n].0, items[n].1, u, cap);
        assert items[..n + 1] == items[..n] + [items[n]];
        FirstWinsSnoc(items[..n], items[n]);
      }
      assert items[..|items|] == items;
    }

    // buffer.clear(), buffer.resize(n)
    method Clear(n: nat)
      requires n > 0 && Valid()
      modifies this
      ensures Valid() && fresh(buffer) && size == n && contents == map[]
    {
      size := n;
      buffer := new HashNode<Key, Value>[n](_ => Empty);
      occupiedCount := 0;
      contents := map[];
    }

    method CollectItems() returns (items: seq<(Key, Value)>)
      requires Valid()
      ensures FirstWins(items) == contents
    {
      items := [];
      for i := 0 to size
        invariant items == ItemsOf(buffer[..i])
      {
        assert buffer[..i + 1][..i] == buffer[..i];
        if buffer[i].Occupied? {
          items := items + [(buffer[i].key, buffer[i].value)];
        }
      }
      assert buffer[..size] == buffer[..];
      ItemsRepresent(buffer[..], contents);
    }

    // insert as its callers see it.
    method Insert(key: Key, value: Value)
      requires Valid()
      modifies this, buffer
      ensures Valid() && (buffer == old(buffer) || fresh(buffer))
      ensures contents == Inserted(old(contents), key, value)
    {
      ghost var u := contents.Keys + {key};
      ghost var cap := BigEnoughExists(hash, u, u, |u|);
      Put(key, value, u, cap);
    }

    // A lookup stops at an empty slot or at an item nearer its home than key would be, and still
    // agrees with the map.
    method Find(key: Key) returns (r: Option<Value>)
      requires Valid()
      ensures r == if key in contents then Some(contents[key]) else None
    {
      var k := Home(hash, size, key);
      var i := k;
      ghost var b := buffer[..];
      while i < size
        invariant k <= i <= size
        invariant forall q :: k <= q < i ==> b[q].Occupied? && b[q].key != key
      {
        if key in contents {
          PathTo(hash, b, contents, key, i);
        }
        if buffer[i].Empty? {
          return None;
        }
        if buffer[i].key == key {
          return Some(buffer[i].value);
        }
        if buffer[i].psl < i - k {
          return None;
        }
        i := i + 1;
      }
      Absent(hash, b, contents, key);
      return None;
    }
  }

  // -------- insert and rehash --------

  // Where insert stands at slot i: either the key is present further on and nothing has moved, or
  // the buffer plus the item in hand is the map to be reached.
  ghost predicate Carrying<Key, Value>(hash: Key -> nat, b: seq<HashNode<Key, Value>>, held: map<Key, Value>,
                                       start: map<Key, Value>, key: Key, value: Value,
                                       i: nat, curKey: Key, curValue: Value)
    requires 0 < |b| && i <= |b|
  {
    if key in start then
      && held == start && curKey == key && Home(hash, |b|, key) <= i
      && forall q :: Home(hash, |b|, key) <= q < i ==> b[q].Occupied? && b[q].key != key
    else
      curKey !in held && held[curKey := curValue] == start[key := value]
  }

  lemma AtHome<Key, Value>(hash: Key -> nat, b: seq<HashNode<Key, Value>>, held: map<Key, Value>, key: Key, value: Value)
    requires |b| > 0
    ensures var i := Home(hash, |b|, key);
      && i < |b| && InHand(hash, b, i, key, 0)
      && Carrying(hash, b, held, held, key, value, i, key, value)
  {
  }

  // At slot i: inserting the item in hand is what is left to do; a key already present is not
  // behind an empty slot and displaces nothing on the way.
  lemma StepFacts<Key, Value>(hash: Key -> nat, b: seq<HashNode<Key, Value>>, held: map<Key, Value>,
                              start: map<Key, Value>, key: Key, value: Value,
                              i: nat, curKey: Key, curValue: Value, psl: nat)
    requires |b| > 0 && Ordered(hash, b) && Represents(b, held)
    requires InHand(hash, b, i, curKey, psl)
    requires Carrying(hash, b, held, start, key, value, i, curKey, curValue)
    ensures Inserted(held, curKey, curValue) == Inserted(start, key, value)
    ensures b[i].Empty? ==> curKey !in held
    ensures b[i].Occupied? && b[i].key == curKey ==> held == Inserted(start, key, value)
    ensures b[i].Occupied? && psl > b[i].psl ==> key !in start
  {
    if key in start {
      PathTo(hash, b, held, key, i);
    }
  }

  lemma CarryOn<Key, Value>(hash: Key -> nat, b: seq<HashNode<Key, Value>>, held: map<Key, Value>,
                            start: map<Key, Value>, key: Key, value: Value,
                            i: nat, curKey: Key, curValue: Value, psl: nat)
    requires InHand(hash, b, i, curKey, psl) && i + 1 < |b| && b[i].Occupied? && psl <= b[i].psl && b[i].key != curKey
    requires Carrying(hash, b, held, start, key, value, i, curKey, curValue)
    ensures InHand(hash, b, i + 1, curKey, psl + 1)
    ensures Carrying(hash, b, held, start, key, value, i + 1, curKey, curValue)
  {
  }

  lemma InsertedKeys<Key, Value>(m: map<Key, Value>, key: Key, value: Value)
    ensures Inserted(m, key, value).Keys == m.Keys + {key}
  {
  }

  lemma ItemKeys<Key, Value>(items: seq<(Key, Value)>, m: map<Key, Value>, n: nat)
    requires FirstWins(items) == m && n < |items|
    ensures items[n].0 in m
  {
    if forall i :: !FirstAt(items, items[n].0, i) {
      AbsentBefore(items, items[n].0, n);
    }
    FirstWinsIsFirst(items, items[n].0);
  }

  // A table over its load threshold is smaller than cap.
  lemma LoadFits<Key, Value>(hash: Key -> nat, m: map<Key, Value>, u: set<Key>, cap: nat, size: nat,
                             threshold: nat -> nat)
    requires m.Keys <= u && 0 < size && threshold(size) <= |m| && LoadBound(threshold) && BigEnough(hash, u, cap)
    ensures size < cap
  {
    SubsetCardinality(m.Keys, u);
  }

  // A probe that reaches the last slot has passed only occupied slots since its home, so the
  // table is smaller than cap.
  lemma EndIsFar<Key, Value>(hash: Key -> nat, b: seq<HashNode<Key, Value>>, m: map<Key, Value>, u: set<Key>, cap: nat,
                             key: Key, psl: nat)
    requires Ordered(hash, b) && Represents(b, m) && m.Keys <= u && key in u && BigEnough(hash, u, cap)
    requires |b| > 0 && b[|b| - 1].Occupied? && psl <= b[|b| - 1].psl
    requires InHand(hash, b, |b| - 1, key, psl)
    ensures |b| < cap
  {
    var last, h := |b| - 1, |b| - 1 - psl;
    forall q | h <= q < |b|
      ensures b[q].Occupied?
    {
      PathIsOccupied(hash, b, last, q);
    }
    StretchFits(b, m, u, h, |b|);
    ModAtMost(hash(key), |b|);
  }

  lemma ModAtMost(a: nat, n: nat)
    requires n > 0
    ensures a % n <= a
  {
  }

  lemma Absent<Key, Value>(hash: Key -> nat, b: seq<HashNode<Key, Value>>, m: map<Key, Value>, key: Key)
    requires |b| > 0 && Ordered(hash, b) && Represents(b, m)
    requires forall q :: Home(hash, |b|, key) <= q < |b| ==> b[q].Occupied? && b[q].key != key
    ensures key !in m
  {
    forall k | k in m
      ensures k != key
    {
      var j :| Holds(b, j, k);
    }
  }

  // If key is present and not in the slots from its home to i, slot i is on the way to it.
  lemma PathTo<Key, Value>(hash: Key -> nat, b: seq<HashNode<Key, Value>>, m: map<Key, Value>, key: Key, i: nat)
    requires |b| > 0 && Ordered(hash, b) && Represents(b, m) && key in m
    requires Home(hash, |b|, key) <= i < |b|
    requires forall q :: Home(hash, |b|, key) <= q < i ==> b[q].Occupied? && b[q].key != key
    ensures b[i].Occupied? && b[i].psl >= i - Home(hash, |b|, key)
  {
    var j :| Holds(b, j, key);
    PathIsOccupied(hash, b, j, i);
  }
}
