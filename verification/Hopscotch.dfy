// The hopscotch table (include/hopscotch.h): every item stays within H = 4 slots of its home, and
// the home's bitmap says in which of them.
module Hopscotch {
  import opened Options
  import opened SeqFacts
  import opened Bits

  // hopInfo is a size_t of which only the low H bits are used.
  datatype HashNode<Key, Value> = HashNode(hopInfo: bv64, item: Option<(Key, Value)>)

  function Home<Key>(hash: Key -> nat, size: nat, key: Key): (k: nat)
    requires size > 0
    ensures k < size
  {
    hash(key) % size
  }

  // 1 << d
  function OneBit(d: nat): bv64
    requires d < 4
  {
    if d == 0 then 1 else if d == 1 then 2 else if d == 2 then 4 else 8
  }

  predicate HasBit(bitmap: bv64, d: nat)
    requires d < 4
  {
    bitmap & OneBit(d) != 0
  }

  // hop_info |= 1 << d
  function AddBit(bitmap: bv64, d: nat): bv64
    requires d < 4
  {
    bitmap | OneBit(d)
  }

  // hop_info &= ~(1 << d)
  function DropBit(bitmap: bv64, d: nat): bv64
    requires d < 4
  {
    bitmap & !OneBit(d)
  }

  lemma BitChanged(bitmap: bv64, d: nat, e: nat)
    requires d < 4 && e < 4 && bitmap < 16
    ensures AddBit(bitmap, d) < 16 && DropBit(bitmap, d) < 16
    ensures HasBit(AddBit(bitmap, d), e) <==> e == d || HasBit(bitmap, e)
    ensures HasBit(DropBit(bitmap, d), e) <==> e != d && HasBit(bitmap, e)
  {
    if d == 0 {
    } else if d == 1 {
    } else if d == 2 {
    } else {
    }
  }

  // Slot i holds an item whose home is h.
  ghost predicate Lives<Key, Value>(hash: Key -> nat, b: seq<HashNode<Key, Value>>, i: int, h: int) {
    0 <= i < |b| && b[i].item.Some? && Home(hash, |b|, b[i].item.value.0) == h
  }

  // Bit d of the bitmap of h is set iff slot h + d holds an item with home h.
  ghost predicate Bitmaps<Key, Value>(hash: Key -> nat, b: seq<HashNode<Key, Value>>) {
    forall h :: 0 <= h < |b| ==> BitmapAt(hash, b, h)
  }

  ghost predicate BitmapAt<Key, Value>(hash: Key -> nat, b: seq<HashNode<Key, Value>>, h: nat)
    requires h < |b|
  {
    b[h].hopInfo < 16 && forall d :: 0 <= d < 4 ==> (HasBit(b[h].hopInfo, d) <==> Lives(hash, b, h + d, h))
  }

  // Every item is in the neighbourhood of its home.
  ghost predicate Near<Key, Value>(hash: Key -> nat, b: seq<HashNode<Key, Value>>) {
    forall i, h :: Lives(hash, b, i, h) ==> h <= i < h + 4
  }

  // The slots from an item's home up to it are occupied, except possibly one.
  ghost predicate NoGaps<Key, Value>(hash: Key -> nat, b: seq<HashNode<Key, Value>>, hole: int) {
    forall i, h, q :: Lives(hash, b, i, h) && h <= q <= i && q != hole ==> Full(b, q)
  }

  ghost predicate Full<Key, Value>(b: seq<HashNode<Key, Value>>, q: int) {
    0 <= q < |b| && b[q].item.Some?
  }

  // Item written into slot i and bit i - k set in the bitmap of k.
  function Stored<Key, Value>(b: seq<HashNode<Key, Value>>, k: nat, i: nat, item: (Key, Value)): seq<HashNode<Key, Value>>
    requires k <= i < k + 4 && i < |b|
  {
    var b' := b[i := b[i].(item := Some(item))];
    b'[k := b'[k].(hopInfo := AddBit(b'[k].hopInfo, i - k))]
  }

  lemma StoredLives<Key, Value>(hash: Key -> nat, b: seq<HashNode<Key, Value>>, k: nat, i: nat, item: (Key, Value),
                                j: int, g: nat)
    requires k <= i < k + 4 && i < |b| && Home(hash, |b|, item.0) == k
    ensures |Stored(b, k, i, item)| == |b|
    ensures Lives(hash, Stored(b, k, i, item), j, g) <==> if j == i then g == k else Lives(hash, b, j, g)
  {
    hide Home, AddBit, DropBit;
  }

  lemma StoredBitmap<Key, Value>(b: seq<HashNode<Key, Value>>, k: nat, i: nat, item: (Key, Value), g: nat)
    requires k <= i < k + 4 && i < |b| && g < |b|
    ensures |Stored(b, k, i, item)| == |b|
    ensures Stored(b, k, i, item)[g].hopInfo == if g == k then AddBit(b[k].hopInfo, i - k) else b[g].hopInfo
  {
    hide AddBit, DropBit;
  }

  lemma StoreBit<Key, Value>(hash: Key -> nat, b: seq<HashNode<Key, Value>>, k: nat, i: nat, item: (Key, Value),
                             h: nat, d: nat)
    requires k <= i < k + 4 && i < |b| && b[i].item.None? && Home(hash, |b|, item.0) == k
    requires h < |b| && d < 4 && BitmapAt(hash, b, h)
    ensures |Stored(b, k, i, item)| == |b| && Stored(b, k, i, item)[h].hopInfo < 16
    ensures HasBit(Stored(b, k, i, item)[h].hopInfo, d) <==> Lives(hash, Stored(b, k, i, item), h + d, h)
  {
    hide HasBit, AddBit, DropBit, Home, Stored;
    StoredLives(hash, b, k, i, item, h + d, h);
    StoredBitmap(b, k, i, item, h);
    assert HasBit(b[h].hopInfo, d) <==> Lives(hash, b, h + d, h);
    if h == k {
      BitChanged(b[k].hopInfo, i - k, d);
    }
  }

  lemma StoreKeeps<Key, Value>(hash: Key -> nat, b: seq<HashNode<Key, Value>>, k: nat, i: nat, item: (Key, Value))
    requires k <= i < k + 4 && i < |b| && b[i].item.None? && Home(hash, |b|, item.0) == k
    requires Bitmaps(hash, b) && Near(hash, b)
    ensures Bitmaps(hash, Stored(b, k, i, item)) && Near(hash, Stored(b, k, i, item))
  {
    hide HasBit, AddBit, DropBit, Home;
    var b' := Stored(b, k, i, item);
    forall h | 0 <= h < |b|
      ensures BitmapAt(hash, b', h)
    {
      assert BitmapAt(hash, b, h);
      StoreBit(hash, b, k, i, item, h, 0);
      forall d | 0 <= d < 4
        ensures HasBit(b'[h].hopInfo, d) <==> Lives(hash, b', h + d, h)
      {
        StoreBit(hash, b, k, i, item, h, d);
      }
    }
    forall j, h | Lives(hash, b', j, h)
      ensures h <= j < h + 4
    {
      assert j != i ==> Lives(hash, b, j, h);
    }
  }

  // Storing an item right behind occupied slots leaves no gap; it fills the hole if there is one.
  lemma StoreFills<Key, Value>(hash: Key -> nat, b: seq<HashNode<Key, Value>>, k: nat, i: nat, item: (Key, Value), hole: int)
    requires k <= i < k + 4 && i < |b| && Home(hash, |b|, item.0) == k
    requires NoGaps(hash, b, hole) && (hole == i || hole == -1)
    requires forall q :: k <= q < i ==> Full(b, q)
    ensures NoGaps(hash, Stored(b, k, i, item), -1)
  {
    var b' := Stored(b, k, i, item);
    forall j, h, q | Lives(hash, b', j, h) && h <= q <= j
      ensures Full(b', q)
    {
      if j == i {
        assert q < i ==> Full(b, q);
      } else {
        assert Lives(hash, b, j, h);
        assert q != i ==> Full(b, q);
      }
    }
  }

  // One hop: the item of home h in slot src moves to the hole j.
  function Hopped<Key, Value>(b: seq<HashNode<Key, Value>>, h: nat, src: nat, j: nat): seq<HashNode<Key, Value>>
    requires h <= src < j < h + 4 && j < |b|
  {
    var b' := b[j := b[j].(item := b[src].item)];
    var b'' := b'[src := b'[src].(item := None)];
    b''[h := b''[h].(hopInfo := AddBit(DropBit(b''[h].hopInfo, src - h), j - h))]
  }

  lemma HoppedLives<Key, Value>(hash: Key -> nat, b: seq<HashNode<Key, Value>>, h: nat, src: nat, j: nat, i: int, g: nat)
    requires h <= src < j < h + 4 && j < |b| && Lives(hash, b, src, h)
    ensures |Hopped(b, h, src, j)| == |b|
    ensures Lives(hash, Hopped(b, h, src, j), i, g)
       <==> if i == src then false else if i == j then g == h else Lives(hash, b, i, g)
  {
    hide Home, AddBit, DropBit;
  }

  lemma HoppedBitmap<Key, Value>(b: seq<HashNode<Key, Value>>, h: nat, src: nat, j: nat, g: nat)
    requires h <= src < j < h + 4 && j < |b| && g < |b|
    ensures |Hopped(b, h, src, j)| == |b|
    ensures Hopped(b, h, src, j)[g].hopInfo
         == if g == h then AddBit(DropBit(b[h].hopInfo, src - h), j - h) else b[g].hopInfo
  {
    hide AddBit, DropBit;
  }

  lemma HopBit<Key, Value>(hash: Key -> nat, b: seq<HashNode<Key, Value>>, h: nat, src: nat, j: nat, g: nat, d: nat)
    requires h <= src < j < h + 4 && j < |b| && b[j].item.None? && Lives(hash, b, src, h)
    requires g < |b| && d < 4 && BitmapAt(hash, b, g)
    ensures |Hopped(b, h, src, j)| == |b| && Hopped(b, h, src, j)[g].hopInfo < 16
    ensures HasBit(Hopped(b, h, src, j)[g].hopInfo, d) <==> Lives(hash, Hopped(b, h, src, j), g + d, g)
  {
    hide HasBit, AddBit, DropBit, Home, Hopped;
    HoppedLives(hash, b, h, src, j, g + d, g);
    HoppedBitmap(b, h, src, j, g);
    assert HasBit(b[g].hopInfo, d) <==> Lives(hash, b, g + d, g);
    if g == h {
      BitChanged(b[h].hopInfo, src - h, d);
      BitChanged(DropBit(b[h].hopInfo, src - h), j - h, d);
    }
  }

  lemma HopKeeps<Key, Value>(hash: Key -> nat, b: seq<HashNode<Key, Value>>, h: nat, src: nat, j: nat)
    requires h <= src < j < h + 4 && j < |b| && b[j].item.None?
    requires Lives(hash, b, src, h)
    requires Bitmaps(hash, b) && Near(hash, b)
    ensures Bitmaps(hash, Hopped(b, h, src, j)) && Near(hash, Hopped(b, h, src, j))
  {
    hide HasBit, AddBit, DropBit, Home;
    var b' := Hopped(b, h, src, j);
    forall g | 0 <= g < |b|
      ensures BitmapAt(hash, b', g)
    {
      assert BitmapAt(hash, b, g);
      HopBit(hash, b, h, src, j, g, 0);
      forall d | 0 <= d < 4
        ensures HasBit(b'[g].hopInfo, d) <==> Lives(hash, b', g + d, g)
      {
        HopBit(hash, b, h, src, j, g, d);
      }
    }
    forall i, g | Lives(hash, b', i, g)
      ensures g <= i < g + 4
    {
      assert i != j ==> Lives(hash, b, i, g);
    }
  }

  // The hop moves the hole from j to src.
  lemma HopMovesHole<Key, Value>(hash: Key -> nat, b: seq<HashNode<Key, Value>>, h: nat, src: nat, j: nat)
    requires h <= src < j < h + 4 && j < |b| && Lives(hash, b, src, h)
    requires NoGaps(hash, b, j)
    requires forall q :: h <= q < j ==> Full(b, q)
    ensures NoGaps(hash, Hopped(b, h, src, j), src)
  {
    var b' := Hopped(b, h, src, j);
    forall i, g, q | Lives(hash, b', i, g) && g <= q <= i && q != src
      ensures Full(b', q)
    {
      if i == j {
        assert q < j ==> Full(b, q);
      } else {
        assert Lives(hash, b, i, g);
        assert q != j ==> Full(b, q);
      }
    }
  }

  // -------- items --------

  function ItemsOf<Key, Value>(b: seq<HashNode<Key, Value>>): seq<(Key, Value)> {
    if b == [] then []
    else ItemsOf(b[..|b| - 1]) + (if b[|b| - 1].item.Some? then [b[|b| - 1].item.value] else [])
  }

  ghost function Bag<Key, Value>(b: seq<HashNode<Key, Value>>): multiset<(Key, Value)> {
    multiset(ItemsOf(b))
  }

  lemma {:induction false} ItemsConcat<Key, Value>(a: seq<HashNode<Key, Value>>, b: seq<HashNode<Key, Value>>)
    ensures ItemsOf(a + b) == ItemsOf(a) + ItemsOf(b)
  {
    if b == [] {
      assert a + b == a;
    } else {
      ItemsConcat(a, b[..|b| - 1]);
      assert (a + b)[..|a + b| - 1] == a + b[..|b| - 1];
    }
  }

  lemma BagSplit<Key, Value>(b: seq<HashNode<Key, Value>>, i: nat)
    requires i < |b|
    ensures Bag(b) == Bag(b[..i]) + Bag(b[i + 1..]) + One(b[i])
  {
    ItemsConcat(b[..i], [b[i]]);
    ItemsConcat(b[..i] + [b[i]], b[i + 1..]);
    assert b == b[..i] + [b[i]] + b[i + 1..];
    assert [b[i]][..0] == [];
    assert multiset(ItemsOf([b[i]])) == One(b[i]);
  }

  // Replacing a node replaces its item in the bag.
  lemma BagUpdate<Key, Value>(b: seq<HashNode<Key, Value>>, i: nat, node: HashNode<Key, Value>)
    requires i < |b|
    ensures Bag(b[i := node]) == Bag(b) - One(b[i]) + One(node)
    ensures One(b[i]) <= Bag(b)
  {
    hide ItemsOf;
    BagSplit(b, i);
    BagSplit(b[i := node], i);
    assert b[i := node][..i] == b[..i] && b[i := node][i + 1..] == b[i + 1..];
    hide Bag, One;
    Cancel(Bag(b[..i]) + Bag(b[i + 1..]), One(b[i]));
  }

  lemma Cancel<T>(a: multiset<T>, b: multiset<T>)
    ensures a + b - b == a && b <= a + b
  {
  }

  ghost function One<Key, Value>(node: HashNode<Key, Value>): multiset<(Key, Value)> {
    if node.item.Some? then multiset{node.item.value} else multiset{}
  }

  lemma StoreAdds<Key, Value>(b: seq<HashNode<Key, Value>>, k: nat, i: nat, item: (Key, Value))
    requires k <= i < k + 4 && i < |b| && b[i].item.None?
    ensures Bag(Stored(b, k, i, item)) == Bag(b) + multiset{item}
  {
    hide Bag, AddBit, DropBit;
    var b' := b[i := b[i].(item := Some(item))];
    BagUpdate(b, i, b'[i]);
    BitmapIsNoItem(b', k, Stored(b, k, i, item)[k].hopInfo);
  }

  lemma BitmapIsNoItem<Key, Value>(b: seq<HashNode<Key, Value>>, k: nat, bitmap: bv64)
    requires k < |b|
    ensures Bag(b[k := b[k].(hopInfo := bitmap)]) == Bag(b)
  {
    hide Bag;
    BagUpdate(b, k, b[k].(hopInfo := bitmap));
  }

  // No hop loses or duplicates an item.
  lemma HopConserves<Key, Value>(b: seq<HashNode<Key, Value>>, h: nat, src: nat, j: nat)
    requires h <= src < j < h + 4 && j < |b| && b[j].item.None? && b[src].item.Some?
    ensures Bag(Hopped(b, h, src, j)) == Bag(b)
  {
    hide Bag, AddBit, DropBit;
    var x := multiset{b[src].item.value};
    var b' := b[j := b[j].(item := b[src].item)];
    var b'' := b'[src := b'[src].(item := None)];
    BagUpdate(b, j, b'[j]);
    assert Bag(b') == Bag(b) + x;
    BagUpdate(b', src, b''[src]);
    assert Bag(b'') == Bag(b') - x;
    BitmapIsNoItem(b'', h, Hopped(b, h, src, j)[h].hopInfo);
    Cancel(Bag(b), x);
  }

  lemma {:induction false} ItemAt<Key, Value>(b: seq<HashNode<Key, Value>>, item: (Key, Value))
    ensures item in Bag(b) <==> exists i :: 0 <= i < |b| && b[i].item == Some(item)
  {
    if b == [] {
    } else {
      var init, last := b[..|b| - 1], b[|b| - 1];
      ItemAt(init, item);
      if exists i :: 0 <= i < |init| && init[i].item == Some(item) {
        var i :| 0 <= i < |init| && init[i].item == Some(item);
        assert b[i].item == Some(item);
      }
      if exists i :: 0 <= i < |b| && b[i].item == Some(item) {
        var i :| 0 <= i < |b| && b[i].item == Some(item);
        assert i < |init| ==> init[i].item == Some(item);
      }
    }
  }

  // -------- which items fit a table --------

  ghost predicate Within<Key, Value>(hash: Key -> nat, t: multiset<(Key, Value)>, a: nat, b: nat) {
    forall p :: p in t ==> a <= hash(p.0) <= b
  }

  // No window [a, b] of hashes has more items than the b - a + 4 slots of its neighbourhoods.
  ghost predicate Uncrowded<Key(!new), Value(!new)>(hash: Key -> nat, items: multiset<(Key, Value)>) {
    forall t: multiset<(Key, Value)>, a: nat, b: nat :: t <= items && a <= b && Within(hash, t, a, b) ==> |t| <= b - a + 4
  }

  ghost predicate Below<Key, Value>(hash: Key -> nat, items: multiset<(Key, Value)>, m: nat) {
    forall p :: p in items ==> hash(p.0) < m
  }

  lemma Fewer<Key(!new), Value(!new)>(hash: Key -> nat, items: multiset<(Key, Value)>, all: multiset<(Key, Value)>, m: nat)
    requires items <= all
    ensures Uncrowded(hash, all) ==> Uncrowded(hash, items)
    ensures Below(hash, all, m) ==> Below(hash, items, m)
  {
  }

  function HashIn<Key, Value>(hash: Key -> nat, a: nat, b: nat): ((Key, Value)) -> bool {
    (item: (Key, Value)) => a <= hash(item.0) <= b
  }

  // How many of the slots in [s, e) come before i.
  function Before(s: nat, e: nat, i: nat): (r: nat)
    requires s <= e
    ensures r <= e - s
  {
    if i <= s then 0 else if i <= e then i - s else e - s
  }

  // The slots of the neighbourhoods of a window, when a table of size n wraps it around at most once.
  ghost predicate Reachable(n: nat, a: nat, b: nat, q: nat)
    requires n > 0 && a <= b < a + n
  {
    if a % n <= b % n then a % n <= q < b % n + 4 else q < b % n + 4 || a % n <= q < n
  }

  lemma HomeReaches(n: nat, a: nat, b: nat, x: nat, q: nat)
    requires n > 0 && a <= x <= b < a + n && x % n <= q < x % n + 4 && q < n
    ensures Reachable(n, a, b, q)
  {
    Wrap(n, a, x);
    Wrap(n, a, b);
  }

  // Less than one round further, the remainder wraps around at most once.
  lemma Wrap(n: nat, a: nat, b: nat)
    requires n > 0 && a <= b < a + n
    ensures b % n == if a % n + (b - a) < n then a % n + (b - a) else a % n + (b - a) - n
  {
    var c, r := a / n, a % n + (b - a);
    assert a == n * c + a % n;
    if r < n {
      Remainder(n, c, r);
    } else {
      assert n * (c + 1) == n * c + n;
      Remainder(n, c + 1, r - n);
    }
  }

  lemma Remainder(n: nat, c: nat, r: nat)
    requires r < n
    ensures (n * c + r) % n == r
  {
    var x := n * c + r;
    var d := x / n;
    assert x == n * d + x % n;
    assert (d + 1) * n == n * d + n && (c + 1) * n == n * c + n;
    if d < c {
      TimesGrows(d + 1, c, n);
    } else if c < d {
      TimesGrows(c + 1, d, n);
    }
  }

  // The slots of the neighbourhoods of the window [x, y] that come before i.
  function WindowSlots(n: nat, x: nat, y: nat, i: nat): nat
    requires n > 0 && x <= y < x + n
  {
    if x % n <= y % n then Before(x % n, y % n + 4, i) else Before(0, y % n + 4, i) + Before(x % n, n, i)
  }

  lemma WindowSlotsBound(n: nat, x: nat, y: nat, i: nat)
    requires n > 0 && x <= y < x + n
    ensures WindowSlots(n, x, y, i) <= y - x + 4
  {
    Wrap(n, x, y);
  }

  lemma WindowSlotsNext(n: nat, x: nat, y: nat, q: nat)
    requires n > 0 && x <= y < x + n && q < n
    ensures WindowSlots(n, x, y, q + 1) >= WindowSlots(n, x, y, q) + if Reachable(n, x, y, q) then 1 else 0
  {
    Wrap(n, x, y);
  }

  lemma NearHome<Key, Value>(hash: Key -> nat, b: seq<HashNode<Key, Value>>, q: nat)
    requires |b| > 0 && Near(hash, b) && q < |b| && b[q].item.Some?
    ensures var h := hash(b[q].item.value.0) % |b|; h <= q < h + 4
  {
    assert Lives(hash, b, q, Home(hash, |b|, b[q].item.value.0));
  }

  // Items with hashes in the window fill at most its slots, whatever the table size.
  lemma {:induction false} Crowd<Key, Value>(hash: Key -> nat, b: seq<HashNode<Key, Value>>, x: nat, y: nat, i: nat)
    requires |b| > 0 && Near(hash, b) && i <= |b| && x <= y < x + |b|
    ensures |Filter(ItemsOf(b[..i]), HashIn(hash, x, y))| <= WindowSlots(|b|, x, y, i)
  {
    hide Reachable, WindowSlots, Near;
    if i > 0 {
      Crowd(hash, b, x, y, i - 1);
      assert b[..i][..i - 1] == b[..i - 1];
      WindowSlotsNext(|b|, x, y, i - 1);
      var node := b[i - 1];
      assert ItemsOf(b[..i]) == ItemsOf(b[..i - 1]) + (if node.item.Some? then [node.item.value] else []);
      if node.item.Some? {
        FilterSnoc(ItemsOf(b[..i - 1]), node.item.value, HashIn(hash, x, y));
        if x <= hash(node.item.value.0) <= y {
          NearHome(hash, b, i - 1);
          HomeReaches(|b|, x, y, hash(node.item.value.0), i - 1);
        }
      } else {
        assert ItemsOf(b[..i]) == ItemsOf(b[..i - 1]);
      }
    }
  }

  lemma {:induction false} ItemsFit<Key, Value>(b: seq<HashNode<Key, Value>>)
    ensures |ItemsOf(b)| <= |b|
    ensures (forall q :: 0 <= q < |b| ==> b[q].item.Some?) ==> |ItemsOf(b)| == |b|
  {
    if b != [] {
      ItemsFit(b[..|b| - 1]);
    }
  }

  lemma FilteredSize<T>(s: seq<T>, p: T -> bool, t: multiset<T>)
    requires t <= multiset(s) && forall x :: x in t ==> p(x)
    ensures |t| <= |Filter(s, p)|
  {
    forall x | x in t
      ensures t[x] <= multiset(Filter(s, p))[x]
    {
      FilterCount(s, p, x);
    }
    assert t <= multiset(Filter(s, p));
    SubBagSize(t, multiset(Filter(s, p)));
  }

  lemma SubBagSize<T>(a: multiset<T>, b: multiset<T>)
    requires a <= b
    ensures |a| <= |b|
  {
    assert b == a + (b - a);
  }

  // Only uncrowded items are ever in a table.
  lemma WindowFits<Key, Value>(hash: Key -> nat, b: seq<HashNode<Key, Value>>, t: multiset<(Key, Value)>, x: nat, y: nat)
    requires |b| > 0 && Near(hash, b) && t <= Bag(b) && x <= y && Within(hash, t, x, y)
    ensures |t| <= y - x + 4
  {
    hide WindowSlots, Near;
    if y < x + |b| {
      WindowSlotsBound(|b|, x, y, |b|);
      Crowd(hash, b, x, y, |b|);
      assert b[..|b|] == b;
      FilteredSize(ItemsOf(b), HashIn(hash, x, y), t);
    } else {
      ItemsFit(b);
      SubBagSize(t, Bag(b));
    }
  }

  lemma TableIsUncrowded<Key(!new), Value(!new)>(hash: Key -> nat, b: seq<HashNode<Key, Value>>)
    requires |b| > 0 && Near(hash, b)
    ensures Uncrowded(hash, Bag(b))
  {
    forall t: multiset<(Key, Value)>, x: nat, y: nat | t <= Bag(b) && x <= y && Within(hash, t, x, y)
      ensures |t| <= y - x + 4
    {
      WindowFits(hash, b, t, x, y);
    }
  }

  // Five items of one hash, or any other crowded window, show that items are crowded.
  lemma FiveAlike<Key(!new), Value(!new)>(hash: Key -> nat, items: multiset<(Key, Value)>, same: multiset<(Key, Value)>, x: nat)
    requires same <= items && |same| == 5 && forall p :: p in same ==> hash(p.0) == x
    ensures !Uncrowded(hash, items)
  {
    assert Within(hash, same, x, x);
  }

  // -------- when insertion ends --------

  // fuel doublings take a table of this size four slots beyond m.
  ghost predicate Enough(size: nat, fuel: nat, m: nat) {
    m + 4 <= size * Pow2(fuel)
  }

  lemma {:induction false} EnoughExists(size: nat, m: nat)
    requires size > 0
    ensures Enough(size, m + 4, m)
  {
    Pow2Grows(m + 4);
    TimesGrows(1, size, Pow2(m + 4));
  }

  lemma {:induction false} Pow2Grows(m: nat)
    ensures Pow2(m) > m
  {
    if m > 0 { Pow2Grows(m - 1); }
  }

  // Doubling the table spends one rehash.
  lemma EnoughDoubled(size: nat, bigger: nat, fuel: nat, m: nat)
    requires Enough(size, fuel + 1, m) && 2 * size <= bigger
    ensures Enough(bigger, fuel, m)
  {
    assert size * Pow2(fuel + 1) == (2 * size) * Pow2(fuel);
    TimesGrows(2 * size, bigger, Pow2(fuel));
  }

  lemma EnoughInBigger(size: nat, bigger: nat, fuel: nat, m: nat)
    requires Enough(size, fuel, m) && size <= bigger
    ensures Enough(bigger, fuel, m)
  {
    TimesGrows(size, bigger, Pow2(fuel));
  }

  lemma NoFuel(size: nat, m: nat)
    ensures size * Pow2(0) == size && (Enough(size, 0, m) <==> m + 4 <= size)
  {
  }

  lemma DoublingMultiplies(size: nat, bigger: nat, now: nat, fuel: nat)
    requires 2 * size <= bigger && bigger * Pow2(fuel) <= now
    ensures size * Pow2(fuel + 1) <= now
  {
    TimesGrows(2 * size, bigger, Pow2(fuel));
    assert size * Pow2(fuel + 1) == size * (2 * Pow2(fuel));
  }

  // The first slot of the occupied run that ends before k.
  ghost function RunStart<Key, Value>(b: seq<HashNode<Key, Value>>, k: nat): (a: nat)
    requires k <= |b|
    ensures a <= k && (forall q :: a <= q < k ==> Full(b, q)) && (a > 0 ==> !Full(b, a - 1))
  {
    if k > 0 && Full(b, k - 1) then RunStart(b, k - 1) else k
  }

  // The items of full slots [s, e) and one more whose hash is in the window make it crowded.
  lemma FullSlots<Key(!new), Value(!new)>(hash: Key -> nat, b: seq<HashNode<Key, Value>>, item: (Key, Value), s: nat, e: nat, x: nat, y: nat)
    requires s <= e <= |b| && x <= y && y - x + 4 <= e - s && x <= hash(item.0) <= y
    requires forall q :: s <= q < e ==> Full(b, q) && x <= hash(b[q].item.value.0) <= y
    ensures !Uncrowded(hash, Bag(b) + multiset{item})
  {
    hide Bag;
    var t := Bag(b[s..e]) + multiset{item};
    ItemsFit(b[s..e]);
    BagSize(b[s..e]);
    SliceBag(b, s, e);
    forall p | p in t
      ensures x <= hash(p.0) <= y
    {
      ItemAt(b[s..e], p);
    }
    assert Within(hash, t, x, y) && |t| == e - s + 1;
  }

  lemma BagSize<Key, Value>(b: seq<HashNode<Key, Value>>)
    ensures |Bag(b)| == |ItemsOf(b)|
  {
  }

  lemma SliceBag<Key, Value>(b: seq<HashNode<Key, Value>>, s: nat, e: nat)
    requires s <= e <= |b|
    ensures Bag(b[s..e]) <= Bag(b)
  {
    ItemsConcat(b[..s], b[s..e]);
    ItemsConcat(b[..s] + b[s..e], b[e..]);
    assert b == b[..s] + b[s..e] + b[e..];
  }

  lemma HomesAreHashes<Key, Value>(hash: Key -> nat, b: seq<HashNode<Key, Value>>, m: nat, q: nat)
    requires Below(hash, Bag(b), m) && m <= |b| && Full(b, q)
    ensures hash(b[q].item.value.0) < m && Lives(hash, b, q, hash(b[q].item.value.0))
    ensures forall h :: Lives(hash, b, q, h) ==> h == hash(b[q].item.value.0)
  {
    hide Bag;
    ItemAt(b, b[q].item.value);
  }

  lemma HomeIsHash<Key, Value>(hash: Key -> nat, items: multiset<(Key, Value)>, size: nat, item: (Key, Value), m: nat)
    requires Below(hash, items + multiset{item}, m) && 0 < size && m <= size
    ensures Home(hash, size, item.0) == hash(item.0) < m
  {
    assert item in items + multiset{item};
  }

  // A full bitmap: the home's own window is crowded.
  lemma FullBitmapIsCrowded<Key(!new), Value(!new)>(hash: Key -> nat, b: seq<HashNode<Key, Value>>, item: (Key, Value), m: nat)
    requires Bitmaps(hash, b) && Below(hash, Bag(b) + multiset{item}, m) && m + 4 <= |b|
    requires b[Home(hash, |b|, item.0)].hopInfo == 15
    ensures !Uncrowded(hash, Bag(b) + multiset{item})
  {
    hide Bag, Bitmaps, Below, Uncrowded, Home, HasBit;
    HomeIsHash(hash, Bag(b), |b|, item, m);
    Fewer(hash, Bag(b), Bag(b) + multiset{item}, m);
    var k := Home(hash, |b|, item.0);
    forall q | k <= q < k + 4
      ensures Full(b, q) && hash(b[q].item.value.0) == k
    {
      FullBitmapLives(hash, b, k, q);
      HomesAreHashes(hash, b, m, q);
    }
    FullSlots(hash, b, item, k, k + 4, k, k);
  }

  lemma FullBitmapLives<Key, Value>(hash: Key -> nat, b: seq<HashNode<Key, Value>>, k: nat, q: nat)
    requires Bitmaps(hash, b) && k < |b| && b[k].hopInfo == 15 && k <= q < k + 4
    ensures Lives(hash, b, q, k)
  {
    assert BitmapAt(hash, b, k);
    FifteenHasAll(q - k);
    assert Lives(hash, b, k + (q - k), k);
  }

  lemma FifteenHasAll(d: nat)
    requires d < 4
    ensures HasBit(15, d)
  {
  }

  // In a table four slots larger than all hashes the last slot is free.
  lemma LastIsFree<Key, Value>(hash: Key -> nat, b: seq<HashNode<Key, Value>>, m: nat)
    requires Near(hash, b) && Below(hash, Bag(b), m) && m + 4 <= |b|
    ensures !Full(b, |b| - 1)
  {
    if Full(b, |b| - 1) {
      HomesAreHashes(hash, b, m, |b| - 1);
    }
  }

  // No home just below the free slot j has an item that could move up into it.
  ghost predicate Stuck<Key, Value>(b: seq<HashNode<Key, Value>>, j: nat)
    requires 4 <= j <= |b|
  {
    forall h, d :: j - 4 < h < j && 0 <= d < j - h ==> !HasBit(b[h].hopInfo, d)
  }

  lemma StuckHomes<Key, Value>(hash: Key -> nat, b: seq<HashNode<Key, Value>>, j: nat, q: nat, h: nat)
    requires 4 <= j <= |b| && Stuck(b, j) && Bitmaps(hash, b) && Near(hash, b) && q < j && Lives(hash, b, q, h)
    ensures h <= j - 4
  {
    assert BitmapAt(hash, b, h);
    assert Lives(hash, b, h + (q - h), h) && HasBit(b[h].hopInfo, q - h);
  }

  // When nothing can move into the free slot, the items from the start of the run up to it crowd
  // their window.
  lemma StuckIsCrowded<Key(!new), Value(!new)>(hash: Key -> nat, b: seq<HashNode<Key, Value>>, item: (Key, Value), k: nat, j: nat, m: nat)
    requires Bitmaps(hash, b) && Near(hash, b) && NoGaps(hash, b, j)
    requires Below(hash, Bag(b) + multiset{item}, m) && m + 4 <= |b| && k == Home(hash, |b|, item.0)
    requires k + 4 <= j < |b| && Stuck(b, j) && forall q :: k <= q < j ==> Full(b, q)
    ensures !Uncrowded(hash, Bag(b) + multiset{item})
  {
    hide Bag, Stuck, Bitmaps, Near, NoGaps, Below, Uncrowded, Home;
    HomeIsHash(hash, Bag(b), |b|, item, m);
    Fewer(hash, Bag(b), Bag(b) + multiset{item}, m);
    var a := RunStart(b, k);
    forall q | a <= q < j
      ensures Full(b, q) && a <= hash(b[q].item.value.0) <= j - 4
    {
      HomesAreHashes(hash, b, m, q);
      var h := hash(b[q].item.value.0);
      StuckHomes(hash, b, j, q, h);
      NotBeforeRun(hash, b, a, q, h, j);
    }
    FullSlots(hash, b, item, a, j, a, j - 4);
  }

  lemma NotBeforeRun<Key, Value>(hash: Key -> nat, b: seq<HashNode<Key, Value>>, a: nat, q: nat, h: nat, j: nat)
    requires NoGaps(hash, b, j) && a <= q < j && Lives(hash, b, q, h) && (a > 0 ==> !Full(b, a - 1))
    ensures a <= h
  {
    assert h <= a - 1 <= q ==> Full(b, a - 1);
  }

  class HashTable<Key(==, !new), Value(!new)> {
    const hash: Key -> nat
    var size: nat
    var buffer: array<HashNode<Key, Value>>
    ghost var items: multiset<(Key, Value)>

    // The buffer holds the items, in any arrangement.
    ghost predicate Loose()
      reads this, buffer
    {
      buffer.Length == size > 0 && Bag(buffer[..]) == items
    }

    ghost predicate Valid()
      reads this, buffer
    {
      && Loose()
      && Bitmaps(hash, buffer[..]) && Near(hash, buffer[..]) && NoGaps(hash, buffer[..], -1)
    }

    // While insert hops: slot j is free, everything from k up to it is occupied.
    ghost predicate Hopping(k: nat, j: nat)
      reads this, buffer
    {
      && Loose() && k <= j < size
      && Bitmaps(hash, buffer[..]) && Near(hash, buffer[..]) && NoGaps(hash, buffer[..], j)
      && buffer[j].item.None? && forall q :: k <= q < j ==> Full(buffer[..], q)
    }

    constructor (s: nat, hash: Key -> nat)
      requires s > 0
      ensures Valid() && items == multiset{} && size == s && this.hash == hash
    {
      this.hash := hash;
      size := s;
      buffer := new HashNode<Key, Value>[s](_ => HashNode(0, None));
      items := multiset{};
      new;
      EmptyBuffer(hash, buffer[..]);
    }

    method FindLeftmostOne(bitmap: bv64, limit: nat) returns (r: int)
      requires limit <= 4
      ensures -1 <= r < limit
      ensures r >= 0 ==> HasBit(bitmap, r)
      ensures forall b :: 0 <= b < limit && (r == -1 || b < r) ==> !HasBit(bitmap, b)
    {
      if bitmap == 0 {
        return -1;
      }
      for b := 0 to limit
        invariant forall c :: 0 <= c < b ==> !HasBit(bitmap, c)
      {
        if bitmap & OneBit(b) != 0 {
          return b;
        }
      }
      return -1;
    }

    // The items and one more are uncrowded, and the table is larger than their hashes.
    ghost predicate Roomy(item: (Key, Value), m: nat)
      reads this
    {
      Uncrowded(hash, items + multiset{item}) && Below(hash, items + multiset{item}, m) && m + 4 <= size
    }

    // insert(key, value).  fuel bounds how deep rehashes may nest; ok means that insert returned
    // within that bound, and it fails only after so many doublings.  With all hashes below m and
    // enough fuel for that, it returns exactly when the items, the new one included, are uncrowded.
    method Insert(key: Key, value: Value, fuel: nat, ghost m: nat) returns (ok: bool)
      requires Valid()
      modifies this, buffer
      ensures buffer == old(buffer) || fresh(buffer)
      ensures ok ==> Valid() && items == old(items) + multiset{(key, value)} && size >= old(size)
      ensures !ok ==> size >= old(size) * Pow2(fuel)
      ensures ok ==> Uncrowded(hash, old(items) + multiset{(key, value)})
      ensures Below(hash, old(items) + multiset{(key, value)}, m) && Enough(old(size), fuel, m) ==>
                (ok <==> Uncrowded(hash, old(items) + multiset{(key, value)}))
      decreases fuel, 1
    {
      hide Uncrowded, Below, Bitmaps, Near, NoGaps, Bag, Home, Enough;
      ghost var item, b := (key, value), buffer[..];
      NoFuel(size, m);
      var k := Home(hash, size, key);
      if buffer[k].hopInfo == 15 {
        if Roomy(item, m) {
          FullBitmapIsCrowded(hash, b, item, m);
        }
        ok := RehashAndInsert(key, value, fuel, m);
        return;
      }
      if Roomy(item, m) {
        HomeIsHash(hash, items, size, item, m);
      }
      for i := k to k + 4
        invariant Valid() && buffer == old(buffer) && items == old(items) && size == old(size)
        invariant i <= size && forall q :: k <= q < i ==> Full(buffer[..], q)
      {
        if i >= size {
          ok := RehashAndInsert(key, value, fuel, m);
          return;
        }
        if buffer[i].item.None? {
          Store(k, i, key, value, -1);
          TableIsUncrowded(hash, buffer[..]);
          return true;
        }
      }
      var j := FirstEmpty(k);
      if j == size {
        if Roomy(item, m) {
          Fewer(hash, items, items + multiset{item}, m);
          LastIsFree(hash, buffer[..], m);
        }
        ok := RehashAndInsert(key, value, fuel, m);
        return;
      }
      AnyHole(hash, buffer[..], j);
      while j - k >= 4
        invariant k <= j < size && k == Home(hash, size, key)
        invariant buffer == old(buffer) && items == old(items) && size == old(size)
        invariant Hopping(k, j)
        decreases j
      {
        var moved, src := HopInto(k, j);
        if !moved {
          if Roomy(item, m) {
            StuckIsCrowded(hash, buffer[..], item, k, j, m);
          }
          ok := RehashAndInsert(key, value, fuel, m);
          return;
        }
        j := src;
      }
      Store(k, j, key, value, j);
      TableIsUncrowded(hash, buffer[..]);
      return true;
    }

    // The linear scan for a free slot.
    method FirstEmpty(k: nat) returns (j: nat)
      requires buffer.Length == size && k <= size
      ensures k <= j <= size && (j < size ==> buffer[j].item.None?)
      ensures forall q :: k <= q < j ==> Full(buffer[..], q)
    {
      j := k;
      while j < size
        invariant k <= j <= size
        invariant forall q :: k <= q < j ==> Full(buffer[..], q)
      {
        if buffer[j].item.None? {
          return;
        }
        j := j + 1;
      }
    }

    // Write the item into slot i of the neighbourhood of its home k.
    method Store(k: nat, i: nat, key: Key, value: Value, ghost hole: int)
      requires Loose() && k <= i < k + 4 && i < size && Home(hash, size, key) == k && buffer[i].item.None?
      requires Bitmaps(hash, buffer[..]) && Near(hash, buffer[..])
      requires NoGaps(hash, buffer[..], hole) && (hole == i || hole == -1)
      requires forall q :: k <= q < i ==> Full(buffer[..], q)
      modifies this, buffer
      ensures Valid() && buffer == old(buffer) && items == old(items) + multiset{(key, value)} && size == old(size)
    {
      hide Bitmaps, Near, NoGaps, Bag, AddBit, Home;
      ghost var b := buffer[..];
      var item := (key, value);
      StoreKeeps(hash, b, k, i, item);
      StoreFills(hash, b, k, i, item, hole);
      StoreAdds(b, k, i, item);
      buffer[i] := buffer[i].(item := Some(item));
      ghost var b' := buffer[..];
      assert b' == b[i := b[i].(item := Some(item))];
      buffer[k] := buffer[k].(hopInfo := AddBit(buffer[k].hopInfo, i - k));
      assert buffer[..] == Stored(b, k, i, item);
      items := items + multiset{item};
    }

    // Look for an item that may move up into the free slot j; if there is one, move it.
    method HopInto(k: nat, j: nat) returns (moved: bool, src: nat)
      requires Hopping(k, j) && j - k >= 4
      modifies this, buffer
      ensures buffer == old(buffer) && size == old(size) && items == old(items)
      ensures if moved then k <= src < j && Hopping(k, src) else Hopping(k, j) && Stuck(buffer[..], j)
    {
      hide Bitmaps, Near, NoGaps, Bag, HasBit;
      for i := 4 downto 1
        invariant Hopping(k, j) && buffer == old(buffer) && size == old(size) && items == old(items)
        invariant forall h, d :: j - 4 < h <= j - i && 0 <= d < j - h ==> !HasBit(buffer[h].hopInfo, d)
      {
        var neighbor := j - i;
        if i < 4 {
          var left := FindLeftmostOne(buffer[neighbor].hopInfo, i);
          if left != -1 {
            src := neighbor + left;
            Move(k, neighbor, src, j);
            return true, src;
          }
        }
      }
      return false, j;
    }

    method Move(k: nat, h: nat, src: nat, j: nat)
      requires Hopping(k, j) && k <= h <= src < j < h + 4 && HasBit(buffer[h].hopInfo, src - h)
      modifies this, buffer
      ensures buffer == old(buffer) && size == old(size) && items == old(items)
      ensures Hopping(k, src)
    {
      ghost var b := buffer[..];
      assert BitmapAt(hash, b, h);
      assert Lives(hash, b, h + (src - h), h);
      hide Bitmaps, Near, NoGaps, Bag, AddBit, DropBit, Lives, BitmapAt;
      HopKeeps(hash, b, h, src, j);
      HopMovesHole(hash, b, h, src, j);
      HopConserves(b, h, src, j);
      buffer[j] := buffer[j].(item := buffer[src].item);
      ghost var b' := buffer[..];
      assert b' == b[j := b[j].(item := b[src].item)];
      buffer[src] := buffer[src].(item := None);
      ghost var b'' := buffer[..];
      assert b'' == b'[src := b'[src].(item := None)];
      buffer[h] := buffer[h].(hopInfo := AddBit(DropBit(buffer[h].hopInfo, src - h), j - h));
      assert buffer[..] == Hopped(b, h, src, j);
      assert forall q :: k <= q < src ==> Full(b, q) && buffer[q].item == b[q].item;
    }

    // rehash(); insert(key, value);
    method RehashAndInsert(key: Key, value: Value, fuel: nat, ghost m: nat) returns (ok: bool)
      requires Loose()
      modifies this, buffer
      ensures buffer == old(buffer) || fresh(buffer)
      ensures ok ==> Valid() && items == old(items) + multiset{(key, value)} && size >= old(size)
      ensures !ok ==> size >= old(size) * Pow2(fuel)
      ensures ok ==> Uncrowded(hash, old(items) + multiset{(key, value)})
      ensures Below(hash, old(items) + multiset{(key, value)}, m) && fuel > 0 && Enough(old(size), fuel, m) ==>
                (Uncrowded(hash, old(items) + multiset{(key, value)}) ==> ok)
      decreases fuel, 0
    {
      hide Bitmaps, Near, NoGaps, Bag, Uncrowded, Below, Enough, Pow2;
      if fuel == 0 {
        NoFuel(size, m);
        return false;
      }
      Fewer(hash, items, items + multiset{(key, value)}, m);
      if Enough(size, fuel, m) {
        EnoughDoubled(size, 2 * size, fuel - 1, m);
      }
      ok := Rehash(fuel - 1, m);
      if ok {
        if Enough(old(size), fuel, m) {
          EnoughDoubled(old(size), size, fuel - 1, m);
        }
        ghost var bigger := size;
        ok := Insert(key, value, fuel - 1, m);
        if !ok {
          DoublingMultiplies(old(size), bigger, size, fuel - 1);
        }
      } else {
        DoublingMultiplies(old(size), 2 * old(size), size, fuel - 1);
      }
    }

    // rehash(): whatever state a failed hop sequence left behind, no item is lost.
    method Rehash(fuel: nat, ghost m: nat) returns (ok: bool)
      requires Loose()
      modifies this, buffer
      ensures buffer == old(buffer) || fresh(buffer)
      ensures ok ==> Valid() && items == old(items) && size >= 2 * old(size)
      ensures !ok ==> size >= 2 * old(size) * Pow2(fuel)
      ensures Uncrowded(hash, old(items)) && Below(hash, old(items), m) && Enough(2 * old(size), fuel, m) ==> ok
      decreases fuel, 2
    {
      hide Bitmaps, Near, NoGaps, Bag, Uncrowded, Below, Enough, Pow2;
      var oldSize, oldBuffer := size, buffer;
      ghost var b, all := buffer[..], items;
      size := size * 2;
      buffer := new HashNode<Key, Value>[size](_ => HashNode(0, None));
      items := multiset{};
      EmptyBuffer(hash, buffer[..]);
      EmptyBag(b[..0]);
      for i := 0 to oldSize
        invariant Valid() && fresh(buffer) && items == Bag(b[..i])
        invariant oldBuffer[..] == b && size >= 2 * oldSize
      {
        BagSnoc(b, i);
        BagGrows(b, i + 1);
        Fewer(hash, Bag(b[..i + 1]), all, m);
        if Enough(2 * oldSize, fuel, m) {
          EnoughInBigger(2 * oldSize, size, fuel, m);
        }
        ghost var before := size;
        if oldBuffer[i].item.Some? {
          ok := Insert(oldBuffer[i].item.value.0, oldBuffer[i].item.value.1, fuel, m);
          if !ok {
            TimesGrows(2 * oldSize, before, Pow2(fuel));
            return false;
          }
        }
      }
      assert b[..oldSize] == b;
      return true;
    }

    // A lookup that stops at an empty slot or after four slots misses nothing.
    method Find(key: Key) returns (r: Option<Value>)
      requires Valid()
      ensures r.Some? ==> (key, r.value) in items
      ensures r.None? ==> forall v :: (key, v) !in items
    {
      var k := Home(hash, size, key);
      ghost var b := buffer[..];
      var i := k;
      while i < k + 4
        invariant k <= i <= k + 4
        invariant forall q :: k <= q < i ==> Full(b, q) && b[q].item.value.0 != key
      {
        if i >= size || buffer[i].item.None? {
          break;
        }
        if buffer[i].item.value.0 == key {
          ItemAt(b, buffer[i].item.value);
          return Some(buffer[i].item.value.1);
        }
        i := i + 1;
      }
      forall v
        ensures (key, v) !in items
      {
        NotFound(hash, b, key, v, i);
      }
      return None;
    }
  }

  lemma AnyHole<Key, Value>(hash: Key -> nat, b: seq<HashNode<Key, Value>>, j: nat)
    requires NoGaps(hash, b, -1)
    ensures NoGaps(hash, b, j)
  {
  }

  lemma EmptyBuffer<Key, Value>(hash: Key -> nat, b: seq<HashNode<Key, Value>>)
    requires |b| > 0 && forall i :: 0 <= i < |b| ==> b[i] == HashNode(0, None)
    ensures Bag(b) == multiset{}
    ensures Bitmaps(hash, b) && Near(hash, b) && NoGaps(hash, b, -1)
  {
    NoItems(b);
  }

  lemma {:induction false} NoItems<Key, Value>(b: seq<HashNode<Key, Value>>)
    requires forall i :: 0 <= i < |b| ==> b[i].item.None?
    ensures ItemsOf(b) == []
  {
    if b != [] {
      NoItems(b[..|b| - 1]);
    }
  }

  lemma EmptyBag<Key, Value>(b: seq<HashNode<Key, Value>>)
    requires b == []
    ensures Bag(b) == multiset{}
  {
  }

  lemma BagSnoc<Key, Value>(b: seq<HashNode<Key, Value>>, i: nat)
    requires i < |b|
    ensures Bag(b[..i + 1]) == Bag(b[..i]) + One(b[i])
  {
    assert b[..i + 1][..i] == b[..i];
  }

  lemma BagGrows<Key, Value>(b: seq<HashNode<Key, Value>>, i: nat)
    requires i <= |b|
    ensures Bag(b[..i]) <= Bag(b)
  {
    ItemsConcat(b[..i], b[i..]);
    assert b == b[..i] + b[i..];
  }

  lemma TimesGrows(a: nat, b: nat, c: nat)
    requires a <= b
    ensures a * c <= b * c
  {
  }

  lemma NotFound<Key, Value>(hash: Key -> nat, b: seq<HashNode<Key, Value>>, key: Key, v: Value, end: nat)
    requires |b| > 0 && Near(hash, b) && NoGaps(hash, b, -1)
    requires var k := Home(hash, |b|, key);
      && k <= end <= k + 4
      && (forall q :: k <= q < end ==> Full(b, q) && b[q].item.value.0 != key)
      && (end == k + 4 || !Full(b, end))
    ensures (key, v) !in Bag(b)
  {
    var k := Home(hash, |b|, key);
    ItemAt(b, (key, v));
    forall i | 0 <= i < |b|
      ensures b[i].item != Some((key, v))
    {
      if b[i].item.Some? && b[i].item.value.0 == key {
        assert Lives(hash, b, i, k);
      }
    }
  }
}
