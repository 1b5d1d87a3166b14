// What a finished unchained table looks like, and why a probe of such a table is exact.
module Directory {
  import opened Bits
  import opened SeqFacts
  import opened ChunkLists
  import opened HashWords

  // Where slot s begins; one past the last slot stands for the end of the entries.
  function Start(dir: seq<nat>, n: nat, s: nat): nat
    requires s <= |dir|
  {
    if s == |dir| then n else ExtractPointer(dir[s])
  }

  predicate Ordered(dir: seq<nat>, n: nat, s: nat)
    requires s < |dir|
  {
    Start(dir, n, s) <= Start(dir, n, s + 1) <= n
  }

  predicate InSlot(dir: seq<nat>, n: nat, s: nat, i: nat)
    requires s < |dir|
  {
    Start(dir, n, s) <= i < Start(dir, n, s + 1)
  }

  // Every entry lies between its slot's pointer and the next one, and the filter of its slot has
  // all bits of its key.
  ghost predicate WellLaid(hash: Hash, dir: seq<nat>, entries: seq<HTEntry>) {
    && |dir| == DIRECTORY_SIZE
    && (forall s :: 0 <= s < DIRECTORY_SIZE ==> Ordered(dir, |entries|, s))
    && (forall i :: 0 <= i < |entries| ==> InSlot(dir, |entries|, SlotOf(hash, entries[i].key), i))
    && Filtered(hash, dir, entries)
  }

  ghost predicate Filtered(hash: Hash, dir: seq<nat>, es: seq<HTEntry>)
    requires |dir| == DIRECTORY_SIZE
  {
    forall i :: 0 <= i < |es| ==> Covers(ExtractBloom(dir[SlotOf(hash, es[i].key)]), BloomMask(es[i].key))
  }

  // What probe appends to its output vector.
  function ProbeResult(hash: Hash, dir: seq<nat>, entries: seq<HTEntry>, key: int32): seq<nat>
    requires WellLaid(hash, dir, entries)
  {
    var p := SlotOf(hash, key);
    assert Ordered(dir, |entries|, p);
    if ExtractPointer(dir[p]) >= |entries| || !Covers(ExtractBloom(dir[p]), BloomMask(key)) then []
    else Map(Position(), Filter(entries[Start(dir, |entries|, p)..Start(dir, |entries|, p + 1)], HasKey(key)))
  }

  // The positions stored under a key.
  function Matches(es: seq<HTEntry>, key: int32): seq<nat> {
    Map(Position(), Filter(es, HasKey(key)))
  }

  lemma SlotRange(hash: Hash, dir: seq<nat>, entries: seq<HTEntry>, s: nat, i: nat)
    requires WellLaid(hash, dir, entries) && s < DIRECTORY_SIZE && i < |entries|
    ensures InSlot(dir, |entries|, s, i) <==> SlotOf(hash, entries[i].key) == s
  {
    assert Ordered(dir, |entries|, s);
    var t := SlotOf(hash, entries[i].key);
    if t < s {
      StartMonotone(hash, dir, entries, t + 1, s);
    } else if s < t {
      StartMonotone(hash, dir, entries, s + 1, t);
    }
  }

  lemma {:induction false} StartMonotone(hash: Hash, dir: seq<nat>, entries: seq<HTEntry>, s: nat, t: nat)
    requires WellLaid(hash, dir, entries) && s <= t <= DIRECTORY_SIZE
    ensures Start(dir, |entries|, s) <= Start(dir, |entries|, t)
    decreases t
  {
    if s < t {
      StartMonotone(hash, dir, entries, s, t - 1);
      assert Ordered(dir, |entries|, t - 1);
    }
  }

  // A probe finds every entry with its key and nothing else: the early exits lose nothing.
  lemma ProbeIsExact(hash: Hash, dir: seq<nat>, entries: seq<HTEntry>, key: int32)
    requires WellLaid(hash, dir, entries)
    ensures ProbeResult(hash, dir, entries, key) == Matches(entries, key)
  {
    hide Filter;
    var p, n := SlotOf(hash, key), |entries|;
    var a, b := Start(dir, n, p), Start(dir, n, p + 1);
    assert Ordered(dir, n, p);
    forall i | 0 <= i < n && entries[i].key == key
      ensures a <= i < b && Covers(ExtractBloom(dir[p]), BloomMask(key))
    {
      SlotRange(hash, dir, entries, p, i);
    }
    if a >= n || !Covers(ExtractBloom(dir[p]), BloomMask(key)) {
      FilterNone(entries, HasKey(key));
    } else {
      FilterInside(entries, HasKey(key), a, b);
    }
  }

  lemma FilterInside<T>(s: seq<T>, p: T -> bool, a: nat, b: nat)
    requires a <= b <= |s| && forall i :: 0 <= i < |s| && p(s[i]) ==> a <= i < b
    ensures Filter(s, p) == Filter(s[a..b], p)
  {
    hide Filter;
    FilterNone(s[..a], p);
    FilterNone(s[b..], p);
    FilterConcat(s[..a], s[a..b], p);
    FilterConcat(s[..a] + s[a..b], s[b..], p);
    assert s == s[..a] + s[a..b] + s[b..];
  }

  // Two tables over the same multiset of tuples answer every probe with the same multiset.
  lemma SameTuplesSameMatches(es: seq<HTEntry>, fs: seq<HTEntry>, key: int32)
    requires multiset(es) == multiset(fs)
    ensures multiset(Matches(es, key)) == multiset(Matches(fs, key))
  {
    FilterMultiset(es, fs, HasKey(key));
    MapMultiset(Position(), Filter(es, HasKey(key)), Filter(fs, HasKey(key)));
  }

  // -------- prefix sums --------

  // The number of entries in slots before s.
  function Below(hash: Hash, es: seq<HTEntry>, s: nat): nat {
    |Filter(es, BelowSlot(hash, s))|
  }

  lemma BelowBounds(hash: Hash, es: seq<HTEntry>, s: nat)
    requires s <= DIRECTORY_SIZE
    ensures Below(hash, es, 0) == 0 && Below(hash, es, DIRECTORY_SIZE) == |es|
    ensures Below(hash, es, s) <= |es|
  {
    BelowZero(hash, es);
    BelowAll(hash, es);
    BelowMonotone(hash, es, s, DIRECTORY_SIZE);
  }

  // -------- entries laid out by a sort --------

  ghost predicate SortedBySlot(hash: Hash, es: seq<HTEntry>) {
    forall i, j :: 0 <= i < j < |es| ==> SlotOf(hash, es[i].key) <= SlotOf(hash, es[j].key)
  }

  // In sorted entries the prefix sum of s is the index of the first entry of slot s or later.
  lemma SortedSplit(hash: Hash, es: seq<HTEntry>, s: nat, k: nat)
    requires k <= |es|
    requires forall i :: 0 <= i < k ==> SlotOf(hash, es[i].key) < s
    requires forall i :: k <= i < |es| ==> SlotOf(hash, es[i].key) >= s
    ensures Below(hash, es, s) == k
  {
    FilterAll(es[..k], BelowSlot(hash, s));
    FilterNone(es[k..], BelowSlot(hash, s));
    FilterConcat(es[..k], es[k..], BelowSlot(hash, s));
    assert es == es[..k] + es[k..];
  }

  lemma {:induction false} SortedBoundary(hash: Hash, es: seq<HTEntry>, s: nat)
    requires SortedBySlot(hash, es)
    ensures Below(hash, es, s) <= |es|
    ensures forall i :: 0 <= i < |es| ==> (i < Below(hash, es, s) <==> SlotOf(hash, es[i].key) < s)
  {
    var k := 0;
    while k < |es| && SlotOf(hash, es[k].key) < s
      invariant k <= |es|
      invariant forall i :: 0 <= i < k ==> SlotOf(hash, es[i].key) < s
    {
      k := k + 1;
    }
    SortedSplit(hash, es, s, k);
  }

  // Sorted entries with prefix-sum pointers are well laid.
  lemma SortedIsWellLaid(hash: Hash, dir: seq<nat>, es: seq<HTEntry>)
    requires |dir| == DIRECTORY_SIZE && SortedBySlot(hash, es)
    requires forall s :: 0 <= s < DIRECTORY_SIZE ==> ExtractPointer(dir[s]) == Below(hash, es, s)
    requires Filtered(hash, dir, es)
    ensures WellLaid(hash, dir, es)
  {
    BelowBounds(hash, es, 0);
    assert forall s :: 0 <= s <= DIRECTORY_SIZE ==> Start(dir, |es|, s) == Below(hash, es, s);
    forall s | 0 <= s < DIRECTORY_SIZE
      ensures Ordered(dir, |es|, s)
    {
      BelowMonotone(hash, es, s, s + 1);
      BelowBounds(hash, es, s + 1);
    }
    forall i | 0 <= i < |es|
      ensures InSlot(dir, |es|, SlotOf(hash, es[i].key), i)
    {
      var s := SlotOf(hash, es[i].key);
      SortedBoundary(hash, es, s);
      SortedBoundary(hash, es, s + 1);
    }
  }

  // -------- entries laid out by a counting sort --------

  // The entries of slot s occupy their block in input order.
  ghost predicate BlockFilled(hash: Hash, entries: seq<HTEntry>, es: seq<HTEntry>, done: seq<HTEntry>, s: nat) {
    var lo, n := Below(hash, es, s), |Filter(done, AtSlot(hash, s))|;
    lo + n <= |entries| && entries[lo..lo + n] == Filter(done, AtSlot(hash, s))
  }

  // A full block: all entries of slot s, between two consecutive prefix sums.
  lemma FullBlock(hash: Hash, entries: seq<HTEntry>, es: seq<HTEntry>, s: nat)
    requires s < DIRECTORY_SIZE && |entries| == |es| && BlockFilled(hash, entries, es, es, s)
    ensures Below(hash, es, s) <= Below(hash, es, s + 1) <= |entries|
    ensures entries[Below(hash, es, s)..Below(hash, es, s + 1)] == Filter(es, AtSlot(hash, s))
    ensures forall i :: Below(hash, es, s) <= i < Below(hash, es, s + 1) ==> SlotOf(hash, entries[i].key) == s
  {
    hide Filter;
    BelowNext(hash, es, s);
    FilterElements(es, AtSlot(hash, s));
    var a, b := Below(hash, es, s), Below(hash, es, s + 1);
    var block := entries[a..b];
    forall i | a <= i < b
      ensures SlotOf(hash, entries[i].key) == s
    {
      assert entries[i] == block[i - a];
    }
  }

  // Block by block the layout is a permutation of the input.
  lemma {:induction false} BlocksArePermutation(hash: Hash, entries: seq<HTEntry>, es: seq<HTEntry>, s: nat)
    requires s <= DIRECTORY_SIZE && |entries| == |es|
    requires forall t :: 0 <= t < DIRECTORY_SIZE ==> BlockFilled(hash, entries, es, es, t)
    ensures Below(hash, es, s) <= |es|
    ensures multiset(entries[..Below(hash, es, s)]) == multiset(Filter(es, BelowSlot(hash, s)))
  {
    hide Filter, BlockFilled;
    BelowBounds(hash, es, s);
    if s == 0 {
      BelowZero(hash, es);
    } else {
      BlocksArePermutation(hash, entries, es, s - 1);
      BelowNext(hash, es, s - 1);
      FullBlock(hash, entries, es, s - 1);
      var a, b := Below(hash, es, s - 1), Below(hash, es, s);
      assert entries[..b] == entries[..a] + entries[a..b];
    }
  }

  // The blocks tile the entries: each index lies in the block of its own slot.
  lemma {:induction false} BlockOf(hash: Hash, entries: seq<HTEntry>, es: seq<HTEntry>, i: nat, s: nat)
    requires |entries| == |es| && s <= DIRECTORY_SIZE && i < Below(hash, es, s) && i < |es|
    requires forall t :: 0 <= t < DIRECTORY_SIZE ==> BlockFilled(hash, entries, es, es, t)
    ensures var t := SlotOf(hash, entries[i].key); Below(hash, es, t) <= i < Below(hash, es, t + 1)
    decreases s
  {
    hide Filter, BlockFilled;
    BelowBounds(hash, es, s);
    if i < Below(hash, es, s - 1) {
      BlockOf(hash, entries, es, i, s - 1);
    } else {
      FullBlock(hash, entries, es, s - 1);
    }
  }

  lemma BlocksAreWellLaid(hash: Hash, dir: seq<nat>, entries: seq<HTEntry>, es: seq<HTEntry>)
    requires |dir| == DIRECTORY_SIZE && |entries| == |es|
    requires forall s :: 0 <= s < DIRECTORY_SIZE ==> ExtractPointer(dir[s]) == Below(hash, es, s)
    requires forall s :: 0 <= s < DIRECTORY_SIZE ==> BlockFilled(hash, entries, es, es, s)
    requires Filtered(hash, dir, es)
    ensures multiset(entries) == multiset(es)
    ensures WellLaid(hash, dir, entries)
  {
    hide Filter, BlockFilled;
    BelowBounds(hash, es, 0);
    assert forall s :: 0 <= s <= DIRECTORY_SIZE ==> Start(dir, |es|, s) == Below(hash, es, s);
    assert multiset(entries) == multiset(es) by {
      BlocksArePermutation(hash, entries, es, DIRECTORY_SIZE);
      BelowAll(hash, es);
      assert entries[..|es|] == entries;
    }
    forall s | 0 <= s < DIRECTORY_SIZE
      ensures Ordered(dir, |es|, s)
    {
      BelowMonotone(hash, es, s, s + 1);
      BelowBounds(hash, es, s + 1);
    }
    forall i | 0 <= i < |entries|
      ensures InSlot(dir, |entries|, SlotOf(hash, entries[i].key), i)
    {
      BlockOf(hash, entries, es, i, DIRECTORY_SIZE);
    }
    forall i | 0 <= i < |entries|
      ensures Covers(ExtractBloom(dir[SlotOf(hash, entries[i].key)]), BloomMask(entries[i].key))
    {
      assert entries[i] in multiset(es);
      var k :| 0 <= k < |es| && es[k] == entries[i];
    }
  }
}
