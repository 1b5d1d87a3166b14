// The unchained hash table: sequential build, parallel build and probe (src/Uhashtable.cpp).
module UnchainedTable {
  import opened Bits
  import opened SeqFacts
  import opened ChunkLists
  import opened HashWords
  import opened Partitioning
  import opened Directory

  // -------- counting --------

  // counts[s] tuples of slot s seen, their Bloom bits recorded, pointers still at the end.
  ghost predicate Counted(hash: Hash, dir: seq<nat>, counts: seq<nat>, count: nat, done: seq<HTEntry>) {
    && |dir| == |counts| == DIRECTORY_SIZE
    && (forall s :: 0 <= s < DIRECTORY_SIZE ==>
          && counts[s] == |Filter(done, AtSlot(hash, s))|
          && ExtractPointer(dir[s]) == count
          && (counts[s] == 0 ==> ExtractBloom(dir[s]) == 0))
    && Filtered(hash, dir, done)
  }

  lemma CountedStart(hash: Hash, dir: seq<nat>, counts: seq<nat>, count: nat)
    requires |dir| == |counts| == DIRECTORY_SIZE && count < 0x1_0000_0000_0000
    requires forall s :: 0 <= s < DIRECTORY_SIZE ==> dir[s] == MakeDirectoryEntry(count, 0) && counts[s] == 0
    ensures Counted(hash, dir, counts, count, [])
  {
    DirectoryEntryRoundTrip(count, 0);
  }

  lemma CountedStep(hash: Hash, dir: seq<nat>, counts: seq<nat>, count: nat, done: seq<HTEntry>, e: HTEntry)
    requires Counted(hash, dir, counts, count, done)
    ensures var s := SlotOf(hash, e.key);
      Counted(hash, dir[s := BitOr(dir[s], BloomMask(e.key))], counts[s := counts[s] + 1], count, done + [e])
  {
    var s, m := SlotOf(hash, e.key), BloomMask(e.key);
    var dir', counts' := dir[s := BitOr(dir[s], m)], counts[s := counts[s] + 1];
    BloomMaskFits(e.key);
    OrIntoEntry(dir[s], m);
    hide Filter;
    forall t | 0 <= t < DIRECTORY_SIZE
      ensures counts'[t] == |Filter(done + [e], AtSlot(hash, t))|
    {
      FilterSnoc(done, e, AtSlot(hash, t));
    }
    forall i | 0 <= i < |done + [e]|
      ensures Covers(ExtractBloom(dir'[SlotOf(hash, (done + [e])[i].key)]), BloomMask((done + [e])[i].key))
    {
      if i == |done| {
        OrSetsMask(ExtractBloom(dir[s]), m);
      } else if SlotOf(hash, done[i].key) == s {
        OrKeepsMask(ExtractBloom(dir[s]), m, BloomMask(done[i].key));
      }
    }
  }

  method CountEntry(hash: Hash, e: HTEntry, directory: array<nat>, counts: array<nat>,
                    ghost count: nat, ghost done: seq<HTEntry>)
    requires directory != counts && Counted(hash, directory[..], counts[..], count, done)
    modifies directory, counts
    ensures Counted(hash, directory[..], counts[..], count, done + [e])
  {
    CountedStep(hash, directory[..], counts[..], count, done, e);
    assert directory.Length == counts.Length == DIRECTORY_SIZE;
    var slot := SlotOf(hash, e.key);
    counts[slot] := counts[slot] + 1;
    directory[slot] := BitOr(directory[slot], BloomMask(e.key));
    hide Counted;
    assert directory[..] == old(directory[..])[slot := BitOr(old(directory[slot]), BloomMask(e.key))];
    assert counts[..] == old(counts[..])[slot := old(counts[slot]) + 1];
  }

  method CountChunk(hash: Hash, data: seq<HTEntry>, directory: array<nat>, counts: array<nat>,
                    ghost count: nat, ghost done: seq<HTEntry>)
    requires directory != counts && Counted(hash, directory[..], counts[..], count, done)
    modifies directory, counts
    ensures Counted(hash, directory[..], counts[..], count, done + data)
  {
    hide Counted;
    assert done + data[..0] == done;
    for j := 0 to |data|
      invariant Counted(hash, directory[..], counts[..], count, done + data[..j])
    {
      CountEntry(hash, data[j], directory, counts, count, done + data[..j]);
      assert done + data[..j + 1] == done + data[..j] + [data[j]];
    }
    assert data[..|data|] == data;
  }

  // -------- walking the merged lists --------

  // The contents of the lists, list by list and chunk by chunk.
  ghost predicate Chained(lists: seq<Partitions>, heap: set<Chunk>, blocks: seq<seq<seq<HTEntry>>>)
    reads lists, heap
  {
    && Family(lists, heap)
    && |blocks| == |lists|
    && (forall i :: 0 <= i < |lists| ==> lists[i].blocks == blocks[i])
  }

  // All entries in the order in which the nested loops visit them.
  ghost function Entries(blocks: seq<seq<seq<HTEntry>>>): seq<HTEntry> {
    if blocks == [] then [] else Entries(blocks[..|blocks| - 1]) + Flatten(blocks[|blocks| - 1])
  }

  lemma EntriesNext(blocks: seq<seq<seq<HTEntry>>>, i: nat)
    requires i < |blocks|
    ensures Entries(blocks[..i + 1]) == Entries(blocks[..i]) + Flatten(blocks[i])
  {
    assert blocks[..i + 1][..i] == blocks[..i];
  }

  lemma ListCount(lists: seq<Partitions>, heap: set<Chunk>, blocks: seq<seq<seq<HTEntry>>>)
    requires Chained(lists, heap, blocks)
    ensures |blocks| == |lists|
  {
  }

  lemma ListStart(lists: seq<Partitions>, heap: set<Chunk>, blocks: seq<seq<seq<HTEntry>>>, i: nat)
    requires Chained(lists, heap, blocks) && i < |lists|
    ensures i < |blocks| && |lists[i].chunks| == |blocks[i]|
    ensures lists[i].chunkList == First(lists[i].chunks[0..], null)
  {
    assert lists[i].chunks[0..] == lists[i].chunks;
  }

  lemma ListNext(lists: seq<Partitions>, heap: set<Chunk>, blocks: seq<seq<seq<HTEntry>>>, i: nat, c: nat, chunk: Chunk)
    requires Chained(lists, heap, blocks) && i < |lists| && c <= |lists[i].chunks|
    requires chunk == First(lists[i].chunks[c..], null)
    ensures i < |blocks| && c < |lists[i].chunks| == |blocks[i]|
    ensures chunk.data == blocks[i][c] && chunk.next == First(lists[i].chunks[c + 1..], null)
  {
    assert c < |lists[i].chunks| && chunk == lists[i].chunks[c];
  }

  // Count all entries of the merged lists (the first pass of phase 3).
  method CountPhase(hash: Hash, lists: seq<Partitions>, directory: array<nat>, counts: array<nat>,
                    ghost heap: set<Chunk>, ghost blocks: seq<seq<seq<HTEntry>>>, ghost count: nat)
    requires Chained(lists, heap, blocks)
    requires directory != counts && Counted(hash, directory[..], counts[..], count, [])
    modifies directory, counts
    ensures Counted(hash, directory[..], counts[..], count, Entries(blocks))
  {
    hide Counted, Chained, Flatten;
    ghost var done: seq<HTEntry> := [];
    ListCount(lists, heap, blocks);
    for i := 0 to |lists|
      invariant Chained(lists, heap, blocks)
      invariant i <= |blocks| && done == Entries(blocks[..i])
      invariant Counted(hash, directory[..], counts[..], count, done)
    {
      var chunk := lists[i].chunkList;
      ghost var c := 0;
      ListStart(lists, heap, blocks, i);
      FlattenPrefix(blocks[i], 0);
      while chunk != null
        invariant Chained(lists, heap, blocks)
        invariant c <= |lists[i].chunks| == |blocks[i]| && chunk == First(lists[i].chunks[c..], null)
        invariant done == Entries(blocks[..i]) + Flatten(blocks[i][..c])
        invariant Counted(hash, directory[..], counts[..], count, done)
        decreases |blocks[i]| - c
      {
        ListNext(lists, heap, blocks, i, c, chunk);
        FlattenPrefix(blocks[i], c);
        CountChunk(hash, chunk.data, directory, counts, count, done);
        done := done + chunk.data;
        chunk := chunk.next;
        c := c + 1;
      }
      assert blocks[i][..c] == blocks[i];
      EntriesNext(blocks, i);
    }
    assert blocks[..|lists|] == blocks;
  }

  lemma FlattenPrefix<T>(ss: seq<seq<T>>, c: nat)
    requires c <= |ss|
    ensures Flatten(ss[..0]) == []
    ensures c < |ss| ==> Flatten(ss[..c + 1]) == Flatten(ss[..c]) + ss[c]
  {
    if c < |ss| {
      assert ss[..c + 1] == ss[..c] + [ss[c]];
      FlattenSnoc(ss[..c], ss[c]);
    }
  }

  // -------- prefix sums and scatter --------

  // Pointers are prefix sums of es, and block s of the entries holds the tuples of slot s
  // among the ones placed so far.
  ghost predicate Placed(hash: Hash, dir: seq<nat>, counts: seq<nat>, entries: seq<HTEntry>, es: seq<HTEntry>,
                         done: seq<HTEntry>) {
    && |dir| == |counts| == DIRECTORY_SIZE && |entries| == |es|
    && Pointed(hash, dir, es)
    && (forall s :: 0 <= s < DIRECTORY_SIZE ==>
          && counts[s] == |Filter(done, AtSlot(hash, s))|
          && BlockFilled(hash, entries, es, done, s))
  }

  ghost predicate Pointed(hash: Hash, dir: seq<nat>, es: seq<HTEntry>)
    requires |dir| == DIRECTORY_SIZE
  {
    forall s :: 0 <= s < DIRECTORY_SIZE ==> ExtractPointer(dir[s]) == Below(hash, es, s)
  }

  lemma PrefixCount(hash: Hash, es: seq<HTEntry>, done: seq<HTEntry>, e: HTEntry)
    requires |done| < |es| && done == es[..|done|] && e == es[|done|]
    ensures var s := SlotOf(hash, e.key);
      && |Filter(done, AtSlot(hash, s))| < |Filter(es, AtSlot(hash, s))|
      && Below(hash, es, s) + |Filter(done, AtSlot(hash, s))| < |es|
  {
    hide Filter;
    var s := SlotOf(hash, e.key);
    var rest := es[|done|..];
    assert es == done + rest;
    FilterConcat(done, rest, AtSlot(hash, s));
    FilterSome(rest, AtSlot(hash, s), 0);
    BelowNext(hash, es, s);
    BelowBounds(hash, es, s + 1);
  }

  // The next free cell of the entry's block is outside every other block.
  lemma PlacedStep(hash: Hash, dir: seq<nat>, counts: seq<nat>, entries: seq<HTEntry>, es: seq<HTEntry>,
                   done: seq<HTEntry>, e: HTEntry)
    requires Placed(hash, dir, counts, entries, es, done)
    requires |done| < |es| && done == es[..|done|] && e == es[|done|]
    ensures var s := SlotOf(hash, e.key);
      var k := ExtractPointer(dir[s]) + counts[s];
      && k < |entries|
      && Placed(hash, dir, counts[s := counts[s] + 1], entries[k := e], es, done + [e])
  {
    hide Filter, Below;
    var s := SlotOf(hash, e.key);
    PrefixCount(hash, es, done, e);
    var k := ExtractPointer(dir[s]) + counts[s];
    var entries' := entries[k := e];
    forall t | 0 <= t < DIRECTORY_SIZE
      ensures counts[s := counts[s] + 1][t] == |Filter(done + [e], AtSlot(hash, t))|
      ensures BlockFilled(hash, entries', es, done + [e], t)
    {
      FilterSnoc(done, e, AtSlot(hash, t));
      assert BlockFilled(hash, entries, es, done, t);
      var lo, n := Below(hash, es, t), |Filter(done, AtSlot(hash, t))|;
      if t == s {
        assert entries'[lo..lo + n + 1] == entries[lo..lo + n] + [e];
      } else {
        OtherBlock(hash, es, done, e, t);
        assert entries'[lo..lo + n] == entries[lo..lo + n];
      }
    }
  }

  lemma OtherBlock(hash: Hash, es: seq<HTEntry>, done: seq<HTEntry>, e: HTEntry, t: nat)
    requires |done| < |es| && done == es[..|done|] && e == es[|done|]
    requires t < DIRECTORY_SIZE && t != SlotOf(hash, e.key)
    ensures var s := SlotOf(hash, e.key);
      var k := Below(hash, es, s) + |Filter(done, AtSlot(hash, s))|;
      k < Below(hash, es, t) || Below(hash, es, t) + |Filter(done, AtSlot(hash, t))| <= k
  {
    hide Filter;
    var s := SlotOf(hash, e.key);
    PrefixCount(hash, es, done, e);
    var rest := es[|done|..];
    assert es == done + rest;
    FilterConcat(done, rest, AtSlot(hash, t));
    BelowNext(hash, es, s);
    BelowNext(hash, es, t);
    if s < t {
      BelowMonotone(hash, es, s + 1, t);
    } else {
      BelowMonotone(hash, es, t + 1, s);
    }
  }

  method PlaceEntry(hash: Hash, e: HTEntry, directory: array<nat>, counts: array<nat>, entries: array<HTEntry>,
                    ghost es: seq<HTEntry>, ghost done: seq<HTEntry>)
    requires directory != counts
    requires |done| < |es| && done == es[..|done|] && e == es[|done|]
    requires Placed(hash, directory[..], counts[..], entries[..], es, done)
    modifies counts, entries
    ensures Placed(hash, directory[..], counts[..], entries[..], es, done + [e])
  {
    PlacedStep(hash, directory[..], counts[..], entries[..], es, done, e);
    assert directory.Length == counts.Length == DIRECTORY_SIZE;
    hide Placed;
    var slot := SlotOf(hash, e.key);
    var start := ExtractPointer(directory[slot]);
    entries[start + counts[slot]] := e;
    counts[slot] := counts[slot] + 1;
    assert counts[..] == old(counts[..])[slot := old(counts[slot]) + 1];
    assert entries[..] == old(entries[..])[start + old(counts[slot]) := e];
  }

  method PlaceChunk(hash: Hash, data: seq<HTEntry>, directory: array<nat>, counts: array<nat>, entries: array<HTEntry>,
                    ghost es: seq<HTEntry>, ghost done: seq<HTEntry>)
    requires directory != counts
    requires |done| + |data| <= |es| && done + data == es[..|done| + |data|]
    requires Placed(hash, directory[..], counts[..], entries[..], es, done)
    modifies counts, entries
    ensures Placed(hash, directory[..], counts[..], entries[..], es, done + data)
  {
    hide Placed;
    assert done + data[..0] == done;
    for j := 0 to |data|
      invariant Placed(hash, directory[..], counts[..], entries[..], es, done + data[..j])
    {
      var before := done + data[..j];
      assert before == (done + data)[..|done| + j] && data[j] == (done + data)[|done| + j];
      PlaceEntry(hash, data[j], directory, counts, entries, es, before);
      assert done + data[..j + 1] == before + [data[j]];
    }
    assert data[..|data|] == data;
  }

  lemma {:induction false} EntriesPrefix(blocks: seq<seq<seq<HTEntry>>>, i: nat)
    requires i <= |blocks|
    ensures |Entries(blocks[..i])| <= |Entries(blocks)|
    ensures Entries(blocks[..i]) == Entries(blocks)[..|Entries(blocks[..i])|]
    decreases |blocks|
  {
    if i == |blocks| {
      assert blocks[..i] == blocks;
    } else {
      var init := blocks[..|blocks| - 1];
      EntriesPrefix(init, i);
      assert init[..i] == blocks[..i];
    }
  }

  lemma {:induction false} FlattenIsPrefix<T>(ss: seq<seq<T>>, c: nat)
    requires c <= |ss|
    ensures |Flatten(ss[..c])| <= |Flatten(ss)|
    ensures Flatten(ss[..c]) == Flatten(ss)[..|Flatten(ss[..c])|]
    decreases |ss|
  {
    if c == |ss| {
      assert ss[..c] == ss;
    } else {
      var init := ss[..|ss| - 1];
      FlattenIsPrefix(init, c);
      assert init[..c] == ss[..c];
    }
  }

  // The entries visited up to chunk c of list i are a prefix of all entries.
  lemma VisitedPrefix(blocks: seq<seq<seq<HTEntry>>>, i: nat, c: nat)
    requires i < |blocks| && c <= |blocks[i]|
    ensures var visited := Entries(blocks[..i]) + Flatten(blocks[i][..c]);
      |visited| <= |Entries(blocks)| && visited == Entries(blocks)[..|visited|]
  {
    hide Entries, Flatten;
    EntriesPrefix(blocks, i + 1);
    EntriesNext(blocks, i);
    FlattenIsPrefix(blocks[i], c);
    var a, b, whole := Entries(blocks[..i]), Flatten(blocks[i]), Entries(blocks);
    var visited := a + Flatten(blocks[i][..c]);
    assert visited == (a + b)[..|visited|];
    assert visited == whole[..|visited|];
  }

  // Scatter all entries of the merged lists (the second pass of phase 3).
  method PlacePhase(hash: Hash, lists: seq<Partitions>, directory: array<nat>, counts: array<nat>, entries: array<HTEntry>,
                    ghost heap: set<Chunk>, ghost blocks: seq<seq<seq<HTEntry>>>)
    requires Chained(lists, heap, blocks)
    requires directory != counts && Placed(hash, directory[..], counts[..], entries[..], Entries(blocks), [])
    modifies counts, entries
    ensures Placed(hash, directory[..], counts[..], entries[..], Entries(blocks), Entries(blocks))
  {
    hide Placed, Chained, Flatten;
    ghost var done: seq<HTEntry> := [];
    ListCount(lists, heap, blocks);
    for i := 0 to |lists|
      invariant Chained(lists, heap, blocks)
      invariant done == Entries(blocks[..i])
      invariant Placed(hash, directory[..], counts[..], entries[..], Entries(blocks), done)
    {
      var chunk := lists[i].chunkList;
      ghost var c := 0;
      ListStart(lists, heap, blocks, i);
      FlattenPrefix(blocks[i], 0);
      while chunk != null
        invariant Chained(lists, heap, blocks)
        invariant c <= |lists[i].chunks| == |blocks[i]| && chunk == First(lists[i].chunks[c..], null)
        invariant done == Entries(blocks[..i]) + Flatten(blocks[i][..c])
        invariant Placed(hash, directory[..], counts[..], entries[..], Entries(blocks), done)
        decreases |blocks[i]| - c
      {
        ListNext(lists, heap, blocks, i, c, chunk);
        FlattenPrefix(blocks[i], c);
        VisitedPrefix(blocks, i, c + 1);
        PlaceChunk(hash, chunk.data, directory, counts, entries, Entries(blocks), done);
        done := done + chunk.data;
        chunk := chunk.next;
        c := c + 1;
      }
      assert blocks[i][..c] == blocks[i];
      EntriesNext(blocks, i);
    }
    assert blocks[..|lists|] == blocks;
  }

  // The prefix-sum pass: Bloom bits stay, pointers become prefix sums, counters restart.
  method PrefixPhase(hash: Hash, directory: array<nat>, counts: array<nat>, ghost es: seq<HTEntry>)
    requires directory != counts && |es| < 0x1_0000_0000_0000
    requires Counted(hash, directory[..], counts[..], |es|, es)
    modifies directory, counts
    ensures directory.Length == counts.Length == DIRECTORY_SIZE
    ensures Pointed(hash, directory[..], es) && Filtered(hash, directory[..], es)
    ensures forall s :: 0 <= s < DIRECTORY_SIZE ==> counts[s] == 0
    ensures forall s :: 0 <= s < DIRECTORY_SIZE && |Filter(es, AtSlot(hash, s))| == 0 ==> ExtractBloom(directory[s]) == 0
  {
    hide Filter, Below, ExtractPointer, ExtractBloom, MakeDirectoryEntry;
    var pos := 0;
    BelowBounds(hash, es, 0);
    for i := 0 to DIRECTORY_SIZE
      invariant directory.Length == counts.Length == DIRECTORY_SIZE
      invariant pos == Below(hash, es, i)
      invariant forall s :: 0 <= s < i ==> ExtractPointer(directory[s]) == Below(hash, es, s) && counts[s] == 0
      invariant forall s :: 0 <= s < DIRECTORY_SIZE ==> ExtractBloom(directory[s]) == old(ExtractBloom(directory[s]))
      invariant forall s :: i <= s < DIRECTORY_SIZE ==> counts[s] == |Filter(es, AtSlot(hash, s))|
    {
      BelowBounds(hash, es, i);
      BelowIsCount(hash, es, i);
      BloomFits(directory[i]);
      var bloom := ExtractBloom(directory[i]);
      DirectoryEntryRoundTrip(pos, bloom);
      directory[i] := MakeDirectoryEntry(pos, bloom);
      pos := pos + counts[i];
      counts[i] := 0;
    }
  }

  lemma BelowIsCount(hash: Hash, es: seq<HTEntry>, s: nat)
    ensures Below(hash, es, s + 1) == Below(hash, es, s) + |Filter(es, AtSlot(hash, s))|
  {
    BelowNext(hash, es, s);
  }

  lemma BloomFits(entry: nat)
    ensures ExtractBloom(entry) < 0x1_0000
  {
  }

  lemma PlacedStart(hash: Hash, dir: seq<nat>, counts: seq<nat>, entries: seq<HTEntry>, es: seq<HTEntry>)
    requires |dir| == |counts| == DIRECTORY_SIZE && |entries| == |es|
    requires Pointed(hash, dir, es)
    requires forall s :: 0 <= s < DIRECTORY_SIZE ==> counts[s] == 0
    ensures Placed(hash, dir, counts, entries, es, [])
  {
    forall s | 0 <= s < DIRECTORY_SIZE
      ensures BlockFilled(hash, entries, es, [], s)
    {
      BelowBounds(hash, es, s);
    }
  }

  // -------- filling empty slots --------

  // Scanning from the end, a slot that points at the end gets the word of its right neighbour.
  ghost predicate BackFilled(before: seq<nat>, after: seq<nat>, count: nat) {
    && |before| == |after|
    && (forall s :: 0 <= s < |before| ==>
          after[s] == if ExtractPointer(before[s]) == count then Neighbour(after, s, count) else before[s])
  }

  ghost function Neighbour(dir: seq<nat>, s: nat, count: nat): nat
    requires s < |dir|
  {
    if s + 1 == |dir| then MakeDirectoryEntry(count, 0) else dir[s + 1]
  }

  method FillEmpty(directory: array<nat>, count: nat)
    requires directory.Length == DIRECTORY_SIZE
    modifies directory
    ensures BackFilled(old(directory[..]), directory[..], count)
  {
    hide ExtractPointer, MakeDirectoryEntry;
    var next := MakeDirectoryEntry(count, 0);
    for p := DIRECTORY_SIZE downto 0
      invariant next == if p == DIRECTORY_SIZE then MakeDirectoryEntry(count, 0) else directory[p]
      invariant forall s :: 0 <= s < p ==> directory[s] == old(directory[s])
      invariant forall s :: p <= s < DIRECTORY_SIZE ==>
        directory[s] == if old(ExtractPointer(directory[s])) == count then Neighbour(directory[..], s, count)
                        else old(directory[s])
    {
      ghost var before := directory[..];
      if ExtractPointer(directory[p]) == count {
        directory[p] := next;
      } else {
        next := directory[p];
      }
      assert forall s :: p <= s < DIRECTORY_SIZE ==> Neighbour(directory[..], s, count) == Neighbour(before, s, count);
    }
  }

  // With prefix-sum pointers only a suffix of empty slots points at the end: filling is a no-op.
  lemma {:induction false} NothingToFill(before: seq<nat>, after: seq<nat>, count: nat, s: nat)
    requires BackFilled(before, after, count) && s <= |before|
    requires forall t :: 0 <= t < |before| && ExtractPointer(before[t]) == count ==>
               before[t] == MakeDirectoryEntry(count, 0) && (t + 1 < |before| ==> ExtractPointer(before[t + 1]) == count)
    ensures after[s..] == before[s..]
    decreases |before| - s
  {
    hide ExtractPointer, MakeDirectoryEntry;
    if s < |before| {
      NothingToFill(before, after, count, s + 1);
      assert after[s..] == [after[s]] + after[s + 1..];
      assert before[s..] == [before[s]] + before[s + 1..];
    }
  }

  // -------- the merged lists as one sequence --------

  lemma {:induction false} EntriesSum(blocks: seq<seq<seq<HTEntry>>>, held: seq<multiset<HTEntry>>)
    requires |blocks| == |held|
    requires forall i :: 0 <= i < |held| ==> multiset(Flatten(blocks[i])) == held[i]
    ensures multiset(Entries(blocks)) == Sum(held)
  {
    hide Flatten;
    if blocks == [] {
    } else {
      EntriesSum(blocks[..|blocks| - 1], held[..|held| - 1]);
    }
  }

  ghost method ReadBlocks(hash: Hash, lists: seq<Partitions>, heap: set<Chunk>, held: seq<multiset<HTEntry>>,
                          bag: multiset<HTEntry>)
      returns (blocks: seq<seq<seq<HTEntry>>>)
    requires Holding(hash, lists, heap, held, bag)
    ensures Chained(lists, heap, blocks)
    ensures multiset(Entries(blocks)) == bag
  {
    hide Sum, Entries, Flatten, Family;
    blocks := [];
    for i := 0 to |lists|
      invariant |blocks| == i
      invariant forall k :: 0 <= k < i ==> lists[k].blocks == blocks[k]
    {
      blocks := blocks + [lists[i].blocks];
    }
    assert forall i :: 0 <= i < |held| ==> lists[i].Contents() == held[i];
    EntriesSum(blocks, held);
  }

  // -------- the sequential build --------

  datatype TempVec = TempVec(dirHashId: nat, entry: HTEntry)

  function Tag(hash: Hash): HTEntry -> TempVec {
    (e: HTEntry) => TempVec(SlotOf(hash, e.key), e)
  }

  function Untag(): TempVec -> HTEntry {
    (t: TempVec) => t.entry
  }

  // Whatever order std::sort leaves equal slots in, the entries are a permutation sorted by slot.
  lemma SortedTags(hash: Hash, input: seq<HTEntry>, sorted: seq<TempVec>)
    requires multiset(sorted) == multiset(Map(Tag(hash), input))
    requires forall i, j :: 0 <= i < j < |sorted| ==> sorted[i].dirHashId <= sorted[j].dirHashId
    ensures |sorted| == |input|
    ensures forall i :: 0 <= i < |sorted| ==> sorted[i].dirHashId == SlotOf(hash, sorted[i].entry.key)
    ensures multiset(Map(Untag(), sorted)) == multiset(input)
    ensures SortedBySlot(hash, Map(Untag(), sorted))
  {
    var tagged := Map(Tag(hash), input);
    assert |multiset(sorted)| == |multiset(tagged)|;
    forall i | 0 <= i < |sorted|
      ensures sorted[i].dirHashId == SlotOf(hash, sorted[i].entry.key)
    {
      assert sorted[i] in multiset(tagged);
      var k :| 0 <= k < |tagged| && tagged[k] == sorted[i];
    }
    MapMultiset(Untag(), sorted, tagged);
    assert Map(Untag(), tagged) == input;
  }

  // Directory after the groups of the first idx sorted entries have been recorded.
  ghost predicate Grouped(hash: Hash, dir: seq<nat>, es: seq<HTEntry>, idx: nat) {
    && |dir| == DIRECTORY_SIZE && idx <= |es|
    && (forall i :: 0 <= i < idx ==> Recorded(hash, dir, es, i))
    && (forall s :: 0 <= s < DIRECTORY_SIZE && (forall i :: 0 <= i < idx ==> SlotOf(hash, es[i].key) != s) ==>
          dir[s] == MakeDirectoryEntry(|es|, 0))
  }

  ghost predicate Recorded(hash: Hash, dir: seq<nat>, es: seq<HTEntry>, i: nat)
    requires |dir| == DIRECTORY_SIZE && i < |es|
  {
    var s := SlotOf(hash, es[i].key);
    ExtractPointer(dir[s]) == Below(hash, es, s) && Covers(ExtractBloom(dir[s]), BloomMask(es[i].key))
  }

  lemma GroupedStep(hash: Hash, dir: seq<nat>, es: seq<HTEntry>, start: nat, end: nat, p: nat, bloom: nat)
    requires Grouped(hash, dir, es, start) && start < end <= |es| < 0x1_0000_0000_0000 && p < DIRECTORY_SIZE
    requires SortedBySlot(hash, es) && bloom < 0x1_0000
    requires forall i :: 0 <= i < start ==> SlotOf(hash, es[i].key) < p
    requires forall i :: start <= i < end ==> SlotOf(hash, es[i].key) == p && Covers(bloom, BloomMask(es[i].key))
    ensures Grouped(hash, dir[p := MakeDirectoryEntry(start, bloom)], es, end)
  {
    hide Below, Covers, ExtractPointer, ExtractBloom, MakeDirectoryEntry;
    var dir' := dir[p := MakeDirectoryEntry(start, bloom)];
    DirectoryEntryRoundTrip(start, bloom);
    assert SlotOf(hash, es[start].key) == p;
    SortedSplit(hash, es, p, start);
    forall i | 0 <= i < end
      ensures Recorded(hash, dir', es, i)
    {
      if i < start {
        assert Recorded(hash, dir, es, i);
      }
    }
    forall s | 0 <= s < DIRECTORY_SIZE && (forall i :: 0 <= i < end ==> SlotOf(hash, es[i].key) != s)
      ensures dir'[s] == MakeDirectoryEntry(|es|, 0)
    {
      assert SlotOf(hash, es[start].key) == p;
    }
  }

  // Empty slots inherit the pointer of the next slot, which is their prefix sum.
  lemma {:induction false} FilledPointers(hash: Hash, before: seq<nat>, after: seq<nat>, es: seq<HTEntry>, s: nat)
    requires Grouped(hash, before, es, |es|) && |es| < 0x1_0000_0000_0000
    requires SortedBySlot(hash, es)
    requires BackFilled(before, after, |es|) && s < DIRECTORY_SIZE
    ensures ExtractPointer(after[s]) == Below(hash, es, s)
    ensures forall i :: 0 <= i < |es| && SlotOf(hash, es[i].key) == s ==> after[s] == before[s]
    decreases DIRECTORY_SIZE - s
  {
    hide Below, ExtractPointer, ExtractBloom, MakeDirectoryEntry, Covers;
    DirectoryEntryRoundTrip(|es|, 0);
    if i :| 0 <= i < |es| && SlotOf(hash, es[i].key) == s {
      assert Recorded(hash, before, es, i);
      SortedBoundary(hash, es, s);
    } else {
      assert before[s] == MakeDirectoryEntry(|es|, 0);
      FilterNone(es, AtSlot(hash, s));
      BelowIsCount(hash, es, s);
      BelowBounds(hash, es, 0);
      if s + 1 < DIRECTORY_SIZE {
        FilledPointers(hash, before, after, es, s + 1);
      }
    }
  }

  lemma FilledIsWellLaid(hash: Hash, before: seq<nat>, after: seq<nat>, es: seq<HTEntry>)
    requires Grouped(hash, before, es, |es|) && |es| < 0x1_0000_0000_0000
    requires SortedBySlot(hash, es)
    requires BackFilled(before, after, |es|)
    ensures WellLaid(hash, after, es)
  {
    hide Below, ExtractPointer, ExtractBloom, Covers;
    forall s | 0 <= s < DIRECTORY_SIZE
      ensures ExtractPointer(after[s]) == Below(hash, es, s)
    {
      FilledPointers(hash, before, after, es, s);
    }
    forall i | 0 <= i < |es|
      ensures Covers(ExtractBloom(after[SlotOf(hash, es[i].key)]), BloomMask(es[i].key))
    {
      FilledPointers(hash, before, after, es, SlotOf(hash, es[i].key));
      assert Recorded(hash, before, es, i);
    }
    SortedIsWellLaid(hash, after, es);
  }

  class UnchainedHashTable {
    const hash: Hash
    var tempKeysPos: seq<HTEntry>
    var entries: array<HTEntry>
    const directory: array<nat>

    constructor (hash: Hash)
      ensures this.hash == hash && tempKeysPos == [] && entries.Length == 0
      ensures fresh(directory) && fresh(entries) && directory.Length == DIRECTORY_SIZE
    {
      this.hash := hash;
      tempKeysPos := [];
      entries := new HTEntry[0];
      directory := new nat[DIRECTORY_SIZE](_ => 0);
    }

    method InsertTempKey(key: int32, keyPos: nat)
      modifies `tempKeysPos
      ensures tempKeysPos == old(tempKeysPos) + [HTEntry(key, keyPos)]
    {
      tempKeysPos := tempKeysPos + [HTEntry(key, keyPos)];
    }

    // The table answers probes for the first count tuples of tempKeysPos.
    ghost predicate Built(count: nat)
      reads this, entries, directory
    {
      && count <= |tempKeysPos|
      && multiset(entries[..]) == multiset(tempKeysPos[..count])
      && WellLaid(hash, directory[..], entries[..])
    }

    // std::fill(directory, makeDirectoryEntry(count, 0))
    method ClearDirectory(count: nat)
      requires directory.Length == DIRECTORY_SIZE
      modifies directory
      ensures forall s :: 0 <= s < DIRECTORY_SIZE ==> directory[s] == MakeDirectoryEntry(count, 0)
    {
      hide MakeDirectoryEntry;
      for s := 0 to DIRECTORY_SIZE
        invariant forall t :: 0 <= t < s ==> directory[t] == MakeDirectoryEntry(count, 0)
      {
        directory[s] := MakeDirectoryEntry(count, 0);
      }
    }

    // bloomFilter(start, end): the OR of four bits for every key in the range.
    method BloomFilter(start: nat, end: nat) returns (filter: nat)
      requires start <= end <= entries.Length
      ensures filter < 0x1_0000
      ensures forall i :: start <= i < end ==> Covers(filter, BloomMask(entries[i].key))
    {
      hide Covers, BloomMask;
      filter := 0;
      for i := start to end
        invariant filter < 0x1_0000
        invariant forall k :: start <= k < i ==> Covers(filter, BloomMask(entries[k].key))
      {
        ghost var before := filter;
        filter := AddKeyBits(filter, entries[i].key);
        forall k | start <= k < i
          ensures Covers(filter, BloomMask(entries[k].key))
        {
          AddKeyBitsKeeps(before, entries[i].key, BloomMask(entries[k].key));
        }
        AddKeyBitsCovers(before, entries[i].key);
      }
    }

    // build(count), where sorted is what std::sort makes of the tagged tuples.
    method Build(count: nat, sorted: seq<TempVec>)
      requires directory.Length == DIRECTORY_SIZE
      requires count <= |tempKeysPos| && count < 0x8000_0000
      requires multiset(sorted) == multiset(Map(Tag(hash), tempKeysPos[..count]))
      requires forall i, j :: 0 <= i < j < |sorted| ==> sorted[i].dirHashId <= sorted[j].dirHashId
      modifies `entries, directory
      ensures Built(count)
    {
      SortedTags(hash, tempKeysPos[..count], sorted);
      ghost var es := Map(Untag(), sorted);
      entries := new HTEntry[count];
      for i := 0 to count
        invariant fresh(entries) && entries.Length == count
        invariant entries[..i] == es[..i]
      {
        entries[i] := sorted[i].entry;
      }
      assert entries[..] == es;
      ClearDirectory(count);
      GroupEntries(count, sorted, es);
      ghost var before := directory[..];
      FillEmpty(directory, count);
      FilledIsWellLaid(hash, before, directory[..], es);
    }

    // build_parallel(count) under arbitrary interleavings of both worker phases.
    method BuildParallel(count: nat, partitionSchedule: seq<nat>, mergeSchedule: seq<nat>)
      requires directory.Length == DIRECTORY_SIZE
      requires count <= |tempKeysPos| && count < 0x8000_0000
      requires PartitionSchedule(partitionSchedule, count) && MergeSchedule(mergeSchedule)
      modifies `entries, directory
      ensures Built(count)
    {
      hide Holding, Chained, PartitionSchedule, MergeSchedule, Counted, Placed, Pointed, Filtered, WellLaid, BackFilled;
      hide MakeDirectoryEntry, Entries, Filter, ExtractBloom, ExtractPointer, ShareSize, SlotOf;
      ghost var bag := multiset(tempKeysPos[..count]);
      var locals, heap, held := PartitionPhase(hash, tempKeysPos, count, partitionSchedule);
      var globals, globalHeld := MergePhase(hash, locals, mergeSchedule, heap, held, bag);
      ghost var blocks := ReadBlocks(hash, globals, heap, globalHeld, bag);
      ghost var es := Entries(blocks);
      assert |es| == count by {
        assert |multiset(es)| == |bag|;
      }
      ClearDirectory(count);
      var counts := new nat[DIRECTORY_SIZE](_ => 0);
      CountedStart(hash, directory[..], counts[..], count);
      CountPhase(hash, globals, directory, counts, heap, blocks, count);
      var cells := new HTEntry[count];
      PrefixPhase(hash, directory, counts, es);
      PlacedStart(hash, directory[..], counts[..], cells[..], es);
      ghost var pointed := directory[..];
      PlacePhase(hash, globals, directory, counts, cells, heap, blocks);
      entries := cells;
      FillEmpty(directory, count);
      FillChangesNothing(hash, pointed, directory[..], es);
      PlacedIsWellLaid(hash, directory[..], counts[..], entries[..], es);
    }

    // probe(key, out): append the positions stored under key.
    method Probe(key: int32, out: seq<nat>, ghost count: nat) returns (result: seq<nat>)
      requires Built(count)
      ensures multiset(result) == multiset(out) + multiset(Matches(tempKeysPos[..count], key))
    {
      hide Filter, WellLaid, Matches;
      ProbeIsExact(hash, directory[..], entries[..], key);
      SameTuplesSameMatches(entries[..], tempKeysPos[..count], key);
      result := ProbeDirectory(key, out);
    }

    method ProbeDirectory(key: int32, out: seq<nat>) returns (result: seq<nat>)
      requires WellLaid(hash, directory[..], entries[..])
      ensures result == out + ProbeResult(hash, directory[..], entries[..], key)
    {
      hide Filter, Filtered, BitAnd, BloomMask;
      result := out;
      assert out + [] == out;
      var p := SlotOf(hash, key);
      assert Ordered(directory[..], |entries[..]|, p);
      var entry := directory[p];
      var pointer, bloom := ExtractPointer(entry), ExtractBloom(entry);
      if pointer >= entries.Length {
        return;
      }
      var mask := BloomMask(key);
      if BitAnd(bloom, mask) != mask {
        return;
      }
      var start := pointer;
      var end;
      if p == DIRECTORY_SIZE - 1 {
        end := entries.Length;
      } else {
        end := ExtractPointer(directory[p + 1]);
      }
      ghost var dir := directory[..];
      assert p + 1 < DIRECTORY_SIZE ==> dir[p + 1] == directory[p + 1];
      assert end == Start(dir, entries.Length, p + 1);
      assert start <= end <= entries.Length;
      assert entries[..][start..end] == entries[start..end];
      result := ScanSlot(key, out, start, end);
    }

    method ScanSlot(key: int32, out: seq<nat>, start: nat, end: nat) returns (result: seq<nat>)
      requires start <= end <= entries.Length
      ensures result == out + Map(Position(), Filter(entries[start..end], HasKey(key)))
    {
      hide Filter;
      result := out;
      FilterNone(entries[start..start], HasKey(key));
      for i := start to end
        invariant result == out + Map(Position(), Filter(entries[start..i], HasKey(key)))
      {
        FilterSnoc(entries[start..i], entries[i], HasKey(key));
        assert entries[start..i + 1] == entries[start..i] + [entries[i]];
        if entries[i].key == key {
          MapConcat(Position(), Filter(entries[start..i], HasKey(key)), [entries[i]]);
          result := result + [entries[i].keyPos];
        }
      }
    }

    // Record one directory word for every run of equal slots.
    method GroupEntries(count: nat, sorted: seq<TempVec>, ghost es: seq<HTEntry>)
      requires directory.Length == DIRECTORY_SIZE && count == |sorted| == |es| < 0x8000_0000
      requires entries[..] == es && SortedBySlot(hash, es)
      requires forall i :: 0 <= i < count ==> sorted[i].dirHashId == SlotOf(hash, es[i].key)
      requires forall s :: 0 <= s < DIRECTORY_SIZE ==> directory[s] == MakeDirectoryEntry(count, 0)
      modifies directory
      ensures Grouped(hash, directory[..], es, count)
    {
      hide MakeDirectoryEntry, Covers, BloomMask, Recorded;
      var idx := 0;
      while idx < count
        invariant idx <= count
        invariant Grouped(hash, directory[..], es, idx)
        invariant forall i, j :: 0 <= i < idx <= j < count ==> SlotOf(hash, es[i].key) < SlotOf(hash, es[j].key)
      {
        var p := sorted[idx].dirHashId;
        var start := idx;
        while idx < count && sorted[idx].dirHashId == p
          invariant start <= idx <= count
          invariant forall i :: start <= i < idx ==> SlotOf(hash, es[i].key) == p
        {
          idx := idx + 1;
        }
        var bloom := BloomFilter(start, idx);
        GroupedStep(hash, directory[..], es, start, idx, p, bloom);
        ghost var before := directory[..];
        directory[p] := MakeDirectoryEntry(start, bloom);
        assert directory[..] == before[p := MakeDirectoryEntry(start, bloom)];
      }
    }
  }

  // filter |= 1 << b1, ..., filter |= 1 << b4
  function AddKeyBits(filter: nat, key: int32): nat {
    BitOr(BitOr(BitOr(BitOr(filter, Pow2(key % 16)), Pow2(key / 16 % 16)), Pow2(key / 256 % 16)), Pow2(key / 4096 % 16))
  }

  lemma AddKeyBitsKeeps(filter: nat, key: int32, mask: nat)
    requires filter < 0x1_0000
    ensures AddKeyBits(filter, key) < 0x1_0000
    ensures Covers(filter, mask) ==> Covers(AddKeyBits(filter, key), mask)
  {
    hide Covers, BitOr, Pow2;
    Pow2Sixteen();
    var a, b, c, d := Pow2(key % 16), Pow2(key / 16 % 16), Pow2(key / 256 % 16), Pow2(key / 4096 % 16);
    NibbleFits(key % 16);
    NibbleFits(key / 16 % 16);
    NibbleFits(key / 256 % 16);
    NibbleFits(key / 4096 % 16);
    var f1 := BitOr(filter, a);
    var f2 := BitOr(f1, b);
    var f3 := BitOr(f2, c);
    OrLow(0, 16, filter, a);
    OrLow(0, 16, f1, b);
    OrLow(0, 16, f2, c);
    OrLow(0, 16, f3, d);
    if Covers(filter, mask) {
      OrKeepsMask(filter, a, mask);
      OrKeepsMask(f1, b, mask);
      OrKeepsMask(f2, c, mask);
      OrKeepsMask(f3, d, mask);
    }
  }

  lemma AddKeyBitsCovers(filter: nat, key: int32)
    requires filter < 0x1_0000
    ensures AddKeyBits(filter, key) < 0x1_0000
    ensures Covers(AddKeyBits(filter, key), BloomMask(key))
  {
    AddKeyBitsKeeps(filter, key, 0);
    hide Covers, BitOr, Pow2;
    var a, b, c, d := Pow2(key % 16), Pow2(key / 16 % 16), Pow2(key / 256 % 16), Pow2(key / 4096 % 16);
    var f1 := BitOr(filter, a);
    var f2 := BitOr(f1, b);
    var f3 := BitOr(f2, c);
    var f4 := BitOr(f3, d);
    OrSetsMask(filter, a);
    OrKeepsMask(f1, b, a);
    OrSetsMask(f1, b);
    CoversBoth(f2, a, b);
    OrKeepsMask(f2, c, BitOr(a, b));
    OrSetsMask(f2, c);
    CoversBoth(f3, BitOr(a, b), c);
    OrKeepsMask(f3, d, BitOr(BitOr(a, b), c));
    OrSetsMask(f3, d);
    CoversBoth(f4, BitOr(BitOr(a, b), c), d);
  }

  // build_parallel's last pass leaves the directory as it is.
  lemma FillChangesNothing(hash: Hash, before: seq<nat>, after: seq<nat>, es: seq<HTEntry>)
    requires |before| == DIRECTORY_SIZE && |es| < 0x1_0000_0000_0000
    requires Pointed(hash, before, es) && BackFilled(before, after, |es|)
    requires forall s :: 0 <= s < DIRECTORY_SIZE && |Filter(es, AtSlot(hash, s))| == 0 ==> ExtractBloom(before[s]) == 0
    ensures after == before
  {
    forall s | 0 <= s < DIRECTORY_SIZE && ExtractPointer(before[s]) == |es|
      ensures before[s] == MakeDirectoryEntry(|es|, 0)
      ensures s + 1 < DIRECTORY_SIZE ==> ExtractPointer(before[s + 1]) == |es|
    {
      BelowIsCount(hash, es, s);
      BelowBounds(hash, es, s + 1);
      SameEntry(before[s], |es|);
    }
    NothingToFill(before, after, |es|, 0);
    assert after[0..] == after && before[0..] == before;
  }

  lemma SameEntry(entry: nat, count: nat)
    requires ExtractPointer(entry) == count < 0x1_0000_0000_0000 && ExtractBloom(entry) == 0
    ensures entry == MakeDirectoryEntry(count, 0)
  {
    DirectoryEntryRoundTrip(count, 0);
  }

  lemma PlacedIsWellLaid(hash: Hash, dir: seq<nat>, counts: seq<nat>, entries: seq<HTEntry>, es: seq<HTEntry>)
    requires Placed(hash, dir, counts, entries, es, es)
    requires |dir| == DIRECTORY_SIZE && Filtered(hash, dir, es)
    ensures multiset(entries) == multiset(es)
    ensures WellLaid(hash, dir, entries)
  {
    BlocksAreWellLaid(hash, dir, entries, es);
  }
}
