// Phases 1 and 2 of build_parallel: sixteen workers radix-partition the input into private chunk
// lists, then sixteen workers merge the lists partition by partition.  A schedule is the sequence
// of worker ids in the order in which the workers take their next loop iteration, so a statement
// about every schedule is a statement about every interleaving.
module Partitioning {
  import opened Bits
  import opened SeqFacts
  import opened ChunkLists
  import opened HashWords

  // 16 in products and quotients below is NUM_THREADS or NUM_PARTITIONS, written as a literal to
  // keep the arithmetic linear.

  // args[i].end - args[i].start
  function ShareSize(count: nat, t: nat): nat {
    count / 16 + (if t < count % 16 then 1 else 0)
  }

  // args[i].start
  function ShareStart(count: nat, t: nat): nat {
    if t == 0 then 0 else ShareStart(count, t - 1) + ShareSize(count, t - 1)
  }

  // Every worker takes exactly as many steps as its loop has iterations.
  ghost predicate PartitionSchedule(schedule: seq<nat>, count: nat) {
    && (forall i :: 0 <= i < |schedule| ==> schedule[i] < NUM_THREADS)
    && (forall t :: 0 <= t < NUM_THREADS ==> multiset(schedule)[t] == ShareSize(count, t))
  }

  lemma {:induction false} ShareStartClosed(count: nat, t: nat)
    requires t <= NUM_THREADS
    ensures ShareStart(count, t) == t * (count / 16) + Min(t, count % 16)
  {
    if t > 0 {
      ShareStartClosed(count, t - 1);
    }
  }

  // The workers' ranges tile [0, count).
  lemma SharesTile(count: nat, t: nat)
    requires t < NUM_THREADS
    ensures ShareStart(count, 0) == 0 && ShareStart(count, NUM_THREADS) == count
    ensures ShareStart(count, t) + ShareSize(count, t) == ShareStart(count, t + 1) <= count
  {
    ShareStartClosed(count, NUM_THREADS);
    ShareStartClosed(count, t + 1);
    MulStep(t + 1, NUM_THREADS, count / 16);
  }

  // What the workers have consumed when worker t stands at next[t].
  ghost function Taken(input: seq<HTEntry>, count: nat, next: seq<nat>): seq<multiset<HTEntry>>
    requires count <= |input| && |next| <= NUM_THREADS
    requires forall t :: 0 <= t < |next| ==> ShareStart(count, t) <= next[t] <= |input|
  {
    seq(|next|, t requires 0 <= t < |next| => multiset(input[ShareStart(count, t)..next[t]]))
  }

  lemma {:induction false} TakenAll(input: seq<HTEntry>, count: nat, next: seq<nat>)
    requires count <= |input| && |next| <= NUM_THREADS
    requires forall t :: 0 <= t < |next| ==> ShareStart(count, t) <= next[t] <= |input|
    requires forall t :: 0 <= t < |next| ==> next[t] == ShareStart(count, t + 1)
    ensures ShareStart(count, |next|) <= count
    ensures Sum(Taken(input, count, next)) == multiset(input[..ShareStart(count, |next|)])
  {
    hide Sum, ShareStart;
    var n := |next|;
    if n == 0 {
      SharesTile(count, 0);
      SumEmpty(Taken(input, count, next));
    } else {
      var init := next[..n - 1];
      TakenAll(input, count, init);
      SharesTile(count, n - 1);
      var a, b := ShareStart(count, n - 1), ShareStart(count, n);
      assert Taken(input, count, next) == Taken(input, count, init) + [multiset(input[a..b])];
      SumSnoc(Taken(input, count, init), multiset(input[a..b]));
      assert input[..b] == input[..a] + input[a..b];
    }
  }

  lemma NextInShare(schedule: seq<nat>, n: nat)
    requires n < |schedule|
    ensures multiset(schedule[..n + 1]) == multiset(schedule[..n]) + multiset{schedule[n]}
    ensures multiset(schedule[..n])[schedule[n]] < multiset(schedule)[schedule[n]]
  {
    assert schedule[..n + 1] == schedule[..n] + [schedule[n]];
    assert schedule == schedule[..n + 1] + schedule[n + 1..];
  }

  // An entry may only be in a list of its own partition.
  ghost predicate Sorted(held: seq<multiset<HTEntry>>, hash: Hash) {
    forall i, e :: 0 <= i < |held| && e in held[i] ==> PartitionOf(hash, e.key) == i % 16
  }

  lemma SortedAdd(held: seq<multiset<HTEntry>>, hash: Hash, k: nat, e: HTEntry)
    requires Sorted(held, hash) && k < |held| && k % 16 == PartitionOf(hash, e.key)
    ensures Sorted(held[k := held[k] + multiset{e}], hash)
  {
  }

  // held[i] is what list i holds, and bag is everything held.
  ghost predicate Holding(hash: Hash, lists: seq<Partitions>, heap: set<Chunk>, held: seq<multiset<HTEntry>>,
                          bag: multiset<HTEntry>)
    reads lists, heap
  {
    && Family(lists, heap)
    && |held| == |lists|
    && (forall i :: 0 <= i < |lists| ==> lists[i].Contents() == held[i])
    && Sorted(held, hash)
    && Sum(held) == bag
  }

  lemma ApartFrom(lists: seq<Partitions>, k: nat, heap: set<Chunk>)
    requires k < |lists| && Family(lists, heap)
    ensures forall i :: 0 <= i < |lists| && i != k ==> lists[i] != lists[k]
    ensures forall i, m :: 0 <= i < |lists| && i != k && 0 <= m < |lists[i].chunks| ==> lists[i].chunks[m] !in lists[k].chunks
  {
    forall i, m | 0 <= i < |lists| && i != k && 0 <= m < |lists[i].chunks|
      ensures lists[i].chunks[m] !in lists[k].chunks
    {
      FamilyIsDisjoint(lists, heap, i, k, lists[i].chunks[m]);
    }
  }

  // Push onto one list of a family.
  method PushInto(lists: seq<Partitions>, k: nat, e: HTEntry, ghost heap: set<Chunk>) returns (ghost heap': set<Chunk>)
    requires k < |lists| && Family(lists, heap)
    modifies lists[k], lists[k].chunks
    ensures Family(lists, heap') && fresh(heap' - heap)
    ensures lists[k].Contents() == old(lists[k].Contents()) + multiset{e}
    ensures forall i :: 0 <= i < |lists| && i != k ==> lists[i].Contents() == old(lists[i].Contents())
  {
    ApartFrom(lists, k, heap);
    assert lists[k].Valid() && forall c :: c in lists[k].chunks ==> c in heap;
    assert forall i :: 0 <= i < |lists| ==> lists[i].Valid() && forall c :: c in lists[i].chunks ==> c in heap;
    lists[k].Push(e);
    heap' := heap + set c | c in lists[k].chunks;
    forall i | 0 <= i < |lists|
      ensures lists[i].Valid() && forall c :: c in lists[i].chunks ==> c in heap'
    {
      if i != k {
        assert lists[i].chunks == old(lists[i].chunks);
        assert unchanged(lists[i].chunks);
        assert Linked(lists[i].chunks, lists[i].blocks, null);
      }
    }
  }

  // The body of partition_worker's loop for one tuple.
  method PartitionStep(hash: Hash, e: HTEntry, lists: seq<Partitions>, t: nat,
                       ghost heap: set<Chunk>, ghost held: seq<multiset<HTEntry>>, ghost bag: multiset<HTEntry>)
      returns (ghost heap': set<Chunk>, ghost held': seq<multiset<HTEntry>>)
    requires |lists| == LOCALS && t < NUM_THREADS
    requires Holding(hash, lists, heap, held, bag)
    modifies lists, heap
    ensures Holding(hash, lists, heap', held', bag + multiset{e})
    ensures fresh(heap' - heap)
  {
    var k := t * 16 + PartitionOf(hash, e.key);
    heap' := PushInto(lists, k, e, heap);
    held' := held[k := held[k] + multiset{e}];
    SortedAdd(held, hash, k, e);
    SumAdd(held, k, multiset{e});
  }

  lemma HoldingOneMore(hash: Hash, lists: seq<Partitions>, heap: set<Chunk>, held: seq<multiset<HTEntry>>,
                       bag: multiset<HTEntry>, p: Partitions)
    requires Holding(hash, lists, heap, held, bag)
    requires p.Valid() && p.chunks == [] && p !in lists && p.Contents() == multiset{}
    ensures Holding(hash, lists + [p], heap, held + [multiset{}], bag)
  {
    SumSnoc(held, multiset{});
    hide Sum;
    assert Distinct(lists + [p]);
    assert Sorted(held + [multiset{}], hash);
  }

  lemma NothingHeld(hash: Hash)
    ensures Holding(hash, [], {}, [], multiset{})
  {
  }

  // new ThreadLocalData[NUM_THREADS], or new Partitions[NUM_PARTITIONS]: n more empty lists.
  method AddLists(hash: Hash, n: nat, present: seq<Partitions>, ghost heap: set<Chunk>,
                  ghost presentHeld: seq<multiset<HTEntry>>, ghost bag: multiset<HTEntry>)
      returns (added: seq<Partitions>, ghost addedHeld: seq<multiset<HTEntry>>)
    requires Holding(hash, present, heap, presentHeld, bag)
    ensures |added| == n && |addedHeld| == n && fresh(added)
    ensures Holding(hash, present + added, heap, presentHeld + addedHeld, bag)
    ensures forall k :: 0 <= k < n ==> addedHeld[k] == multiset{}
  {
    hide Holding;
    added, addedHeld := [], [];
    assert present + added == present && presentHeld + addedHeld == presentHeld;
    for i := 0 to n
      invariant |added| == i && |addedHeld| == i && fresh(added)
      invariant Holding(hash, present + added, heap, presentHeld + addedHeld, bag)
      invariant forall k :: 0 <= k < i ==> addedHeld[k] == multiset{}
    {
      var p := new Partitions();
      HoldingOneMore(hash, present + added, heap, presentHeld + addedHeld, bag, p);
      assert present + (added + [p]) == present + added + [p];
      assert presentHeld + (addedHeld + [multiset{}]) == presentHeld + addedHeld + [multiset{}];
      added, addedHeld := added + [p], addedHeld + [multiset{}];
    }
  }

  // After n turns of the schedule worker t stands at next[t], inside its range.
  ghost predicate Progress(input: seq<HTEntry>, count: nat, schedule: seq<nat>, n: nat, next: seq<nat>,
                           bag: multiset<HTEntry>) {
    && count <= |input| && n <= |schedule| && |next| == NUM_THREADS
    && PartitionSchedule(schedule, count)
    && (forall t :: 0 <= t < NUM_THREADS ==> next[t] == ShareStart(count, t) + multiset(schedule[..n])[t])
    && (forall t :: 0 <= t < NUM_THREADS ==> next[t] <= count)
    && Sum(Taken(input, count, next)) == bag
  }

  lemma ProgressStart(input: seq<HTEntry>, count: nat, schedule: seq<nat>, next: seq<nat>)
    requires count <= |input| && |next| == NUM_THREADS
    requires PartitionSchedule(schedule, count)
    requires forall t :: 0 <= t < NUM_THREADS ==> next[t] == ShareStart(count, t)
    ensures Progress(input, count, schedule, 0, next, multiset{})
  {
    forall t | 0 <= t < NUM_THREADS
      ensures next[t] <= count
    {
      SharesTile(count, t);
    }
    SumEmpty(Taken(input, count, next));
  }

  lemma ProgressStep(input: seq<HTEntry>, count: nat, schedule: seq<nat>, n: nat, next: seq<nat>,
                     bag: multiset<HTEntry>)
    requires Progress(input, count, schedule, n, next, bag) && n < |schedule|
    ensures var t := schedule[n];
      && t < NUM_THREADS == |next| && next[t] < count <= |input|
      && Progress(input, count, schedule, n + 1, next[t := next[t] + 1], bag + multiset{input[next[t]]})
  {
    hide Sum, ShareStart, Taken;
    var t := schedule[n];
    NextInShare(schedule, n);
    SharesTile(count, t);
    TakenStep(input, count, next, t);
  }

  lemma ProgressDone(input: seq<HTEntry>, count: nat, schedule: seq<nat>, next: seq<nat>, bag: multiset<HTEntry>)
    requires Progress(input, count, schedule, |schedule|, next, bag)
    ensures bag == multiset(input[..count])
  {
    assert schedule[..|schedule|] == schedule;
    forall t | 0 <= t < NUM_THREADS
      ensures next[t] == ShareStart(count, t + 1)
    {
      SharesTile(count, t);
    }
    TakenAll(input, count, next);
    SharesTile(count, 0);
  }

  lemma TakenStep(input: seq<HTEntry>, count: nat, next: seq<nat>, t: nat)
    requires count <= |input| && |next| <= NUM_THREADS && t < |next|
    requires forall u :: 0 <= u < |next| ==> ShareStart(count, u) <= next[u] <= |input|
    requires next[t] < |input|
    ensures Sum(Taken(input, count, next[t := next[t] + 1])) == Sum(Taken(input, count, next)) + multiset{input[next[t]]}
  {
    hide Sum, ShareStart;
    var a, b, e := ShareStart(count, t), next[t], input[next[t]];
    var taken, taken' := Taken(input, count, next), Taken(input, count, next[t := b + 1]);
    assert taken'[t] == taken[t] + multiset{e} by {
      assert input[a..b + 1] == input[a..b] + [e];
    }
    assert taken' == taken[t := taken'[t]];
    SumAdd(taken, t, multiset{e});
  }

  // Phase 1 under an arbitrary interleaving of the sixteen partition workers.
  method PartitionPhase(hash: Hash, input: seq<HTEntry>, count: nat, schedule: seq<nat>)
      returns (lists: seq<Partitions>, ghost heap: set<Chunk>, ghost held: seq<multiset<HTEntry>>)
    requires count <= |input|
    requires PartitionSchedule(schedule, count)
    ensures |lists| == LOCALS && fresh(lists) && fresh(heap)
    ensures Holding(hash, lists, heap, held, multiset(input[..count]))
  {
    hide Holding, Progress;
    NothingHeld(hash);
    lists, held := AddLists(hash, LOCALS, [], {}, [], multiset{});
    assert [] + lists == lists && [] + held == held;
    heap := {};
    var next: seq<nat> := seq(NUM_THREADS, t requires 0 <= t => ShareStart(count, t));
    ProgressStart(input, count, schedule, next);
    ghost var bag: multiset<HTEntry> := multiset{};
    for n := 0 to |schedule|
      invariant |next| == NUM_THREADS
      invariant fresh(lists) && fresh(heap) && |lists| == LOCALS
      invariant Progress(input, count, schedule, n, next, bag)
      invariant Holding(hash, lists, heap, held, bag)
    {
      var t := schedule[n];
      ProgressStep(input, count, schedule, n, next, bag);
      var e := input[next[t]];
      heap, held := PartitionStep(hash, e, lists, t, heap, held, bag);
      next, bag := next[t := next[t] + 1], bag + multiset{e};
    }
    ProgressDone(input, count, schedule, next, bag);
  }

  // merge_args[w].start when parts partitions are shared out among n threads
  function MergeStart(parts: nat, n: nat, w: nat): nat
    requires n > 0
  {
    if w < parts % n then w * (parts / n + 1) else w * (parts / n) + parts % n
  }

  // merge_args[w].end
  function MergeEnd(parts: nat, n: nat, w: nat): nat
    requires n > 0
  {
    hide MergeStart;
    MergeStart(parts, n, w) + (if w < parts % n then parts / n + 1 else parts / n)
  }

  // The merge workers' ranges tile the partitions too.
  lemma MergeRangesTile(parts: nat, n: nat, w: nat)
    requires n > 0
    ensures MergeStart(parts, n, 0) == 0 && MergeStart(parts, n, n) == parts
    ensures MergeEnd(parts, n, w) == MergeStart(parts, n, w + 1)
  {
    var base, rem := parts / n, parts % n;
    MulSucc(w, base);
    MulSucc(w, base + 1);
    if w + 1 == rem {
      assert (w + 1) * (base + 1) == (w + 1) * base + (w + 1);
    }
  }

  // Worker w splices NUM_THREADS lists for each partition in its range.
  ghost predicate MergeSchedule(schedule: seq<nat>) {
    && (forall i :: 0 <= i < |schedule| ==> schedule[i] < NUM_THREADS)
    && (forall w :: 0 <= w < NUM_THREADS ==> multiset(schedule)[w] == MergeTurns(w))
  }

  function MergeTurns(w: nat): nat {
    (MergeEnd(NUM_PARTITIONS, NUM_THREADS, w) - MergeStart(NUM_PARTITIONS, NUM_THREADS, w)) * 16
  }

  // Splice list j of a family behind list k.
  method AbsorbInto(lists: seq<Partitions>, k: nat, j: nat, ghost heap: set<Chunk>)
    requires k < |lists| && j < |lists| && j != k && Family(lists, heap)
    modifies lists[k], lists[k].chunks, lists[j], lists[j].chunks
    ensures Family(lists, heap)
    ensures lists[k].Contents() == old(lists[k].Contents()) + old(lists[j].Contents())
    ensures lists[j].Contents() == multiset{}
    ensures forall i :: 0 <= i < |lists| && i != k && i != j ==> lists[i].Contents() == old(lists[i].Contents())
  {
    ApartFrom(lists, k, heap);
    ApartFrom(lists, j, heap);
    assert forall i :: 0 <= i < |lists| ==> lists[i].Valid() && forall c :: c in lists[i].chunks ==> c in heap;
    hide Flatten;
    lists[k].Absorb(lists[j]);
    forall i | 0 <= i < |lists|
      ensures lists[i].Valid() && forall c :: c in lists[i].chunks ==> c in heap
    {
      if i != k && i != j {
        assert lists[i].chunks == old(lists[i].chunks);
        assert unchanged(lists[i].chunks);
        assert Linked(lists[i].chunks, lists[i].blocks, null);
      }
    }
  }

  // Bag j poured into bag k.
  ghost function Moved(held: seq<multiset<HTEntry>>, k: nat, j: nat): seq<multiset<HTEntry>>
    requires k < |held| && j < |held|
  {
    held[k := held[k] + held[j]][j := multiset{}]
  }

  lemma SortedMove(held: seq<multiset<HTEntry>>, hash: Hash, k: nat, j: nat)
    requires Sorted(held, hash) && k < |held| && j < |held| && k != j && k % 16 == j % 16
    ensures Sorted(Moved(held, k, j), hash)
  {
  }

  // One iteration of merge_worker: move thread j's list of a partition into the global list k.
  method MergeStep(hash: Hash, lists: seq<Partitions>, k: nat, j: nat,
                   ghost heap: set<Chunk>, ghost held: seq<multiset<HTEntry>>, ghost bag: multiset<HTEntry>)
      returns (ghost held': seq<multiset<HTEntry>>)
    requires k < |lists| && j < |lists| && k != j && k % 16 == j % 16
    requires Holding(hash, lists, heap, held, bag)
    modifies lists, heap
    ensures Holding(hash, lists, heap, held', bag)
    ensures |held'| == |held| == |lists| && held' == Moved(held, k, j)
  {
    hide Sum;
    held' := Moved(held, k, j);
    SortedMove(held, hash, k, j);
    SumMove(held, k, j);
    AbsorbInto(lists, k, j, heap);
  }

  // NUM_THREADS * NUM_PARTITIONS
  const LOCALS := 256

  // turns[w] iterations of worker w have emptied its partition's list in the first turns[w] threads.
  ghost predicate Merging(schedule: seq<nat>, n: nat, turns: seq<nat>, held: seq<multiset<HTEntry>>) {
    && n <= |schedule| && |turns| == NUM_THREADS && |held| == LOCALS + NUM_PARTITIONS
    && MergeSchedule(schedule)
    && (forall w :: 0 <= w < NUM_THREADS ==> turns[w] == multiset(schedule[..n])[w])
    && (forall l :: 0 <= l < LOCALS && l / 16 < turns[l % 16] ==> held[l] == multiset{})
  }

  lemma MergingStep(schedule: seq<nat>, n: nat, turns: seq<nat>, held: seq<multiset<HTEntry>>)
    requires Merging(schedule, n, turns, held) && n < |schedule|
    ensures var w := schedule[n];
      && w < NUM_THREADS == |turns| && turns[w] < NUM_THREADS
      && var k, j := LOCALS + w, turns[w] * 16 + w;
      && j < LOCALS && k < |held| && |held| == LOCALS + NUM_PARTITIONS
      && Merging(schedule, n + 1, turns[w := turns[w] + 1], Moved(held, k, j))
  {
    var w := schedule[n];
    NextInShare(schedule, n);
    assert MergeTurns(w) == NUM_THREADS;
    var k, j := LOCALS + w, turns[w] * 16 + w;
    var held' := Moved(held, k, j);
    var turns' := turns[w := turns[w] + 1];
    forall l | 0 <= l < LOCALS && l / 16 < turns'[l % 16]
      ensures held'[l] == multiset{}
    {
      if l % 16 == w && l / 16 == turns[w] {
        assert l == j;
      }
    }
  }

  // When every worker is done the thread-local lists are empty.
  lemma MergingDone(schedule: seq<nat>, turns: seq<nat>, held: seq<multiset<HTEntry>>)
    requires Merging(schedule, |schedule|, turns, held)
    ensures Sum(held[LOCALS..]) == Sum(held)
  {
    assert schedule[..|schedule|] == schedule;
    forall l | 0 <= l < LOCALS
      ensures held[l] == multiset{}
    {
      assert MergeTurns(l % 16) == NUM_THREADS;
    }
    SumEmpty(held[..LOCALS]);
    SumConcat(held[..LOCALS], held[LOCALS..]);
    assert held[..LOCALS] + held[LOCALS..] == held;
  }

  lemma FamilyTail(a: seq<Partitions>, b: seq<Partitions>, heap: set<Chunk>)
    requires Family(a + b, heap)
    ensures Family(b, heap)
  {
    var lists := a + b;
    assert forall i :: 0 <= i < |b| ==> b[i] == lists[|a| + i];
  }

  lemma SortedTail(held: seq<multiset<HTEntry>>, hash: Hash)
    requires |held| >= LOCALS && Sorted(held, hash)
    ensures Sorted(held[LOCALS..], hash)
  {
    forall i, e | 0 <= i < |held[LOCALS..]| && e in held[LOCALS..][i]
      ensures PartitionOf(hash, e.key) == i % 16
    {
      assert e in held[LOCALS + i];
    }
  }

  lemma HoldingTail(hash: Hash, a: seq<Partitions>, b: seq<Partitions>, heap: set<Chunk>, held: seq<multiset<HTEntry>>,
                    bag: multiset<HTEntry>)
    requires |a| == LOCALS && Holding(hash, a + b, heap, held, bag)
    requires Sum(held[LOCALS..]) == Sum(held)
    ensures Holding(hash, b, heap, held[LOCALS..], bag)
  {
    hide Sum, Family, Sorted;
    FamilyTail(a, b, heap);
    SortedTail(held, hash);
    assert forall i :: 0 <= i < |b| ==> b[i] == (a + b)[LOCALS + i];
  }

  // Turn m of merge worker w.
  method MergeTurn(hash: Hash, lists: seq<Partitions>, w: nat, m: nat,
                   ghost heap: set<Chunk>, ghost held: seq<multiset<HTEntry>>, ghost bag: multiset<HTEntry>)
      returns (ghost held': seq<multiset<HTEntry>>)
    requires |lists| == LOCALS + NUM_PARTITIONS == |held| && w < NUM_THREADS && m < NUM_THREADS
    requires Holding(hash, lists, heap, held, bag)
    modifies lists, heap
    ensures Holding(hash, lists, heap, held', bag)
    ensures var k, j := LOCALS + w, m * 16 + w;
      j < LOCALS && held' == Moved(held, k, j) && |held'| == |held|
  {
    hide Holding;
    var partition := MergeStart(NUM_PARTITIONS, NUM_THREADS, w) + m / 16;
    var thread := m % 16;
    held' := MergeStep(hash, lists, LOCALS + partition, thread * 16 + partition, heap, held, bag);
  }

  method MergeLoop(hash: Hash, lists: seq<Partitions>, schedule: seq<nat>,
                   ghost heap: set<Chunk>, ghost start: seq<multiset<HTEntry>>, ghost bag: multiset<HTEntry>)
      returns (ghost held: seq<multiset<HTEntry>>)
    requires |lists| == LOCALS + NUM_PARTITIONS == |start|
    requires Holding(hash, lists, heap, start, bag)
    requires MergeSchedule(schedule)
    modifies lists, heap
    ensures |held| == |lists| && Sum(held[LOCALS..]) == Sum(held)
    ensures Holding(hash, lists, heap, held, bag)
  {
    hide Holding, Merging, Sum, Moved;
    held := start;
    var turns: seq<nat> := seq(NUM_THREADS, _ => 0);
    MergingStart(schedule, turns, held);
    for n := 0 to |schedule|
      invariant |turns| == NUM_THREADS && |held| == |lists|
      invariant Merging(schedule, n, turns, held)
      invariant Holding(hash, lists, heap, held, bag)
    {
      var w := schedule[n];
      MergingStep(schedule, n, turns, held);
      held := MergeTurn(hash, lists, w, turns[w], heap, held, bag);
      turns := turns[w := turns[w] + 1];
    }
    MergingDone(schedule, turns, held);
  }

  lemma HeldLength(hash: Hash, lists: seq<Partitions>, heap: set<Chunk>, held: seq<multiset<HTEntry>>,
                   bag: multiset<HTEntry>)
    requires Holding(hash, lists, heap, held, bag)
    ensures |held| == |lists|
  {
  }

  // Phase 2 under an arbitrary interleaving of the sixteen merge workers.
  method MergePhase(hash: Hash, locals: seq<Partitions>, schedule: seq<nat>,
                    ghost heap: set<Chunk>, ghost localHeld: seq<multiset<HTEntry>>, ghost bag: multiset<HTEntry>)
      returns (globals: seq<Partitions>, ghost globalHeld: seq<multiset<HTEntry>>)
    requires |locals| == LOCALS && Holding(hash, locals, heap, localHeld, bag)
    requires MergeSchedule(schedule)
    modifies locals, heap
    ensures |globals| == NUM_PARTITIONS && fresh(globals)
    ensures Holding(hash, globals, heap, globalHeld, bag)
  {
    hide Holding, Sum;
    HeldLength(hash, locals, heap, localHeld, bag);
    globals, globalHeld := AddLists(hash, NUM_PARTITIONS, locals, heap, localHeld, bag);
    var lists := locals + globals;
    ghost var held := MergeLoop(hash, lists, schedule, heap, localHeld + globalHeld, bag);
    globalHeld := held[LOCALS..];
    HoldingTail(hash, locals, globals, heap, held, bag);
  }

  lemma MergingStart(schedule: seq<nat>, turns: seq<nat>, held: seq<multiset<HTEntry>>)
    requires MergeSchedule(schedule) && |turns| == NUM_THREADS && |held| == LOCALS + NUM_PARTITIONS
    requires forall w :: 0 <= w < NUM_THREADS ==> turns[w] == 0
    ensures Merging(schedule, 0, turns, held)
  {
  }

  // -------- schedules exist --------

  function Copies(t: nat, n: nat): (r: seq<nat>)
    ensures |r| == n && forall i :: 0 <= i < n ==> r[i] == t
  {
    seq(n, i => t)
  }

  // Worker after worker, each taking all its turns at once.
  function InTurn(turns: nat -> nat, workers: nat): seq<nat> {
    if workers == 0 then [] else InTurn(turns, workers - 1) + Copies(workers - 1, turns(workers - 1))
  }

  lemma {:induction false} CopiesCount(t: nat, n: nat, u: nat)
    ensures multiset(Copies(t, n))[u] == if u == t then n else 0
  {
    if n > 0 {
      CopiesCount(t, n - 1, u);
      assert Copies(t, n) == Copies(t, n - 1) + [t];
    }
  }

  lemma {:induction false} InTurnBelow(turns: nat -> nat, workers: nat, i: nat)
    requires i < |InTurn(turns, workers)|
    ensures InTurn(turns, workers)[i] < workers
  {
    if i < |InTurn(turns, workers - 1)| {
      InTurnBelow(turns, workers - 1, i);
    }
  }

  lemma {:induction false} InTurnCount(turns: nat -> nat, workers: nat, t: nat)
    ensures multiset(InTurn(turns, workers))[t] == if t < workers then turns(t) else 0
  {
    if workers > 0 {
      InTurnCount(turns, workers - 1, t);
      CopiesCount(workers - 1, turns(workers - 1), t);
      hide Copies;
    }
  }

  function Shares(count: nat): nat -> nat {
    (t: nat) => ShareSize(count, t)
  }

  function Merges(): nat -> nat {
    (w: nat) => if w < NUM_THREADS then MergeTurns(w) else 0
  }

  // The workers can always run to completion.
  lemma SchedulesExist(count: nat)
    ensures PartitionSchedule(InTurn(Shares(count), NUM_THREADS), count)
    ensures MergeSchedule(InTurn(Merges(), NUM_THREADS))
  {
    hide InTurn;
    forall t: nat | t < NUM_THREADS
      ensures multiset(InTurn(Shares(count), NUM_THREADS))[t] == ShareSize(count, t)
      ensures multiset(InTurn(Merges(), NUM_THREADS))[t] == MergeTurns(t)
    {
      InTurnCount(Shares(count), NUM_THREADS, t);
      InTurnCount(Merges(), NUM_THREADS, t);
    }
    forall i: nat | i < |InTurn(Shares(count), NUM_THREADS)|
      ensures InTurn(Shares(count), NUM_THREADS)[i] < NUM_THREADS
    {
      InTurnBelow(Shares(count), NUM_THREADS, i);
    }
    forall i: nat | i < |InTurn(Merges(), NUM_THREADS)|
      ensures InTurn(Merges(), NUM_THREADS)[i] < NUM_THREADS
    {
      InTurnBelow(Merges(), NUM_THREADS, i);
    }
  }
}
