// The chunked linked lists a radix partition is collected in (include/Uhashtable.h).
module ChunkLists {
  import opened Bits
  import opened SeqFacts

  const ENTRIES_PER_CHUNK := 64 * 2048 / 8

  datatype HTEntry = HTEntry(key: int32, keyPos: nat)

  class Chunk {
    var data: seq<HTEntry>
    var next: Chunk?
    ghost var owner: Partitions?

    constructor ()
      ensures data == [] && next == null
    {
      data, next, owner := [], null, null;
    }

    predicate IsFull()
      reads this
    {
      |data| == ENTRIES_PER_CHUNK
    }

    method Insert(e: HTEntry)
      requires |data| < ENTRIES_PER_CHUNK
      modifies `data
      ensures data == old(data) + [e]
    {
      data := data + [e];
    }
  }

  ghost function First(chunks: seq<Chunk>, tail: Chunk?): Chunk? {
    if chunks == [] then tail else chunks[0]
  }

  // The chunks are chained in this order, the last one points to tail, and their contents are
  // the given blocks.
  ghost predicate Linked(chunks: seq<Chunk>, blocks: seq<seq<HTEntry>>, tail: Chunk?)
    reads chunks`data, chunks`next
  {
    && |blocks| == |chunks|
    && (forall i :: 0 <= i < |chunks| ==> chunks[i].data == blocks[i] && |blocks[i]| <= ENTRIES_PER_CHUNK)
    && (forall i {:trigger chunks[i].next} :: 0 <= i < |chunks| ==> chunks[i].next == First(chunks[i + 1..], tail))
  }

  lemma LinkedConcat(a: seq<Chunk>, x: seq<seq<HTEntry>>, b: seq<Chunk>, y: seq<seq<HTEntry>>, tail: Chunk?)
    requires Linked(a, x, First(b, tail)) && Linked(b, y, tail)
    ensures Linked(a + b, x + y, tail)
  {
    var c := a + b;
    forall i | 0 <= i < |c|
      ensures c[i].next == First(c[i + 1..], tail)
    {
      if i < |a| {
        assert a[i].next == First(a[i + 1..], First(b, tail));
        assert c[i + 1..] == a[i + 1..] + b;
      } else {
        assert b[i - |a|].next == First(b[i - |a| + 1..], tail);
        assert c[i + 1..] == b[i - |a| + 1..];
      }
    }
  }

  lemma LinkedAlone(c: Chunk, tail: Chunk?)
    requires c.data == [] && c.next == tail
    ensures Linked([c], [[]], tail)
  {
  }

  ghost predicate Distinct<T>(s: seq<T>) {
    forall i, j :: 0 <= i < j < |s| ==> s[i] != s[j]
  }

  lemma DistinctConcat<T>(s: seq<T>, t: seq<T>)
    requires Distinct(s) && Distinct(t)
    requires forall i :: 0 <= i < |t| ==> t[i] !in s
    ensures Distinct(s + t)
  {
  }

  lemma DistinctCons<T>(x: T, s: seq<T>)
    requires Distinct(s) && x !in s
    ensures Distinct([x] + s)
  {
  }

  class Partitions {
    var chunkList: Chunk?
    var totalCount: nat
    ghost var chunks: seq<Chunk>            // the nodes reachable from chunkList, in order
    ghost var blocks: seq<seq<HTEntry>>     // their contents

    ghost predicate Valid()
      reads this, chunks
    {
      && chunkList == First(chunks, null)
      && Linked(chunks, blocks, null)
      && (forall c :: c in chunks ==> c.owner == this)
      && Distinct(chunks)
      && totalCount == |Flatten(blocks)|
    }

    ghost function Contents(): multiset<HTEntry>
      reads this
    {
      multiset(Flatten(blocks))
    }

    constructor ()
      ensures Valid() && Contents() == multiset{} && chunks == []
    {
      chunkList, totalCount, chunks, blocks := null, 0, [], [];
    }

    // Put a fresh empty chunk in front of the list.
    method OpenChunk()
      requires Valid()
      modifies this
      ensures Valid()
      ensures |chunks| > 0 && fresh(chunks[0]) && chunks[1..] == old(chunks)
      ensures blocks == [[]] + old(blocks) && totalCount == old(totalCount)
    {
      hide Flatten;
      var head := new Chunk();
      head.next := chunkList;
      head.owner := this;
      chunkList := head;
      ghost var cs, bs := [head] + chunks, [[]] + blocks;
      assert Linked(cs, bs, null) by {
        LinkedAlone(head, First(chunks, null));
        LinkedConcat([head], [[]], chunks, blocks, null);
      }
      assert Distinct(cs) by { DistinctCons(head, chunks); }
      assert |Flatten(bs)| == totalCount by { FlattenCons([], blocks); }
      chunks, blocks := cs, bs;
    }

    method InsertInHead(e: HTEntry)
      requires Valid() && chunks != [] && |blocks[0]| < ENTRIES_PER_CHUNK
      modifies this, chunks[0]
      ensures Valid() && chunks == old(chunks)
      ensures blocks == old(blocks)[0 := old(blocks)[0] + [e]]
      ensures multiset(Flatten(blocks)) == multiset(Flatten(old(blocks))) + multiset{e}
      ensures totalCount == old(totalCount) + 1
    {
      chunkList.Insert(e);
      PushedBlocks(blocks, e);
      blocks := blocks[0 := blocks[0] + [e]];
      totalCount := totalCount + 1;
    }

    // One iteration of partition_worker: append to the head chunk, opening a new head when
    // there is none or it is full.
    method Push(e: HTEntry)
      requires Valid()
      modifies this, chunks
      ensures Valid()
      ensures Contents() == old(Contents()) + multiset{e}
      ensures totalCount == old(totalCount) + 1
      ensures forall c :: c in chunks ==> c in old(chunks) || fresh(c)
    {
      if chunkList == null {
        OpenChunk();
      }
      ghost var mid := blocks;
      assert multiset(Flatten(mid)) == old(Contents()) by { FlattenCons([], old(blocks)); }
      if chunkList.IsFull() {
        OpenChunk();
        FlattenCons([], mid);
      }
      assert multiset(Flatten(blocks)) == old(Contents());
      InsertInHead(e);
    }

    // Walk to the end of the list and point its last chunk at tail.
    method SetTail(tail: Chunk?)
      requires Valid() && chunks != []
      modifies chunks`next
      ensures Linked(chunks, blocks, tail)
    {
      var last := chunkList;
      ghost var k := 0;
      while last.next != null
        invariant 0 <= k < |chunks| && last == chunks[k]
        decreases |chunks| - k
      {
        assert chunks[k].next == First(chunks[k + 1..], null);
        last := last.next;
        k := k + 1;
      }
      assert chunks[k].next == First(chunks[k + 1..], null);
      last.next := tail;
    }

    // Hang the chain of another list behind this one.
    method Splice(other: Partitions)
      requires Valid() && other.Valid() && this != other && other.chunks != []
      modifies `chunkList, chunks`next
      ensures chunkList == First(chunks + other.chunks, null)
      ensures Linked(chunks + other.chunks, blocks + other.blocks, null)
      ensures Distinct(chunks + other.chunks) && other.Valid()
    {
      assert forall i :: 0 <= i < |other.chunks| ==> other.chunks[i] !in chunks;
      DistinctConcat(chunks, other.chunks);
      if chunkList == null {
        chunkList := other.chunkList;
      } else {
        SetTail(other.chunkList);
      }
      assert Linked(other.chunks, other.blocks, null);
      LinkedConcat(chunks, blocks, other.chunks, other.blocks, null);
    }

    // After the splice: hand the other list's chunks and count over, and empty it.
    method TakeOver(other: Partitions)
      requires this != other && other.Valid()
      requires forall c :: c in chunks ==> c.owner == this
      requires Linked(chunks + other.chunks, blocks + other.blocks, null)
      requires Distinct(chunks + other.chunks)
      requires chunkList == First(chunks + other.chunks, null) && totalCount == |Flatten(blocks)|
      modifies this, other, other.chunks`owner
      ensures Valid() && other.Valid()
      ensures chunks == old(chunks) + old(other.chunks) && other.chunks == []
      ensures blocks == old(blocks) + old(other.blocks)
      ensures totalCount == old(totalCount) + old(other.totalCount)
    {
      ghost var cs, bs := chunks + other.chunks, blocks + other.blocks;
      assert |Flatten(bs)| == totalCount + other.totalCount by { FlattenConcat(blocks, other.blocks); }
      forall c | c in other.chunks {
        c.owner := this;
      }
      assert Linked(cs, bs, null);
      assert forall c :: c in cs ==> c.owner == this;
      totalCount := totalCount + other.totalCount;
      chunks, blocks := cs, bs;
      other.chunkList, other.totalCount := null, 0;
      other.chunks, other.blocks := [], [];
    }

    // One iteration of merge_worker: splice the other list behind the last chunk of this one
    // and leave the other one empty.
    method Absorb(other: Partitions)
      requires Valid() && other.Valid() && this != other
      modifies this, chunks, other, other.chunks
      ensures Valid() && other.Valid()
      ensures chunks == old(chunks) + old(other.chunks) && other.chunks == []
      ensures blocks == old(blocks) + old(other.blocks)
      ensures totalCount == old(totalCount) + old(other.totalCount)
      ensures Contents() == old(Contents()) + old(other.Contents())
      ensures other.Contents() == multiset{}
    {
      FlattenConcat(blocks, other.blocks);
      if other.chunkList != null {
        Splice(other);
        TakeOver(other);
      } else {
        assert chunks + other.chunks == chunks && blocks + other.blocks == blocks;
      }
    }
  }

  lemma PushedBlocks(blocks: seq<seq<HTEntry>>, e: HTEntry)
    requires blocks != []
    ensures var pushed := blocks[0 := blocks[0] + [e]];
      && multiset(Flatten(pushed)) == multiset(Flatten(blocks)) + multiset{e}
      && |Flatten(pushed)| == |Flatten(blocks)| + 1
  {
    var pushed := blocks[0 := blocks[0] + [e]];
    assert blocks == [blocks[0]] + blocks[1..] && pushed == [blocks[0] + [e]] + blocks[1..];
    FlattenCons(blocks[0], blocks[1..]);
    FlattenCons(blocks[0] + [e], blocks[1..]);
  }

  // A set of lists with no chunk in common: a chunk names the one list that owns it.
  ghost predicate Family(ps: seq<Partitions>, heap: set<Chunk>)
    reads ps, heap
  {
    && (forall i :: 0 <= i < |ps| ==> (forall c :: c in ps[i].chunks ==> c in heap) && ps[i].Valid())
    && Distinct(ps)
  }

  lemma FamilyIsDisjoint(ps: seq<Partitions>, heap: set<Chunk>, i: nat, j: nat, c: Chunk)
    requires Family(ps, heap) && i < |ps| && j < |ps| && i != j
    requires c in ps[i].chunks
    ensures c !in ps[j].chunks
  {
  }
}
