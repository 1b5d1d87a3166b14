// The pure part of the unchained hash table: slot and partition numbers, Bloom masks and the
// packed directory words (src/Uhashtable.cpp).
module HashWords {
  import opened Bits
  import opened SeqFacts
  import opened ChunkLists

  // hashKey: any function from 32-bit keys to 64-bit words.
  type Hash = int32 -> uint64

  const DIRECTORY_SIZE := 0x1_0000
  const NUM_THREADS := 16
  const NUM_PARTITIONS := 16

  // The top 16 bits of the hash.
  function SlotOf(hash: Hash, key: int32): (s: nat)
    ensures s < DIRECTORY_SIZE
  {
    hash(key) / 0x1_0000_0000_0000
  }

  // The top 4 bits of the hash.
  function PartitionOf(hash: Hash, key: int32): (p: nat)
    ensures p < NUM_PARTITIONS
  {
    hash(key) / 0x1000_0000_0000_0000
  }

  function AtSlot(hash: Hash, s: nat): HTEntry -> bool {
    (e: HTEntry) => SlotOf(hash, e.key) == s
  }

  function BelowSlot(hash: Hash, s: nat): HTEntry -> bool {
    (e: HTEntry) => SlotOf(hash, e.key) < s
  }

  function HasKey(key: int32): HTEntry -> bool {
    (e: HTEntry) => e.key == key
  }

  function Position(): HTEntry -> nat {
    (e: HTEntry) => e.keyPos
  }

  // Four of the sixteen Bloom bits, one for each of the four low nibbles of the key.
  function BloomMask(key: int32): nat {
    BitOr(BitOr(BitOr(Pow2(key % 16), Pow2(key / 16 % 16)), Pow2(key / 256 % 16)), Pow2(key / 4096 % 16))
  }

  // makeDirectoryEntry: `(pointer << 16) | bloom` in 64 bits.
  function MakeDirectoryEntry(pointer: nat, bloom: nat): nat {
    BitOr(pointer * 0x1_0000 % 0x1_0000_0000_0000_0000, bloom)
  }

  function ExtractPointer(entry: nat): nat { entry / 0x1_0000 }

  function ExtractBloom(entry: nat): nat { entry % 0x1_0000 }

  lemma Pow2Sixteen()
    ensures Pow2(4) == 16 && Pow2(8) == 256 && Pow2(16) == 0x1_0000
  {
    assert Pow2(2) == 4;
    assert Pow2(6) == 64;
    assert Pow2(10) == 1024;
    assert Pow2(14) == 16384;
  }

  lemma {:induction false} Pow2Monotone(a: nat, b: nat)
    requires a <= b
    ensures Pow2(a) <= Pow2(b)
  {
    if a < b {
      Pow2Monotone(a, b - 1);
    }
  }

  lemma BloomMaskFits(key: int32)
    ensures BloomMask(key) < 0x1_0000
  {
    Pow2Sixteen();
    var a, b, c, d := Pow2(key % 16), Pow2(key / 16 % 16), Pow2(key / 256 % 16), Pow2(key / 4096 % 16);
    NibbleFits(key % 16);
    NibbleFits(key / 16 % 16);
    NibbleFits(key / 256 % 16);
    NibbleFits(key / 4096 % 16);
    OrLow(0, 16, a, b);
    OrLow(0, 16, BitOr(a, b), c);
    OrLow(0, 16, BitOr(BitOr(a, b), c), d);
  }

  lemma NibbleFits(n: nat)
    requires n < 16
    ensures Pow2(n) < Pow2(16)
  {
    Pow2Monotone(n, 15);
  }

  // A directory word keeps its 48-bit pointer and its 16-bit filter apart.
  lemma DirectoryEntryRoundTrip(pointer: nat, bloom: nat)
    requires pointer < 0x1_0000_0000_0000 && bloom < 0x1_0000
    ensures MakeDirectoryEntry(pointer, bloom) == pointer * 0x1_0000 + bloom
    ensures ExtractPointer(MakeDirectoryEntry(pointer, bloom)) == pointer
    ensures ExtractBloom(MakeDirectoryEntry(pointer, bloom)) == bloom
  {
    Pow2Sixteen();
    OrShifted(pointer, 16, bloom);
  }

  // `directory[slot] |= mask` adds Bloom bits and leaves the pointer alone.
  lemma OrIntoEntry(entry: nat, mask: nat)
    requires mask < 0x1_0000
    ensures ExtractPointer(BitOr(entry, mask)) == ExtractPointer(entry)
    ensures ExtractBloom(BitOr(entry, mask)) == BitOr(ExtractBloom(entry), mask)
  {
    Pow2Sixteen();
    var p, b := ExtractPointer(entry), ExtractBloom(entry);
    assert entry == p * 0x1_0000 + b;
    OrLow(p, 16, b, mask);
  }

  lemma {:induction false} BelowNext(hash: Hash, es: seq<HTEntry>, s: nat)
    ensures |Filter(es, BelowSlot(hash, s + 1))| == |Filter(es, BelowSlot(hash, s))| + |Filter(es, AtSlot(hash, s))|
    ensures multiset(Filter(es, BelowSlot(hash, s + 1)))
         == multiset(Filter(es, BelowSlot(hash, s))) + multiset(Filter(es, AtSlot(hash, s)))
  {
    if es == [] {
    } else {
      BelowNext(hash, es[..|es| - 1], s);
    }
  }

  lemma {:induction false} BelowMonotone(hash: Hash, es: seq<HTEntry>, s: nat, t: nat)
    requires s <= t
    ensures |Filter(es, BelowSlot(hash, s))| <= |Filter(es, BelowSlot(hash, t))|
    decreases t
  {
    if s < t {
      BelowMonotone(hash, es, s, t - 1);
      BelowNext(hash, es, t - 1);
    }
  }

  lemma BelowZero(hash: Hash, es: seq<HTEntry>)
    ensures Filter(es, BelowSlot(hash, 0)) == []
  {
    FilterNone(es, BelowSlot(hash, 0));
  }

  lemma BelowAll(hash: Hash, es: seq<HTEntry>)
    ensures Filter(es, BelowSlot(hash, DIRECTORY_SIZE)) == es
  {
    FilterAll(es, BelowSlot(hash, DIRECTORY_SIZE));
  }
}
