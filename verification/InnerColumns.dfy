// Columns of a loaded table (include/inner_column.h) and their comparison kernels, which set one bit
// of the result for every row that is not null and compares as asked.
module InnerColumns {
  import opened Bits
  import opened Options
  import opened NullBitmap
  import opened PageBytes

  datatype Op = EQ | NEQ | LT | GT | LEQ | GEQ | LIKE | NOT_LIKE | IS_NULL | IS_NOT_NULL

  // std::string's operator<: lexicographic on unsigned bytes
  predicate Less(a: Bytes, b: Bytes) {
    if b == [] then false
    else if a == [] then true
    else if a[0] == b[0] then Less(a[1..], b[1..])
    else a[0] < b[0]
  }

  predicate CompareInt(op: Op, x: int, y: int) {
    match op
    case EQ => x == y
    case NEQ => x != y
    case LT => x < y
    case GT => x > y
    case LEQ => x <= y
    case GEQ => x >= y
    case _ => false
  }

  // like is RE2 matching, of which nothing is assumed.
  predicate CompareString(like: (Bytes, Bytes) -> bool, op: Op, x: Bytes, y: Bytes) {
    match op
    case EQ => x == y
    case NEQ => x != y
    case LT => Less(x, y)
    case GT => Less(y, x)
    case LEQ => !Less(y, x)
    case GEQ => !Less(x, y)
    case LIKE => like(x, y)
    case NOT_LIKE => !like(x, y)
    case _ => false
  }

  // -------- bits of results --------

  // Byte b of a result is right: bit k is set iff row 8 * b + k is a hit.
  ghost predicate ByteIs(x: bv8, hits: seq<bool>, b: nat) {
    forall k :: 0 <= k < 8 ==> (HasBit(x, k) <==> 8 * b + k < |hits| && hits[8 * b + k])
  }

  ghost predicate ResultIs(result: Bitmap, hits: seq<bool>) {
    |result| == BytesFor(|hits|) && forall b :: 0 <= b < |result| ==> ByteIs(result[b], hits, b)
  }

  lemma ResultBit(result: Bitmap, hits: seq<bool>, i: nat)
    requires ResultIs(result, hits) && i < |hits|
    ensures i / 8 < |result| && (Bit(result, i) <==> hits[i])
  {
    assert ByteIs(result[i / 8], hits, i / 8);
    assert 8 * (i / 8) + i % 8 == i;
  }

  // bitmap[byte] & (0x1 << k) & (hit << k)
  function Masked(x: bv8, k: nat, hit: bool): bv8
    requires k < 8
  {
    x & OneBit(k) & (if hit then OneBit(k) else 0)
  }

  lemma OrMasked(out: bv8, x: bv8, k: nat, hit: bool, j: nat)
    requires k < 8 && j < 8
    ensures HasBit(out | Masked(x, k, hit), j) <==> HasBit(out, j) || (j == k && hit && HasBit(x, k))
  {
    if hit {
      OrSame(out, x, k, j);
    } else {
      assert Masked(x, k, hit) == 0;
      assert out | 0 == out;
    }
  }

  lemma OrSame(out: bv8, x: bv8, k: nat, j: nat)
    requires k < 8 && j < 8
    ensures HasBit(out | (x & OneBit(k) & OneBit(k)), j) <==> HasBit(out, j) || (j == k && HasBit(x, k))
  {
  }

  // The first n bits of byte b are right, the others clear.
  ghost predicate ByteUpTo(x: bv8, hits: seq<bool>, b: nat, n: nat) {
    forall k :: 0 <= k < 8 ==> (HasBit(x, k) <==> k < n && 8 * b + k < |hits| && hits[8 * b + k])
  }

  lemma ByteStart(hits: seq<bool>, b: nat)
    ensures ByteUpTo(0, hits, b, 0)
  {
  }

  lemma ByteNext(x: bv8, bits: bv8, hits: seq<bool>, b: nat, k: nat, cmp: bool)
    requires k < 8 && ByteUpTo(x, hits, b, k) && 8 * b + k < |hits| && hits[8 * b + k] == (cmp && HasBit(bits, k))
    ensures ByteUpTo(x | Masked(bits, k, cmp), hits, b, k + 1)
  {
    hide HasBit, Masked;
    var y := x | Masked(bits, k, cmp);
    forall j | 0 <= j < 8
      ensures HasBit(y, j) <==> j < k + 1 && 8 * b + j < |hits| && hits[8 * b + j]
    {
      OrMasked(x, bits, k, cmp, j);
    }
  }

  // A byte is complete after eight bits or at the end of the rows.
  lemma ByteDone(x: bv8, hits: seq<bool>, b: nat, n: nat)
    requires ByteUpTo(x, hits, b, n) && (n >= 8 || 8 * b + n >= |hits|)
    ensures ByteIs(x, hits, b)
  {
    hide HasBit;
  }

  // -------- InnerColumn<int32_t> --------

  class IntColumn {
    var data: seq<int32>
    var bitmap: Bitmap

    ghost predicate Valid()
      reads this
    {
      |bitmap| == BytesFor(|data|)
    }

    function Values(): (r: seq<Option<int32>>)
      reads this
      requires Valid()
      ensures |r| == |data|
    {
      seq(|data|, i requires 0 <= i < |data| reads this requires Valid() => if Bit(bitmap, i) then Some(data[i]) else None)
    }

    constructor ()
      ensures Valid() && Values() == []
    {
      data, bitmap := [], [];
    }

    // bitmap_push_back(not_null), called when data has grown
    method BitmapPushBack(notNull: bool)
      requires data != [] && |bitmap| == BytesFor(|data| - 1)
      modifies `bitmap
      ensures Valid() && (Bit(bitmap, |data| - 1) <==> notNull)
      ensures forall i :: 0 <= i < |data| - 1 ==> (Bit(bitmap, i) <==> Bit(old(bitmap), i))
    {
      var idx := |data| - 1;
      if (|data| + 7) / 8 > |bitmap| {
        FreshByte();
        bitmap := bitmap + [if notNull then 1 else 0];
      } else {
        forall i | 0 <= i <= idx {
          BitUpdate(bitmap, idx, i);
        }
        bitmap := if notNull then SetBit(bitmap, idx) else ClearBit(bitmap, idx);
      }
    }

    method PushBack(value: int32)
      requires Valid()
      modifies this
      ensures Valid() && Values() == old(Values()) + [Some(value)]
    {
      data := data + [value];
      BitmapPushBack(true);
    }

    method PushBackNull()
      requires Valid()
      modifies this
      ensures Valid() && Values() == old(Values()) + [None]
    {
      data := data + [0];
      BitmapPushBack(false);
    }

    // Which rows compare as asked.
    ghost function Hits(op: Op, rhs: int): (r: seq<bool>)
      reads this
      requires Valid()
      ensures |r| == |data|
      ensures forall i :: 0 <= i < |data| ==> r[i] == (Bit(bitmap, i) && CompareInt(op, data[i], rhs))
    {
      seq(|data|, i requires 0 <= i < |data| reads this requires Valid() => Bit(bitmap, i) && CompareInt(op, data[i], rhs))
    }

    // less, greater, ... on the bytes [byteBegin, byteEnd), which start out clear
    method Kernel(op: Op, rhs: int, output: array<bv8>, byteBegin: nat, byteEnd: nat)
      requires Valid() && byteBegin <= byteEnd <= |bitmap| == output.Length
      requires forall b :: byteBegin <= b < byteEnd ==> output[b] == 0
      modifies output
      ensures forall b :: byteBegin <= b < byteEnd ==> ByteIs(output[b], Hits(op, rhs), b)
      ensures forall b :: 0 <= b < output.Length && !(byteBegin <= b < byteEnd) ==> output[b] == old(output[b])
    {
      hide ByteIs, ByteUpTo, Masked, CompareInt, HasBit, Hits, OneBit;
      ghost var hits := Hits(op, rhs);
      var size: int := (if byteEnd * 8 <= |data| then byteEnd * 8 else |data|) - byteBegin * 8;
      var i := 0;
      ghost var q, k := byteBegin, 0;
      if byteBegin < byteEnd {
        ByteStart(hits, byteBegin);
      }
      while i < size
        invariant i == 8 * (q - byteBegin) + k && 0 <= k < 8 && byteBegin <= q <= byteEnd && (q == byteEnd ==> k == 0)
        invariant byteBegin < byteEnd ==> i <= size
        invariant forall b :: byteBegin <= b < q ==> ByteIs(output[b], hits, b)
        invariant q < byteEnd ==> ByteUpTo(output[q], hits, q, k)
        invariant forall b :: q < b < byteEnd ==> output[b] == 0
        invariant forall b :: 0 <= b < output.Length && !(byteBegin <= b < byteEnd) ==> output[b] == old(output[b])
      {
        var byteIdx, bitIdx := byteBegin + i / 8, i % 8;
        assert byteIdx == q && bitIdx == k;
        var cmp := CompareInt(op, data[byteBegin * 8 + i], rhs);
        assert hits[8 * q + k] == (HasBit(bitmap[q], k) && cmp) by {
          assert (8 * q + k) / 8 == q && (8 * q + k) % 8 == k;
        }
        ByteNext(output[byteIdx], bitmap[byteIdx], hits, byteIdx, bitIdx, cmp);
        output[byteIdx] := output[byteIdx] | Masked(bitmap[byteIdx], bitIdx, cmp);
        i := i + 1;
        k := k + 1;
        if k == 8 {
          ByteDone(output[byteIdx], hits, byteIdx, 8);
          q, k := q + 1, 0;
          ByteStart(hits, q);
        }
      }
      if q < byteEnd {
        ByteDone(output[q], hits, q, k);
      }
    }
  }

  lemma FreshByte()
    ensures HasBit(1, 0) && !HasBit(0, 0)
  {
  }

  // -------- InnerColumn<std::string> --------

  class StringColumn {
    var data: Bytes
    var offsets: seq<nat>
    var bitmap: Bitmap
    var row: nat

    ghost predicate Valid()
      reads this
    {
      && |offsets| == row && |bitmap| == BytesFor(row)
      && (forall i, j :: 0 <= i <= j < row ==> offsets[i] <= offsets[j])
      && |data| == (if row == 0 then 0 else offsets[row - 1])
    }

    // get(idx)
    function Get(idx: nat): Bytes
      requires Valid() && idx < row
      reads this
    {
      data[(if idx == 0 then 0 else offsets[idx - 1])..offsets[idx]]
    }

    function Values(): (r: seq<Option<Bytes>>)
      reads this
      requires Valid()
      ensures |r| == row
    {
      seq(row, i requires 0 <= i < row reads this requires Valid() => if Bit(bitmap, i) then Some(Get(i)) else None)
    }

    constructor ()
      ensures Valid() && Values() == []
    {
      data, offsets, bitmap, row := [], [], [], 0;
    }

    // bitmap_push_back(not_null)
    method BitmapPushBack(notNull: bool)
      requires |bitmap| == BytesFor(row)
      modifies `bitmap, `row
      ensures row == old(row) + 1 && |bitmap| == BytesFor(row) && (Bit(bitmap, row - 1) <==> notNull)
      ensures forall i :: 0 <= i < row - 1 ==> (Bit(bitmap, i) <==> Bit(old(bitmap), i))
    {
      if row / 8 + 1 > |bitmap| {
        FreshByte();
        bitmap := bitmap + [if notNull then 1 else 0];
      } else {
        forall i | 0 <= i <= row {
          BitUpdate(bitmap, row, i);
        }
        bitmap := if notNull then SetBit(bitmap, row) else ClearBit(bitmap, row);
      }
      row := row + 1;
    }

    method PushBack(value: Bytes)
      requires Valid()
      modifies this
      ensures Valid() && Values() == old(Values()) + [Some(value)]
    {
      hide Bit;
      data := data + value;
      offsets := offsets + [|data|];
      BitmapPushBack(true);
      assert Get(row - 1) == value;
      forall i | 0 <= i < row - 1
        ensures Get(i) == old(Get(i))
      {
        assert offsets[i] <= offsets[row - 2] == |old(data)|;
      }
    }

    method PushBackNull()
      requires Valid()
      modifies this
      ensures Valid() && Values() == old(Values()) + [None]
    {
      hide Bit;
      offsets := offsets + [|data|];
      BitmapPushBack(false);
      forall i | 0 <= i < row - 1
        ensures Get(i) == old(Get(i))
      {
        assert offsets[i] == old(offsets)[i];
      }
    }

    ghost function Hits(like: (Bytes, Bytes) -> bool, op: Op, rhs: Bytes): (r: seq<bool>)
      reads this
      requires Valid()
      ensures |r| == row
      ensures forall i :: 0 <= i < row ==> r[i] == (Bit(bitmap, i) && CompareString(like, op, Get(i), rhs))
    {
      seq(row, i requires 0 <= i < row reads this requires Valid() => Bit(bitmap, i) && CompareString(like, op, Get(i), rhs))
    }

    // less, greater, ..., like, not_like on the bytes [byteBegin, byteEnd), which start out clear
    method Kernel(like: (Bytes, Bytes) -> bool, op: Op, rhs: Bytes, output: array<bv8>, byteBegin: nat, byteEnd: nat)
      requires Valid() && byteBegin <= byteEnd <= |bitmap| == output.Length
      requires forall b :: byteBegin <= b < byteEnd ==> output[b] == 0
      modifies output
      ensures forall b :: byteBegin <= b < byteEnd ==> ByteIs(output[b], Hits(like, op, rhs), b)
      ensures forall b :: 0 <= b < output.Length && !(byteBegin <= b < byteEnd) ==> output[b] == old(output[b])
    {
      hide ByteIs, ByteUpTo, CompareString, HasBit, Hits, OneBit;
      ghost var hits := Hits(like, op, rhs);
      for byteIdx := byteBegin to byteEnd
        invariant forall b :: byteBegin <= b < byteIdx ==> ByteIs(output[b], hits, b)
        invariant forall b :: byteIdx <= b < byteEnd ==> output[b] == 0
        invariant forall b :: 0 <= b < output.Length && !(byteBegin <= b < byteEnd) ==> output[b] == old(output[b])
      {
        ByteStart(hits, byteIdx);
        var bitIdx := 0;
        while bitIdx < 8 && byteIdx * 8 + bitIdx < row
          invariant 0 <= bitIdx <= 8 && ByteUpTo(output[byteIdx], hits, byteIdx, bitIdx)
          invariant forall b :: byteBegin <= b < byteIdx ==> ByteIs(output[b], hits, b)
          invariant forall b :: byteIdx < b < byteEnd ==> output[b] == 0
          invariant forall b :: 0 <= b < output.Length && !(byteBegin <= b < byteEnd) ==> output[b] == old(output[b])
        {
          var i := byteIdx * 8 + bitIdx;
          assert i / 8 == byteIdx && i % 8 == bitIdx;
          var nonNull := HasBit(bitmap[byteIdx], bitIdx);
          var hit := nonNull && CompareString(like, op, Get(i), rhs);
          ByteSet(output[byteIdx], hits, byteIdx, bitIdx, hit);
          output[byteIdx] := output[byteIdx] | (if hit then OneBit(bitIdx) else 0);
          bitIdx := bitIdx + 1;
        }
        ByteDone(output[byteIdx], hits, byteIdx, bitIdx);
      }
    }
  }

  lemma ByteSet(x: bv8, hits: seq<bool>, b: nat, k: nat, hit: bool)
    requires k < 8 && ByteUpTo(x, hits, b, k) && 8 * b + k < |hits| && hits[8 * b + k] == hit
    ensures ByteUpTo(x | (if hit then OneBit(k) else 0), hits, b, k + 1)
  {
    hide HasBit;
    var y := x | (if hit then OneBit(k) else 0);
    forall j | 0 <= j < 8
      ensures HasBit(y, j) <==> j < k + 1 && 8 * b + j < |hits| && hits[8 * b + j]
    {
      if hit {
        ByteBits(x, k, j);
        assert y == WithBit(x, k);
      } else {
        assert y == x;
      }
    }
  }
}
