// Bitmaps of bytes, one bit per row, and rows stored as a bitmap plus the non-null payloads.
module NullBitmap {
  import opened Options

  type Bitmap = seq<bv8>

  // 0x1 << k
  function OneBit(k: nat): bv8
    requires k < 8
  {
    match k
    case 0 => 1
    case 1 => 2
    case 2 => 4
    case 3 => 8
    case 4 => 16
    case 5 => 32
    case 6 => 64
    case _ => 128
  }

  predicate HasBit(b: bv8, k: nat)
    requires k < 8
  {
    b & OneBit(k) != 0
  }

  function WithBit(b: bv8, k: nat): bv8
    requires k < 8
  {
    b | OneBit(k)
  }

  function WithoutBit(b: bv8, k: nat): bv8
    requires k < 8
  {
    b & !OneBit(k)
  }

  lemma ByteBits(b: bv8, k: nat, j: nat)
    requires k < 8 && j < 8
    ensures HasBit(WithBit(b, k), j) <==> j == k || HasBit(b, j)
    ensures HasBit(WithoutBit(b, k), j) <==> j != k && HasBit(b, j)
  {
  }

  predicate Bit(bm: Bitmap, i: nat)
    requires i / 8 < |bm|
  {
    HasBit(bm[i / 8], i % 8)
  }

  // bitmap[i / 8] |= 0x1 << (i % 8)
  function SetBit(bm: Bitmap, i: nat): Bitmap
    requires i / 8 < |bm|
  {
    bm[i / 8 := WithBit(bm[i / 8], i % 8)]
  }

  // bitmap[i / 8] &= ~(0x1 << (i % 8))
  function ClearBit(bm: Bitmap, i: nat): Bitmap
    requires i / 8 < |bm|
  {
    bm[i / 8 := WithoutBit(bm[i / 8], i % 8)]
  }

  lemma BitUpdate(bm: Bitmap, i: nat, j: nat)
    requires i / 8 < |bm| && j / 8 < |bm|
    ensures Bit(SetBit(bm, i), j) <==> j == i || Bit(bm, j)
    ensures Bit(ClearBit(bm, i), j) <==> j != i && Bit(bm, j)
  {
    hide HasBit, WithBit, WithoutBit;
    if i / 8 == j / 8 {
      ByteBits(bm[i / 8], i % 8, j % 8);
    }
  }

  // Bytes that n bits take: (n + 7) / 8
  function BytesFor(n: nat): nat { (n + 7) / 8 }

  // The number of set bits among the first n.
  function Rank(bm: Bitmap, n: nat): (r: nat)
    requires BytesFor(n) <= |bm|
    ensures r <= n
  {
    if n == 0 then 0 else Rank(bm, n - 1) + (if Bit(bm, n - 1) then 1 else 0)
  }

  // Row i is null if its bit is clear, else the payload whose index is the number of set bits before.
  function Rows<T>(bm: Bitmap, n: nat, payloads: seq<T>): (rows: seq<Option<T>>)
    requires BytesFor(n) <= |bm| && Rank(bm, n) <= |payloads|
    ensures |rows| == n
  {
    if n == 0 then []
    else Rows(bm, n - 1, payloads) + [if Bit(bm, n - 1) then Some(payloads[Rank(bm, n - 1)]) else None]
  }

  lemma NoRows<T>(bm: Bitmap)
    ensures Rank(bm, 0) == 0 && Rows<T>(bm, 0, []) == []
  {
  }

  // Only the first n bits and the first Rank payloads matter.
  lemma {:induction false} RowsDependOn<T>(a: Bitmap, b: Bitmap, n: nat, p: seq<T>, q: seq<T>)
    requires BytesFor(n) <= |a| && BytesFor(n) <= |b|
    requires forall i :: 0 <= i < n ==> (Bit(a, i) <==> Bit(b, i))
    ensures Rank(a, n) == Rank(b, n)
    ensures Rank(a, n) <= |p| && Rank(a, n) <= |q| && (forall d :: 0 <= d < Rank(a, n) ==> p[d] == q[d]) ==>
              Rows(a, n, p) == Rows(b, n, q)
  {
    if n > 0 {
      assert BytesFor(n - 1) <= BytesFor(n);
      RowsDependOn(a, b, n - 1, p, q);
    }
  }

  // Appending a row.
  lemma AppendRow<T>(bm: Bitmap, n: nat, payloads: seq<T>, bm': Bitmap, row: Option<T>)
    requires BytesFor(n) <= |bm| && BytesFor(n + 1) <= |bm'| && Rank(bm, n) == |payloads|
    requires forall i :: 0 <= i < n ==> (Bit(bm', i) <==> Bit(bm, i))
    requires Bit(bm', n) <==> row.Some?
    ensures var payloads' := payloads + (if row.Some? then [row.value] else []);
      Rank(bm', n + 1) == |payloads'| && Rows(bm', n + 1, payloads') == Rows(bm, n, payloads) + [row]
  {
    var payloads' := payloads + (if row.Some? then [row.value] else []);
    RowsDependOn(bm, bm', n, payloads, payloads');
  }

  // Appending through the bitmap operations, on a bitmap with room for one more row.
  lemma SetRow<T>(bm: Bitmap, n: nat, payloads: seq<T>, x: T)
    requires BytesFor(n + 1) <= |bm| && Rank(bm, n) == |payloads|
    ensures Rank(SetBit(bm, n), n + 1) == |payloads + [x]|
    ensures Rows(SetBit(bm, n), n + 1, payloads + [x]) == Rows(bm, n, payloads) + [Some(x)]
  {
    forall i | 0 <= i <= n
      ensures Bit(SetBit(bm, n), i) <==> i == n || Bit(bm, i)
    {
      BitUpdate(bm, n, i);
    }
    AppendRow(bm, n, payloads, SetBit(bm, n), Some(x));
  }

  lemma ClearRow<T>(bm: Bitmap, n: nat, payloads: seq<T>)
    requires BytesFor(n + 1) <= |bm| && Rank(bm, n) == |payloads|
    ensures Rank(ClearBit(bm, n), n + 1) == |payloads|
    ensures Rows(ClearBit(bm, n), n + 1, payloads) == Rows(bm, n, payloads) + [None]
  {
    forall i | 0 <= i <= n
      ensures Bit(ClearBit(bm, n), i) <==> i != n && Bit(bm, i)
    {
      BitUpdate(bm, n, i);
    }
    AppendRow(bm, n, payloads, ClearBit(bm, n), None);
    assert payloads + [] == payloads;
  }

  lemma {:induction false} RowsFrom<T>(bm: Bitmap, n: nat, xs: seq<T>, i: nat)
    requires BytesFor(n) <= |bm| && Rank(bm, n) <= |xs| && i < n
    ensures Rows(bm, n, xs)[i].Some? ==> Rows(bm, n, xs)[i].value in xs
    decreases n
  {
    assert BytesFor(n - 1) <= BytesFor(n);
    if i < n - 1 {
      RowsFrom(bm, n - 1, xs, i);
    }
  }
}
