// Pages of 8192 bytes: little-endian numbers in them and copies into them (include/plan.h).
module PageBytes {
  import opened Bits

  const PAGE_SIZE := 8192

  type Bytes = seq<bv8>

  // Bytes are bit vectors; ByteOf and NatOf convert through the eight binary digits.
  function ByteOf(n: nat): bv8
    requires n < 256
  {
    FromDigits(n % 2 == 1, n / 2 % 2 == 1, n / 4 % 2 == 1, n / 8 % 2 == 1,
               n / 16 % 2 == 1, n / 32 % 2 == 1, n / 64 % 2 == 1, n / 128 % 2 == 1)
  }

  function FromDigits(a: bool, b: bool, c: bool, d: bool, e: bool, f: bool, g: bool, h: bool): bv8 {
    (if a then 1 else 0) | (if b then 2 else 0) | (if c then 4 else 0) | (if d then 8 else 0)
    | (if e then 16 else 0) | (if f then 32 else 0) | (if g then 64 else 0) | (if h then 128 else 0)
  }

  function NatOf(b: bv8): (n: nat)
    ensures n < 256
  {
    (if b & 1 != 0 then 1 else 0) + (if b & 2 != 0 then 2 else 0) + (if b & 4 != 0 then 4 else 0)
    + (if b & 8 != 0 then 8 else 0) + (if b & 16 != 0 then 16 else 0) + (if b & 32 != 0 then 32 else 0)
    + (if b & 64 != 0 then 64 else 0) + (if b & 128 != 0 then 128 else 0)
  }

  lemma DigitsKept(a: bool, b: bool, c: bool, d: bool, e: bool, f: bool, g: bool, h: bool)
    ensures NatOf(FromDigits(a, b, c, d, e, f, g, h))
         == (if a then 1 else 0) + (if b then 2 else 0) + (if c then 4 else 0) + (if d then 8 else 0)
            + (if e then 16 else 0) + (if f then 32 else 0) + (if g then 64 else 0) + (if h then 128 else 0)
  {
  }

  lemma Halve(n: nat, k: nat)
    requires k == 1 || k == 2 || k == 4 || k == 8 || k == 16 || k == 32 || k == 64
    ensures n / k == 2 * (n / (2 * k)) + n / k % 2
  {
  }

  lemma BinaryRoundTrip(a: nat, b: nat, c: nat, d: nat, e: nat, f: nat, g: nat, h: nat)
    requires a < 2 && b < 2 && c < 2 && d < 2 && e < 2 && f < 2 && g < 2 && h < 2
    ensures NatOf(FromDigits(a == 1, b == 1, c == 1, d == 1, e == 1, f == 1, g == 1, h == 1))
         == a + 2 * b + 4 * c + 8 * d + 16 * e + 32 * f + 64 * g + 128 * h
  {
    hide FromDigits, NatOf;
    DigitsKept(a == 1, b == 1, c == 1, d == 1, e == 1, f == 1, g == 1, h == 1);
  }

  lemma ByteRoundTrip(n: nat)
    requires n < 256
    ensures NatOf(ByteOf(n)) == n
  {
    hide FromDigits, NatOf;
    BinaryRoundTrip(n % 2, n / 2 % 2, n / 4 % 2, n / 8 % 2, n / 16 % 2, n / 32 % 2, n / 64 % 2, n / 128 % 2);
    ByteDigits(n);
  }

  lemma FourDigits(n: nat)
    ensures n % 16 == n % 2 + 2 * (n / 2 % 2) + 4 * (n / 4 % 2) + 8 * (n / 8 % 2) && n == 16 * (n / 16) + n % 16
  {
    Halve(n, 1);
    Halve(n, 2);
    Halve(n, 4);
    Halve(n, 8);
  }

  lemma HighDigits(n: nat)
    requires n < 256
    ensures n / 16 == n / 16 % 2 + 2 * (n / 32 % 2) + 4 * (n / 64 % 2) + 8 * (n / 128 % 2)
  {
    Halve(n, 16);
    Halve(n, 32);
    Halve(n, 64);
  }

  lemma ByteDigits(n: nat)
    requires n < 256
    ensures n == n % 2 + 2 * (n / 2 % 2) + 4 * (n / 4 % 2) + 8 * (n / 8 % 2)
                 + 16 * (n / 16 % 2) + 32 * (n / 32 % 2) + 64 * (n / 64 % 2) + 128 * (n / 128 % 2)
  {
    FourDigits(n);
    HighDigits(n);
  }

  // *reinterpret_cast<uint16_t*>(page + at)
  function U16(p: Bytes, at: nat): (n: nat)
    requires at + 2 <= |p|
    ensures n < 0x1_0000
  {
    NatOf(p[at]) + 256 * NatOf(p[at + 1])
  }

  // The two bytes of static_cast<uint16_t>(n).
  function U16Bytes(n: nat): Bytes {
    [ByteOf(n % 256), ByteOf(n / 256 % 256)]
  }

  lemma U16RoundTrip(n: nat, p: Bytes, at: nat)
    requires n < 0x1_0000 && at + 2 <= |p| && p[at..at + 2] == U16Bytes(n)
    ensures U16(p, at) == n
  {
    hide ByteOf, NatOf;
    ByteRoundTrip(n % 256);
    ByteRoundTrip(n / 256 % 256);
    assert p[at] == p[at..at + 2][0] && p[at + 1] == p[at..at + 2][1];
  }

  // The four bytes of an int32_t, two's complement.
  function I32Bytes(v: int32): (b: Bytes)
    ensures |b| == 4
  {
    var u := v % 0x1_0000_0000;
    [ByteOf(u % 256), ByteOf(u / 256 % 256), ByteOf(u / 0x1_0000 % 256), ByteOf(u / 0x100_0000 % 256)]
  }

  function I32(b: Bytes): int32
    requires |b| == 4
  {
    var u := NatOf(b[0]) + 256 * NatOf(b[1]) + 0x1_0000 * NatOf(b[2]) + 0x100_0000 * NatOf(b[3]);
    if u < 0x8000_0000 then u else u - 0x1_0000_0000
  }

  lemma Digits(u: nat)
    requires u < 0x1_0000_0000
    ensures u == u % 256 + 256 * (u / 256 % 256) + 0x1_0000 * (u / 0x1_0000 % 256) + 0x100_0000 * (u / 0x100_0000 % 256)
  {
    assert u / 0x1_0000 == u / 256 / 256;
    assert u / 0x100_0000 == u / 256 / 256 / 256;
  }

  lemma I32RoundTrip(v: int32)
    ensures I32(I32Bytes(v)) == v
  {
    hide ByteOf, NatOf;
    var u := v % 0x1_0000_0000;
    var a, b, c, d := u % 256, u / 256 % 256, u / 0x1_0000 % 256, u / 0x100_0000 % 256;
    ByteRoundTrip(a);
    ByteRoundTrip(b);
    ByteRoundTrip(c);
    ByteRoundTrip(d);
    Digits(u);
    assert u == a + 256 * b + 0x1_0000 * c + 0x100_0000 * d;
  }

  lemma BitsOf(x: bv8)
    ensures FromDigits(x & 1 != 0, x & 2 != 0, x & 4 != 0, x & 8 != 0,
                       x & 16 != 0, x & 32 != 0, x & 64 != 0, x & 128 != 0) == x
  {
  }

  lemma DigitsUnique(n: nat, a: nat, b: nat, c: nat, d: nat, e: nat, f: nat, g: nat, h: nat)
    requires a < 2 && b < 2 && c < 2 && d < 2 && e < 2 && f < 2 && g < 2 && h < 2
    requires n == a + 2 * b + 4 * c + 8 * d + 16 * e + 32 * f + 64 * g + 128 * h
    ensures n % 2 == a && n / 2 % 2 == b && n / 4 % 2 == c && n / 8 % 2 == d
    ensures n / 16 % 2 == e && n / 32 % 2 == f && n / 64 % 2 == g && n / 128 % 2 == h
  {
    assert n / 16 == e + 2 * f + 4 * g + 8 * h;
    assert n / 32 == f + 2 * g + 4 * h && n / 64 == g + 2 * h && n / 128 == h;
    assert n / 2 == b + 2 * (n / 4) && n / 4 == c + 2 * (n / 8) && n / 8 == d + 2 * (n / 16);
  }

  lemma NatRoundTrip(x: bv8)
    ensures ByteOf(NatOf(x)) == x
  {
    hide FromDigits;
    BitsOf(x);
    DigitsUnique(NatOf(x), if x & 1 != 0 then 1 else 0, if x & 2 != 0 then 1 else 0,
                 if x & 4 != 0 then 1 else 0, if x & 8 != 0 then 1 else 0, if x & 16 != 0 then 1 else 0,
                 if x & 32 != 0 then 1 else 0, if x & 64 != 0 then 1 else 0, if x & 128 != 0 then 1 else 0);
  }

  lemma DigitsOf(n: nat, a: nat, b: nat, c: nat, d: nat)
    requires a < 256 && b < 256 && c < 256 && d < 256
    requires n == a + 256 * b + 0x1_0000 * c + 0x100_0000 * d
    ensures n < 0x1_0000_0000
    ensures n % 256 == a && n / 256 % 256 == b && n / 0x1_0000 % 256 == c && n / 0x100_0000 % 256 == d
  {
    var high := c + 256 * d;
    var rest := b + 256 * high;
    Unpack(rest, 256, a);
    Unpack(high, 0x1_0000, a + 256 * b);
    Unpack(d, 0x100_0000, a + 256 * b + 0x1_0000 * c);
    Unpack(high, 256, b);
    Unpack(d, 256, c);
  }

  lemma Wrapped(u: nat)
    requires u < 0x1_0000_0000
    ensures (if u < 0x8000_0000 then u else u - 0x1_0000_0000) % 0x1_0000_0000 == u
  {
  }

  lemma I32BytesRoundTrip(b: Bytes)
    requires |b| == 4
    ensures I32Bytes(I32(b)) == b
  {
    hide ByteOf, NatOf;
    var u := NatOf(b[0]) + 256 * NatOf(b[1]) + 0x1_0000 * NatOf(b[2]) + 0x100_0000 * NatOf(b[3]);
    DigitsOf(u, NatOf(b[0]), NatOf(b[1]), NatOf(b[2]), NatOf(b[3]));
    Wrapped(u);
    NatRoundTrip(b[0]);
    NatRoundTrip(b[1]);
    NatRoundTrip(b[2]);
    NatRoundTrip(b[3]);
  }

  // memcpy(page + at, src, |src|)
  function Splice(p: Bytes, at: nat, src: Bytes): (r: Bytes)
    requires at + |src| <= |p|
    ensures |r| == |p|
  {
    p[..at] + src + p[at + |src|..]
  }

  // What was copied can be read back, and regions outside the copy keep their bytes.
  lemma SpliceRegion(p: Bytes, at: nat, src: Bytes, from: nat, to: nat)
    requires at + |src| <= |p| && from <= to <= |p|
    ensures Splice(p, at, src)[at..at + |src|] == src
    ensures to <= at || at + |src| <= from ==> Splice(p, at, src)[from..to] == p[from..to]
  {
  }

  lemma SubRegion(p: Bytes, at: nat, src: Bytes, from: nat, to: nat)
    requires at + |src| <= |p| && p[at..at + |src|] == src && from <= to <= |src|
    ensures p[at + from..at + to] == src[from..to]
  {
    forall i | from <= i < to
      ensures p[at + i] == src[i]
    {
      assert p[at..at + |src|][i] == src[i];
    }
    assert |p[at + from..at + to]| == |src[from..to]|;
    forall i | 0 <= i < to - from
      ensures p[at + from..at + to][i] == src[from..to][i]
    {
    }
  }

  method Copy(page: array<bv8>, at: nat, src: Bytes)
    requires at + |src| <= page.Length
    modifies page
    ensures page[..] == Splice(old(page[..]), at, src)
  {
    ghost var before := page[..];
    for k := 0 to |src|
      invariant page[..] == Splice(before, at, src[..k])
    {
      page[at + k] := src[k];
      assert src[..k + 1] == src[..k] + [src[k]];
    }
    assert src[..|src|] == src;
  }
}
