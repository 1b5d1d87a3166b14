// value_t (include/late.h): one 64-bit word that is a null, an INT32, or a reference to a page of
// an input table.  Two mode bits on top, then table (5), column (15), page (26) and position (16).
module ValueWords {
  import opened Bits
  import opened Options

  const VARCHAR_MODE := 0
  const INT32_MODE := 1
  const INT32_NO_NULL_MODE := 2
  const NULL_MODE := 3

  const MODE_UNIT := 0x4000_0000_0000_0000      // 1 << 62
  const TABLE_UNIT := 0x200_0000_0000_0000      // 1 << 57
  const COLUMN_UNIT := 0x400_0000_0000          // 1 << 42
  const PAGE_UNIT := 0x1_0000                   // 1 << 16

  type Word = uint64

  // raw & MODE_BITS, shifted down
  function Mode(w: Word): (m: nat)
    ensures m < 4
  {
    w / 0x4000_0000_0000_0000
  }

  function MakeNull(): Word { 0xC000_0000_0000_0000 }

  predicate IsNull(w: Word) { Mode(w) == NULL_MODE }

  predicate IsInt32(w: Word) { Mode(w) == INT32_MODE }

  predicate IsInt32NoNull(w: Word) { Mode(w) == INT32_NO_NULL_MODE }

  predicate IsVarchar(w: Word) { Mode(w) == VARCHAR_MODE }

  // The 64 bits of a sign-extended int32_t.
  function SignExtended(v: int32): Word { v % 0x1_0000_0000_0000_0000 }

  // INT32_MODE | v
  function PutInt32(v: int32): (w: Word)
  {
    PutInt32Fits(v);
    BitOr(0x4000_0000_0000_0000, SignExtended(v))
  }

  // static_cast<int32_t>(raw)
  function GetInt32(w: Word): int32 {
    var low := w % 0x1_0000_0000;
    if low < 0x8000_0000 then low else low - 0x1_0000_0000
  }

  // Where a value sits: page and position within one column of one input table.
  datatype Reference = Reference(table: nat, column: nat, page: nat, pos: nat)

  predicate Fits(r: Reference) {
    r.table < 32 && r.column < 0x8000 && r.page < 0x400_0000 && r.pos < 0x1_0000
  }

  // put_varchar and put_int32_no_null, which differ in the mode; None for the overflow exception.
  function PutReference(mode: nat, r: Reference): (w: Option<Word>)
    requires mode < 3
    ensures w.Some? <==> Fits(r)
  {
    if r.table >= 32 || r.column >= 0x8000 || r.page >= 0x400_0000 || r.pos >= 0x1_0000 then None
    else
      var p := BitOr(BitOr(BitOr(r.table * 0x200_0000_0000_0000, r.column * 0x400_0000_0000), r.page * 0x1_0000), r.pos);
      PackedFits(mode, r);
      Some(BitOr(mode * 0x4000_0000_0000_0000, p))
  }

  // get_varchar and get_int32_no_null
  function GetReference(w: Word): Reference {
    var p := w % 0x4000_0000_0000_0000;
    Reference(p / 0x200_0000_0000_0000 % 32, p / 0x400_0000_0000 % 0x8000, p / 0x1_0000 % 0x400_0000, p % 0x1_0000)
  }

  // -------- the fields stay apart --------

  lemma Powers()
    ensures Pow2(16) == 0x1_0000 && Pow2(42) == 0x400_0000_0000
    ensures Pow2(57) == 0x200_0000_0000_0000 && Pow2(62) == 0x4000_0000_0000_0000
  {
    assert Pow2(8) == 256;
    PowSum(8, 8);
    PowSum(16, 16);
    PowSum(32, 8);
    PowSum(40, 2);
    PowSum(42, 8);
    PowSum(50, 7);
    PowSum(57, 5);
    assert Pow2(7) == 128 && Pow2(5) == 32 && Pow2(2) == 4;
  }

  lemma {:induction false} PowSum(a: nat, b: nat)
    ensures Pow2(a + b) == Pow2(a) * Pow2(b)
  {
    if b > 0 {
      PowSum(a, b - 1);
      assert a + b - 1 == a + (b - 1);
      assert Pow2(a) * Pow2(b) == 2 * (Pow2(a) * Pow2(b - 1));
    }
  }

  // The packed word is the sum of its shifted fields.
  function Packed(mode: nat, r: Reference): nat {
    mode * 0x4000_0000_0000_0000 + r.table * 0x200_0000_0000_0000 + r.column * 0x400_0000_0000 + r.page * 0x1_0000 + r.pos
  }

  lemma PackedFits(mode: nat, r: Reference)
    requires mode < 3 && Fits(r)
    ensures var p := BitOr(BitOr(BitOr(r.table * 0x200_0000_0000_0000, r.column * 0x400_0000_0000), r.page * 0x1_0000), r.pos);
      BitOr(mode * 0x4000_0000_0000_0000, p) == Packed(mode, r) < 0x1_0000_0000_0000_0000
  {
    hide BitOr;
    Powers();
    OrShifted(r.table, 57, r.column * 0x400_0000_0000);
    var a := r.table * 0x8000 + r.column;
    OrShifted(a, 42, r.page * 0x1_0000);
    var b := a * 0x400_0000 + r.page;
    OrShifted(b, 16, r.pos);
    OrShifted(mode, 62, b * 0x1_0000 + r.pos);
  }

  // A reference reads back as it was put, in its mode.
  lemma ReferenceRoundTrip(mode: nat, r: Reference)
    requires mode < 3 && Fits(r)
    ensures PutReference(mode, r).Some?
    ensures GetReference(PutReference(mode, r).value) == r && Mode(PutReference(mode, r).value) == mode
  {
    hide BitOr;
    PackedFits(mode, r);
    var a := r.table * 0x8000 + r.column;
    var b := a * 0x400_0000 + r.page;
    var low := b * 0x1_0000 + r.pos;
    Unpack(mode, 0x4000_0000_0000_0000, low);
    Unpack(r.table, 0x200_0000_0000_0000, low - r.table * 0x200_0000_0000_0000);
    Unpack(a, 0x400_0000_0000, low - a * 0x400_0000_0000);
    Unpack(b, 0x1_0000, r.pos);
    Unpack(r.table, 0x8000, r.column);
    Unpack(a, 0x400_0000, r.page);
  }

  // -------- INT32 words --------

  lemma {:induction false} OrSplit(a: nat, b: nat, c: nat, d: nat, k: nat)
    requires b < Pow2(k) && d < Pow2(k)
    ensures BitOr(a * Pow2(k) + b, c * Pow2(k) + d) == BitOr(a, c) * Pow2(k) + BitOr(b, d)
  {
    hide BitOr;
    if k > 0 {
      var h := Pow2(k - 1);
      var x, y := a * Pow2(k) + b, c * Pow2(k) + d;
      HalfOf(a, h, b);
      HalfOf(c, h, d);
      OrUnfold(x, y);
      OrUnfold(b, d);
      OrSplit(a, b / 2, c, d / 2, k - 1);
      assert BitOr(a, c) * Pow2(k) == 2 * (BitOr(a, c) * h) by {
        HalfOf(BitOr(a, c), h, 0);
      }
    } else {
      OrZero();
    }
  }

  lemma OrZero()
    ensures BitOr(0, 0) == 0
  {
  }

  lemma HalfOf(a: nat, h: nat, b: nat)
    ensures a * (2 * h) == 2 * (a * h)
    ensures (a * (2 * h) + b) / 2 == a * h + b / 2 && (a * (2 * h) + b) % 2 == b % 2
  {
    var ah := a * h;
    assert a * (2 * h) == 2 * ah;
  }

  lemma PutInt32Is(v: int32)
    ensures BitOr(0x4000_0000_0000_0000, SignExtended(v))
         == if v >= 0 then 0x4000_0000_0000_0000 + v else 0x1_0000_0000_0000_0000 + v
  {
    hide BitOr, Pow2;
    Powers();
    if v >= 0 {
      OrShifted(1, 62, v);
    } else {
      Extended(v);
      OrSplit(1, 0, 3, 0x4000_0000_0000_0000 + v, 62);
      OrModes();
    }
  }

  lemma Extended(v: int32)
    requires v < 0
    ensures SignExtended(v) == 3 * 0x4000_0000_0000_0000 + (0x4000_0000_0000_0000 + v)
  {
  }

  lemma OrModes()
    ensures BitOr(1, 3) == 3 && forall b :: BitOr(0, b) == b
  {
    assert BitOr(0, 1) == 1;
  }

  lemma PutInt32Fits(v: int32)
    ensures BitOr(0x4000_0000_0000_0000, SignExtended(v)) < 0x1_0000_0000_0000_0000
  {
    PutInt32Is(v);
  }

  // A non-negative value reads back; the sign bits of a negative one turn the word into a null.
  lemma PutInt32Reads(v: int32)
    ensures IsInt32(PutInt32(v)) <==> v >= 0
    ensures IsNull(PutInt32(v)) <==> v < 0
    ensures GetInt32(PutInt32(v)) == v
  {
    hide BitOr;
    PutInt32Is(v);
  }

  // The smallest example of an INT32 that does not survive.
  lemma MinusOneIsNull()
    ensures IsNull(PutInt32(-1)) && PutInt32(-1) == 0xFFFF_FFFF_FFFF_FFFF
  {
    PutInt32Reads(-1);
    PutInt32Is(-1);
  }
}
