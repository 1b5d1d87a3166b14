// Machine words as naturals.  `|` and `&` are defined bit by bit; a left shift by k is a
// multiplication by Pow2(k), a right shift a division.
module Bits {

  type int32 = x: int | -0x8000_0000 <= x < 0x8000_0000
  type uint64 = x: int | 0 <= x < 0x1_0000_0000_0000_0000

  function Pow2(n: nat): (r: nat)
    ensures r > 0
  {
    if n == 0 then 1 else 2 * Pow2(n - 1)
  }

  function Max(a: nat, b: nat): nat { if a > b then a else b }

  function Min(a: nat, b: nat): nat { if a < b then a else b }

  function BitOr(a: nat, b: nat): nat
    decreases a + b
  {
    if a == 0 then b
    else if b == 0 then a
    else 2 * BitOr(a / 2, b / 2) + Max(a % 2, b % 2)
  }

  function BitAnd(a: nat, b: nat): nat
    decreases a + b
  {
    if a == 0 || b == 0 then 0
    else 2 * BitAnd(a / 2, b / 2) + Min(a % 2, b % 2)
  }

  // All bits of mask are set in word.
  predicate Covers(word: nat, mask: nat) {
    BitAnd(word, mask) == mask
  }

  lemma OrUnfold(a: nat, b: nat)
    ensures BitOr(a, b) == 2 * BitOr(a / 2, b / 2) + Max(a % 2, b % 2)
  {
  }

  lemma AndUnfold(a: nat, b: nat)
    ensures BitAnd(a, b) == 2 * BitAnd(a / 2, b / 2) + Min(a % 2, b % 2)
  {
  }

  // OR touches only the low k bits when its right operand fits in k bits.
  lemma {:induction false} OrLow(a: nat, k: nat, b: nat, m: nat)
    requires b < Pow2(k) && m < Pow2(k)
    ensures BitOr(b, m) < Pow2(k)
    ensures BitOr(a * Pow2(k) + b, m) == a * Pow2(k) + BitOr(b, m)
  {
    if k == 0 {
    } else {
      var w := a * Pow2(k) + b;
      assert a * Pow2(k) == 2 * (a * Pow2(k - 1));
      assert w / 2 == a * Pow2(k - 1) + b / 2 && w % 2 == b % 2;
      OrUnfold(w, m);
      OrUnfold(b, m);
      OrLow(a, k - 1, b / 2, m / 2);
    }
  }

  // Packing: `(a << k) | b` is the sum when b fits below the shift.
  lemma OrShifted(a: nat, k: nat, b: nat)
    requires b < Pow2(k)
    ensures BitOr(a * Pow2(k), b) == a * Pow2(k) + b
  {
    OrLow(a, k, 0, b);
  }

  lemma MulSucc(q: int, n: nat)
    ensures (q + 1) * n == q * n + n
  {
  }

  lemma {:induction false} MulStep(q: int, a: int, n: nat)
    ensures q < a ==> q * n + n <= a * n
    decreases a - q
  {
    if q < a {
      MulSucc(a - 1, n);
      MulStep(q, a - 1, n);
    }
  }

  lemma QuotientUnique(n: nat, q: int, r: int, a: int, b: int)
    requires q * n + r == a * n + b && 0 <= r < n && 0 <= b < n
    ensures q == a && r == b
  {
    MulStep(q, a, n);
    MulStep(a, q, n);
  }

  lemma Unpack(a: nat, n: nat, b: nat)
    requires b < n
    ensures (a * n + b) / n == a && (a * n + b) % n == b
  {
    var w := a * n + b;
    QuotientUnique(n, w / n, w % n, a, b);
  }

  lemma {:induction false} AndSelf(m: nat)
    ensures BitAnd(m, m) == m
  {
    if m == 0 {
    } else {
      AndSelf(m / 2);
    }
  }

  lemma {:induction false} OrSetsMask(x: nat, m: nat)
    ensures Covers(BitOr(x, m), m)
    decreases x + m
  {
    if x == 0 {
      AndSelf(m);
    } else if m == 0 {
    } else {
      OrSetsMask(x / 2, m / 2);
      OrUnfold(x, m);
      AndUnfold(BitOr(x, m), m);
    }
  }

  lemma CoversUnfold(x: nat, m: nat)
    ensures Covers(x, m) <==> Covers(x / 2, m / 2) && m % 2 <= x % 2
  {
    AndUnfold(x, m);
    AndAtMost(x / 2, m / 2);
  }

  lemma {:induction false} OrKeepsMask(x: nat, y: nat, m: nat)
    requires Covers(x, m)
    ensures Covers(BitOr(x, y), m)
    decreases m
  {
    if m == 0 {
    } else {
      var z := BitOr(x, y);
      CoversUnfold(x, m);
      OrKeepsMask(x / 2, y / 2, m / 2);
      OrUnfold(x, y);
      assert z / 2 == BitOr(x / 2, y / 2) && z % 2 == Max(x % 2, y % 2);
      CoversUnfold(z, m);
    }
  }

  lemma {:induction false} AndAtMost(x: nat, m: nat)
    ensures BitAnd(x, m) <= m
    decreases m
  {
    if x == 0 || m == 0 {
    } else {
      AndAtMost(x / 2, m / 2);
    }
  }

  lemma {:induction false} CoversBoth(x: nat, m: nat, n: nat)
    requires Covers(x, m) && Covers(x, n)
    ensures Covers(x, BitOr(m, n))
    decreases m + n
  {
    if m == 0 || n == 0 {
    } else {
      var z := BitOr(m, n);
      CoversUnfold(x, m);
      CoversUnfold(x, n);
      CoversBoth(x / 2, m / 2, n / 2);
      OrUnfold(m, n);
      assert z / 2 == BitOr(m / 2, n / 2) && z % 2 == Max(m % 2, n % 2);
      CoversUnfold(x, z);
    }
  }
}
