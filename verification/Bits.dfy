/**
 Exclusive-or and low-bit arithmetic on natural numbers.

 The hash key of the match finder is an unsigned value that is shifted left,
 exclusive-ored with a byte and masked to `hash_bits` bits.  A shift is a
 multiplication by a power of two, a mask is a remainder, and `Xor` below works
 bit by bit, so the facts needed about the key are proved by induction on bits
 and hold for every hash size.
 */
module Bits {

  type byte = b: int | 0 <= b < 256

  function Min(a: nat, b: nat): nat {
    if a <= b then a else b
  }

  function Max(a: nat, b: nat): nat {
    if a <= b then b else a
  }

  function Pow2(n: nat): (r: nat)
    ensures r >= 1
  {
    if n == 0 then 1 else 2 * Pow2(n - 1)
  }

  function Xor(a: nat, b: nat): nat
    decreases a + b
  {
    if a == 0 then b
    else if b == 0 then a
    else (if a % 2 == b % 2 then 0 else 1) + 2 * Xor(a / 2, b / 2)
  }

  lemma {:induction false} Pow2Add(m: nat, n: nat)
    ensures Pow2(m + n) == Pow2(m) * Pow2(n)
  {
    if m != 0 {
      Pow2Add(m - 1, n);
      assert Pow2(m + n) == 2 * Pow2(m - 1 + n);
      assert 2 * (Pow2(m - 1) * Pow2(n)) == (2 * Pow2(m - 1)) * Pow2(n);
    }
  }

  lemma {:induction false} Pow2Mono(m: nat, n: nat)
    requires m <= n
    ensures Pow2(m) <= Pow2(n)
    decreases n - m
  {
    if m < n {
      Pow2Mono(m + 1, n);
    }
  }

  // The bits of an exclusive-or, lowest bit first.
  lemma XorUnfold(a: nat, b: nat)
    ensures Xor(a, b) % 2 == (if a % 2 == b % 2 then 0 else 1)
    ensures Xor(a, b) / 2 == Xor(a / 2, b / 2)
  {
    if a == 0 || b == 0 {
      assert Xor(a / 2, b / 2) == a / 2 + b / 2;
    } else {
      var d, x := if a % 2 == b % 2 then 0 else 1, Xor(a / 2, b / 2);
      assert Xor(a, b) == d + 2 * x;
    }
  }

  // `x` and `y` have the same low `n` bits.
  predicate SameLow(x: nat, y: nat, n: nat) {
    if n == 0 then true else x % 2 == y % 2 && SameLow(x / 2, y / 2, n - 1)
  }

  lemma {:induction false} SameLowXor(x: nat, y: nat, c: nat, n: nat)
    requires SameLow(x, y, n)
    ensures SameLow(Xor(x, c), Xor(y, c), n)
    decreases n
  {
    if n != 0 {
      XorUnfold(x, c);
      XorUnfold(y, c);
      SameLowXor(x / 2, y / 2, c / 2, n - 1);
    }
  }

  lemma {:induction false} SameLowShift(x: nat, y: nat, s: nat, n: nat)
    requires SameLow(x, y, n)
    ensures SameLow(x * Pow2(s), y * Pow2(s), n + s)
    decreases s
  {
    if s != 0 {
      SameLowShift(x, y, s - 1, n);
      assert x * Pow2(s) == 2 * (x * Pow2(s - 1));
      assert y * Pow2(s) == 2 * (y * Pow2(s - 1));
    }
  }

  lemma {:induction false} SameLowWeaken(x: nat, y: nat, n: nat, m: nat)
    requires SameLow(x, y, n) && m <= n
    ensures SameLow(x, y, m)
    decreases m
  {
    if m != 0 {
      SameLowWeaken(x / 2, y / 2, n - 1, m - 1);
    }
  }

  // Masking keeps the low bits.
  lemma {:induction false} SameLowMask(x: nat, n: nat, m: nat)
    requires m <= n
    ensures SameLow(x % Pow2(n), x, m)
    decreases m
  {
    if m != 0 {
      ModHalf(x, n);
      SameLowMask(x / 2, n - 1, m - 1);
    }
  }

  lemma ModHalf(x: nat, n: nat)
    requires n != 0
    ensures (x % Pow2(n)) % 2 == x % 2
    ensures (x % Pow2(n)) / 2 == (x / 2) % Pow2(n - 1)
  {
    var p := Pow2(n - 1);
    var q, r := x / 2 / p, x / 2 % p;
    assert x / 2 == q * p + r;
    assert x == q * (2 * p) + (2 * r + x % 2) by {
      assert x == 2 * (x / 2) + x % 2;
      assert 2 * (q * p) == q * (2 * p);
    }
    ModUnique(x, 2 * p, q, 2 * r + x % 2);
  }

  lemma ModUnique(x: nat, m: nat, q: nat, r: nat)
    requires m > 0 && r < m && x == q * m + r
    ensures x % m == r
  {
    var q', r' := x / m, x % m;
    assert x == q' * m + r';
    assert (q' - q) * m == r - r' && (q - q') * m == r' - r;
    NoMultiple(q' - q, m);
    NoMultiple(q - q', m);
  }

  // No multiple of w lies strictly between 0 and w.
  lemma NoMultiple(d: int, w: int)
    requires w > 0
    ensures !(0 < d * w < w)
  {
    assert d >= 1 ==> d * w >= w;
    assert d <= 0 ==> d * w <= 0;
  }

  lemma {:induction false} SameLowEq(x: nat, y: nat, n: nat)
    requires SameLow(x, y, n)
    ensures x % Pow2(n) == y % Pow2(n)
    decreases n
  {
    if n != 0 {
      ModHalf(x, n);
      ModHalf(y, n);
      SameLowEq(x / 2, y / 2, n - 1);
    }
  }

  lemma {:induction false} SameLowRefl(x: nat, n: nat)
    ensures SameLow(x, x, n)
    decreases n
  {
    if n != 0 {
      SameLowRefl(x / 2, n - 1);
    }
  }
}
