/**
 The rolling hash key of the match finder: `UPDATE_HASH` and the choice of
 `hash_shift` made when the stream is initialised.
 */
module HashKey {
  import opened Bits

  // memLevel 1..9 gives 8..16 bits.
  predicate ValidBits(bits: nat) {
    8 <= bits <= 16
  }

  // MIN_MATCH == 3 shifts push a byte out of the key.
  function HashShift(bits: nat): nat {
    (bits + 2) / 3
  }

  function Update(bits: nat, h: nat, c: byte): (r: nat)
    ensures r < Pow2(bits)
  {
    Xor(h * Pow2(HashShift(bits)), c) % Pow2(bits)
  }

  // The key of the three bytes a, b, c: three updates of the empty key.
  function Key3(bits: nat, a: byte, b: byte, c: byte): (r: nat)
    ensures r < Pow2(bits)
  {
    Update(bits, Update(bits, Update(bits, 0, a), b), c)
  }

  // One more update turns `h` into the key of a string that starts with a, b.
  ghost predicate Ready(bits: nat, h: nat, a: byte, b: byte) {
    forall c: byte :: Update(bits, h, c) == Key3(bits, a, b, c)
  }

  // Keys that agree on the low n bits agree on n + shift bits after one update.
  lemma UpdateAgrees(bits: nat, g: nat, h: nat, c: byte, n: nat, m: nat)
    requires SameLow(g, h, n)
    requires m <= bits && m <= n + HashShift(bits)
    ensures SameLow(Update(bits, g, c), Update(bits, h, c), m)
  {
    var s := HashShift(bits);
    var x, y := Xor(g * Pow2(s), c), Xor(h * Pow2(s), c);
    SameLowShift(g, h, s, n);
    SameLowXor(g * Pow2(s), h * Pow2(s), c, n + s);
    SameLowWeaken(x, y, n + s, m);
    SameLowMask(x, bits, m);
    SameLowMask(y, bits, m);
    SameLowTrans(x % Pow2(bits), x, y, y % Pow2(bits), m);
  }

  lemma {:induction false} SameLowTrans(a: nat, b: nat, c: nat, d: nat, n: nat)
    requires SameLow(a, b, n) && SameLow(b, c, n) && SameLow(d, c, n)
    ensures SameLow(a, d, n)
    decreases n
  {
    if n != 0 {
      SameLowTrans(a / 2, b / 2, c / 2, d / 2, n - 1);
    }
  }

  /** Three updates forget whatever the key held before: the rolling key of a
      string equals the key computed from its three bytes alone. */
  lemma RollingForgets(bits: nat, h: nat, a: byte, b: byte, c: byte)
    requires ValidBits(bits)
    ensures Update(bits, Update(bits, Update(bits, h, a), b), c) == Key3(bits, a, b, c)
  {
    var s := HashShift(bits);
    var g1, h1 := Update(bits, 0, a), Update(bits, h, a);
    var g2, h2 := Update(bits, g1, b), Update(bits, h1, b);
    var g3, h3 := Update(bits, g2, c), Update(bits, h2, c);
    UpdateAgrees(bits, 0, h, a, 0, s);
    UpdateAgrees(bits, g1, h1, b, s, 2 * s);
    UpdateAgrees(bits, g2, h2, c, 2 * s, bits);
    SameLowEq(g3, h3, bits);
    SmallMod(g3, bits);
    SmallMod(h3, bits);
  }

  lemma SmallMod(x: nat, bits: nat)
    requires x < Pow2(bits)
    ensures x % Pow2(bits) == x
  {
    hide *;
    ModUnique(x, Pow2(bits), 0, x);
  }

  // After inserting the string x, a, b the key is ready for the string a, b, _.
  lemma ReadyAfterInsert(bits: nat, x: byte, a: byte, b: byte)
    requires ValidBits(bits)
    ensures Ready(bits, Key3(bits, x, a, b), a, b)
  {
    forall c: byte ensures Update(bits, Key3(bits, x, a, b), c) == Key3(bits, a, b, c) {
      RollingForgets(bits, Update(bits, 0, x), a, b, c);
    }
  }

  // The restart `ins_h = window[str]; UPDATE_HASH(ins_h, window[str+1])`.
  lemma ReadyAfterRestart(bits: nat, a: byte, b: byte)
    requires ValidBits(bits)
    ensures Ready(bits, Update(bits, a, b), a, b)
  {
    forall c: byte ensures Update(bits, Update(bits, a, b), c) == Key3(bits, a, b, c) {
      assert Update(bits, 0, a) == a by {
        assert Xor(0 * Pow2(HashShift(bits)), a) == a;
        Pow2Mono(8, bits);
        assert Pow2(8) == 256;
        SmallMod(a, bits);
      }
    }
  }

  /** Strings with the same key and the same first two bytes have the same third
      byte, which is why the match finder never compares it. */
  lemma ThirdByte(bits: nat, a: byte, b: byte, c: byte, d: byte)
    requires ValidBits(bits)
    requires Key3(bits, a, b, c) == Key3(bits, a, b, d)
    ensures c == d
  {
    var x := Update(bits, Update(bits, 0, a), b) * Pow2(HashShift(bits));
    MaskedEqual(Xor(x, c), Xor(x, d), bits);
    XorCancelLow(x, c, d, 8);
    BytesEqual(c, d);
  }

  lemma MaskedEqual(u: nat, v: nat, bits: nat)
    requires 8 <= bits
    requires u % Pow2(bits) == v % Pow2(bits)
    ensures SameLow(u, v, 8)
  {
    SameLowMask(u, bits, 8);
    SameLowMask(v, bits, 8);
    SameLowJoin(u % Pow2(bits), u, v, 8);
  }

  lemma {:induction false} SameLowJoin(k: nat, u: nat, v: nat, n: nat)
    requires SameLow(k, u, n) && SameLow(k, v, n)
    ensures SameLow(u, v, n)
    decreases n
  {
    if n != 0 {
      SameLowJoin(k / 2, u / 2, v / 2, n - 1);
    }
  }

  lemma BytesEqual(c: byte, d: byte)
    requires SameLow(c, d, 8)
    ensures c == d
  {
    hide SameLow;
    assert Pow2(8) == 256;
    SameLowEq(c, d, 8);
  }

  lemma {:induction false} XorCancelLow(x: nat, c: nat, d: nat, n: nat)
    requires SameLow(Xor(x, c), Xor(x, d), n)
    ensures SameLow(c, d, n)
    decreases n
  {
    if n != 0 {
      XorUnfold(x, c);
      XorUnfold(x, d);
      XorCancelLow(x / 2, c / 2, d / 2, n - 1);
    }
  }
}
