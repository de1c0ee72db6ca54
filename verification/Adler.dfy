/**
 Adler-32 (sections 2.2 and 8.2 of RFC 1950) as adler32.c computes it: one modulo
 per NMAX bytes, reductions without division, and the checksum of a concatenation
 from the checksums of its parts.
 */
module Adler {
  import opened Bits

  const BASE := 65521  // largest prime smaller than 65536
  const NMAX := 5552

  // A 32-bit unsigned long: every assignment below is checked not to overflow.
  type U32 = x: int | 0 <= x < 0x1_0000_0000

  // The two component sums.
  datatype Sums = Sums(a: nat, b: nat) {
    predicate Reduced() {
      a < BASE && b < BASE
    }
  }

  // The definition, one byte and one modulo at a time.
  function Step(s: Sums, x: byte): Sums {
    var a := (s.a + x) % BASE;
    Sums(a, (s.b + a) % BASE)
  }

  function Fold(s: Sums, buf: seq<byte>): Sums {
    if buf == [] then s else Step(Fold(s, buf[..|buf| - 1]), buf[|buf| - 1])
  }

  function Unpack(adler: U32): Sums {
    Sums(adler % 0x1_0000, adler / 0x1_0000)
  }

  function Pack(s: Sums): U32
    requires s.a < 0x1_0000 && s.b < 0x1_0000
  {
    s.a + s.b * 0x1_0000
  }

  lemma {:induction false} FoldReduced(s: Sums, buf: seq<byte>)
    requires s.Reduced() || buf != []
    ensures Fold(s, buf).Reduced()
  {
  }

  lemma {:induction false} FoldAppend(s: Sums, x: seq<byte>, y: seq<byte>)
    ensures Fold(s, x + y) == Fold(Fold(s, x), y)
    decreases |y|
  {
    if y == [] {
      assert x + y == x;
    } else {
      var n := |y| - 1;
      assert (x + y)[..|x + y| - 1] == x + y[..n];
      FoldAppend(s, x, y[..n]);
    }
  }

  // The sums without any modulo.
  function RawA(a: nat, buf: seq<byte>): nat {
    if buf == [] then a else RawA(a, buf[..|buf| - 1]) + buf[|buf| - 1]
  }

  function RawB(a: nat, b: nat, buf: seq<byte>): nat {
    if buf == [] then b else RawB(a, b, buf[..|buf| - 1]) + RawA(a, buf)
  }

  lemma {:induction false} RawAppend(a: nat, b: nat, x: seq<byte>, y: seq<byte>)
    ensures RawA(a, x + y) == RawA(RawA(a, x), y)
    ensures RawB(a, b, x + y) == RawB(RawA(a, x), RawB(a, b, x), y)
    decreases |y|
  {
    if y == [] {
      assert x + y == x;
    } else {
      var n := |y| - 1;
      assert (x + y)[..|x + y| - 1] == x + y[..n];
      RawAppend(a, b, x, y[..n]);
    }
  }

  // How large the sums can get in n bytes.
  lemma {:induction false} RawBound(a: nat, b: nat, buf: seq<byte>)
    ensures RawA(a, buf) <= a + 255 * |buf|
    ensures 2 * RawB(a, b, buf) <= 2 * b + 2 * (|buf| * a) + 255 * (|buf| * (|buf| + 1))
    decreases |buf|
  {
    if buf != [] {
      var n := |buf| - 1;
      RawBound(a, b, buf[..n]);
      assert (n + 1) * a == n * a + a;
      assert (n + 1) * (n + 2) == n * (n + 1) + 2 * (n + 1);
    }
  }

  // Equal remainders stay equal when the same number is added.
  lemma AddMod(x: nat, y: nat, z: nat)
    requires x % BASE == y % BASE
    ensures (x + z) % BASE == (y + z) % BASE
  {
  }

  // One step, on sums known only up to multiples of BASE.
  lemma StepMod(s: Sums, x: nat, y: nat, c: byte)
    requires s.a % BASE == x % BASE && s.b % BASE == y % BASE
    ensures Step(s, c) == Sums((x + c) % BASE, (y + (x + c)) % BASE)
  {
    AddMod(s.a, x, c);
    AddMod(s.b, y, (x + c) % BASE);
    AddMod((x + c) % BASE, x + c, y);
  }

  /** Deferring the modulo to the end of the block is sound. */
  lemma {:induction false} FoldIsRaw(s: Sums, buf: seq<byte>)
    requires s.Reduced() || buf != []
    ensures Fold(s, buf) == Sums(RawA(s.a, buf) % BASE, RawB(s.a, s.b, buf) % BASE)
    decreases |buf|
  {
    if buf != [] {
      hide Step;
      var n := |buf| - 1;
      if n > 0 {
        FoldIsRaw(s, buf[..n]);
      } else {
        assert buf[..n] == [];
      }
      StepMod(Fold(s, buf[..n]), RawA(s.a, buf[..n]), RawB(s.a, s.b, buf[..n]), buf[n]);
    }
  }

  // ----- reduction without division (NO_DIVIDE)

  // 65536 leaves the remainder 15: fold the high half into the low half.
  method Chop(a: nat) returns (r: nat)
    ensures r % BASE == a % BASE
    ensures r == a % 0x1_0000 + 15 * (a / 0x1_0000)
  {
    var tmp := a / 0x1_0000;
    r := a % 0x1_0000;
    r := r + (16 * tmp - tmp);
    FoldHigh(a, 0x1_0000, 1, 15);
  }

  // If m leaves the remainder c, replacing m by c keeps the remainder.
  lemma FoldHigh(a: nat, m: nat, k: nat, c: nat)
    requires m == k * BASE + c && m > 0
    ensures (a % m + c * (a / m)) % BASE == a % BASE
  {
    var q, l := a / m, a % m;
    assert a == q * m + l;
    Distribute(q, k, c);
    AddMultiple(l + c * q, q * k);
  }

  lemma Distribute(q: nat, k: nat, c: nat)
    ensures q * (k * BASE + c) == (q * k) * BASE + c * q
  {
    assert q * (k * BASE + c) == q * (k * BASE) + q * c;
    assert q * (k * BASE) == (q * k) * BASE;
  }

  lemma AddMultiple(x: nat, k: nat)
    ensures (x + k * BASE) % BASE == x % BASE
  {
  }

  // 28-bit values.
  method Mod28(a: nat) returns (r: nat)
    requires a < 0x1000_0000
    ensures r == a % BASE
  {
    r := Chop(a);
    if r >= BASE {
      r := r - BASE;
    }
  }

  // 32-bit values.
  method Mod(a: U32) returns (r: U32)
    ensures r == a % BASE
  {
    r := Chop(a);
    r := Mod28(r);
  }

  // Non-negative 64-bit lengths.
  method Mod63(a: nat) returns (r: nat)
    requires a < 0x8000_0000_0000_0000
    ensures r == a % BASE
  {
    var tmp := a / 0x1_0000_0000;
    r := a % 0x1_0000_0000;
    r := r + (256 * tmp - 32 * tmp + tmp);
    FoldHigh(a, 0x1_0000_0000, 65551, 225);
    r := Chop(r);
    r := Chop(r);
    if r >= BASE {
      r := r - BASE;
    }
  }

  // ----- adler32

  // NMAX bytes on top of two 16-bit sums still fit in 32 bits.
  lemma BlockFits(a: nat, b: nat, buf: seq<byte>)
    requires a < 0x1_0000 && b < 0x1_0000 && |buf| <= NMAX
    ensures RawA(a, buf) < 0x1_0000_0000 && RawB(a, b, buf) < 0x1_0000_0000
  {
    var n := |buf|;
    RawBound(a, b, buf);
    MulMono(n, NMAX, a, 0xffff);
    MulMono(n, NMAX, n + 1, NMAX + 1);
  }

  lemma MulMono(a: nat, b: nat, c: nat, d: nat)
    requires a <= b && c <= d
    ensures a * c <= b * d
  {
    assert a * c <= a * d;
    assert a * d <= b * d;
  }

  /** NMAX is the largest block length whose worst case, all bytes 255 on top of
      fully reduced sums, stays within 32 bits. */
  lemma NmaxIsTight(n: nat)
    ensures 255 * (n * (n + 1)) + 2 * ((n + 1) * (BASE - 1)) <= 2 * 0xffff_ffff <==> n <= NMAX
  {
    if n <= NMAX {
      MulMono(n, NMAX, n + 1, NMAX + 1);
    } else {
      MulMono(NMAX + 1, n, NMAX + 2, n + 1);
    }
  }

  lemma RawNext(a: nat, b: nat, s: seq<byte>, c: byte)
    ensures RawA(a, s + [c]) == RawA(a, s) + c && RawB(a, b, s + [c]) == RawB(a, b, s) + RawA(a, s + [c])
  {
    assert (s + [c])[..|s|] == s;
  }

  // Add the bytes of buf, which continue `before` from the sums (a, b).
  method SumBytes(adler: U32, sum2: U32, buf: seq<byte>, ghost a: nat, ghost b: nat, ghost before: seq<byte>)
    returns (adler': U32, sum2': U32)
    requires a < 0x1_0000 && b < 0x1_0000 && |before + buf| <= NMAX
    requires adler == RawA(a, before) && sum2 == RawB(a, b, before)
    ensures adler' == RawA(a, before + buf) && sum2' == RawB(a, b, before + buf)
  {
    hide RawA, RawB;
    adler', sum2' := adler, sum2;
    var i := 0;
    assert before + buf[..0] == before;
    while i < |buf|
      invariant 0 <= i <= |buf|
      invariant adler' == RawA(a, before + buf[..i]) && sum2' == RawB(a, b, before + buf[..i])
    {
      assert before + buf[..i + 1] == (before + buf[..i]) + [buf[i]];
      BlockFits(a, b, before + buf[..i + 1]);
      RawNext(a, b, before + buf[..i], buf[i]);
      adler' := adler' + buf[i];
      sum2' := sum2' + adler';
      i := i + 1;
    }
    assert buf[..i] == buf;
  }

  // A whole number of 16-byte groups (DO16), starting from the sums (a, b).
  method SumGroups(a: U32, b: U32, buf: seq<byte>) returns (adler: U32, sum2: U32)
    requires a < 0x1_0000 && b < 0x1_0000 && |buf| <= NMAX && |buf| % 16 == 0
    ensures adler == RawA(a, buf) && sum2 == RawB(a, b, buf)
  {
    adler, sum2 := a, b;
    var i := 0;
    while i < |buf|
      invariant 0 <= i <= |buf| && i % 16 == 0
      invariant adler == RawA(a, buf[..i]) && sum2 == RawB(a, b, buf[..i])
    {
      adler, sum2 := SumBytes(adler, sum2, buf[i..i + 16], a, b, buf[..i]);
      assert buf[..i] + buf[i..i + 16] == buf[..i + 16];
      i := i + 16;
    }
    assert buf[..i] == buf;
  }

  // A whole block of NMAX bytes, then one modulo for each sum.
  method SumBlock(a: U32, b: U32, buf: seq<byte>) returns (adler: U32, sum2: U32)
    requires a < 0x1_0000 && b < 0x1_0000 && |buf| == NMAX
    ensures Sums(adler, sum2) == Fold(Sums(a, b), buf)
    ensures adler < BASE && sum2 < BASE
  {
    adler, sum2 := SumGroups(a, b, buf);
    adler := Mod(adler);
    sum2 := Mod(sum2);
    FoldIsRaw(Sums(a, b), buf);
  }

  // What is left after the blocks: groups, single bytes, one modulo.
  method SumTail(a: U32, b: U32, buf: seq<byte>) returns (adler: U32, sum2: U32)
    requires a < 0x1_0000 && b < 0x1_0000 && 0 < |buf| < NMAX
    ensures Sums(adler, sum2) == Fold(Sums(a, b), buf)
    ensures adler < BASE && sum2 < BASE
  {
    var n := |buf| - |buf| % 16;
    adler, sum2 := SumGroups(a, b, buf[..n]);
    adler, sum2 := SumBytes(adler, sum2, buf[n..], a, b, buf[..n]);
    assert buf[..n] + buf[n..] == buf;
    adler := Mod(adler);
    sum2 := Mod(sum2);
    FoldIsRaw(Sums(a, b), buf);
  }

  // 16 bytes or more.
  method SumLong(a: U32, b: U32, buf: seq<byte>) returns (adler: U32, sum2: U32)
    requires a < 0x1_0000 && b < 0x1_0000 && 16 <= |buf|
    ensures Sums(adler, sum2) == Fold(Sums(a, b), buf)
    ensures adler < BASE && sum2 < BASE
  {
    adler, sum2 := a, b;
    var i := 0;
    assert buf[..0] == [];
    while |buf| - i >= NMAX
      invariant 0 <= i <= |buf| && adler < 0x1_0000 && sum2 < 0x1_0000
      invariant Sums(adler, sum2) == Fold(Sums(a, b), buf[..i])
      invariant i > 0 ==> adler < BASE && sum2 < BASE
    {
      FoldAppend(Sums(a, b), buf[..i], buf[i..i + NMAX]);
      assert buf[..i] + buf[i..i + NMAX] == buf[..i + NMAX];
      adler, sum2 := SumBlock(adler, sum2, buf[i..i + NMAX]);
      i := i + NMAX;
    }
    if i < |buf| {
      FoldAppend(Sums(a, b), buf[..i], buf[i..]);
      assert buf[..i] + buf[i..] == buf;
      adler, sum2 := SumTail(adler, sum2, buf[i..]);
    } else {
      assert buf[..i] == buf;
    }
  }

  // Fewer than 16 bytes: at most one multiple of BASE can have been added to adler.
  method SumShort(a: U32, b: U32, buf: seq<byte>) returns (adler: U32, sum2: U32)
    requires a < 0x1_0000 && b < 0x1_0000 && |buf| < 16
    ensures adler == RawA(a, buf) % BASE && sum2 == RawB(a, b, buf) % BASE
  {
    adler, sum2 := SumBytes(a, b, buf, a, b, []);
    assert [] + buf == buf;
    ShortBound(a, b, buf);
    if adler >= BASE {
      adler := adler - BASE;
    }
    sum2 := Mod28(sum2);
  }

  lemma ShortBound(a: nat, b: nat, buf: seq<byte>)
    requires a < 0x1_0000 && b < 0x1_0000 && |buf| < 16
    ensures RawA(a, buf) < 2 * BASE && RawB(a, b, buf) < 0x1000_0000
  {
    RawBound(a, b, buf);
    MulMono(|buf|, 15, a, 0xffff);
    MulMono(|buf|, 15, |buf| + 1, 16);
  }

  function Adler(adler: U32, buf: seq<byte>): Sums {
    Fold(Unpack(adler), buf)
  }

  // The one case in which a single subtraction leaves an unreduced sum.
  predicate Overshoots(s: Sums, c: byte) {
    s.b + (s.a + c) % BASE >= 2 * BASE
  }

  // What the one-byte path leaves: each sum with BASE subtracted at most once.
  function OneByteSums(s: Sums, c: byte): Sums {
    var a := if s.a + c >= BASE then s.a + c - BASE else s.a + c;
    Sums(a, if s.b + a >= BASE then s.b + a - BASE else s.b + a)
  }

  /** Subtracting once reduces both sums exactly unless the second one overshoots. */
  lemma OneByteExact(s: Sums, c: byte)
    requires s.a < 0x1_0000 && s.b < 0x1_0000
    ensures OneByteSums(s, c) == Step(s, c) <==> !Overshoots(s, c)
  {
    SubtractOnce(s.a + c);
    SubtractOnce(s.b + (s.a + c) % BASE);
  }

  /** An input for which it does: the definition gives 13 where the code leaves 65534. */
  lemma OvershootExample()
    ensures var s := Unpack(0xffff_fff0);
            Overshoots(s, 0) && OneByteSums(s, 0) == Sums(65520, 65534) && Adler(0xffff_fff0, [0]) == Sums(65520, 13)
  {
    FoldOne(Unpack(0xffff_fff0), [0]);
  }

  /** adler32.  Two or more bytes: exactly the definition, for any 32-bit starting
      value.  One byte: exactly the definition unless the second sum overshoots,
      which takes an unreduced starting value.  No bytes: the starting value with
      both sums reduced.  A null buffer: the initial value. */
  method Adler32(adler: U32, buf: seq<byte>, isNull: bool) returns (r: U32)
    requires isNull ==> buf == []
    ensures isNull ==> r == 1
    ensures |buf| >= 2 ==> Unpack(r) == Adler(adler, buf)
    ensures |buf| == 1 ==> Unpack(r) == OneByteSums(Unpack(adler), buf[0])
    ensures |buf| == 1 ==> (Unpack(r) == Adler(adler, buf) <==> !Overshoots(Unpack(adler), buf[0]))
    ensures !isNull && buf == [] ==> Unpack(r) == Sums(Unpack(adler).a % BASE, Unpack(adler).b % BASE)
    ensures !isNull && Unpack(adler).Reduced() ==> Unpack(r) == Adler(adler, buf)
  {
    hide Step, Fold, RawA, RawB;
    FoldNone(Unpack(adler));
    var sum2: U32 := adler / 0x1_0000;
    var a: U32 := adler % 0x1_0000;
    if |buf| == 1 {
      r := OneByte(a, sum2, buf[0]);
      FoldOne(Unpack(adler), buf);
      return;
    }
    if isNull {
      return 1;
    }
    if |buf| < 16 {
      var x, y := SumShort(a, sum2, buf);
      RawNone(a, sum2);
      if Sums(a, sum2).Reduced() || buf != [] {
        FoldIsRaw(Sums(a, sum2), buf);
      }
      r := x + y * 0x1_0000;
    } else {
      var x, y := SumLong(a, sum2, buf);
      r := x + y * 0x1_0000;
    }
  }

  lemma FoldOne(s: Sums, buf: seq<byte>)
    requires |buf| == 1
    ensures Fold(s, buf) == Step(s, buf[0])
  {
    assert buf[..|buf| - 1] == [];
  }

  lemma FoldNone(s: Sums)
    ensures Fold(s, []) == s
  {
  }

  lemma RawNone(a: nat, b: nat)
    ensures RawA(a, []) == a && RawB(a, b, []) == b
  {
  }

  // Subtracting BASE at most once reduces exactly the values below 2 * BASE.
  lemma SubtractOnce(x: nat)
    requires x < 3 * BASE
    ensures (if x >= BASE then x - BASE else x) == x % BASE <==> x < 2 * BASE
  {
  }

  method OneByte(a: U32, b: U32, c: byte) returns (r: U32)
    requires a < 0x1_0000 && b < 0x1_0000
    ensures Unpack(r) == OneByteSums(Sums(a, b), c)
    ensures Unpack(r) == Step(Sums(a, b), c) <==> !Overshoots(Sums(a, b), c)
  {
    var adler: U32 := a + c;
    OneByteExact(Sums(a, b), c);
    if adler >= BASE {
      adler := adler - BASE;
    }
    var sum2: U32 := b + adler;
    if sum2 >= BASE {
      sum2 := sum2 - BASE;
    }
    r := adler + sum2 * 0x1_0000;
  }

  /** Splitting the data into calls does not matter. */
  lemma SplitCalls(adler: U32, x: seq<byte>, y: seq<byte>)
    requires Unpack(adler).Reduced()
    ensures Adler(adler, x).Reduced()
    ensures Adler(Pack(Adler(adler, x)), y) == Adler(adler, x + y)
  {
    hide Fold;
    FoldReduced(Unpack(adler), x);
    FoldAppend(Unpack(adler), x, y);
    Packed(Adler(adler, x).a, Adler(adler, x).b);
  }

  function Sum(buf: seq<byte>): nat {
    RawA(0, buf)
  }

  lemma {:induction false} RawAShift(a: nat, buf: seq<byte>)
    ensures RawA(a, buf) == a + RawA(0, buf)
    decreases |buf|
  {
    if buf != [] {
      RawAShift(a, buf[..|buf| - 1]);
    }
  }

  lemma {:induction false} RawBShift(a: nat, b: nat, buf: seq<byte>)
    ensures RawB(a, b, buf) == b + |buf| * a + RawB(0, 0, buf)
    decreases |buf|
  {
    if buf != [] {
      var n := |buf| - 1;
      RawBShift(a, b, buf[..n]);
      RawAShift(a, buf);
      assert (n + 1) * a == n * a + a;
    }
  }

  /** The definition in closed form: one plus the sum of the bytes, and the sum of
      those sums, both modulo BASE. */
  lemma AdlerClosedForm(buf: seq<byte>)
    ensures Adler(1, buf) == Sums((1 + Sum(buf)) % BASE, (|buf| + RawB(0, 0, buf)) % BASE)
  {
    FoldIsRaw(Sums(1, 0), buf);
    RawAShift(1, buf);
    RawBShift(1, 0, buf);
  }

  // ----- adler32_combine_

  // The sums of a concatenation, up to multiples of BASE.
  lemma CombineRaw(x: seq<byte>, y: seq<byte>)
    ensures RawA(1, x + y) + 1 == RawA(1, x) + RawA(1, y)
    ensures RawB(1, 0, x + y) + |y| == RawB(1, 0, x) + RawB(1, 0, y) + |y| * RawA(1, x)
  {
    RawAppend(1, 0, x, y);
    RawAShift(RawA(1, x), y);
    RawAShift(1, y);
    RawBShift(RawA(1, x), RawB(1, 0, x), y);
    RawBShift(1, 0, y);
  }

  /** adler32_combine_: from the checksums of two halves and the length of the
      second, the checksum of the whole.  A negative length gives 0xffffffff. */
  method AdlerCombine(adler1: U32, adler2: U32, len2: int) returns (r: U32)
    requires len2 < 0x8000_0000_0000_0000
    ensures len2 < 0 ==> r == 0xffff_ffff
    ensures len2 >= 0 && Unpack(adler1).Reduced() && Unpack(adler2).Reduced() ==>
      Unpack(r) == Combined(Unpack(adler1), Unpack(adler2), len2 % BASE)
  {
    hide Times;
    if len2 < 0 {
      return 0xffff_ffff;
    }
    var rem := Mod63(len2);
    var a1: U32, b1: U32 := adler1 % 0x1_0000, adler1 / 0x1_0000;
    var a2: U32, b2: U32 := adler2 % 0x1_0000, adler2 / 0x1_0000;
    var sum2 := Product(rem, a1);
    var sum1: U32 := a1 + (a2 + BASE - 1);
    sum2 := sum2 + (b1 + b2 + BASE - rem);
    sum1 := SubtractTwice(sum1);
    sum2 := SubtractTwoThenOne(sum2);
    r := sum1 % 0x1_0000 + (sum2 % 0x1_0000) * 0x1_0000;
    Packed(sum1 % 0x1_0000, sum2 % 0x1_0000);
  }

  lemma Packed(a: nat, b: nat)
    requires a < 0x1_0000 && b < 0x1_0000
    ensures (a + b * 0x1_0000) % 0x1_0000 == a && (a + b * 0x1_0000) / 0x1_0000 == b
  {
  }

  function Times(x: nat, y: nat): (r: nat)
    ensures r < BASE
  {
    (x * y) % BASE
  }

  method Product(rem: nat, a: nat) returns (r: U32)
    requires rem < BASE && a < 0x1_0000
    ensures r == Times(rem, a)
  {
    MulMono(rem, BASE - 1, a, 0xffff);
    r := Mod(rem * a);
  }

  // The code's arithmetic on reduced sums, in one line each.
  function Combined(s: Sums, t: Sums, rem: nat): Sums
    requires rem < BASE
  {
    Sums((s.a + t.a + BASE - 1) % BASE, (Times(rem, s.a) + s.b + t.b + BASE - rem) % BASE)
  }

  method SubtractTwice(x: U32) returns (r: U32)
    ensures x <= 3 * BASE - 3 ==> r == x % BASE
  {
    r := x;
    if r >= BASE { r := r - BASE; }
    if r >= BASE { r := r - BASE; }
  }

  method SubtractTwoThenOne(x: U32) returns (r: U32)
    ensures x <= 4 * BASE - 3 ==> r == x % BASE
  {
    r := x;
    if r >= 2 * BASE { r := r - 2 * BASE; }
    if r >= BASE { r := r - BASE; }
  }

  /** What adler32_combine_ computes is the checksum of the concatenation. */
  lemma CombineCorrect(x: seq<byte>, y: seq<byte>)
    ensures Combined(Adler(1, x), Adler(1, y), |y| % BASE) == Adler(1, x + y)
  {
    FoldIsRaw(Sums(1, 0), x);
    FoldIsRaw(Sums(1, 0), y);
    FoldIsRaw(Sums(1, 0), x + y);
    CombineRaw(x, y);
    hide Fold, RawA, RawB;
    CombineA(RawA(1, x), RawA(1, y), RawA(1, x + y));
    CombineB(RawA(1, x), RawB(1, 0, x), RawB(1, 0, y), |y|, RawB(1, 0, x + y));
  }

  lemma CombineA(p: nat, q: nat, r: nat)
    requires r + 1 == p + q
    ensures (p % BASE + q % BASE + BASE - 1) % BASE == r % BASE
  {
    var k := p / BASE + q / BASE - 1;
    assert r == p % BASE + q % BASE + BASE - 1 + k * BASE;
    ShiftMod(p % BASE + q % BASE + BASE - 1, k);
  }

  lemma ShiftMod(x: int, k: int)
    ensures (x + k * BASE) % BASE == x % BASE
  {
  }

  lemma CombineB(p: nat, b1: nat, b2: nat, n: nat, r: nat)
    requires r + n == b1 + b2 + n * p
    ensures (((n % BASE) * (p % BASE)) % BASE + b1 % BASE + b2 % BASE + BASE - n % BASE) % BASE == r % BASE
  {
    var m := n % BASE;
    var k := MulMod(n, p);
    var x := (m * (p % BASE)) % BASE + b1 % BASE + b2 % BASE + BASE - m;
    var j := k + b1 / BASE + b2 / BASE - 1 - n / BASE;
    assert r == x + j * BASE;
    ShiftMod(x, j);
  }

  // n * p and the product of the remainders differ by a multiple of BASE.
  lemma MulMod(n: nat, p: nat) returns (k: int)
    ensures n * p == ((n % BASE) * (p % BASE)) % BASE + k * BASE
  {
    var m, i := n % BASE, n / BASE;
    var q, j := p % BASE, p / BASE;
    assert n * p == m * q + (i * p + m * j) * BASE by {
      assert n * p == m * p + i * BASE * p;
      assert i * BASE * p == (i * p) * BASE;
      assert m * p == m * q + m * (j * BASE);
      assert m * (j * BASE) == (m * j) * BASE;
    }
    k := (m * q) / BASE + i * p + m * j;
  }
}
