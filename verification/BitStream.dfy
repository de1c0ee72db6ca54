/**
 Bytes as bits, lowest bit first, and the code an encoder of trees.c hands over: bits
 for the bit buffer, or bytes that start at a byte boundary.
 */
module BitStreams {
  import opened Bits

  // The low n bits of x, lowest first.
  function LowBits(x: nat, n: nat): (r: seq<bool>)
    ensures |r| == n
  {
    if n == 0 then [] else [x % 2 == 1] + LowBits(x / 2, n - 1)
  }

  function BitsOf(bs: seq<byte>): (r: seq<bool>)
    ensures |r| == 8 * |bs|
  {
    if bs == [] then [] else BitsOf(bs[..|bs| - 1]) + LowBits(bs[|bs| - 1], 8)
  }

  function Zeros(n: nat): (r: seq<bool>)
    ensures |r| == n
  {
    if n == 0 then [] else [false] + Zeros(n - 1)
  }

  lemma BitsSnoc(bs: seq<byte>, c: byte)
    ensures BitsOf(bs + [c]) == BitsOf(bs) + LowBits(c, 8)
  {
    assert (bs + [c])[..|bs|] == bs;
  }

  lemma BitsTwo(bs: seq<byte>, c: byte, d: byte)
    ensures BitsOf(bs + [c, d]) == BitsOf(bs) + LowBits(c, 8) + LowBits(d, 8)
  {
    BitsSnoc(bs, c);
    BitsSnoc(bs + [c], d);
    assert bs + [c, d] == (bs + [c]) + [d];
  }

  lemma {:induction false} BitsAppend(bs: seq<byte>, cs: seq<byte>)
    ensures BitsOf(bs + cs) == BitsOf(bs) + BitsOf(cs)
    decreases |cs|
  {
    hide LowBits;
    if cs == [] {
      assert bs + cs == bs;
    } else {
      var n := |cs| - 1;
      BitsAppend(bs, cs[..n]);
      BitsSnoc(bs + cs[..n], cs[n]);
      assert bs + cs == (bs + cs[..n]) + [cs[n]];
    }
  }

  lemma DivHalf(x: nat, n: nat)
    requires n > 0
    ensures x / Pow2(n) == x / 2 / Pow2(n - 1)
  {
    var p := Pow2(n - 1);
    var q, r := x / 2 / p, x / 2 % p;
    assert x == 2 * (q * p + r) + x % 2;
    assert x == q * (2 * p) + (2 * r + x % 2) by {
      assert 2 * (q * p) == q * (2 * p);
    }
    DivUnique(x, 2 * p, q, 2 * r + x % 2);
  }

  lemma DivUnique(x: nat, m: nat, q: nat, r: nat)
    requires m > 0 && r < m && x == q * m + r
    ensures x / m == q && x % m == r
  {
    ModUnique(x, m, q, r);
    var q' := x / m;
    assert x == q' * m + r;
    assert (q' - q) * m == 0;
    assert q' - q >= 1 ==> (q' - q) * m >= m;
    assert q - q' >= 1 ==> (q - q') * m >= m && (q - q') * m == 0;
  }

  function Lower(x: nat, m: nat): nat {
    x % Pow2(m)
  }

  function Upper(x: nat, m: nat): nat {
    if m == 0 then x else Upper(x / 2, m - 1)
  }

  lemma {:induction false} UpperIs(x: nat, m: nat)
    ensures Upper(x, m) == x / Pow2(m)
    decreases m
  {
    if m > 0 {
      UpperIs(x / 2, m - 1);
      DivHalf(x, m);
    }
  }

  /** The bits of x below and from bit m on. */
  lemma {:induction false} LowBitsSplit(x: nat, m: nat, n: nat)
    ensures LowBits(x, m + n) == LowBits(Lower(x, m), m) + LowBits(Upper(x, m), n)
    decreases m
  {
    if m > 0 {
      ModHalf(x, m);
      LowBitsSplit(x / 2, m - 1, n);
    }
  }

  lemma {:induction false} NoBits(n: nat)
    ensures LowBits(0, n) == Zeros(n)
    decreases n
  {
    if n > 0 {
      NoBits(n - 1);
    }
  }

  // Above its highest bit a number has only zeros.
  lemma LowBitsPadded(x: nat, n: nat, k: nat)
    requires x < Pow2(n)
    ensures LowBits(x, n + k) == LowBits(x, n) + Zeros(k)
  {
    LowBitsSplit(x, n, k);
    UpperIs(x, n);
    DivUnique(x, Pow2(n), 0, x);
    NoBits(k);
  }

  // A value shifted in above the n low bits of x.
  lemma ShiftedIn(x: nat, n: nat, v: nat, k: nat)
    requires x < Pow2(n) && v < Pow2(k)
    ensures var y := x + v * Pow2(n); y < Pow2(n + k) && LowBits(y, n + k) == LowBits(x, n) + LowBits(v, k)
  {
    hide LowBits, Pow2;
    var y := x + v * Pow2(n);
    Pow2Add(n, k);
    assert y < Pow2(n + k) by {
      MulBound(v, Pow2(k), Pow2(n));
    }
    DivUnique(y, Pow2(n), v, x);
    UpperIs(y, n);
    LowBitsSplit(y, n, k);
  }

  lemma MulBound(v: nat, m: nat, p: nat)
    requires v < m
    ensures v * p + p <= p * m
  {
    assert (v + 1) * p <= m * p;
  }

  // A value cut in two: what still fits into the word, and the rest.
  lemma CutBits(v: nat, n: nat, k: nat)
    requires n <= k && v < Pow2(k)
    ensures v % Pow2(n) < Pow2(n) && 0 <= v / Pow2(n) < Pow2(k - n)
    ensures LowBits(v, k) == LowBits(v % Pow2(n), n) + LowBits(v / Pow2(n), k - n)
  {
    hide LowBits, Pow2;
    Pow2Add(n, k - n);
    UpperIs(v, n);
    LowBitsSplit(v, n, k - n);
    QuotientBound(v, Pow2(n), Pow2(k - n));
  }

  lemma QuotientBound(v: nat, p: nat, m: nat)
    requires p > 0 && v < p * m
    ensures 0 <= v / p < m
  {
    var q := v / p;
    assert p * q <= v;
    assert q >= m ==> p * q >= p * m;
  }

  lemma TwoBytes()
    ensures Pow2(8) == 256 && Pow2(16) == 0x1_0000
  {
    assert Pow2(4) == 16;
    Pow2Add(4, 4);
    Pow2Add(8, 8);
  }

  // A 16-bit word as two bytes, least significant first.
  lemma WordBits(w: nat)
    requires w < 0x1_0000
    ensures LowBits(w % 256, 8) + LowBits(w / 256, 8) == LowBits(w, 16)
  {
    TwoBytes();
    UpperIs(w, 8);
    LowBitsSplit(w, 8, 8);
  }

  /** What an encoder hands over: bits (send_bits), or bytes after the bit buffer has been
      padded to a byte boundary (bi_windup and put_byte). */
  datatype Piece = Bits(bits: seq<bool>) | Bytes(bytes: seq<byte>)

  // The bits missing to the next byte boundary.
  function Padding(pos: nat): (r: seq<bool>)
    ensures |r| < 8 && (pos + |r|) % 8 == 0
  {
    Zeros((8 - pos % 8) % 8)
  }

  lemma PaddingIs(k: nat, n: nat)
    requires n <= 16
    ensures Padding(8 * k + n) == Zeros(if n == 0 then 0 else if n <= 8 then 8 - n else 16 - n)
  {
    hide Zeros;
    assert (8 * k + n) % 8 == n % 8;
  }

  // bi_windup with one byte's worth of bits in the buffer, and with two.
  lemma PadByte(bs: seq<byte>, buf: nat, n: nat)
    requires 0 < n <= 8 && buf < Pow2(n) && buf < 256
    ensures var s := BitsOf(bs) + LowBits(buf, n); BitsOf(bs + [buf]) == s + Padding(|s|)
  {
    hide BitsOf, LowBits, Padding, Pow2;
    BitsSnoc(bs, buf);
    LowBitsPadded(buf, n, 8 - n);
    PaddingIs(|bs|, n);
  }

  lemma PadWord(bs: seq<byte>, buf: nat, n: nat)
    requires 8 < n <= 16 && buf < Pow2(n) && buf < 0x1_0000
    ensures var s := BitsOf(bs) + LowBits(buf, n); BitsOf(bs + [buf % 256, buf / 256]) == s + Padding(|s|)
  {
    hide BitsOf, LowBits, Padding, Pow2;
    BitsTwo(bs, buf % 256, buf / 256);
    WordBits(buf);
    LowBitsPadded(buf, n, 16 - n);
    PaddingIs(|bs|, n);
    var a, l, h := BitsOf(bs), LowBits(buf % 256, 8), LowBits(buf / 256, 8);
    assert (a + l) + h == a + (l + h);
  }

  lemma PadNothing(bs: seq<byte>)
    ensures BitsOf(bs) + LowBits(0, 0) == BitsOf(bs) && Padding(|BitsOf(bs)|) == []
  {
    PaddingIs(|bs|, 0);
  }

  function PieceCode(p: Piece, pos: nat): seq<bool> {
    match p
    case Bits(bits) => bits
    case Bytes(bytes) => Padding(pos) + BitsOf(bytes)
  }

  // The bits of several pieces, from bit position pos on.
  function Coded(ps: seq<Piece>, pos: nat): seq<bool> {
    if ps == [] then []
    else
      var n := |ps| - 1;
      var c := Coded(ps[..n], pos);
      c + PieceCode(ps[n], pos + |c|)
  }

  lemma NothingCoded(pos: nat)
    ensures Coded([], pos) == []
  {
  }

  lemma CodedSnoc(ps: seq<Piece>, p: Piece, pos: nat)
    ensures Coded(ps + [p], pos) == Coded(ps, pos) + PieceCode(p, pos + |Coded(ps, pos)|)
  {
    hide PieceCode;
    assert (ps + [p])[..|ps|] == ps;
  }

  lemma PieceShift(p: Piece, pos: nat, n: nat)
    ensures PieceCode(p, 8 * n + pos) == PieceCode(p, pos)
  {
    hide BitsOf, Zeros;
    assert (8 * n + pos) % 8 == pos % 8;
  }

  // Only the position within a byte matters.
  lemma {:induction false} CodedShift(ps: seq<Piece>, pos: nat, n: nat)
    ensures Coded(ps, 8 * n + pos) == Coded(ps, pos)
    decreases |ps|
  {
    hide PieceCode;
    if ps != [] {
      var m := |ps| - 1;
      CodedShift(ps[..m], pos, n);
      PieceShift(ps[m], pos + |Coded(ps[..m], pos)|, n);
    }
  }
}
