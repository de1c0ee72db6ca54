/**
 CRC-32 (section 8 of RFC 1952) as crc32.c computes it: the generated tables, the
 byte loop, the word loops for both byte orders, and the CRC of a concatenation by
 squaring GF(2) matrices.

 The bit operations have names so that proofs about whole registers can treat them
 as black boxes with algebraic laws; the laws themselves are bit-vector facts.
 */
module Crc {
  type word = bv32

  // x^32 modulo the CRC polynomial, lowest power in the most significant bit.
  const POLY: word := 0xedb8_8320

  function X(a: word, b: word): word { a ^ b }
  function Not(a: word): word { X(a, 0xffff_ffff) }
  function Low(c: word): word { c & 0xff }
  function High(c: word): word { c >> 8 }
  function Odd(c: word): bool { c & 1 == 1 }
  function Half(c: word): word { c >> 1 }

  // One step of the shift register: multiply by x.
  function Shift(c: word): word {
    if Odd(c) then X(POLY, Half(c)) else Half(c)
  }

  // n steps.
  function Shifts(c: word, n: nat): word
    decreases n
  {
    if n == 0 then c else Shifts(Shift(c), n - 1)
  }

  function Word(b: bv8): word {
    b as word
  }

  // The register after one more byte of data, and after a string of bytes.
  function Feed(c: word, b: bv8): word {
    Shifts(X(c, Word(b)), 8)
  }

  function FeedAll(c: word, s: seq<bv8>): word {
    if s == [] then c else Feed(FeedAll(c, s[..|s| - 1]), s[|s| - 1])
  }

  // The CRC of s continuing from `crc`: the register is complemented outside.
  function CrcOf(crc: word, s: seq<bv8>): word {
    Not(FeedAll(Not(crc), s))
  }

  lemma Eight(c: word)
    ensures Shifts(c, 8) == Shift(Shift(Shift(Shift(Shift(Shift(Shift(Shift(c))))))))
  {
    hide Shift;
    var d := Shift(Shift(Shift(Shift(c))));
    assert Shifts(c, 8) == Shifts(d, 4);
  }

  // One byte, with the registers before and after it.
  predicate Takes(c: word, b: bv8, d: word) {
    Shift(Shift(Shift(Shift(Shift(Shift(Shift(Shift(X(c, Word(b)))))))))) == d
  }

  lemma FeedTakes(c: word, s: seq<bv8>, i: nat, b: bv8, d: word)
    requires i < |s| && s[i] == b && Takes(FeedAll(c, s[..i]), b, d)
    ensures FeedAll(c, s[..i + 1]) == d
  {
    hide Shift, X;
    assert s[..i + 1][..i] == s[..i];
    Eight(X(FeedAll(c, s[..i]), Word(b)));
  }

  lemma FeedNone(c: word, s: seq<bv8>)
    ensures FeedAll(c, s[..0]) == c
  {
  }

  // The register after the first four digits, and after all of them.
  lemma FourDigits(s: seq<bv8>)
    requires |s| == 9 && s[0] == 0x31 && s[1] == 0x32 && s[2] == 0x33 && s[3] == 0x34
    ensures FeedAll(0xffff_ffff, s[..4]) == 0x641c_1f5c
  {
    hide FeedAll, Takes;
    FirstFour();
    FeedNone(0xffff_ffff, s);
    FeedTakes(0xffff_ffff, s, 0, 0x31, 0x7c23_1048);
    FeedTakes(0xffff_ffff, s, 1, 0x32, 0xb0ac_bb32);
    FeedTakes(0xffff_ffff, s, 2, 0x33, 0x77b7_9c2d);
    FeedTakes(0xffff_ffff, s, 3, 0x34, 0x641c_1f5c);
  }

  lemma NineDigits(s: seq<bv8>)
    requires |s| == 9 && s[4] == 0x35 && s[5] == 0x36 && s[6] == 0x37 && s[7] == 0x38 && s[8] == 0x39
    requires FeedAll(0xffff_ffff, s[..4]) == 0x641c_1f5c
    ensures FeedAll(0xffff_ffff, s) == 0x340b_c6d9
  {
    hide FeedAll, Takes;
    LastFive();
    FeedTakes(0xffff_ffff, s, 4, 0x35, 0x340a_c5e3);
    FeedTakes(0xffff_ffff, s, 5, 0x36, 0xf68d_2c9e);
    FeedTakes(0xffff_ffff, s, 6, 0x37, 0xaffc_9660);
    FeedTakes(0xffff_ffff, s, 7, 0x38, 0x651f_2550);
    FeedTakes(0xffff_ffff, s, 8, 0x39, 0x340b_c6d9);
    assert s[..9] == s;
  }

  /** The check value: the CRC-32 of the nine digits 123456789. */
  lemma CheckValue()
    ensures CrcOf(0, [0x31, 0x32, 0x33, 0x34, 0x35, 0x36, 0x37, 0x38, 0x39]) == 0xcbf4_3926
  {
    hide FeedAll;
    var s: seq<bv8> := [0x31, 0x32, 0x33, 0x34, 0x35, 0x36, 0x37, 0x38, 0x39];
    FourDigits(s);
    NineDigits(s);
  }

  lemma FirstFour()
    ensures Takes(0xffff_ffff, 0x31, 0x7c23_1048)
    ensures Takes(0x7c23_1048, 0x32, 0xb0ac_bb32)
    ensures Takes(0xb0ac_bb32, 0x33, 0x77b7_9c2d)
    ensures Takes(0x77b7_9c2d, 0x34, 0x641c_1f5c)
  {
  }

  lemma LastFive()
    ensures Takes(0x641c_1f5c, 0x35, 0x340a_c5e3)
    ensures Takes(0x340a_c5e3, 0x36, 0xf68d_2c9e)
    ensures Takes(0xf68d_2c9e, 0x37, 0xaffc_9660)
    ensures Takes(0xaffc_9660, 0x38, 0x651f_2550)
    ensures Takes(0x651f_2550, 0x39, 0x340b_c6d9)
  {
  }

  // ----- the laws of the bit operations

  lemma XorAssoc(a: word, b: word, c: word)
    ensures X(X(a, b), c) == X(a, X(b, c))
  {}

  lemma XorComm(a: word, b: word)
    ensures X(a, b) == X(b, a)
  {}

  lemma XorSelf(a: word, b: word)
    ensures X(a, a) == 0 && X(a, 0) == a && X(0, a) == a && X(X(a, b), b) == a && X(a, X(a, b)) == b
  {}

  lemma XorFour(a: word, b: word, c: word, d: word)
    ensures X(X(a, b), X(c, d)) == X(X(a, c), X(b, d))
  {
    hide X;
    XorAssoc(a, b, X(c, d));
    XorAssoc(b, c, d);
    XorComm(b, c);
    XorAssoc(c, b, d);
    XorAssoc(a, c, X(b, d));
  }

  lemma NotNot(a: word)
    ensures Not(Not(a)) == a
  {
    hide X;
    XorSelf(a, 0xffff_ffff);
  }

  lemma NotXor(a: word, b: word)
    ensures Not(X(a, b)) == X(Not(a), b) && X(Not(a), Not(b)) == X(a, b)
  {
    hide X;
    var ones := 0xffff_ffff;
    XorAssoc(a, b, ones);
    XorComm(b, ones);
    XorAssoc(a, ones, b);
    XorFour(a, ones, b, ones);
    XorSelf(ones, 0);
    XorSelf(X(a, b), 0);
  }

  lemma HalfXor(a: word, b: word)
    ensures Half(X(a, b)) == X(Half(a), Half(b))
    ensures Odd(X(a, b)) == (Odd(a) != Odd(b))
  {
    var p, q := a & 1, b & 1;
    assert (a ^ b) & 1 == p ^ q;
    assert (p == 0 || p == 1) && (q == 0 || q == 1);
  }

  lemma HighXor(a: word, b: word)
    ensures High(X(a, b)) == X(High(a), High(b)) && Low(X(a, b)) == X(Low(a), Low(b))
  {}

  // ----- linearity

  lemma ShiftLinear(a: word, b: word)
    ensures Shift(X(a, b)) == X(Shift(a), Shift(b))
  {
    hide X, Half, Odd;
    HalfXor(a, b);
    XorSelf(POLY, Half(b));
    XorFour(POLY, Half(a), POLY, Half(b));
    XorSelf(POLY, POLY);
    XorSelf(X(Half(a), Half(b)), 0);
    XorAssoc(POLY, Half(a), Half(b));
    XorAssoc(Half(a), POLY, Half(b));
    XorComm(Half(a), POLY);
  }

  lemma {:induction false} ShiftsLinear(a: word, b: word, n: nat)
    ensures Shifts(X(a, b), n) == X(Shifts(a, n), Shifts(b, n))
    decreases n
  {
    hide X, Shift;
    if n != 0 {
      ShiftLinear(a, b);
      ShiftsLinear(Shift(a), Shift(b), n - 1);
    }
  }

  lemma {:induction false} ShiftsAdd(c: word, m: nat, n: nat)
    ensures Shifts(Shifts(c, m), n) == Shifts(c, m + n)
    decreases m
  {
    hide Shift;
    if m != 0 {
      ShiftsAdd(Shift(c), m - 1, n);
    }
  }

  lemma {:induction false} ShiftsZero(n: nat)
    ensures Shifts(0, n) == 0
    decreases n
  {
    if n != 0 {
      assert Shift(0) == 0;
      ShiftsZero(n - 1);
    }
  }

  lemma {:induction false} FeedAllAppend(c: word, x: seq<bv8>, y: seq<bv8>)
    ensures FeedAll(c, x + y) == FeedAll(FeedAll(c, x), y)
    decreases |y|
  {
    hide Feed;
    if y == [] {
      assert x + y == x;
    } else {
      var n := |y| - 1;
      assert (x + y)[..|x + y| - 1] == x + y[..n];
      FeedAllAppend(c, x, y[..n]);
    }
  }

  /** The CRC of data fed in pieces is the CRC of the whole. */
  lemma SplitCalls(crc: word, x: seq<bv8>, y: seq<bv8>)
    ensures CrcOf(CrcOf(crc, x), y) == CrcOf(crc, x + y)
  {
    hide Not, FeedAll;
    FeedAllAppend(Not(crc), x, y);
    NotNot(FeedAll(Not(crc), x));
  }

  // ----- low zero bits shift out without touching the polynomial

  function Halves(c: word, n: nat): word {
    if n == 0 then c else Halves(Half(c), n - 1)
  }

  // The low n bits are zero.
  predicate Even(c: word, n: nat) {
    n == 0 || (!Odd(c) && Even(Half(c), n - 1))
  }

  lemma {:induction false} EvenShifts(c: word, n: nat)
    requires Even(c, n)
    ensures Shifts(c, n) == Halves(c, n)
    decreases n
  {
    hide Half, Odd, X;
    if n != 0 {
      EvenShifts(Half(c), n - 1);
    }
  }

  lemma ByteBits(c: word)
    requires Low(c) == 0
    ensures !Odd(c) && !Odd(c >> 1) && !Odd(c >> 2) && !Odd(c >> 3)
    ensures !Odd(c >> 4) && !Odd(c >> 5) && !Odd(c >> 6) && !Odd(c >> 7)
  {}

  lemma ByteHalves(c: word)
    ensures Half(c) == c >> 1 && Half(c >> 1) == c >> 2 && Half(c >> 2) == c >> 3 && Half(c >> 3) == c >> 4
    ensures Half(c >> 4) == c >> 5 && Half(c >> 5) == c >> 6 && Half(c >> 6) == c >> 7 && Half(c >> 7) == High(c)
  {}

  lemma ByteEven(c: word, c1: word, c2: word, c3: word, c4: word, c5: word, c6: word, c7: word, c8: word)
    requires !Odd(c) && !Odd(c1) && !Odd(c2) && !Odd(c3) && !Odd(c4) && !Odd(c5) && !Odd(c6) && !Odd(c7)
    requires Half(c) == c1 && Half(c1) == c2 && Half(c2) == c3 && Half(c3) == c4
    requires Half(c4) == c5 && Half(c5) == c6 && Half(c6) == c7 && Half(c7) == c8
    ensures Even(c, 8) && Halves(c, 8) == c8
  {
    hide Half, Odd;
    assert Even(c8, 0) && Halves(c8, 0) == c8;
    assert Even(c7, 1) && Halves(c7, 1) == c8;
    assert Even(c6, 2) && Halves(c6, 2) == c8;
    assert Even(c5, 3) && Halves(c5, 3) == c8;
    assert Even(c4, 4) && Halves(c4, 4) == c8;
    assert Even(c3, 5) && Halves(c3, 5) == c8;
    assert Even(c2, 6) && Halves(c2, 6) == c8;
    assert Even(c1, 7) && Halves(c1, 7) == c8;
  }

  lemma ByteOut(c: word)
    requires Low(c) == 0
    ensures Shifts(c, 8) == High(c)
  {
    ByteBits(c);
    ByteHalves(c);
    ByteEven(c, c >> 1, c >> 2, c >> 3, c >> 4, c >> 5, c >> 6, c >> 7, High(c));
    hide *;
    EvenShifts(c, 8);
  }

  // A register without its low byte.
  function Upper(c: word): word { c & 0xffff_ff00 }

  lemma SplitLowByte(c: word)
    ensures c == X(Low(c), Upper(c)) && Low(Upper(c)) == 0 && High(Upper(c)) == High(c)
  {}

  /** The identity behind every table: eight steps act on the low byte through a
      table and shift the rest down. */
  lemma TableStep(c: word)
    ensures Shifts(c, 8) == X(Shifts(Low(c), 8), High(c))
  {
    SplitLowByte(c);
    hide *;
    ShiftsLinear(Low(c), Upper(c), 8);
    ByteOut(Upper(c));
  }

  // ----- the tables

  // A table index: the value of a register that holds one byte.
  function Index(c: word): int {
    c as int
  }

  lemma IndexBound(c: word)
    requires Low(c) == c
    ensures 0 <= Index(c) < 256 && Index(c) as word == c
  {
    assert (c & 0xff) as int < 256;
  }

  lemma LowLow(c: word)
    ensures Low(Low(c)) == Low(c) && Low(c >> 24) == c >> 24
  {}

  // ZSWAP32
  function Swap(q: word): word {
    ((q >> 24) & 0xff) + ((q >> 8) & 0xff00) + ((q & 0xff00) << 8) + ((q & 0xff) << 24)
  }

  // Tables 0 to 3: byte n followed by k zero bytes; tables 4 to 7 are those, byte-swapped.
  function Entry(k: nat, n: nat): word
    requires k < 8 && n < 256
  {
    if k < 4 then Shifts(n as word, 8 * (k + 1)) else Swap(Shifts(n as word, 8 * (k - 3)))
  }

  ghost predicate TablesOk(t: array2<word>)
    reads t
  {
    && t.Length0 == 8 && t.Length1 == 256
    && forall k, n :: 0 <= k < 8 && 0 <= n < 256 ==> t[k, n] == Entry(k, n)
  }

  // The pattern after the first n exponents have been set.
  const PARTIAL: seq<word> := [
    0, 0x8000_0000, 0xc000_0000, 0xe000_0000, 0xe800_0000, 0xec00_0000, 0xed00_0000, 0xed80_0000,
    0xeda0_0000, 0xedb0_0000, 0xedb8_0000, 0xedb8_8000, 0xedb8_8200, 0xedb8_8300, 0xedb8_8320
  ]

  // The exclusive-or pattern from the exponents of the polynomial.
  method MakePoly() returns (poly: word)
    ensures poly == POLY
  {
    var p: seq<bv6> := [0, 1, 2, 4, 5, 7, 8, 10, 11, 12, 16, 22, 23, 26];
    poly := 0;
    var n := 0;
    while n < |p|
      invariant 0 <= n <= |p| && poly == PARTIAL[n]
    {
      poly := poly | (1 << (31 - p[n]));
      n := n + 1;
    }
  }

  // The register after eight steps, with the pattern computed at run time.
  method EightSteps(poly: word, n: word) returns (c: word)
    requires poly == POLY
    ensures c == Shifts(n, 8)
  {
    hide X, Half, Odd;
    c := n;
    var k := 0;
    while k < 8
      invariant 0 <= k <= 8 && Shifts(c, 8 - k) == Shifts(n, 8)
    {
      c := if Odd(c) then X(poly, Half(c)) else Half(c);
      k := k + 1;
    }
  }

  /** Tables 1 to 3 extend the byte by zero bytes: one table step each. */
  lemma NextEntry(k: nat, n: nat)
    requires k < 3 && n < 256
    ensures var c := Entry(k, n); X(Shifts(Low(c), 8), High(c)) == Entry(k + 1, n)
  {
    hide Shifts, Low, High, X;
    TableStep(Entry(k, n));
    ShiftsAdd(n as word, 8 * (k + 1), 8);
  }

  lemma Entries(n: nat)
    requires n < 256
    ensures Entry(0, n) == Shifts(n as word, 8)
    ensures forall k :: 0 <= k < 4 ==> Entry(k + 4, n) == Swap(Entry(k, n))
  {
    hide Shifts, Swap;
  }

  // One table step of a register.
  method Lookup(t: array2<word>, c: word) returns (r: word)
    requires t.Length0 == 8 && t.Length1 == 256
    requires forall i :: 0 <= i < 256 ==> t[0, i] == Entry(0, i)
    ensures r == X(Shifts(Low(c), 8), High(c))
  {
    hide Shifts, X, Low, High, Index, Entry;
    LowLow(c);
    IndexBound(Low(c));
    Entries(Index(Low(c)));
    r := X(t[0, Index(Low(c))], High(c));
  }

  // Tables 1 to 7 for byte n, from table 0.
  method FillColumn(t: array2<word>, n: nat)
    requires t.Length0 == 8 && t.Length1 == 256 && n < 256
    requires forall i :: 0 <= i < 256 ==> t[0, i] == Entry(0, i)
    modifies t
    ensures forall k, i :: 0 <= k < 8 && 0 <= i < 256 && i != n ==> t[k, i] == old(t[k, i])
    ensures forall k :: 0 <= k < 8 ==> t[k, n] == Entry(k, n)
  {
    hide Shifts, Swap, X, Low, High, Index, Entry;
    Entries(n);
    var c := t[0, n];
    t[4, n] := Swap(c);
    var k := 1;
    while k < 4
      invariant 1 <= k <= 4 && c == Entry(k - 1, n)
      invariant forall j, i :: 0 <= j < 8 && 0 <= i < 256 && i != n ==> t[j, i] == old(t[j, i])
      invariant forall j :: 0 <= j < k ==> t[j, n] == Entry(j, n)
      invariant forall j :: 4 <= j < k + 4 ==> t[j, n] == Entry(j, n)
    {
      NextEntry(k - 1, n);
      c := Lookup(t, c);
      FillPair(t, k, n, c);
      k := k + 1;
    }
  }

  method FillPair(t: array2<word>, k: nat, n: nat, c: word)
    requires t.Length0 == 8 && t.Length1 == 256 && k < 4 && n < 256
    modifies t
    ensures t[k, n] == c && t[k + 4, n] == Swap(c)
    ensures forall j, i :: 0 <= j < 8 && 0 <= i < 256 && (i != n || (j != k && j != k + 4)) ==> t[j, i] == old(t[j, i])
  {
    t[k, n] := c;
    t[k + 4, n] := Swap(c);
  }

  // Table 0: the register after eight steps from each byte.
  method FillFirst(t: array2<word>)
    requires t.Length0 == 8 && t.Length1 == 256
    modifies t
    ensures forall i :: 0 <= i < 256 ==> t[0, i] == Entry(0, i)
  {
    hide Shifts, Entry, Swap;
    var poly := MakePoly();
    var n := 0;
    while n < 256
      invariant 0 <= n <= 256
      invariant forall i :: 0 <= i < n ==> t[0, i] == Entry(0, i)
    {
      Entries(n);
      t[0, n] := EightSteps(poly, n as word);
      n := n + 1;
    }
  }

  /** make_crc_table. */
  method MakeCrcTable() returns (t: array2<word>)
    ensures TablesOk(t) && fresh(t)
  {
    hide Entry;
    t := new word[8, 256];
    FillFirst(t);
    var n := 0;
    while n < 256
      invariant 0 <= n <= 256
      invariant forall i :: 0 <= i < 256 ==> t[0, i] == Entry(0, i)
      invariant forall k, i :: 0 <= k < 8 && 0 <= i < n ==> t[k, i] == Entry(k, i)
    {
      FillColumn(t, n);
      n := n + 1;
    }
  }

  // ----- words

  function Up(c: word): word { c << 8 }

  // Four bytes in memory read as a little-endian word.
  function LittleWord(b0: bv8, b1: bv8, b2: bv8, b3: bv8): word {
    X(Word(b0), Up(X(Word(b1), Up(X(Word(b2), Up(Word(b3)))))))
  }

  // The same four bytes read as a big-endian word.
  function BigWord(b0: bv8, b1: bv8, b2: bv8, b3: bv8): word {
    X(Word(b3), Up(X(Word(b2), Up(X(Word(b1), Up(Word(b0)))))))
  }

  lemma WordByte(b: bv8)
    ensures Low(Word(b)) == Word(b) && High(Word(b)) == 0
  {}

  lemma UpFits(b1: bv8, b2: bv8, b3: bv8)
    ensures High(Up(Word(b3))) == Word(b3) && Low(Up(Word(b3))) == 0
    ensures High(Up(X(Word(b2), Up(Word(b3))))) == X(Word(b2), Up(Word(b3)))
    ensures High(Up(X(Word(b1), Up(X(Word(b2), Up(Word(b3))))))) == X(Word(b1), Up(X(Word(b2), Up(Word(b3)))))
  {}

  lemma UpLow(c: word)
    ensures Low(Up(c)) == 0
  {}

  /** The byte step of the table loop is eight shift-register steps. */
  lemma FeedIsLookup(c: word, b: bv8)
    ensures Feed(c, b) == X(Shifts(Low(X(c, Word(b))), 8), High(c))
  {
    WordByte(b);
    hide X, Shifts, Low, High, Word;
    TableStep(X(c, Word(b)));
    HighXor(c, Word(b));
    XorSelf(High(c), 0);
  }

  // Feeding a byte to a register that already contains the rest of the word.
  lemma FeedWord(c: word, b: bv8, r: word)
    requires High(Up(r)) == r
    ensures Shifts(X(c, X(Word(b), Up(r))), 8) == X(Feed(c, b), r)
  {
    UpLow(r);
    hide X, Shifts, Low, High, Word, Up;
    XorAssoc(c, Word(b), Up(r));
    ShiftsLinear(X(c, Word(b)), Up(r), 8);
    ByteOut(Up(r));
  }

  lemma FeedLast(c: word, b: bv8)
    ensures Shifts(X(c, Word(b)), 8) == Feed(c, b)
  {
  }

  /** Four bytes at once: exclusive-or the word in, then 32 steps. */
  lemma FourBytes(c: word, b0: bv8, b1: bv8, b2: bv8, b3: bv8)
    ensures Shifts(X(c, LittleWord(b0, b1, b2, b3)), 32) == FeedAll(c, [b0, b1, b2, b3])
  {
    UpFits(b1, b2, b3);
    hide X, Shifts, Low, High, Word, Up, Feed;
    var r3 := Word(b3);
    var r2 := X(Word(b2), Up(r3));
    var r1 := X(Word(b1), Up(r2));
    var d := X(c, LittleWord(b0, b1, b2, b3));
    FeedWord(c, b0, r1);
    ShiftsAdd(d, 8, 24);
    var c1 := Feed(c, b0);
    FeedWord(c1, b1, r2);
    ShiftsAdd(X(c1, r1), 8, 16);
    var c2 := Feed(c1, b1);
    FeedWord(c2, b2, r3);
    ShiftsAdd(X(c2, r2), 8, 8);
    var c3 := Feed(c2, b2);
    FeedLast(c3, b3);
    FeedFour(c, b0, b1, b2, b3);
  }

  lemma FeedFour(c: word, b0: bv8, b1: bv8, b2: bv8, b3: bv8)
    ensures FeedAll(c, [b0, b1, b2, b3]) == Feed(Feed(Feed(Feed(c, b0), b1), b2), b3)
  {
    hide Feed;
    assert [b0, b1, b2, b3][..3] == [b0, b1, b2];
    assert [b0, b1, b2][..2] == [b0, b1];
    assert [b0, b1][..1] == [b0];
    assert [b0][..0] == [];
    assert FeedAll(c, [b0]) == Feed(c, b0);
    assert FeedAll(c, [b0, b1]) == Feed(Feed(c, b0), b1);
    assert FeedAll(c, [b0, b1, b2]) == Feed(Feed(Feed(c, b0), b1), b2);
  }

  // Split off the low byte of a register that still has n + 8 steps to go.
  lemma Peel(d: word, n: nat)
    ensures Shifts(d, n + 8) == X(Shifts(Low(d), n + 8), Shifts(High(d), n))
  {
    hide X, Shifts, Low, High;
    ShiftsAdd(d, 8, n);
    ShiftsAdd(Low(d), 8, n);
    TableStep(d);
    ShiftsLinear(Shifts(Low(d), 8), High(d), n);
  }

  /** 32 steps through four tables: the slicing identity. */
  lemma FourTables(d: word)
    ensures Shifts(d, 32) == X(X(X(Shifts(Low(d), 32), Shifts(Low(High(d)), 24)),
                                 Shifts(Low(High(High(d))), 16)), Shifts(High(High(High(d))), 8))
  {
    hide X, Shifts, Low, High;
    Peel(d, 24);
    Peel(High(d), 16);
    Peel(High(High(d)), 8);
    var p, q := Shifts(Low(d), 32), Shifts(Low(High(d)), 24);
    var r, s := Shifts(Low(High(High(d))), 16), Shifts(High(High(High(d))), 8);
    XorAssoc(p, q, X(r, s));
    XorAssoc(X(p, q), r, s);
  }

  lemma TopByte(d: word)
    ensures Low(High(High(High(d)))) == High(High(High(d)))
  {}

  // ----- byte-swapped registers

  lemma SwapXor(a: word, b: word)
    ensures Swap(X(a, b)) == X(Swap(a), Swap(b))
  {}

  lemma SwapSwap(a: word)
    ensures Swap(Swap(a)) == a
  {}

  lemma SwapNot(a: word)
    ensures Swap(Not(a)) == Not(Swap(a))
  {}

  lemma SwapBytes(d: word)
    ensures Low(Swap(d)) == High(High(High(d))) && Low(High(Swap(d))) == Low(High(High(d)))
    ensures Low(High(High(Swap(d)))) == Low(High(d)) && High(High(High(Swap(d)))) == Low(d)
    ensures Up(Swap(d)) == Swap(High(d))
  {}

  lemma BigIsSwapped(b0: bv8, b1: bv8, b2: bv8, b3: bv8)
    ensures BigWord(b0, b1, b2, b3) == Swap(LittleWord(b0, b1, b2, b3))
  {}

  // ----- the loops of crc32

  // An entry of table k, indexed by a register holding one byte.
  method At(t: array2<word>, k: nat, c: word) returns (r: word)
    requires TablesOk(t) && k < 8 && Low(c) == c
    ensures k < 4 ==> r == Shifts(c, 8 * (k + 1))
    ensures k >= 4 ==> r == Swap(Shifts(c, 8 * (k - 3)))
  {
    hide Shifts, Swap, Low, Index;
    IndexBound(c);
    r := t[k, Index(c)];
  }

  // DO1: one byte through table 0.
  method ByteStep(t: array2<word>, c: word, b: bv8) returns (r: word)
    requires TablesOk(t)
    ensures r == Feed(c, b)
  {
    hide Shifts, X, Low, High, Word, TablesOk;
    var d := X(c, Word(b));
    LowLow(d);
    FeedIsLookup(c, b);
    r := At(t, 0, Low(d));
    r := X(r, High(c));
  }

  // DOLIT4: four bytes through tables 3 to 0.
  method WordStep(t: array2<word>, c: word, w: word) returns (r: word)
    requires TablesOk(t)
    ensures r == Shifts(X(c, w), 32)
  {
    hide Shifts, X, Low, High, TablesOk;
    var d := X(c, w);
    LowLow(d);
    LowLow(High(d));
    LowLow(High(High(d)));
    TopByte(d);
    FourTables(d);
    var p := At(t, 3, Low(d));
    var q := At(t, 2, Low(High(d)));
    var u := At(t, 1, Low(High(High(d))));
    var v := At(t, 0, High(High(High(d))));
    r := X(X(X(p, q), u), v);
  }

  lemma FeedNext(c: word, s: seq<bv8>, i: nat)
    requires i < |s|
    ensures FeedAll(c, s[..i + 1]) == Feed(FeedAll(c, s[..i]), s[i])
  {
    hide Feed;
    assert s[..i + 1][..i] == s[..i];
  }

  lemma FeedNextFour(c: word, s: seq<bv8>, i: nat)
    requires i + 4 <= |s|
    ensures FeedAll(c, s[..i + 4]) ==
            Shifts(X(FeedAll(c, s[..i]), LittleWord(s[i], s[i + 1], s[i + 2], s[i + 3])), 32)
  {
    hide Feed, Shifts, X, LittleWord;
    assert s[..i + 4] == s[..i] + [s[i], s[i + 1], s[i + 2], s[i + 3]];
    FeedAllAppend(c, s[..i], [s[i], s[i + 1], s[i + 2], s[i + 3]]);
    FourBytes(FeedAll(c, s[..i]), s[i], s[i + 1], s[i + 2], s[i + 3]);
  }

  // Bytes i.. up to (not including) j, one at a time.
  method Bytes(t: array2<word>, c: word, s: seq<bv8>, i: nat, j: nat, ghost c0: word) returns (r: word)
    requires TablesOk(t) && i <= j <= |s| && c == FeedAll(c0, s[..i])
    ensures r == FeedAll(c0, s[..j])
  {
    hide Feed, FeedAll, TablesOk;
    r := c;
    var n := i;
    while n < j
      invariant i <= n <= j && r == FeedAll(c0, s[..n])
    {
      FeedNext(c0, s, n);
      r := ByteStep(t, r, s[n]);
      n := n + 1;
    }
  }

  // Words from byte i on, `count` of them.
  method LittleWords(t: array2<word>, c: word, s: seq<bv8>, i: nat, count: nat, ghost c0: word, ghost addr: nat)
      returns (r: word)
    requires TablesOk(t) && i + 4 * count <= |s| && c == FeedAll(c0, s[..i]) && (addr + i) % 4 == 0
    ensures r == FeedAll(c0, s[..i + 4 * count])
  {
    hide FeedAll, TablesOk, LittleWord, Shifts, X;
    r := c;
    var n := 0;
    while n < count
      invariant 0 <= n <= count && r == FeedAll(c0, s[..i + 4 * n])
    {
      var k := i + 4 * n;
      FeedNextFour(c0, s, k);
      r := WordStep(t, r, LittleWord(s[k], s[k + 1], s[k + 2], s[k + 3]));
      n := n + 1;
    }
  }

  // The plain loop, eight bytes per round and then the rest.
  method Crc32Bytes(t: array2<word>, crc: word, s: seq<bv8>) returns (r: word)
    requires TablesOk(t)
    ensures r == CrcOf(crc, s)
  {
    hide FeedAll, TablesOk, Not;
    var c := Not(crc);
    FeedStart(c, s);
    var i := 0;
    while |s| - i >= 8
      invariant 0 <= i <= |s| && c == FeedAll(Not(crc), s[..i])
    {
      c := Bytes(t, c, s, i, i + 8, Not(crc));
      i := i + 8;
    }
    c := Bytes(t, c, s, i, |s|, Not(crc));
    assert s[..|s|] == s;
    r := Not(c);
  }

  lemma FeedStart(c: word, s: seq<bv8>)
    ensures FeedAll(c, s[..0]) == c
  {
    assert s[..0] == [];
  }

  /** crc32_little: single bytes up to a word boundary (addr is the address of the
      buffer), then 32 and 4 bytes at a time, then the rest. */
  method Crc32Little(t: array2<word>, crc: word, s: seq<bv8>, addr: nat) returns (r: word)
    requires TablesOk(t)
    ensures r == CrcOf(crc, s)
  {
    hide FeedAll, TablesOk, Not;
    ghost var c0 := Not(crc);
    var c := Not(crc);
    FeedStart(c, s);
    var i := 0;
    while i < |s| && (addr + i) % 4 != 0
      invariant 0 <= i <= |s| && c == FeedAll(c0, s[..i])
    {
      c := Bytes(t, c, s, i, i + 1, c0);
      i := i + 1;
    }
    while |s| - i >= 32
      invariant 0 <= i <= |s| && c == FeedAll(c0, s[..i]) && (i < |s| ==> (addr + i) % 4 == 0)
    {
      c := LittleWords(t, c, s, i, 8, c0, addr);
      i := i + 32;
    }
    while |s| - i >= 4
      invariant 0 <= i <= |s| && c == FeedAll(c0, s[..i]) && (i < |s| ==> (addr + i) % 4 == 0)
    {
      c := LittleWords(t, c, s, i, 1, c0, addr);
      i := i + 4;
    }
    c := Bytes(t, c, s, i, |s|, c0);
    assert s[..|s|] == s;
    r := Not(c);
  }

  // A byte on a byte-swapped register, through table 4.
  method BigByteStep(t: array2<word>, c: word, b: bv8, ghost plain: word) returns (r: word)
    requires TablesOk(t) && c == Swap(plain)
    ensures r == Swap(Feed(plain, b))
  {
    hide Shifts, X, Low, High, Word, TablesOk, Swap, Up;
    SwapBytes(plain);
    WordByte(b);
    HighXor(plain, Word(b));
    LowLow(plain);
    LowLow(X(plain, Word(b)));
    FeedIsLookup(plain, b);
    SwapXor(Shifts(Low(X(plain, Word(b))), 8), High(plain));
    r := At(t, 4, X(High(High(High(c))), Word(b)));
    r := X(r, Up(c));
  }

  // DOBIG4: a big-endian word on a byte-swapped register, through tables 4 to 7.
  method BigWordStep(t: array2<word>, c: word, w: word, ghost plain: word, ghost v: word) returns (r: word)
    requires TablesOk(t) && c == Swap(plain) && w == Swap(v)
    ensures r == Swap(Shifts(X(plain, v), 32))
  {
    hide Shifts, X, Low, High, TablesOk, Swap;
    var e := X(c, w);
    ghost var d := X(plain, v);
    SwapXor(plain, v);
    SwapBytes(d);
    LowLow(d);
    LowLow(High(d));
    LowLow(High(High(d)));
    TopByte(d);
    FourTables(d);
    var p := At(t, 4, Low(e));
    var q := At(t, 5, Low(High(e)));
    var u := At(t, 6, Low(High(High(e))));
    var z := At(t, 7, High(High(High(e))));
    r := X(X(X(p, q), u), z);
    SwapFour(Shifts(Low(d), 32), Shifts(Low(High(d)), 24), Shifts(Low(High(High(d))), 16),
             Shifts(High(High(High(d))), 8));
  }

  // The four table entries come in the opposite order.
  lemma SwapFour(p: word, q: word, u: word, z: word)
    ensures X(X(X(Swap(z), Swap(u)), Swap(q)), Swap(p)) == Swap(X(X(X(p, q), u), z))
  {
    hide X, Swap;
    SwapXor(p, q);
    SwapXor(X(p, q), u);
    SwapXor(X(X(p, q), u), z);
    var a, b, c, d := Swap(p), Swap(q), Swap(u), Swap(z);
    XorComm(X(X(a, b), c), d);
    XorComm(X(a, b), c);
    XorComm(a, b);
    XorAssoc(d, c, X(b, a));
    XorAssoc(X(d, c), b, a);
  }

  method BigBytes(t: array2<word>, c: word, s: seq<bv8>, i: nat, j: nat, ghost c0: word) returns (r: word)
    requires TablesOk(t) && i <= j <= |s| && c == Swap(FeedAll(c0, s[..i]))
    ensures r == Swap(FeedAll(c0, s[..j]))
  {
    hide Feed, FeedAll, TablesOk, Swap;
    r := c;
    var n := i;
    while n < j
      invariant i <= n <= j && r == Swap(FeedAll(c0, s[..n]))
    {
      FeedNext(c0, s, n);
      r := BigByteStep(t, r, s[n], FeedAll(c0, s[..n]));
      n := n + 1;
    }
  }

  method BigWords(t: array2<word>, c: word, s: seq<bv8>, i: nat, count: nat, ghost c0: word, ghost addr: nat)
      returns (r: word)
    requires TablesOk(t) && i + 4 * count <= |s| && c == Swap(FeedAll(c0, s[..i])) && (addr + i) % 4 == 0
    ensures r == Swap(FeedAll(c0, s[..i + 4 * count]))
  {
    hide FeedAll, TablesOk, LittleWord, BigWord, Shifts, X, Swap;
    r := c;
    var n := 0;
    while n < count
      invariant 0 <= n <= count && r == Swap(FeedAll(c0, s[..i + 4 * n]))
    {
      var k := i + 4 * n;
      FeedNextFour(c0, s, k);
      BigIsSwapped(s[k], s[k + 1], s[k + 2], s[k + 3]);
      r := BigWordStep(t, r, BigWord(s[k], s[k + 1], s[k + 2], s[k + 3]),
                       FeedAll(c0, s[..k]), LittleWord(s[k], s[k + 1], s[k + 2], s[k + 3]));
      n := n + 1;
    }
  }

  /** crc32_big: the same on a byte-swapped register. */
  method Crc32Big(t: array2<word>, crc: word, s: seq<bv8>, addr: nat) returns (r: word)
    requires TablesOk(t)
    ensures r == CrcOf(crc, s)
  {
    hide FeedAll, TablesOk, Not, Swap;
    ghost var c0 := Not(crc);
    SwapNot(crc);
    var c := Not(Swap(crc));
    FeedStart(c0, s);
    var i := 0;
    while i < |s| && (addr + i) % 4 != 0
      invariant 0 <= i <= |s| && c == Swap(FeedAll(c0, s[..i]))
    {
      c := BigBytes(t, c, s, i, i + 1, c0);
      i := i + 1;
    }
    while |s| - i >= 32
      invariant 0 <= i <= |s| && c == Swap(FeedAll(c0, s[..i])) && (i < |s| ==> (addr + i) % 4 == 0)
    {
      c := BigWords(t, c, s, i, 8, c0, addr);
      i := i + 32;
    }
    while |s| - i >= 4
      invariant 0 <= i <= |s| && c == Swap(FeedAll(c0, s[..i])) && (i < |s| ==> (addr + i) % 4 == 0)
    {
      c := BigWords(t, c, s, i, 1, c0, addr);
      i := i + 4;
    }
    c := BigBytes(t, c, s, i, |s|, c0);
    assert s[..|s|] == s;
    SwapNot(FeedAll(c0, s));
    SwapSwap(Not(FeedAll(c0, s)));
    c := Not(c);
    r := Swap(c);
  }

  /** crc32: a null buffer gives the initial value; otherwise every variant gives
      the CRC of the shift register. */
  method Crc32(t: array2<word>, crc: word, s: seq<bv8>, isNull: bool, byFour: bool, little: bool, addr: nat)
    returns (r: word)
    requires TablesOk(t) && (isNull ==> s == [])
    ensures r == if isNull then 0 else CrcOf(crc, s)
  {
    hide CrcOf, TablesOk;
    if isNull {
      return 0;
    }
    if byFour {
      if little {
        r := Crc32Little(t, crc, s, addr);
      } else {
        r := Crc32Big(t, crc, s, addr);
      }
    } else {
      r := Crc32Bytes(t, crc, s);
    }
  }

  // ----- GF(2) matrices

  const GF2_DIM := 32

  function Dbl(c: word): word { c << 1 }

  // The i-th unit vector.
  function Bit(i: nat): word
    requires i < GF2_DIM
  {
    (1 as word) << (i as bv8)
  }

  lemma BitNext(i: nat)
    requires i + 1 < GF2_DIM
    ensures Bit(i + 1) == Dbl(Bit(i)) && !Odd(Bit(i + 1)) && Half(Bit(i + 1)) == Bit(i)
  {
    IndexNext(i);
    BitShift(i as bv8);
  }

  lemma IndexNext(i: nat)
    requires i + 1 < GF2_DIM
    ensures (i + 1) as bv8 == (i as bv8) + 1 && (i as bv8) < 31
  {}

  lemma BitShift(k: bv8)
    requires k < 31
    ensures ((1 as word) << (k + 1)) == ((1 as word) << k) << 1
    ensures ((1 as word) << (k + 1)) >> 1 == (1 as word) << k
    ensures ((1 as word) << (k + 1)) & 1 == 0
  {}

  // The product of a matrix and a vector, from row i on.
  function TimesFrom(mat: seq<word>, vec: word, i: nat): word
    requires |mat| == GF2_DIM
    decreases GF2_DIM - i
  {
    if i >= GF2_DIM then 0
    else X(if Odd(vec) then mat[i] else 0, TimesFrom(mat, Half(vec), i + 1))
  }

  // The matrix of the operator "n more zero bits".
  ghost predicate Represents(mat: seq<word>, n: nat) {
    |mat| == GF2_DIM && forall i :: 0 <= i < GF2_DIM ==> mat[i] == Shifts(Bit(i), n)
  }

  // vec moved up by i bits.
  function Lift(vec: word, i: nat): word
    decreases i
  {
    if i == 0 then vec else Lift(Dbl(vec), i - 1)
  }

  lemma DblXor(a: word, b: word)
    ensures Dbl(X(a, b)) == X(Dbl(a), Dbl(b)) && Dbl(0) == 0
  {}

  lemma {:induction false} LiftXor(a: word, b: word, i: nat)
    ensures Lift(X(a, b), i) == X(Lift(a, i), Lift(b, i))
    decreases i
  {
    hide X, Dbl;
    if i != 0 {
      DblXor(a, b);
      LiftXor(Dbl(a), Dbl(b), i - 1);
    }
  }

  lemma {:induction false} LiftDbl(a: word, i: nat)
    ensures Lift(Dbl(a), i) == Dbl(Lift(a, i))
    decreases i
  {
    hide Dbl;
    if i != 0 {
      LiftDbl(Dbl(a), i - 1);
    }
  }

  lemma {:induction false} LiftZero(i: nat)
    ensures Lift(0, i) == 0
    decreases i
  {
    if i != 0 {
      DblXor(0, 0);
      LiftZero(i - 1);
    }
  }

  lemma BitZero()
    ensures Bit(0) == 1
  {
    assert 0 as bv8 == 0;
  }

  lemma {:induction false} LiftOne(i: nat)
    requires i < GF2_DIM
    ensures Lift(1, i) == Bit(i)
  {
    hide Dbl, Bit;
    BitZero();
    if i != 0 {
      LiftOne(i - 1);
      LiftDbl(1, i - 1);
      BitNext(i - 1);
    }
  }

  lemma OddEven(v: word)
    ensures v == X(if Odd(v) then 1 else 0, Dbl(Half(v)))
  {
    assert v & 1 == 0 || v & 1 == 1;
  }

  /** A matrix that represents n zero bits multiplies like n shift-register steps. */
  lemma {:induction false} TimesIsShifts(mat: seq<word>, n: nat, vec: word, i: nat)
    requires Represents(mat, n) && i <= GF2_DIM && Halves(vec, GF2_DIM - i) == 0
    ensures TimesFrom(mat, vec, i) == Shifts(Lift(vec, i), n)
    decreases GF2_DIM - i
  {
    hide X, Half, Odd, Dbl, Shifts, Bit, Lift;
    if i == GF2_DIM {
      LiftZero(i);
      ShiftsZero(n);
    } else {
      OddEven(vec);
      var low: word := if Odd(vec) then 1 else 0;
      LiftXor(low, Dbl(Half(vec)), i);
      LiftStep(Half(vec), i);
      LiftOne(i);
      LiftZero(i);
      ShiftsZero(n);
      ShiftsLinear(Lift(low, i), Lift(Half(vec), i + 1), n);
      TimesIsShifts(mat, n, Half(vec), i + 1);
    }
  }

  lemma LiftStep(a: word, i: nat)
    ensures Lift(Dbl(a), i) == Lift(a, i + 1)
  {
  }

  lemma {:induction false} HalvesAdd(c: word, m: nat, n: nat)
    ensures Halves(Halves(c, m), n) == Halves(c, m + n)
    decreases m
  {
    hide Half;
    if m != 0 {
      HalvesAdd(Half(c), m - 1, n);
    }
  }

  lemma HalvesEight(c: word)
    ensures Halves(c, 8) == High(c)
  {
    ByteHalves(c);
    HalvesChain(c, c >> 1, c >> 2, c >> 3, c >> 4, c >> 5, c >> 6, c >> 7, High(c));
  }

  lemma HalvesChain(c: word, c1: word, c2: word, c3: word, c4: word, c5: word, c6: word, c7: word, c8: word)
    requires Half(c) == c1 && Half(c1) == c2 && Half(c2) == c3 && Half(c3) == c4
    requires Half(c4) == c5 && Half(c5) == c6 && Half(c6) == c7 && Half(c7) == c8
    ensures Halves(c, 8) == c8
  {
    hide Half;
    assert Halves(c8, 0) == c8;
    assert Halves(c7, 1) == c8;
    assert Halves(c6, 2) == c8;
    assert Halves(c5, 3) == c8;
    assert Halves(c4, 4) == c8;
    assert Halves(c3, 5) == c8;
    assert Halves(c2, 6) == c8;
    assert Halves(c1, 7) == c8;
  }

  lemma HighFour(c: word)
    ensures High(High(High(High(c)))) == 0
  {}

  lemma WordWidth(c: word)
    ensures Halves(c, GF2_DIM) == 0
  {
    hide Half, High;
    HalvesEight(c);
    HalvesEight(High(c));
    HalvesEight(High(High(c)));
    HalvesEight(High(High(High(c))));
    HalvesAdd(c, 8, 8);
    HalvesAdd(c, 16, 8);
    HalvesAdd(c, 24, 8);
    HighFour(c);
  }

  /** gf2_matrix_times: the loop stops when no bits are left, never past row 31. */
  method Gf2MatrixTimes(mat: array<word>, vec: word) returns (sum: word)
    requires mat.Length == GF2_DIM
    ensures sum == TimesFrom(mat[..], vec, 0)
  {
    hide X, Half, Odd;
    WordWidth(vec);
    ghost var m := mat[..];
    var v := vec;
    var i := 0;
    sum := 0;
    XorSelf(TimesFrom(m, vec, 0), 0);
    while v != 0
      invariant 0 <= i <= GF2_DIM && Halves(v, GF2_DIM - i) == 0
      invariant X(sum, TimesFrom(m, v, i)) == TimesFrom(m, vec, 0)
      decreases GF2_DIM - i
    {
      ghost var rest := TimesFrom(m, Half(v), i + 1);
      XorAssoc(sum, m[i], rest);
      XorSelf(rest, 0);
      if Odd(v) {
        sum := X(sum, mat[i]);
      }
      v := Half(v);
      i := i + 1;
    }
    TimesNothing(m, i);
    XorSelf(sum, 0);
  }

  lemma {:induction false} TimesNothing(mat: seq<word>, i: nat)
    requires |mat| == GF2_DIM
    ensures TimesFrom(mat, 0, i) == 0
    decreases GF2_DIM - i
  {
    if i < GF2_DIM {
      assert Half(0) == 0 && !Odd(0);
      TimesNothing(mat, i + 1);
    }
  }

  /** gf2_matrix_square: squaring doubles the number of zero bits. */
  method Gf2MatrixSquare(square: array<word>, mat: array<word>, ghost n: nat)
    requires square.Length == GF2_DIM && square != mat && Represents(mat[..], n)
    modifies square
    ensures Represents(square[..], 2 * n)
  {
    hide Shifts, Bit, TimesFrom;
    var i := 0;
    while i < GF2_DIM
      invariant 0 <= i <= GF2_DIM
      invariant forall j :: 0 <= j < i ==> square[j] == Shifts(Bit(j), 2 * n)
      invariant mat[..] == old(mat[..])
    {
      var row := mat[i];
      MatrixApplies(mat[..], n, row);
      ShiftsAdd(Bit(i), n, n);
      square[i] := Gf2MatrixTimes(mat, row);
      i := i + 1;
    }
  }

  lemma MatrixApplies(mat: seq<word>, n: nat, vec: word)
    requires Represents(mat, n)
    ensures TimesFrom(mat, vec, 0) == Shifts(vec, n)
  {
    hide Shifts, TimesFrom, Represents;
    WordWidth(vec);
    TimesIsShifts(mat, n, vec, 0);
  }

  // The operator for one zero bit.
  method OneZeroBit(odd: array<word>)
    requires odd.Length == GF2_DIM
    modifies odd
    ensures Represents(odd[..], 1)
  {
    hide Shifts, Bit;
    odd[0] := POLY;
    FirstRow();
    BitZero();
    var row: word := 1;
    var n := 1;
    while n < GF2_DIM
      invariant 1 <= n <= GF2_DIM && (n < GF2_DIM ==> row == Bit(n - 1))
      invariant forall i :: 0 <= i < n ==> odd[i] == Shifts(Bit(i), 1)
    {
      BitNext(n - 1);
      EvenRow(Bit(n));
      odd[n] := row;
      row := Dbl(row);
      n := n + 1;
    }
  }

  lemma FirstRow()
    ensures POLY == Shifts(Bit(0), 1)
  {
    BitZero();
    hide Bit;
    assert Odd(1) && X(POLY, Half(1)) == POLY;
    assert Shift(1) == POLY;
    assert Shifts(Shift(1), 0) == POLY;
  }

  lemma EvenRow(b: word)
    requires !Odd(b)
    ensures Shifts(b, 1) == Half(b)
  {
    hide Half, Odd;
    assert Shifts(Shift(b), 0) == Half(b);
  }

  // Square the operator and apply it for the lowest bit of what is left of the length.
  method CombineStep(dest: array<word>, src: array<word>, crc: word, len: nat, ghost n: nat) returns (crc': word)
    requires dest.Length == GF2_DIM && dest != src && Represents(src[..], n)
    modifies dest
    ensures Represents(dest[..], 2 * n)
    ensures Shifts(crc', 2 * (2 * n) * (len / 2)) == Shifts(crc, 2 * n * len)
  {
    hide Shifts, Represents, TimesFrom;
    Gf2MatrixSquare(dest, src, n);
    crc' := crc;
    if len % 2 == 1 {
      crc' := Gf2MatrixTimes(dest, crc);
      MatrixApplies(dest[..], 2 * n, crc);
      ShiftsAdd(crc, 2 * n, 2 * (2 * n) * (len / 2));
    }
    SplitLength(n, len);
  }

  lemma SplitLength(n: nat, len: nat)
    ensures 2 * n * len == (if len % 2 == 1 then 2 * n else 0) + 2 * (2 * n) * (len / 2)
  {
    var h := len / 2;
    assert 2 * n * len == 2 * n * (2 * h + len % 2);
    assert 2 * n * (2 * h + len % 2) == 2 * n * (2 * h) + 2 * n * (len % 2);
    assert 2 * n * (2 * h) == 2 * (2 * n) * h;
  }

  /** crc32_combine_: the even/odd swapping loop appends exactly len2 zero bytes to
      crc1, then crc2 is added. */
  method Crc32Combine(crc1: word, crc2: word, len2: int) returns (r: word)
    ensures len2 <= 0 ==> r == crc1
    ensures len2 > 0 ==> r == X(Shifts(crc1, 8 * len2), crc2)
  {
    hide Shifts, Represents, X;
    if len2 <= 0 {
      return crc1;
    }
    var even, odd := new word[GF2_DIM], new word[GF2_DIM];
    OneZeroBit(odd);
    Gf2MatrixSquare(even, odd, 1);
    Gf2MatrixSquare(odd, even, 2);
    var len, crc := len2, crc1;
    ghost var n: nat := 4;
    while true
      invariant len > 0 && Represents(odd[..], n)
      invariant Shifts(crc, 2 * n * len) == Shifts(crc1, 8 * len2)
      invariant fresh(even) && fresh(odd) && even != odd && even.Length == GF2_DIM == odd.Length
      decreases len
    {
      crc := CombineStep(even, odd, crc, len, n);
      len := len / 2;
      if len == 0 {
        NoShifts(crc, 4 * n, len);
        break;
      }
      crc := CombineStep(odd, even, crc, len, 2 * n);
      len := len / 2;
      n := 4 * n;
      if len == 0 {
        NoShifts(crc, 2 * n, len);
        break;
      }
    }
    r := X(crc, crc2);
  }

  lemma NoShifts(c: word, n: nat, len: nat)
    requires len == 0
    ensures Shifts(c, n * len) == c
  {
    assert n * len == 0;
  }

  // A difference in the starting register travels through the data as zero bits.
  lemma {:induction false} FeedDifference(c: word, d: word, s: seq<bv8>)
    ensures FeedAll(X(c, d), s) == X(FeedAll(c, s), Shifts(d, 8 * |s|))
    decreases |s|
  {
    hide X, Shifts, Word;
    if s == [] {
      NoShifts(d, 8, 0);
    } else {
      var n := |s| - 1;
      FeedDifference(c, d, s[..n]);
      var p, q, w := FeedAll(c, s[..n]), Shifts(d, 8 * n), Word(s[n]);
      XorAssoc(p, q, w);
      XorComm(q, w);
      XorAssoc(p, w, q);
      ShiftsLinear(X(p, w), q, 8);
      ShiftsAdd(d, 8 * n, 8);
    }
  }

  /** The combined value is the CRC of the concatenation. */
  lemma CombineCorrect(a: seq<bv8>, b: seq<bv8>)
    ensures CrcOf(0, a + b) == X(Shifts(CrcOf(0, a), 8 * |b|), CrcOf(0, b))
  {
    hide X, Shifts, FeedAll, Not;
    var ones := Not(0);
    var p := FeedAll(ones, a);
    var crc1 := Not(p);
    FeedAllAppend(ones, a, b);
    AddOnes(p);
    FeedDifference(ones, crc1, b);
    NotXor(FeedAll(ones, b), Shifts(crc1, 8 * |b|));
    XorComm(Not(FeedAll(ones, b)), Shifts(crc1, 8 * |b|));
  }

  lemma AddOnes(p: word)
    ensures X(Not(0), Not(p)) == p
  {
    assert Not(0) == 0xffff_ffff;
    hide X;
    XorComm(Not(0), Not(p));
    NotNot(p);
  }

  /** crc32_combine_ on two CRCs: the CRC of the concatenation, for all strings. */
  method CombineStrings(a: seq<bv8>, b: seq<bv8>) returns (r: word)
    ensures r == CrcOf(0, a + b)
  {
    hide X, Shifts, FeedAll, Not;
    var t := MakeCrcTable();
    var crc1 := Crc32(t, 0, a, false, false, true, 0);
    var crc2 := Crc32(t, 0, b, false, false, true, 0);
    r := Crc32Combine(crc1, crc2, |b|);
    CombineCorrect(a, b);
    if b == [] {
      assert a + b == a;
    }
  }
}
