/**
 deflate(): the resumable driver.  It writes the header, runs the block strategy,
 ends blocks as the flush mode asks, and writes the trailer, with whatever output
 space the caller provides on each call.
 */
module DeflateStreams {
  import opened Bits
  import opened Tokens
  import opened SymbolBuffers
  import opened BitStreams
  import opened PendingOutputs
  import opened MatchFinders
  import opened HashChain
  import opened Checksum
  import opened Choices
  import opened Deflaters
  import opened BlockReaders
  import Crc
  import Adler

  datatype Status = InitState | BusyState | FinishState
  datatype Return = Ok | StreamEnd | StreamError | BufError

  function Code(f: Flush): int {
    match f
    case NoFlush => 0
    case PartialFlush => 1
    case SyncFlush => 2
    case FullFlush => 3
    case Finish => 4
    case BlockFlush => 5
  }

  // RANK: Z_BLOCK ranks between Z_NO_FLUSH and Z_PARTIAL_FLUSH.
  function Rank(code: int): int {
    2 * code - if code > 4 then 9 else 0
  }

  /** The order in which a repeated flush counts as no stronger; -1 is below all. */
  lemma RankOrder()
    ensures Rank(-1) < Rank(Code(NoFlush)) < Rank(Code(BlockFlush)) < Rank(Code(PartialFlush))
    ensures Rank(Code(PartialFlush)) < Rank(Code(SyncFlush)) < Rank(Code(FullFlush)) < Rank(Code(Finish))
  {
  }

  // Byte i (0 is the least significant) of a CRC register.
  function CrcByte(c: Crc.word, i: nat): byte
    requires i < 4
  {
    LowByte(if i == 0 then c else if i == 1 then Crc.High(c)
            else if i == 2 then Crc.High(Crc.High(c)) else Crc.High(Crc.High(Crc.High(c))))
  }

  function LowByte(c: Crc.word): byte {
    Crc.LowLow(c);
    Crc.IndexBound(Crc.Low(c));
    Crc.Index(Crc.Low(c))
  }

  // Byte i of a number taken modulo 2^32.
  function NumByte(n: nat, i: nat): byte
    requires i < 4
  {
    if i == 0 then n % 256 else if i == 1 then n / 0x100 % 256
    else if i == 2 then n / 0x1_0000 % 256 else n / 0x100_0000 % 256
  }

  // The bytes of a number, from its digits to base 256.
  lemma Digits(a: nat, b3: nat, b2: nat, b1: nat, b0: nat)
    requires b3 < 256 && b2 < 256 && b1 < 256 && b0 < 256
    requires a == 0x100_0000 * b3 + 0x1_0000 * b2 + 0x100 * b1 + b0
    ensures NumByte(a, 3) == b3 && NumByte(a, 2) == b2 && NumByte(a, 1) == b1 && NumByte(a, 0) == b0
  {
    assert a / 0x100 == 0x1_0000 * b3 + 0x100 * b2 + b1;
    assert a / 0x1_0000 == 0x100 * b3 + b2;
    assert a / 0x100_0000 == b3;
  }

  // Two putShortMSB write a 32-bit number most significant byte first.
  lemma BigEndian(a: nat)
    requires a < 0x1_0000_0000
    ensures var h, l := a / 0x1_0000, a % 0x1_0000;
            && h < 0x1_0000
            && NumByte(a, 3) == h / 256 && NumByte(a, 2) == h % 256
            && NumByte(a, 1) == l / 256 && NumByte(a, 0) == l % 256
  {
    var h, l := a / 0x1_0000, a % 0x1_0000;
    Digits(a, h / 256, h % 256, l / 256, l % 256);
  }

  /** The trailer: nothing for raw deflate, the Adler-32 most significant byte first
      (RFC 1950), or the CRC-32 and the length modulo 2^32 least significant byte
      first (RFC 1952). */
  function Trailer(k: Check, total: nat): seq<byte> {
    match k
    case NoCheck => []
    case AdlerCheck(a) => [NumByte(a, 3), NumByte(a, 2), NumByte(a, 1), NumByte(a, 0)]
    case CrcCheck(c) => [CrcByte(c, 0), CrcByte(c, 1), CrcByte(c, 2), CrcByte(c, 3),
                         NumByte(total, 0), NumByte(total, 1), NumByte(total, 2), NumByte(total, 3)]
  }

  // The 16-bit number at s[i], most significant byte first.
  function Short(s: seq<byte>, i: nat): nat
    requires i + 2 <= |s|
  {
    var high: nat, low: nat := s[i], s[i + 1];
    0x100 * high + low
  }

  // The 32-bit number at s[i], least significant byte first; as a number and as a register.
  function Long(s: seq<byte>, i: nat): nat
    requires i + 4 <= |s|
  {
    var b0: nat, b1: nat, b2: nat, b3: nat := s[i], s[i + 1], s[i + 2], s[i + 3];
    b0 + 0x100 * b1 + 0x1_0000 * b2 + 0x100_0000 * b3
  }

  function Register(s: seq<byte>, i: nat): Crc.word
    requires i + 4 <= |s|
  {
    AsWord(s[i]) | (AsWord(s[i + 1]) << 8) | (AsWord(s[i + 2]) << 16) | (AsWord(s[i + 3]) << 24)
  }

  function AsWord(b: byte): Crc.word {
    b as Crc.word
  }

  lemma NumBytesBack(n: nat)
    requires n < 0x1_0000_0000
    ensures 0x100 * NumByte(n, 3) + NumByte(n, 2) == n / 0x1_0000
    ensures 0x100 * NumByte(n, 1) + NumByte(n, 0) == n % 0x1_0000
    ensures NumByte(n, 0) + 0x100 * NumByte(n, 1) + 0x1_0000 * NumByte(n, 2) + 0x100_0000 * NumByte(n, 3) == n
  {
    BigEndian(n);
  }

  // Only the low 32 bits of a number are written.
  lemma NumBytesWrap(n: nat, i: nat)
    requires i < 4
    ensures NumByte(n, i) == NumByte(n % 0x1_0000_0000, i)
  {
    var q, m := n / 0x1_0000_0000, n % 0x1_0000_0000;
    assert n == 0x1_0000_0000 * q + m;
    if i == 0 {
      SameDigit(n, m, 0x100_0000 * q);
    } else if i == 1 {
      assert n / 0x100 == 0x100_0000 * q + m / 0x100;
      SameDigit(n / 0x100, m / 0x100, 0x1_0000 * q);
    } else if i == 2 {
      assert n / 0x1_0000 == 0x1_0000 * q + m / 0x1_0000;
      SameDigit(n / 0x1_0000, m / 0x1_0000, 0x100 * q);
    } else {
      assert n / 0x100_0000 == 0x100 * q + m / 0x100_0000;
      SameDigit(n / 0x100_0000, m / 0x100_0000, q);
    }
  }

  lemma SameDigit(n: nat, m: nat, q: nat)
    requires n == 0x100 * q + m
    ensures n % 0x100 == m % 0x100
  {
  }

  lemma LowByteBack(c: Crc.word)
    ensures AsWord(LowByte(c)) == Crc.Low(c)
  {
    hide Crc.Low, Crc.High;
    Crc.LowLow(c);
    Crc.IndexBound(Crc.Low(c));
  }

  lemma WordOfBytes(c: Crc.word)
    ensures Crc.Low(c) | (Crc.Low(Crc.High(c)) << 8) | (Crc.Low(Crc.High(Crc.High(c))) << 16)
            | (Crc.Low(Crc.High(Crc.High(Crc.High(c)))) << 24) == c
  {
  }

  // The trailer read back: the two sums of RFC 1950, or the two numbers of RFC 1952.
  lemma AdlerBack(a: Adler.U32, total: nat)
    ensures var t := Trailer(AdlerCheck(a), total);
            |t| == 4 && Short(t, 0) == a / 0x1_0000 && Short(t, 2) == a % 0x1_0000
  {
    NumBytesBack(a);
    hide NumByte;
  }

  lemma CrcBack(c: Crc.word, total: nat)
    ensures var t := Trailer(CrcCheck(c), total);
            |t| == 8 && Register(t, 0) == c && Long(t, 4) == total % 0x1_0000_0000
  {
    NumBytesBack(total % 0x1_0000_0000);
    NumBytesWrap(total, 0);
    NumBytesWrap(total, 1);
    NumBytesWrap(total, 2);
    NumBytesWrap(total, 3);
    LowByteBack(c);
    LowByteBack(Crc.High(c));
    LowByteBack(Crc.High(Crc.High(c)));
    LowByteBack(Crc.High(Crc.High(Crc.High(c))));
    WordOfBytes(c);
    hide Crc.Low, Crc.High, Crc.Index, LowByte, AsWord, NumByte;
  }

  // The Adler-32 of the whole input, as two numbers.
  lemma AdlerOf(input: seq<byte>)
    ensures Proper(AdlerCheck(1)) && Extend(AdlerCheck(1), input).AdlerCheck?
    ensures var a := Extend(AdlerCheck(1), input).adler;
            && a / 0x1_0000 == (|input| + Adler.RawB(0, 0, input)) % 65521
            && a % 0x1_0000 == (1 + Adler.Sum(input)) % 65521
  {
    assert Adler.Unpack(1) == Adler.Sums(1, 0);
    hide Adler.Sum, Adler.RawB, Adler.Fold;
    Adler.AdlerClosedForm(input);
  }

  // The last four bytes, most significant first, are the sum of the running sums and one
  // plus the sum of the bytes of the input, both modulo 65521.
  predicate EndsInAdler(s: seq<byte>, input: seq<byte>) {
    && |s| >= 4
    && Short(s, |s| - 4) == (|input| + Adler.RawB(0, 0, input)) % 65521
    && Short(s, |s| - 2) == (1 + Adler.Sum(input)) % 65521
  }

  // The last eight bytes, least significant first, are the CRC-32 of the input and its
  // length modulo 2^32.
  predicate EndsInCrc(s: seq<byte>, input: seq<byte>) {
    && |s| >= 8
    && Register(s, |s| - 8) == Crc.CrcOf(0, ToCrcBytes(input))
    && Long(s, |s| - 4) == |input| % 0x1_0000_0000
  }

  // The trailer of the whole input, zlib or gzip.
  lemma AdlerTrailer(input: seq<byte>)
    ensures Proper(AdlerCheck(1))
    ensures var t := Trailer(Extend(AdlerCheck(1), input), |input|); |t| == 4 && EndsInAdler(t, input)
  {
    AdlerOf(input);
    AdlerBack(Extend(AdlerCheck(1), input).adler, |input|);
    hide Short, Trailer, Adler.Sum, Adler.RawB;
  }

  lemma CrcTrailer(input: seq<byte>)
    ensures var t := Trailer(Extend(CrcCheck(0), input), |input|); |t| == 8 && EndsInCrc(t, input)
  {
    CrcBack(Crc.CrcOf(0, ToCrcBytes(input)), |input|);
    hide Long, Register, Trailer, Crc.CrcOf;
  }

  // Numbers at the end of s are numbers in its last part.
  lemma SameAdler(s: seq<byte>, t: seq<byte>, input: seq<byte>)
    requires EndsWith(s, t) && |t| == 4 && EndsInAdler(t, input)
    ensures EndsInAdler(s, input)
  {
    var k := |s| - 4;
    assert forall i :: 0 <= i < 4 ==> s[k..][i] == s[k + i];
    assert s[k] == t[0] && s[k + 1] == t[1] && s[k + 2] == t[2] && s[k + 3] == t[3];
  }

  lemma SameCrc(s: seq<byte>, t: seq<byte>, input: seq<byte>)
    requires EndsWith(s, t) && |t| == 8 && EndsInCrc(t, input)
    ensures EndsInCrc(s, input)
  {
    hide AsWord, Crc.CrcOf;
    var k := |s| - 8;
    assert forall i :: 0 <= i < 8 ==> s[k..][i] == s[k + i];
    assert s[k] == t[0] && s[k + 1] == t[1] && s[k + 2] == t[2] && s[k + 3] == t[3];
    assert s[k + 4] == t[4] && s[k + 5] == t[5] && s[k + 6] == t[6] && s[k + 7] == t[7];
  }

  predicate EndsIn(bs: seq<Block>, t: seq<Block>) {
    |t| <= |bs| && bs[|bs| - |t|..] == t
  }

  predicate EndsWith(s: seq<byte>, t: seq<byte>) {
    |t| <= |s| && s[|s| - |t|..] == t
  }

  // Z_HUFFMAN_ONLY and above.
  predicate Quick(strategy: Strategy) {
    strategy.HuffmanOnly? || strategy.Rle? || strategy.Fixed?
  }

  // FLEVEL of RFC 1950.
  function LevelFlags(level: nat, fast: bool): nat {
    if fast || level < 2 then 0 else if level < 6 then 1 else if level == 6 then 2 else 3
  }

  // The two bytes of a zlib header without preset dictionary.
  function ZlibHeader(wBits: nat, level: nat, fast: bool): nat
    requires 8 <= wBits <= 15
  {
    var flags := LevelFlags(level, fast);
    var h := (8 + (wBits - 8) * 16) * 256 + flags * 64;
    h + UpTo31(h)
  }

  /** FCHECK of RFC 1950: the header is a multiple of 31; method and window size can
      be read back from it. */
  lemma HeaderChecks(wBits: nat, level: nat, fast: bool)
    requires 8 <= wBits <= 15
    ensures var h := ZlibHeader(wBits, level, fast);
            && h < 0x1_0000 && h % 31 == 0 && h / 256 % 16 == 8 && h / 4096 + 8 == wBits && h / 32 % 2 == 0
            && h / 64 % 4 == LevelFlags(level, fast)
  {
    hide UpTo31;
    var flags := LevelFlags(level, fast);
    var h := (8 + (wBits - 8) * 16) * 256 + flags * 64;
    HeaderFields(wBits - 8, flags, UpTo31(h));
    MultipleOf31(h);
  }

  // What is missing to the next multiple of 31.
  function UpTo31(h: nat): (t: nat)
    ensures 1 <= t <= 31
  {
    31 - h % 31
  }

  lemma MultipleOf31(h: nat)
    ensures (h + UpTo31(h)) % 31 == 0
  {
    assert h + UpTo31(h) == 31 * (h / 31 + 1);
  }

  // The check bits stay within the low five bits.
  lemma HeaderFields(c: nat, flags: nat, t: nat)
    requires c < 8 && flags < 4 && 1 <= t <= 31
    ensures var h := (8 + c * 16) * 256 + flags * 64 + t;
            && h < 0x1_0000 && h / 256 == 8 + 16 * c && h / 256 % 16 == 8 && h / 4096 == c && h / 32 % 2 == 0
            && h / 64 % 4 == flags
  {
    var h := (8 + c * 16) * 256 + flags * 64 + t;
    assert h == 256 * (8 + 16 * c) + (64 * flags + t);
    assert h / 32 == 2 * (4 * (8 + 16 * c) + flags) by {
      assert h == 32 * (2 * (4 * (8 + 16 * c) + flags)) + t;
    }
    assert h / 64 == 4 * (8 + 16 * c) + flags;
  }

  datatype Task = Task(stage: nat, unread: nat, unsealed: nat, backlog: nat)

  predicate Less(x: Task, y: Task) {
    || x.stage < y.stage
    || (x.stage == y.stage && x.unread < y.unread)
    || (x.stage == y.stage && x.unread == y.unread && x.unsealed < y.unsealed)
    || (x.stage == y.stage && x.unread == y.unread && x.unsealed == y.unsealed && x.backlog < y.backlog)
  }

  // The output s is framed by the header and nothing once all bits put are whole bytes.
  lemma WholeBody(s: seq<byte>, header: seq<byte>, code: seq<bool>)
    requires header <= s && BitsOf(s) + LowBits(0, 0) == BitsOf(header) + code
    ensures BitsOf(s[|header|..]) == code
  {
    hide BitsOf;
    var body := s[|header|..];
    assert s == header + body;
    BitsAppend(header, body);
    PadNothing(s);
    assert (BitsOf(header) + code)[|BitsOf(header)|..] == code;
    assert (BitsOf(header) + BitsOf(body))[|BitsOf(header)|..] == BitsOf(body);
  }

  class DeflateStream {
    const d: Deflater
    const wBits: nat
    const osCode: byte
    var status: Status
    var wrap: int         // 0 raw, 1 zlib, 2 gzip; negative once the trailer is written
    var last_flush: int

    ghost predicate Parts() {
      && d.Objects() && 9 <= wBits <= 15 && d.m.w_size == Pow2(wBits) && d.head == Header()
    }

    function Wrap0(): int {
      match d.m.start
      case NoCheck => 0
      case AdlerCheck(_) => 1
      case CrcCheck(_) => 2
    }

    // The header bytes: none, two (RFC 1950) or ten (RFC 1952, no optional fields).
    static function HeaderFor(start: Check, level: nat, strategy: Strategy, windowBits: nat, os: byte): seq<byte>
      requires 9 <= windowBits <= 15
    {
      var fast := Quick(strategy);
      match start
      case NoCheck => []
      case AdlerCheck(_) =>
        var h := ZlibHeader(windowBits, level, fast);
        HeaderChecks(windowBits, level, fast);
        [h / 256, h % 256]
      case CrcCheck(_) =>
        [31, 139, 8, 0, 0, 0, 0, 0, if level == 9 then 2 else if fast || level < 2 then 4 else 0, os]
    }

    function Header(): seq<byte>
      requires 9 <= wBits <= 15
    {
      HeaderFor(d.m.start, d.level, d.strategy, wBits, osCode)
    }

    // The bytes s are the header, the code of all blocks in order, and t.
    ghost predicate Framed(s: seq<byte>, t: seq<byte>)
      requires 9 <= wBits <= 15
      reads d`blocks
    {
      && |Header()| + |t| <= |s| && Header() <= s && EndsWith(s, t)
      && BitsOf(s[|Header()|..|s| - |t|]) == BlocksCode(d.enc, d.blocks)
    }

    // The output is complete, trailer included.
    ghost predicate TrailerWritten()
      requires 9 <= wBits <= 15
      reads d.m`check, d.m`total_in, d.out`put, d`blocks
    {
      Framed(d.out.put, Trailer(d.m.check, d.m.total_in))
    }

    /** The invariant of a stream over any sequence of calls. */
    ghost predicate Valid()
      reads this`status, this`wrap, d, d.m, d.m.window, d.m.head, d.m.prev, d.sym, d.sym.d_buf, d.sym.l_buf, d.out
    {
      && Parts() && d.out.Valid()
      && (if status == FinishState then d.Complete() else d.Ready())
      && (wrap == Wrap0() || (wrap == -Wrap0() && status == FinishState && TrailerWritten()))
      && (status == InitState ==> d.out.put == [] && wrap > 0 && d.blocks == [] && d.out.bi_valid == 0)
      && (status != InitState ==> Header() <= d.out.put)
      && (status != InitState && wrap >= 0 ==> d.Traced())
    }

    /** deflateInit2_: windowBits 9..15, memLevel 1..9; the wrapper is chosen by the
        initial checksum. */
    constructor (level: nat, strategy: Strategy, windowBits: nat, memLevel: nat, initial: Check, os: byte,
                 encoder: Block -> seq<Piece>)
      requires level <= 9 && 9 <= windowBits <= 15 && 1 <= memLevel <= 9
      requires initial == NoCheck || initial == AdlerCheck(1) || initial == CrcCheck(0)
      ensures Valid() && d.m.data == [] && d.m.next_in == [] && d.out.put == [] && d.blocks == []
      ensures d.m.start == initial && d.level == level && d.strategy == strategy && d.enc == encoder
      ensures status != FinishState
      ensures fresh(d) && fresh(d.m) && fresh(d.m.window) && fresh(d.m.head) && fresh(d.m.prev)
      ensures fresh(d.sym) && fresh(d.sym.d_buf) && fresh(d.sym.l_buf) && fresh(d.out)
    {
      WindowSizes(windowBits);
      wBits, osCode := windowBits, os;
      d := new Deflater(level, strategy, Pow2(windowBits), memLevel, initial, encoder,
                        HeaderFor(initial, level, strategy, windowBits, os));
      wrap := if initial.NoCheck? then 0 else if initial.AdlerCheck? then 1 else 2;
      status := if initial.NoCheck? then BusyState else InitState;
      last_flush := 0;
      new;
      d.FreshIsReady();
      if initial.NoCheck? {
        d.HeaderTraced();
      }
    }

    // What is still to be done, most significant first: the header and the last block,
    // input to read, the trailer, bits to deliver.
    ghost function ToDo(): Task
      reads this`status, this`wrap, d.m`next_in, d.m`lookahead, d.out`pending, d.out`bi_valid
    {
      Task(if status == InitState then 2 else if status == BusyState then 1 else 0, d.m.Unread(),
           if wrap > 0 then 1 else 0, 8 * d.out.pending + d.out.bi_valid)
    }

    // A call may change the stream only in these ways.
    twostate predicate Progress()
      reads d, d.m, d.out
    {
      && d.m.Taken(old(d.m.data), old(d.m.next_in))
      && d.out.Extends(old(d.out.put), old(d.out.next_out))
      && old(d.blocks) <= d.blocks && old(d.cuts) <= d.cuts
    }

    // Write the header before anything else.
    method WriteHeader()
      requires Parts() && d.out.Valid() && d.out.put == [] && d.m.start != NoCheck
      modifies d.out`pending_buf, d.out`pending, d.out`put
      ensures d.out.Valid() && d.out.put == Header()
      ensures d.out.Aligned() && d.out.pending > 0
    {
      var fast := Quick(d.strategy);
      if d.m.start.CrcCheck? {
        var header := Header();
        var i := 0;
        while i < |header|
          invariant 0 <= i <= |header| && d.out.Valid() && d.out.Aligned() && d.out.put == header[..i]
          invariant d.out.pending == i
        {
          d.out.PutByte(header[i]);
          i := i + 1;
        }
      } else {
        HeaderChecks(wBits, d.level, fast);
        d.out.PutShortMSB(ZlibHeader(wBits, d.level, fast));
      }
    }

    // Deliver pending output; the stream's invariant does not depend on how much fits.
    method Deliver()
      requires Valid() && status != InitState
      modifies d.out
      ensures Valid() && Progress()
      ensures d.out.pending == 0 || d.out.avail_out == 0
      ensures status == FinishState ==> d.out.put == old(d.out.put)
      ensures status == FinishState ==> (d.out.avail_out == 0 <==> old(d.out.pending) >= old(d.out.avail_out))
      ensures d.out.avail_out <= old(d.out.avail_out)
      ensures ToDo().backlog == old(ToDo().backlog) - 8 * (old(d.out.avail_out) - d.out.avail_out)
    {
      hide Deflater.Ready, Deflater.WindowOk, Deflater.Emitted, Trailer, Header, Deflater.Closed, Framed,
        PendingOutput.Stream,
        BlocksCode, BitsOf;
      assert d.out.bi_valid == 0 ==> d.out.WholeBytes() == [];
      d.out.FlushPending();
      assert status == FinishState ==> d.out.put == old(d.out.put);
    }

    // The header, on the first call.
    method FirstCall()
      requires Valid() && status == InitState
      modifies this`status, d.out
      ensures Valid() && Progress() && status == BusyState && d.out.pending > 0
      ensures d.out.avail_out == old(d.out.avail_out)
    {
      hide Deflater.Ready, Trailer, HeaderFor, Framed, Deflater.TracedAs;
      WriteHeader();
      d.HeaderTraced();
      status := BusyState;
    }

    // The caller asks for the end, offers space, and has not offered input after it.
    ghost predicate CanFinish(flush: Flush)
      reads this`status, d.m`next_in, d.out`avail_out
    {
      flush == Finish && d.out.avail_out > 0 && (status == FinishState ==> d.m.next_in == [])
    }

    // Z_BUF_ERROR: no space, or nothing new since a flush as strong as this one, or more input
    // after the end.
    ghost predicate NoProgress(flush: Flush)
      reads this`status, this`last_flush, d.m`next_in, d.out`avail_out, d.out`pending
    {
      && (status == FinishState ==> flush == Finish)
      && (|| d.out.avail_out == 0
          || (status != InitState && d.out.pending == 0 && d.m.next_in == [] && flush != Finish
              && Rank(Code(flush)) <= Rank(last_flush))
          || (status == FinishState && d.m.next_in != [] && d.out.pending < d.out.avail_out))
    }

    // The part of deflate() before any compression: argument checks, the header and
    // output left over from the call before.
    method Begin(flush: Flush) returns (ret: Option<Return>)
      requires Valid()
      modifies this`status, this`last_flush, d.out
      ensures Valid() && Progress()
      ensures ret == None ==> status != InitState && d.out.pending == 0 && d.out.avail_out > 0
      ensures ret == None ==> (status == FinishState ==> flush == Finish && d.m.next_in == [])
      ensures ret.Some? ==> ret.value != StreamEnd
      ensures ret == Some(StreamError) <==> old(status) == FinishState && flush != Finish
      ensures ret == Some(StreamError) || ret == Some(BufError) ==> d.out.put == old(d.out.put)
      ensures ret == Some(BufError) <==> old(NoProgress(flush))
      ensures ret == Some(BufError) && flush != Finish ==> d.out.avail_out == old(d.out.avail_out)
      ensures last_flush == if ret == Some(StreamError) || old(d.out.avail_out) == 0 then old(last_flush)
                            else if ret == Some(Ok) then -1 else Code(flush)
      ensures old(status) == FinishState ==> d.out.put == old(d.out.put)
      ensures ret == Some(Ok) ==> d.out.avail_out == 0
      ensures old(status) == FinishState <==> status == FinishState
      ensures ret.None? ==> ToDo() == old(ToDo()) || Less(ToDo(), old(ToDo()))
      ensures ret.Some? && old(CanFinish(flush)) ==> ret.value == Ok && Less(ToDo(), old(ToDo()))
    {
      hide Deflater.Ready, Deflater.Complete, Trailer, Header, Framed, Deflater.TracedAs, Valid;
      if status == FinishState && flush != Finish {
        return Some(StreamError);
      }
      if d.out.avail_out == 0 {
        return Some(BufError);
      }
      var old_flush := last_flush;
      last_flush := Code(flush);
      if status == InitState {
        FirstCall();
      }
      if d.out.pending != 0 {
        Deliver();
        if d.out.avail_out == 0 {
          last_flush := -1;
          return Some(Ok);
        }
      } else if d.m.next_in == [] && Rank(Code(flush)) <= Rank(old_flush) && flush != Finish {
        return Some(BufError);
      }
      if status == FinishState && d.m.next_in != [] {
        return Some(BufError);
      }
      return None;
    }

    // The compressor runs.
    method RunCompressor(flush: Flush) returns (bs: BlockState)
      requires Valid() && status == BusyState && d.out.Aligned() && d.out.avail_out > 0
      modifies this`status
      modifies d`match_length, d`prev_match, d`match_available, d`blocks
      modifies d.m.window, d.m.head, d.m.prev, d.sym`last_lit, d.sym.d_buf, d.sym.l_buf, d`log, d`cuts, d`seen, d.out
      modifies d.m`next_in, d.m`strstart, d.m`lookahead, d.m`block_start, d.m`match_start, d.m`prev_length, d.m`ins_h
      modifies d.m`insert
      modifies d.m`data, d.m`check, d.m`total_in, d.m`base, d.m`hist, d.m`written, d.m`solid, d.m`high_water
      ensures Valid() && Progress()
      ensures status == if bs.FinishStarted? || bs.FinishDone? then FinishState else BusyState
      ensures bs == NeedMore ==> d.out.avail_out == 0 || (flush == NoFlush && d.m.next_in == [])
      ensures bs == BlockDone ==>
        && d.AllFlushed() && d.OutputOk() && flush != NoFlush && flush != Finish
        && (d.SlowMode() ==> !d.match_available)
      ensures bs == FinishStarted ==> d.m.next_in == [] && d.out.avail_out == 0
      ensures bs == FinishDone ==> d.m.next_in == [] && d.out.avail_out > 0 && d.out.pending == 0
      ensures bs.FinishStarted? || bs.FinishDone? ==> flush == Finish
      ensures flush == Finish && bs == NeedMore ==> d.m.Unread() < old(d.m.Unread())
      ensures wrap == old(wrap)
    {
      hide Deflater.Ready, Deflater.Complete, Deflater.AllFlushed, Trailer, Header, Framed, Deflater.TracedAs,
        MatchFinder.Taken, PendingOutput.Stream, BitsOf, BlocksCode;
      bs := d.Compress(flush);
      if bs.FinishStarted? || bs.FinishDone? {
        status := FinishState;
      }
    }

    // The compressor runs, then blocks end as the flush mode asks.
    method Work(flush: Flush) returns (ret: Option<Return>)
      requires Valid() && status == BusyState && d.out.Aligned() && d.out.avail_out > 0
      modifies this`status, this`last_flush
      modifies d`match_length, d`prev_match, d`match_available, d`blocks
      modifies d.m.window, d.m.head, d.m.prev, d.sym`last_lit, d.sym.d_buf, d.sym.l_buf, d`log, d`cuts, d`seen, d.out
      modifies d.m`next_in, d.m`strstart, d.m`lookahead, d.m`block_start, d.m`match_start, d.m`prev_length, d.m`ins_h
      modifies d.m`insert
      modifies d.m`data, d.m`check, d.m`total_in, d.m`base, d.m`hist, d.m`written, d.m`solid, d.m`high_water
      ensures Valid() && Progress() && status != InitState
      ensures ret.Some? ==> ret.value == Ok && (d.out.avail_out == 0 || (flush == NoFlush && d.m.next_in == []))
      ensures ret.None? ==> d.out.avail_out > 0 && d.out.pending == 0 && flush != NoFlush && d.m.next_in == []
      ensures flush != Finish ==> status == BusyState
      ensures last_flush == if ret.Some? && d.out.avail_out == 0 then -1 else old(last_flush)
      ensures ret.None? ==> if flush == Finish then status == FinishState && d.m.next_in == [] else d.AllFlushed()
      ensures ret.None? && flush != Finish ==> FlushDone(flush)
      ensures status == FinishState ==> d.m.next_in == []
      ensures flush == Finish ==> Less(ToDo(), old(ToDo()))
    {
      hide Valid, MatchFinder.Taken, Deflater.OutputOk, Deflater.Consumed;
      var bs := RunCompressor(flush);
      if bs.NeedMore? || bs.FinishStarted? {
        if d.out.avail_out == 0 {
          last_flush := -1;
        }
        return Some(Ok);
      }
      if bs.BlockDone? {
        EndFlush(flush);
        if d.out.avail_out == 0 {
          last_flush := -1;
          return Some(Ok);
        }
      }
      return None;
    }

    // The empty block a flush mode adds: none for Z_BLOCK, one of tokens for
    // Z_PARTIAL_FLUSH, one of stored bytes for Z_SYNC_FLUSH and Z_FULL_FLUSH.
    static function Marker(flush: Flush): seq<Block> {
      match flush
      case BlockFlush => []
      case PartialFlush => [Block([], None, 0, false)]
      case _ => [Block([], Some([]), 0, false)]
    }

    // The block the flush mode asks for is the last one, and behind a full flush a reader
    // may start.
    ghost predicate FlushDone(flush: Flush)
      reads d`blocks, d`cuts, d.m`data
    {
      && EndsIn(d.blocks, Marker(flush))
      && (flush == FullFlush ==> Cut(|d.m.data|, |d.blocks|) in d.cuts)
    }

    // What the flush modes add once all input is in blocks.  After a full flush a reader may
    // start behind it.
    method EndFlush(flush: Flush)
      requires Valid() && status == BusyState && flush != NoFlush && flush != Finish
      requires d.AllFlushed() && d.OutputOk() && (d.SlowMode() ==> !d.match_available)
      modifies d`blocks, d`cuts, d.out, d.m.head, d.m`hist, d.m`strstart, d.m`block_start, d.m`insert, d.m`base
      ensures Valid() && Progress() && d.AllFlushed()
      ensures d.out.pending == 0 || d.out.avail_out == 0
      ensures d.blocks == old(d.blocks) + Marker(flush)
      ensures d.cuts == old(d.cuts) + if flush == FullFlush then [Cut(|d.m.data|, |d.blocks|)] else []
    {
      hide Deflater.Ready, Deflater.Complete, TrailerWritten, Header, Framed, Deflater.TracedAs, Deflater.AllFlushed,
        Marker;
      AddMarker(flush);
      Deliver();
    }

    method AddMarker(flush: Flush)
      requires d.Objects() && d.Ready() && flush != NoFlush && flush != Finish
      requires d.AllFlushed() && d.OutputOk() && (d.SlowMode() ==> !d.match_available)
      modifies d`blocks, d`cuts, d.out, d.m.head, d.m`hist, d.m`strstart, d.m`block_start, d.m`insert, d.m`base
      ensures d.Ready() && d.AllFlushed() && d.OutputOk()
      ensures d.out.Extends(old(d.out.put), old(d.out.next_out)) && d.out.avail_out == old(d.out.avail_out)
      ensures d.blocks == old(d.blocks) + Marker(flush)
      ensures d.cuts == old(d.cuts) + if flush == FullFlush then [Cut(|d.m.data|, |d.blocks|)] else []
    {
      hide Deflater.Ready, Deflater.AllFlushed, Deflater.OutputOk, Deflater.Objects;
      if flush == PartialFlush {
        d.EmptyBlock(false);
      } else if flush != BlockFlush {
        d.EmptyBlock(true);
        if flush == FullFlush {
          d.ForgetHistory();
        }
      }
    }

    // Raw deflate has no trailer.
    lemma NoTrailer()
      requires Valid() && status == FinishState && Wrap0() == 0
      ensures d.m.check == NoCheck && Trailer(d.m.check, d.m.total_in) == []
    {
      hide Deflater.Ready, Deflater.Emitted, Deflater.Closed, Header, TrailerWritten, ChainsAgree, KeysAgree,
        WindowAgrees;
    }

    method WriteTrailer()
      requires d.out.Valid() && d.out.Aligned()
      modifies d.out`pending_buf, d.out`pending, d.out`put
      ensures d.out.Valid() && d.out.Aligned()
      ensures d.out.put == old(d.out.put) + Trailer(d.m.check, d.m.total_in)
    {
      hide NumByte, CrcByte;
      if d.m.check.AdlerCheck? {
        var a := d.m.check.adler;
        BigEndian(a);
        d.out.PutShortMSB(a / 0x1_0000);
        d.out.PutShortMSB(a % 0x1_0000);
      } else if d.m.check.CrcCheck? {
        var t := Trailer(d.m.check, d.m.total_in);
        var i := 0;
        while i < |t|
          invariant 0 <= i <= |t| && d.out.Valid() && d.out.Aligned()
          invariant d.out.put == old(d.out.put) + t[..i]
        {
          d.out.PutByte(t[i]);
          i := i + 1;
        }
        assert t[..i] == t;
      }
    }

    // Before the trailer is put, the output is the header and the code of the blocks.
    lemma BeforeTrailer()
      requires Valid() && status == FinishState && wrap >= 0
      ensures d.out.bi_valid == 0 && Framed(d.out.put, [])
    {
      hide Deflater.Ready, Deflater.Emitted, Deflater.Closed, Deflater.WindowOk, Header, Trailer, BitsOf, BlocksCode,
        LowBits;
      assert d.out.bi_buf == 0 by {
        assert Pow2(0) == 1;
      }
      WholeBody(d.out.put, Header(), BlocksCode(d.enc, d.blocks));
      assert d.out.put[|Header()|..|d.out.put|] == d.out.put[|Header()|..];
    }

    // The trailer goes behind it.
    lemma WithTrailer(s: seq<byte>, t: seq<byte>)
      requires 9 <= wBits <= 15 && Framed(s, [])
      ensures Framed(s + t, t)
    {
      hide Header, BitsOf, BlocksCode;
      assert (s + t)[|Header()|..|s|] == s[|Header()|..|s|];
    }

    // After the last block: the trailer, once.
    method End(flush: Flush) returns (ret: Return)
      requires Valid() && status != InitState && d.out.pending == 0 && d.out.avail_out > 0
      requires flush == Finish ==> status == FinishState
      modifies this`wrap, d.out
      ensures Valid() && Progress()
      ensures ret == Ok || ret == StreamEnd
      ensures flush != Finish ==> ret == Ok && d.out.put == old(d.out.put) && d.out.pending == 0 && d.out.avail_out > 0
      ensures wrap == (if flush == Finish && old(wrap) > 0 then -old(wrap) else old(wrap))
      ensures flush == Finish ==> wrap <= 0 && TrailerWritten()
      ensures flush == Finish ==>
        d.out.put == old(d.out.put) + (if old(wrap) > 0 then Trailer(d.m.check, d.m.total_in) else [])
      ensures flush == Finish ==> (ret == StreamEnd <==> d.out.pending == 0) && (ret == Ok ==> d.out.avail_out == 0)
      ensures flush == Finish && ret == Ok ==> Less(ToDo(), old(ToDo()))
    {
      hide Deflater.Ready, Deflater.Complete, Header, Trailer, Framed, Deflater.TracedAs;
      if flush != Finish {
        return Ok;
      }
      if wrap >= 0 {
        BeforeTrailer();
        WithTrailer(d.out.put, Trailer(d.m.check, d.m.total_in));
      }
      if wrap <= 0 {
        if wrap == 0 {
          NoTrailer();
          assert d.out.put + [] == d.out.put;
        }
        return StreamEnd;
      }
      WriteTrailer();
      wrap := -wrap;
      Deliver();
      return if d.out.pending != 0 then Ok else StreamEnd;
    }

    // Z_STREAM_END: the trailer has been written and delivered.
    ghost predicate Ended()
      reads this, d.m, d.out, d`blocks
    {
      && 9 <= wBits <= 15 && status == FinishState && wrap <= 0
      && d.out.pending == 0 && d.m.next_in == [] && TrailerWritten()
    }

    /** deflate(): one call. */
    method Deflate(flush: Flush) returns (ret: Return)
      requires Valid()
      modifies this`status, this`last_flush, this`wrap
      modifies d`match_length, d`prev_match, d`match_available, d`blocks
      modifies d.m.window, d.m.head, d.m.prev, d.sym`last_lit, d.sym.d_buf, d.sym.l_buf, d`log, d`cuts, d`seen, d.out
      modifies d.m`next_in, d.m`strstart, d.m`lookahead, d.m`block_start, d.m`match_start, d.m`prev_length, d.m`ins_h
      modifies d.m`insert
      modifies d.m`data, d.m`check, d.m`total_in, d.m`base, d.m`hist, d.m`written, d.m`solid, d.m`high_water
      ensures Valid() && Progress()
      ensures ret == StreamError <==> old(status) == FinishState && flush != Finish
      ensures ret == BufError <==> old(NoProgress(flush))
      ensures ret == StreamError || ret == BufError ==> d.out.put == old(d.out.put) && d.m.data == old(d.m.data)
      ensures flush != Finish ==>
        last_flush == if ret == StreamError || old(d.out.avail_out) == 0 then old(last_flush)
                      else if d.out.avail_out == 0 then -1 else Code(flush)
      ensures ret == Ok && flush != NoFlush && flush != Finish && d.out.avail_out > 0 ==> NoProgress(flush)
      ensures ret == StreamEnd ==> Ended()
      ensures ret == Ok && flush == Finish ==> d.out.avail_out == 0
      ensures ret == Ok && flush == NoFlush && d.out.avail_out > 0 ==> d.m.next_in == []
      ensures ret == Ok && flush != NoFlush && d.out.avail_out > 0 ==> d.AllFlushed() && d.out.pending == 0
      ensures ret == Ok && flush != NoFlush && flush != Finish && d.out.avail_out > 0 ==> FlushDone(flush)
      ensures old(status == FinishState && wrap <= 0) ==> wrap == old(wrap) && d.out.put == old(d.out.put)
      ensures old(CanFinish(flush)) ==>
        (ret == StreamEnd || (ret == Ok && Less(ToDo(), old(ToDo())))) && (status == FinishState ==> d.m.next_in == [])
    {
      hide Deflater.Ready, Deflater.Complete, Deflater.AllFlushed, Header, Framed, TrailerWritten, Deflater.TracedAs,
        MatchFinder.Taken, FlushDone, Valid, Trailer, EndsWith;
      var early := Begin(flush);
      if early.Some? {
        return early.value;
      }
      BetweenParts();
      if d.m.next_in != [] || d.m.lookahead != 0 || (flush != NoFlush && status != FinishState) {
        var done := Work(flush);
        if done.Some? {
          return done.value;
        }
      }
      ret := End(flush);
    }

    lemma BetweenParts()
      requires Valid() && status != InitState && d.out.pending == 0
      ensures 9 <= wBits <= 15 && d.out.Aligned() && (status == FinishState ==> d.m.lookahead == 0)
      ensures wrap <= 0 ==> wrap == 0 || status == FinishState
    {
      hide Deflater.Ready, Deflater.Emitted, Deflater.Closed, Deflater.WindowOk, Header, TrailerWritten;
    }

    /** At the end of the stream, and wherever a flush has left nothing waiting, the
        blocks decode to the whole input so far, however each of them is encoded. */
    lemma RoundTrip(stored: seq<bool>)
      requires Valid() && (status == FinishState || d.AllFlushed())
      requires MayEncodeAll(d.blocks, stored, d.level == 0)
      ensures DecodeBlocks(d.blocks, stored) == Some(d.m.data)
      ensures BlockTokensOk(d.blocks, d.MaxDist())
    {
      FlushedBlocks();
      DecodeFaithful(d.m.data, d.blocks, |d.m.data|, d.level == 0, stored);
      assert d.m.data[..|d.m.data|] == d.m.data;
    }

    /** Z_FULL_FLUSH: at the end of the stream, and wherever a later flush has left nothing
        waiting, a reader that starts behind a full flush, knowing nothing of what came before,
        gets the input from there on, however each of the blocks is encoded. */
    lemma Restart(cut: Cut, stored: seq<bool>)
      requires Valid() && (status == FinishState || d.AllFlushed()) && cut in d.cuts
      ensures cut.pos <= |d.m.data| && cut.blocks <= |d.blocks|
      ensures MayEncodeAll(d.blocks[cut.blocks..], stored, d.level == 0) ==>
        DecodeBlocks(d.blocks[cut.blocks..], stored) == Some(d.m.data[cut.pos..])
    {
      FlushedReport();
      hide Valid, Reported, DecodeBlocks, MayEncodeAll;
      RestartReads(d.Rules(), d.m.data, d.blocks, d.sym.Tokens(), d.cuts, d.log, cut, stored);
    }

    ghost predicate RestartsAt(cut: Cut, input: seq<byte>)
      reads d`blocks
    {
      && cut.pos <= |input| && cut.blocks <= |d.blocks|
      && forall stored :: MayEncodeAll(d.blocks[cut.blocks..], stored, d.level == 0) ==>
        DecodeBlocks(d.blocks[cut.blocks..], stored) == Some(input[cut.pos..])
    }

    lemma RestartAll()
      requires Valid() && (status == FinishState || d.AllFlushed())
      ensures forall cut :: cut in d.cuts ==> RestartsAt(cut, d.m.data)
    {
      hide Valid, Deflater.AllFlushed, DecodeBlocks;
      forall cut | cut in d.cuts ensures RestartsAt(cut, d.m.data) {
        Restart(cut, []);
        forall stored | MayEncodeAll(d.blocks[cut.blocks..], stored, d.level == 0)
          ensures DecodeBlocks(d.blocks[cut.blocks..], stored) == Some(d.m.data[cut.pos..])
        {
          Restart(cut, stored);
        }
      }
    }

    /** Every token in the blocks, except that deflate_stored has none: it is chosen where the
        tokens before it end, and there is a reason for it, given all there was to be seen. */
    lemma EveryTokenHasReason()
      requires Valid() && (status == FinishState || d.AllFlushed()) && !d.StoredMode()
      ensures TokensOf(d.log) == AllTokens(d.blocks) && TotalLen(AllTokens(d.blocks)) == |d.m.data|
      ensures forall i :: 0 <= i < |d.log| ==>
        && d.log[i].at.pos == TotalLen(AllTokens(d.blocks)[..i])
        && Justified(d.Rules(), d.m.data, d.log[i]) && Sees(d.Rules(), d.cuts, d.log[..i], d.log[i].at)
    {
      FlushedReport();
      hide Valid, Represents, Restartable, CutsOk, Logged, Justified, Sees;
      NoTokens(d.m.data, d.blocks, d.sym.Tokens(), |d.m.data|, d.level == 0, d.MaxDist());
      assert AllTokens(d.blocks) + [] == AllTokens(d.blocks);
      LoggedLength(d.Rules(), d.m.data, d.cuts, d.log, |d.m.data|);
      forall i | 0 <= i < |d.log|
        ensures d.log[i].at.pos == TotalLen(AllTokens(d.blocks)[..i])
        ensures Justified(d.Rules(), d.m.data, d.log[i]) && Sees(d.Rules(), d.cuts, d.log[..i], d.log[i].at)
      {
        LoggedAt(d.Rules(), d.m.data, d.cuts, d.log, |d.m.data|, i);
      }
    }

    // Everything is in blocks, and there is a report on it.
    lemma FlushedReport()
      requires Valid() && (status == FinishState || d.AllFlushed())
      ensures d.sym.Valid()
      ensures Reported(d.Rules(), d.m.data, d.blocks, d.sym.Tokens(), |d.m.data|, |d.m.data|, d.cuts, d.log)
    {
      hide Deflater.WindowOk, Deflater.KeyReadyHere, Deflater.Waiting, Deflater.NoDictionary, Deflater.Short,
        Deflater.SmallBlocks, Deflater.Recalls,
        Deflater.Open, Deflater.Closed, Deflater.TracedAs, Header, Framed, Trailer, Reported, PendingOutput.Valid,
        MatchFinder.Positions;
      if d.SlowMode() && d.match_available && status != FinishState {
        ReportedBounds(d.Rules(), d.m.data, d.blocks, d.sym.Tokens(), d.Flushed(), d.Decided(), d.cuts, d.log);
      }
    }

    lemma FlushedBlocks()
      requires Valid() && (status == FinishState || d.AllFlushed())
      ensures Blocks(d.m.data, d.blocks, |d.m.data|, d.level == 0) && BlockTokensOk(d.blocks, d.MaxDist())
    {
      hide Deflater.WindowOk, Deflater.KeyReadyHere, Deflater.Waiting, Deflater.NoDictionary, Deflater.Short,
        Deflater.SmallBlocks,
        Deflater.Open, Deflater.Closed, Deflater.TracedAs, Header, Framed, Trailer, Blocks, Decode, PendingOutput.Valid;
    }

    /** What the caller holds once deflate() has said Z_STREAM_END: the header, the code of
        the blocks in order, and the trailer; and the blocks decode to the input, however
        each of them is encoded. */
    ghost predicate Delivered(input: seq<byte>)
      requires 9 <= wBits <= 15 && d.Objects() && Proper(d.m.start)
      reads d`blocks, d.out`next_out, d.out`pending
    {
      && d.out.pending == 0
      && Framed(d.out.next_out, Trailer(Extend(d.m.start, input), |input|))
      && d.Closed() && BlockTokensOk(d.blocks, d.MaxDist())
      && forall stored :: MayEncodeAll(d.blocks, stored, d.level == 0) ==> DecodeBlocks(d.blocks, stored) == Some(input)
    }

    lemma EndDelivers()
      requires Valid() && Ended()
      ensures Proper(d.m.start) && Delivered(d.m.data)
    {
      FinishedParts();
      forall stored | MayEncodeAll(d.blocks, stored, d.level == 0)
        ensures DecodeBlocks(d.blocks, stored) == Some(d.m.data)
      {
        RoundTrip(stored);
      }
      FlushedBlocks();
      assert d.out.next_out == d.out.put;
    }

    // What the caller holds between header and trailer.
    ghost function Body(input: seq<byte>): seq<byte>
      requires 9 <= wBits <= 15 && d.Objects() && Proper(d.m.start) && Delivered(input)
      reads d`blocks, d.out`next_out, d.out`pending
    {
      d.out.next_out[|Header()|..|d.out.next_out| - |Trailer(Extend(d.m.start, input), |input|)|]
    }

    /** Decoding what lies between header and trailer gives the input, for any reader that
        undoes the encoder block by block. */
    lemma ReaderGetsInput(input: seq<byte>, read: Reader, stored: seq<bool>)
      requires 9 <= wBits <= 15 && d.Objects() && Proper(d.m.start) && Delivered(input)
      requires MayEncodeAll(d.blocks, stored, d.level == 0)
      requires forall i :: 0 <= i < |d.blocks| ==>
        MayEncode(d.blocks[i], stored[i], d.level == 0) && Inverts(read, d.enc, d.blocks[i], stored[i])
      ensures ReadAll(read, BitsOf(Body(input)), 0, []) == Some(input)
    {
      hide BitsOf, Header, Trailer, BlockTokensOk, Inverts;
      var bs := d.blocks;
      assert BitsOf(Body(input)) == BlocksCode(d.enc, bs);
      assert bs[..0] == [] && stored[..0] == [];
      ReadsFrom(read, d.enc, bs, stored, 0);
    }

    /** The header the caller holds.  zlib: method 8, the window size, no dictionary, a
        multiple of 31.  gzip: the magic bytes 31 and 139, method 8, no flags, no time, and
        the system.  Raw: none. */
    lemma HeaderSays(input: seq<byte>)
      requires 9 <= wBits <= 15 && d.Objects() && Proper(d.m.start) && Delivered(input)
      ensures d.m.start.NoCheck? ==> Header() == []
      ensures d.m.start.AdlerCheck? ==>
        var s := d.out.next_out;
        && |Header()| == 2 <= |s| && Short(s, 0) % 31 == 0
        && s[0] % 16 == 8 && s[0] / 16 + 8 == wBits && s[1] / 32 % 2 == 0
        && s[1] / 64 == LevelFlags(d.level, Quick(d.strategy))
      ensures d.m.start.CrcCheck? ==>
        var s := d.out.next_out;
        && |Header()| == 10 <= |s| && s[..8] == [31, 139, 8, 0, 0, 0, 0, 0] && s[9] == osCode
        && s[8] == if d.level == 9 then 2 else if LevelFlags(d.level, Quick(d.strategy)) == 0 then 4 else 0
    {
      DeliveredFrame(input);
      hide Delivered, HeaderFor, Deflater.Objects, Proper, Trailer, BitsOf;
      HeaderBytes(d.m.start, d.level, d.strategy, wBits, osCode, d.out.next_out);
    }

    static lemma HeaderBytes(start: Check, level: nat, strategy: Strategy, windowBits: nat, os: byte, s: seq<byte>)
      requires 9 <= windowBits <= 15 && HeaderFor(start, level, strategy, windowBits, os) <= s
      ensures var h := HeaderFor(start, level, strategy, windowBits, os);
              && (start.NoCheck? ==> h == [])
              && (start.AdlerCheck? ==>
                    && |h| == 2 <= |s| && Short(s, 0) % 31 == 0
                    && s[0] % 16 == 8 && s[0] / 16 + 8 == windowBits && s[1] / 32 % 2 == 0
                    && s[1] / 64 == LevelFlags(level, Quick(strategy)))
              && (start.CrcCheck? ==>
                    && |h| == 10 <= |s| && s[..8] == [31, 139, 8, 0, 0, 0, 0, 0] && s[9] == os
                    && s[8] == if level == 9 then 2 else if LevelFlags(level, Quick(strategy)) == 0 then 4 else 0)
    {
      hide ZlibHeader;
      var fast := Quick(strategy);
      HeaderChecks(windowBits, level, fast);
      var h := HeaderFor(start, level, strategy, windowBits, os);
      assert forall i :: 0 <= i < |h| ==> s[i] == h[i];
      if start.AdlerCheck? {
        TopAndLow(ZlibHeader(windowBits, level, fast), s[0], s[1]);
      }
    }

    static lemma TopAndLow(h: nat, x: nat, y: nat)
      requires x == h / 256 && y == h % 256
      ensures 0x100 * x + y == h && x / 16 == h / 4096 && y / 32 % 2 == h / 32 % 2 && y / 64 == h / 64 % 4
    {
      assert h == 4096 * (x / 16) + 256 * (x % 16) + y;
      assert h / 32 == 8 * x + y / 32;
      assert h / 64 == 4 * x + y / 64;
    }

    // Header, code of the blocks and trailer follow each other.
    lemma DeliveredFrame(input: seq<byte>)
      requires 9 <= wBits <= 15 && d.Objects() && Proper(d.m.start) && Delivered(input)
      ensures var s, t := d.out.next_out, Trailer(Extend(d.m.start, input), |input|);
              && |Header()| + |t| <= |s| && Header() <= s && s[|s| - |t|..] == t
              && BitsOf(s[|Header()|..|s| - |t|]) == BlocksCode(d.enc, d.blocks)
    {
      hide Header, BitsOf, BlocksCode, Trailer, Deflater.Closed, BlockTokensOk, MayEncodeAll, DecodeBlocks, Extend;
    }

    /** The trailer the caller holds, byte by byte.  Raw: nothing but the blocks. */
    lemma RawSays(input: seq<byte>)
      requires 9 <= wBits <= 15 && d.Objects() && Proper(d.m.start) && Delivered(input) && d.m.start == NoCheck
      ensures BitsOf(d.out.next_out) == BlocksCode(d.enc, d.blocks)
    {
      hide Delivered, Header, Deflater.Objects, Proper, BitsOf, BlocksCode;
      HeaderLength();
      DeliveredFrame(input);
      assert d.out.next_out[0..|d.out.next_out|] == d.out.next_out;
    }

    /** zlib: the blocks lie between two bytes and the Adler-32 of the input (RFC 1950). */
    lemma ZlibSays(input: seq<byte>)
      requires 9 <= wBits <= 15 && d.Objects() && Proper(d.m.start) && Delivered(input) && d.m.start == AdlerCheck(1)
      ensures EndsInAdler(d.out.next_out, input) && |d.out.next_out| >= 6
      ensures BitsOf(d.out.next_out[2..|d.out.next_out| - 4]) == BlocksCode(d.enc, d.blocks)
    {
      hide Delivered, Header, Deflater.Objects, Proper, Trailer, Extend, BitsOf, BlocksCode, EndsInAdler;
      HeaderLength();
      DeliveredFrame(input);
      AdlerTrailer(input);
      SameAdler(d.out.next_out, Trailer(Extend(AdlerCheck(1), input), |input|), input);
    }

    /** gzip: the blocks lie between ten bytes and the CRC-32 and length of the input
        (RFC 1952). */
    lemma GzipSays(input: seq<byte>)
      requires 9 <= wBits <= 15 && d.Objects() && Proper(d.m.start) && Delivered(input) && d.m.start == CrcCheck(0)
      ensures EndsInCrc(d.out.next_out, input) && |d.out.next_out| >= 18
      ensures BitsOf(d.out.next_out[10..|d.out.next_out| - 8]) == BlocksCode(d.enc, d.blocks)
    {
      hide Delivered, Header, Deflater.Objects, Proper, Trailer, Extend, BitsOf, BlocksCode, EndsInCrc;
      HeaderLength();
      DeliveredFrame(input);
      CrcTrailer(input);
      SameCrc(d.out.next_out, Trailer(Extend(CrcCheck(0), input), |input|), input);
    }

    lemma HeaderLength()
      requires 9 <= wBits <= 15
      ensures |Header()| == if d.m.start.NoCheck? then 0 else if d.m.start.AdlerCheck? then 2 else 10
    {
    }

    lemma FinishedParts()
      requires Valid() && status == FinishState
      ensures d.m.CheckOk() && d.Closed() && Header() <= d.out.put
    {
      hide Deflater.Emitted, Deflater.Closed, Header, TrailerWritten, ChainsAgree, KeysAgree, WindowAgrees;
    }

    /** Z_FINISH again and again, with any space greater than zero each time, reaches
        Z_STREAM_END, with everything offered so far in the stream. */
    method FinishStream(spaces: nat -> nat)
      requires Valid() && (status == FinishState ==> d.m.next_in == []) && forall i :: spaces(i) > 0
      modifies this`status, this`last_flush, this`wrap
      modifies d`match_length, d`prev_match, d`match_available, d`blocks
      modifies d.m.window, d.m.head, d.m.prev, d.sym`last_lit, d.sym.d_buf, d.sym.l_buf, d`log, d`cuts, d`seen, d.out
      modifies d.m`next_in, d.m`strstart, d.m`lookahead, d.m`block_start, d.m`match_start, d.m`prev_length, d.m`ins_h
      modifies d.m`insert
      modifies d.m`data, d.m`check, d.m`total_in, d.m`base, d.m`hist, d.m`written, d.m`solid, d.m`high_water
      ensures Valid() && Ended() && d.m.data == old(d.m.data) + old(d.m.next_in)
      ensures Proper(d.m.start) && Delivered(d.m.data)
    {
      hide Deflater.Ready, Deflater.Complete, Deflater.AllFlushed, Header, TrailerWritten, Valid, Delivered;
      var ret := Ok;
      var i := 0;
      while ret != StreamEnd
        invariant Valid() && d.m.data + d.m.next_in == old(d.m.data) + old(d.m.next_in)
        invariant status == FinishState ==> d.m.next_in == []
        invariant ret == StreamEnd ==> Ended()
        decreases ret != StreamEnd, ToDo().stage, ToDo().unread, ToDo().unsealed, ToDo().backlog
      {
        Offer(Call([], spaces(i), Finish));
        ret := Deflate(Finish);
        i := i + 1;
      }
      EndDelivers();
    }

    // What the caller does between calls.
    method Offer(c: Call)
      requires Valid()
      modifies d.m`next_in, d.out`avail_out
      ensures Valid() && d.m.next_in == old(d.m.next_in) + c.input && d.out.avail_out == c.space
      ensures c.input == [] ==> ToDo() == old(ToDo())
    {
      hide Deflater.Ready, Deflater.Complete, Header, Framed, TrailerWritten, Deflater.TracedAs;
      d.m.next_in := d.m.next_in + c.input;
      d.out.avail_out := c.space;
    }

    // What the caller offers, and one call.
    method OneCall(c: Call) returns (ret: Return)
      requires Valid()
      modifies this`status, this`last_flush, this`wrap
      modifies d`match_length, d`prev_match, d`match_available, d`blocks
      modifies d.m.window, d.m.head, d.m.prev, d.sym`last_lit, d.sym.d_buf, d.sym.l_buf, d`log, d`cuts, d`seen, d.out
      modifies d.m`next_in, d.m`strstart, d.m`lookahead, d.m`block_start, d.m`match_start, d.m`prev_length, d.m`ins_h
      modifies d.m`insert
      modifies d.m`data, d.m`check, d.m`total_in, d.m`base, d.m`hist, d.m`written, d.m`solid, d.m`high_water
      ensures Valid() && old(d.cuts) <= d.cuts && (ret == StreamEnd ==> Ended())
      ensures d.m.data + d.m.next_in == old(d.m.data + d.m.next_in) + c.input
      ensures ret == Ok && c.flush == FullFlush && d.out.avail_out > 0 ==>
        d.m.next_in == [] && Cut(|d.m.data|, |d.blocks|) in d.cuts
    {
      hide Deflater.Ready, Deflater.Complete, Header, TrailerWritten, Valid, Ended;
      Offer(c);
      ret := Deflate(c.flush);
    }

    lemma AtTheEnd()
      requires Valid() && Ended()
      ensures Proper(d.m.start) && Delivered(d.m.data) && d.m.next_in == []
      ensures forall cut :: cut in d.cuts ==> RestartsAt(cut, d.m.data)
    {
      EndDelivers();
      RestartAll();
      hide Valid, Delivered, RestartsAt, TrailerWritten;
    }

    /** Any sequence of deflate() calls, each with its own input, output space and
        flush mode: no input is lost, output only grows, and when the last call
        says Z_STREAM_END the caller holds the whole input, and behind every full flush
        that left space a reader may start and gets the input of the calls after it. */
    method Run(calls: seq<Call>) returns (rets: seq<Return>, ghost ends: seq<Reached>)
      requires Valid() && d.m.data == [] && d.m.next_in == []
      modifies this`status, this`last_flush, this`wrap
      modifies d`match_length, d`prev_match, d`match_available, d`blocks
      modifies d.m.window, d.m.head, d.m.prev, d.sym`last_lit, d.sym.d_buf, d.sym.l_buf, d`log, d`cuts, d`seen, d.out
      modifies d.m`next_in, d.m`strstart, d.m`lookahead, d.m`block_start, d.m`match_start, d.m`prev_length, d.m`ins_h
      modifies d.m`insert
      modifies d.m`data, d.m`check, d.m`total_in, d.m`base, d.m`hist, d.m`written, d.m`solid, d.m`high_water
      ensures Valid() && |rets| == |calls| == |ends|
      ensures d.m.data + d.m.next_in == Inputs(calls)
      ensures rets != [] && rets[|rets| - 1] == StreamEnd ==> Proper(d.m.start) && Delivered(Inputs(calls))
      ensures forall i :: 0 <= i < |calls| ==> FullFlushOk(calls, i, rets[i], ends[i], d.cuts)
      ensures rets != [] && rets[|rets| - 1] == StreamEnd ==>
        forall cut :: cut in d.cuts ==> RestartsAt(cut, Inputs(calls))
    {
      hide Valid, Ended, Delivered, RestartsAt;
      rets, ends := [], [];
      assert d.m.data + d.m.next_in == [];
      var i := 0;
      while i < |calls|
        invariant 0 <= i <= |calls| && |rets| == i == |ends|
        invariant Valid() && d.m.data + d.m.next_in == Inputs(calls[..i])
        invariant i > 0 && rets[i - 1] == StreamEnd ==> Ended()
        invariant forall j :: 0 <= j < i ==> FullFlushOk(calls, j, rets[j], ends[j], d.cuts)
      {
        var ret := OneCall(calls[i]);
        InputsSnoc(calls, i);
        rets := rets + [ret];
        ends := ends + [Reached(d.out.avail_out, Cut(|d.m.data|, |d.blocks|))];
        i := i + 1;
      }
      assert calls[..i] == calls;
      if i > 0 && rets[i - 1] == StreamEnd {
        AtTheEnd();
        assert d.m.data + d.m.next_in == d.m.data;
      }
    }
  }

  datatype Call = Call(input: seq<byte>, space: nat, flush: Flush)

  // What a call leaves: its output space, and how much has been read and put into blocks.
  datatype Reached = Reached(space: nat, cut: Cut)

  // Behind call i, if it is a full flush that has left space, a reader may start.
  predicate FullFlushOk(calls: seq<Call>, i: nat, ret: Return, end: Reached, cuts: seq<Cut>)
    requires i < |calls|
  {
    ret == Ok && calls[i].flush == FullFlush && end.space > 0 ==>
      end.cut in cuts && end.cut.pos == |Inputs(calls[..i + 1])|
  }

  function Inputs(calls: seq<Call>): seq<byte> {
    if calls == [] then [] else Inputs(calls[..|calls| - 1]) + calls[|calls| - 1].input
  }

  lemma InputsSnoc(calls: seq<Call>, i: nat)
    requires i < |calls|
    ensures Inputs(calls[..i + 1]) == Inputs(calls[..i]) + calls[i].input
  {
    assert calls[..i + 1][..i] == calls[..i];
  }

  lemma WindowSizes(windowBits: nat)
    requires 9 <= windowBits <= 15
    ensures 512 <= Pow2(windowBits) <= 0x8000
  {
    assert Pow2(9) == 512 by {
      assert Pow2(5) == 32;
    }
    PowersOfTwo();
    Pow2Mono(9, windowBits);
    Pow2Mono(windowBits, 15);
  }
}
