/**
 The running checksum of the compressor's input: none for raw deflate, Adler-32 in
 a zlib wrapper (RFC 1950), CRC-32 in a gzip wrapper (RFC 1952).
 */
module Checksum {
  import opened Bits
  import Adler
  import Crc

  datatype Check = NoCheck | AdlerCheck(adler: Adler.U32) | CrcCheck(crc: Crc.word)

  predicate Proper(k: Check) {
    k.AdlerCheck? ==> Adler.Unpack(k.adler).Reduced()
  }

  function ToCrcBytes(s: seq<byte>): (r: seq<bv8>)
    ensures |r| == |s|
  {
    seq(|s|, i requires 0 <= i < |s| => s[i] as bv8)
  }

  // The value adler32() or crc32() returns for the next bytes.
  function Extend(k: Check, s: seq<byte>): (r: Check)
    requires Proper(k)
    ensures Proper(r)
  {
    match k
    case NoCheck => NoCheck
    case AdlerCheck(a) =>
      Adler.FoldReduced(Adler.Unpack(a), s);
      AdlerCheck(Adler.Pack(Adler.Adler(a, s)))
    case CrcCheck(c) => CrcCheck(Crc.CrcOf(c, ToCrcBytes(s)))
  }

  lemma ExtendAppend(k: Check, x: seq<byte>, y: seq<byte>)
    requires Proper(k)
    ensures Extend(Extend(k, x), y) == Extend(k, x + y)
  {
    match k
    case NoCheck =>
    case AdlerCheck(a) => Adler.SplitCalls(a, x, y);
    case CrcCheck(c) =>
      assert ToCrcBytes(x + y) == ToCrcBytes(x) + ToCrcBytes(y);
      Crc.SplitCalls(c, ToCrcBytes(x), ToCrcBytes(y));
  }

  // The checksum k covers exactly the data.
  ghost predicate Covers(k: Check, start: Check, data: seq<byte>) {
    Proper(start) && k == Extend(start, data)
  }

  lemma CoversMore(k: Check, start: Check, data: seq<byte>, more: seq<byte>)
    requires Covers(k, start, data)
    ensures Proper(k) && Covers(Extend(k, more), start, data + more)
  {
    ExtendAppend(start, data, more);
  }

  lemma CoversNothing(start: Check)
    requires start == NoCheck || start == AdlerCheck(1) || start == CrcCheck(0)
    ensures Covers(start, start, [])
  {
    if start.CrcCheck? {
      Crc.NotNot(0);
      assert ToCrcBytes([]) == [];
    }
  }
}
