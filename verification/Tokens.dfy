/**
 What a decoder makes of the compressor's output: literal bytes, back-references
 (section 3.2.3 of RFC 1951, overlapping copies included) and blocks.
 */
module Tokens {
  import opened Bits

  datatype Option<+T> = None | Some(value: T)

  datatype Token = Literal(c: byte) | Match(dist: nat, len: nat)

  const MIN_MATCH := 3
  const MAX_MATCH := 258

  // Copy `len` bytes from `dist` bytes back, one byte at a time.
  function Copy(out: seq<byte>, dist: nat, len: nat): seq<byte>
    requires 1 <= dist <= |out|
    decreases len
  {
    if len == 0 then out else Copy(out + [out[|out| - dist]], dist, len - 1)
  }

  function DecodeToken(out: seq<byte>, t: Token): Option<seq<byte>> {
    match t
    case Literal(c) => Some(out + [c])
    case Match(dist, len) => if 1 <= dist <= |out| then Some(Copy(out, dist, len)) else None
  }

  // Decode tokens on top of what has been decoded before.
  function Decode(out: seq<byte>, ts: seq<Token>): Option<seq<byte>> {
    if ts == [] then Some(out)
    else
      var n := |ts| - 1;
      match Decode(out, ts[..n])
      case None => None
      case Some(o) => DecodeToken(o, ts[n])
  }

  // The lengths and distances a deflate stream can express for this window.
  predicate TokenOk(t: Token, maxDist: nat) {
    t.Match? ==> MIN_MATCH <= t.len <= MAX_MATCH && 1 <= t.dist <= maxDist
  }

  predicate TokensOk(ts: seq<Token>, maxDist: nat) {
    forall i :: 0 <= i < |ts| ==> TokenOk(ts[i], maxDist)
  }

  // `data` repeats itself: len bytes at pos equal the bytes dist earlier.
  predicate Repeats(data: seq<byte>, pos: nat, dist: nat, len: nat) {
    && 1 <= dist <= pos
    && pos + len <= |data|
    && forall k :: pos <= k < pos + len ==> data[k] == data[k - dist]
  }

  lemma {:induction false} CopyRepeats(data: seq<byte>, pos: nat, dist: nat, len: nat)
    requires Repeats(data, pos, dist, len)
    ensures Copy(data[..pos], dist, len) == data[..pos + len]
    decreases len
  {
    if len != 0 {
      assert data[pos] == data[pos - dist];
      assert data[..pos] + [data[pos - dist]] == data[..pos + 1];
      assert Repeats(data, pos + 1, dist, len - 1);
      CopyRepeats(data, pos + 1, dist, len - 1);
    }
  }

  lemma RepeatsGrow(data: seq<byte>, data': seq<byte>, pos: nat, dist: nat, len: nat)
    requires Repeats(data, pos, dist, len) && data <= data'
    ensures Repeats(data', pos, dist, len)
  {
  }

  lemma RepeatsShorter(data: seq<byte>, pos: nat, dist: nat, len: nat, len': nat)
    requires len' <= len
    ensures Repeats(data, pos, dist, len) ==> Repeats(data, pos, dist, len')
  {
  }

  lemma DecodeSnoc(out: seq<byte>, ts: seq<Token>, t: Token)
    requires Decode(out, ts).Some?
    ensures Decode(out, ts + [t]) == DecodeToken(Decode(out, ts).value, t)
  {
    assert (ts + [t])[..|ts|] == ts;
  }

  // Emitting one more token when the tokens so far decode to data[..pos].
  lemma EmitLiteral(data: seq<byte>, start: nat, ts: seq<Token>, pos: nat)
    requires start <= pos < |data|
    requires Decode(data[..start], ts) == Some(data[..pos])
    ensures Decode(data[..start], ts + [Literal(data[pos])]) == Some(data[..pos + 1])
  {
    DecodeSnoc(data[..start], ts, Literal(data[pos]));
    assert data[..pos] + [data[pos]] == data[..pos + 1];
  }

  lemma EmitMatch(data: seq<byte>, start: nat, ts: seq<Token>, pos: nat, dist: nat, len: nat)
    requires start <= pos
    requires Repeats(data, pos, dist, len)
    requires Decode(data[..start], ts) == Some(data[..pos])
    ensures Decode(data[..start], ts + [Match(dist, len)]) == Some(data[..pos + len])
  {
    DecodeSnoc(data[..start], ts, Match(dist, len));
    CopyRepeats(data, pos, dist, len);
  }

  function TokenLen(t: Token): nat {
    match t
    case Literal(_) => 1
    case Match(_, len) => len
  }

  function TotalLen(ts: seq<Token>): nat {
    if ts == [] then 0 else TotalLen(ts[..|ts| - 1]) + TokenLen(ts[|ts| - 1])
  }

  lemma {:induction false} CopyLen(out: seq<byte>, dist: nat, len: nat)
    requires 1 <= dist <= |out|
    ensures |Copy(out, dist, len)| == |out| + len
    decreases len
  {
    if len != 0 {
      CopyLen(out + [out[|out| - dist]], dist, len - 1);
    }
  }

  /** Decoding produces exactly as many bytes as the token lengths say. */
  lemma {:induction false} DecodeLen(out: seq<byte>, ts: seq<Token>)
    requires Decode(out, ts).Some?
    ensures |Decode(out, ts).value| == |out| + TotalLen(ts)
    decreases |ts|
  {
    if ts != [] {
      var n := |ts| - 1;
      DecodeLen(out, ts[..n]);
      var o := Decode(out, ts[..n]).value;
      if ts[n].Match? {
        CopyLen(o, ts[n].dist, ts[n].len);
      }
    }
  }

  /** A block handed to `_tr_flush_block`: the tallied tokens, the window bytes if
      they are still there (`buf`, null when block_start is negative), and the
      number of input bytes it stands for. */
  datatype Block = Block(tokens: seq<Token>, buf: Option<seq<byte>>, storedLen: int, last: bool)

  // The encoder may store a block whose bytes are at hand, and at level 0 must.
  predicate MayEncode(b: Block, asStored: bool, level0: bool) {
    if asStored then b.buf.Some? else !(level0 && b.buf.Some?)
  }

  function DecodeBlock(out: seq<byte>, b: Block, asStored: bool): Option<seq<byte>>
    requires asStored ==> b.buf.Some?
  {
    if asStored then Some(out + b.buf.value) else Decode(out, b.tokens)
  }

  predicate MayEncodeAll(bs: seq<Block>, stored: seq<bool>, level0: bool) {
    |bs| == |stored| && forall i :: 0 <= i < |bs| ==> MayEncode(bs[i], stored[i], level0)
  }

  function DecodeBlocks(bs: seq<Block>, stored: seq<bool>): Option<seq<byte>>
    requires |bs| == |stored|
    requires forall i :: 0 <= i < |bs| ==> stored[i] ==> bs[i].buf.Some?
  {
    if bs == [] then Some([])
    else
      var n := |bs| - 1;
      match DecodeBlocks(bs[..n], stored[..n])
      case None => None
      case Some(o) => DecodeBlock(o, bs[n], stored[n])
  }

  // Block b stands for data[at..at + b.storedLen], however it is encoded.
  ghost predicate Faithful(data: seq<byte>, at: nat, b: Block, level0: bool) {
    && b.storedLen >= 0
    && at + b.storedLen <= |data|
    && (b.buf.Some? ==> b.buf.value == data[at..at + b.storedLen])
    && (MayEncode(b, false, level0) ==> Decode(data[..at], b.tokens) == Some(data[..at + b.storedLen]))
  }

  // The blocks cut data[..end] into consecutive faithful pieces.
  ghost predicate Blocks(data: seq<byte>, bs: seq<Block>, end: nat, level0: bool) {
    if bs == [] then end == 0
    else
      var n := |bs| - 1;
      && 0 <= bs[n].storedLen <= end <= |data|
      && Faithful(data, end - bs[n].storedLen, bs[n], level0)
      && Blocks(data, bs[..n], end - bs[n].storedLen, level0)
  }

  lemma BlocksSnoc(data: seq<byte>, bs: seq<Block>, at: nat, b: Block, level0: bool)
    requires Blocks(data, bs, at, level0)
    requires Faithful(data, at, b, level0)
    ensures Blocks(data, bs + [b], at + b.storedLen, level0)
  {
    assert (bs + [b])[..|bs|] == bs;
  }

  // More input does not change what the blocks stand for.
  lemma {:induction false} BlocksGrow(data: seq<byte>, more: seq<byte>, bs: seq<Block>, end: nat, level0: bool)
    requires Blocks(data, bs, end, level0)
    requires end <= |data|
    ensures Blocks(data + more, bs, end, level0)
    decreases |bs|
  {
    if bs != [] {
      var n := |bs| - 1;
      var at := end - bs[n].storedLen;
      BlocksGrow(data, more, bs[..n], at, level0);
      assert (data + more)[at..end] == data[at..end];
      assert (data + more)[..at] == data[..at];
      assert (data + more)[..end] == data[..end];
    }
  }

  /** Whatever encoding is chosen block by block, decoding the blocks gives back
      the data they were cut from. */
  lemma {:induction false} DecodeFaithful(data: seq<byte>, bs: seq<Block>, end: nat, level0: bool, stored: seq<bool>)
    requires Blocks(data, bs, end, level0) && end <= |data|
    requires MayEncodeAll(bs, stored, level0)
    ensures DecodeBlocks(bs, stored) == Some(data[..end])
    decreases |bs|
  {
    if bs == [] {
      assert data[..end] == [];
    } else {
      var n := |bs| - 1;
      var at := end - bs[n].storedLen;
      DecodeFaithful(data, bs[..n], at, level0, stored[..n]);
      assert MayEncode(bs[n], stored[n], level0);
      assert data[..at] + data[at..end] == data[..end];
    }
  }

  ghost predicate BlockTokensOk(bs: seq<Block>, maxDist: nat) {
    forall i :: 0 <= i < |bs| ==> TokensOk(bs[i].tokens, maxDist)
  }

  /** The invariant of a compression run: the flushed blocks stand for data[..at],
      and the tokens tallied since then carry a decoder on to data[..n]. */
  ghost predicate Represents(data: seq<byte>, bs: seq<Block>, ts: seq<Token>, at: int, n: int, level0: bool,
                             maxDist: nat) {
    && 0 <= at <= n <= |data|
    && Blocks(data, bs, at, level0)
    && Decode(data[..at], ts) == Some(data[..n])
    && TokensOk(ts, maxDist) && BlockTokensOk(bs, maxDist)
  }

  lemma RepresentsLiteral(data: seq<byte>, bs: seq<Block>, ts: seq<Token>, at: int, n: int, level0: bool, maxDist: nat)
    requires Represents(data, bs, ts, at, n, level0, maxDist) && n < |data|
    ensures Represents(data, bs, ts + [Literal(data[n])], at, n + 1, level0, maxDist)
  {
    hide Blocks, Decode;
    EmitLiteral(data, at, ts, n);
  }

  lemma RepresentsMatch(data: seq<byte>, bs: seq<Block>, ts: seq<Token>, at: int, n: int, level0: bool, maxDist: nat,
                        dist: nat, len: nat)
    requires Represents(data, bs, ts, at, n, level0, maxDist)
    requires Repeats(data, n, dist, len)
    requires MIN_MATCH <= len <= MAX_MATCH && dist <= maxDist
    ensures Represents(data, bs, ts + [Match(dist, len)], at, n + len, level0, maxDist)
  {
    hide Blocks, Decode;
    EmitMatch(data, at, ts, n, dist, len);
  }

  lemma RepresentsFlush(data: seq<byte>, bs: seq<Block>, ts: seq<Token>, at: int, n: int, level0: bool, maxDist: nat,
                        b: Block)
    requires Represents(data, bs, ts, at, n, level0, maxDist)
    requires b.tokens == ts && Faithful(data, at, b, level0)
    ensures Represents(data, bs + [b], [], at + b.storedLen, at + b.storedLen, level0, maxDist)
  {
    hide Blocks;
    BlocksSnoc(data, bs, at, b, level0);
  }

  // The block made at a flush when the tokens reach exactly up to n.
  lemma FlushedFaithful(data: seq<byte>, bs: seq<Block>, ts: seq<Token>, at: int, n: int, level0: bool, maxDist: nat,
                        b: Block)
    requires Represents(data, bs, ts, at, n, level0, maxDist)
    requires b.tokens == ts && b.storedLen == n - at
    requires b.buf.Some? ==> b.buf.value == data[at..n]
    ensures Faithful(data, at, b, level0)
  {
    hide Blocks;
  }

  // The block made at a flush when the bytes themselves are handed over at level 0.
  lemma StoredFaithful(data: seq<byte>, at: nat, n: nat, b: Block)
    requires at <= n <= |data|
    requires b.storedLen == n - at && b.buf == Some(data[at..n])
    ensures Faithful(data, at, b, true)
  {
  }

  lemma RepresentsGrow(data: seq<byte>, data': seq<byte>, bs: seq<Block>, ts: seq<Token>, at: int, n: int,
                       level0: bool, maxDist: nat)
    requires Represents(data, bs, ts, at, n, level0, maxDist) && data <= data'
    ensures Represents(data', bs, ts, at, n, level0, maxDist)
  {
    hide Blocks;
    var more := data'[|data|..];
    assert data' == data + more;
    BlocksGrow(data, more, bs, at, level0);
    assert data'[..at] == data[..at] && data'[..n] == data[..n];
  }

  predicate Empty(b: Block) {
    b.tokens == [] && b.storedLen == 0 && (b.buf == None || b.buf == Some([]))
  }

  // The empty block a flush mode asks for stands for nothing.
  lemma RepresentsEmpty(data: seq<byte>, bs: seq<Block>, ts: seq<Token>, at: int, n: int, level0: bool, maxDist: nat,
                        b: Block)
    requires Represents(data, bs, ts, at, n, level0, maxDist) && Empty(b)
    ensures Represents(data, bs + [b], ts, at, n, level0, maxDist)
  {
    hide Blocks;
    assert data[at..at + b.storedLen] == [];
    BlocksSnoc(data, bs, at, b, level0);
  }

  /** The token lengths since the last flush add up to the input since then. */
  lemma TokensCoverBlock(data: seq<byte>, bs: seq<Block>, ts: seq<Token>, at: int, n: int, level0: bool, maxDist: nat)
    requires Represents(data, bs, ts, at, n, level0, maxDist)
    ensures TotalLen(ts) == n - at
  {
    hide Blocks;
    DecodeLen(data[..at], ts);
  }
}
