/**
 A decoder of the compressed bits, block by block.  It is abstract, as the encoder is;
 what is asked of it is that it undoes the encoder on one block at a time.
 */
module BlockReaders {
  import opened Bits
  import opened BitStreams
  import opened Tokens
  import opened Deflaters

  // What reading one block gives: where the next one begins, all output so far, and
  // whether it was the last.
  datatype Step = Step(pos: nat, out: seq<byte>, last: bool)

  // Read one block: the bits, where the block begins in them, and the output so far.
  type Reader = (seq<bool>, nat, seq<byte>) -> Option<Step>

  /** Read blocks up to the last one. */
  function ReadAll(read: Reader, bits: seq<bool>, pos: nat, out: seq<byte>): Option<seq<byte>>
    requires pos <= |bits|
    decreases |bits| - pos
  {
    match read(bits, pos, out)
    case None => None
    case Some(s) =>
      if s.last then Some(s.out)
      else if pos < s.pos <= |bits| then ReadAll(read, bits, s.pos, s.out) else None
  }

  // The code of block b, beginning at bit position pos.
  function CodeAt(enc: Block -> seq<Piece>, b: Block, pos: nat): seq<bool> {
    Coded(Pieces(enc, b), pos)
  }

  /** The reader undoes the encoder on block b, stored or not: wherever its code stands in
      the bits, and whatever has been read before, it finds what the block stands for. */
  ghost predicate Inverts(read: Reader, enc: Block -> seq<Piece>, b: Block, asStored: bool)
    requires asStored ==> b.buf.Some?
  {
    forall before: seq<bool>, after: seq<bool>, out: seq<byte> ::
      Reads(read, enc, b, asStored, before, after, out)
  }

  ghost predicate Reads(read: Reader, enc: Block -> seq<Piece>, b: Block, asStored: bool,
                        before: seq<bool>, after: seq<bool>, out: seq<byte>)
    requires asStored ==> b.buf.Some?
  {
    var code := CodeAt(enc, b, |before|);
    DecodeBlock(out, b, asStored).Some? ==>
      && code != []
      && read(before + code + after, |before|, out)
         == Some(Step(|before| + |code|, DecodeBlock(out, b, asStored).value, b.last))
  }

  // Only the last block says that it is the last.
  predicate OneLast(bs: seq<Block>) {
    && bs != [] && bs[|bs| - 1].last
    && forall i :: 0 <= i < |bs| - 1 ==> !bs[i].last
  }

  // The code of the first k blocks comes before that of block k.
  lemma {:induction false} CodeSplits(enc: Block -> seq<Piece>, bs: seq<Block>, k: nat)
    requires k <= |bs|
    ensures BlocksCode(enc, bs[..k]) <= BlocksCode(enc, bs)
    decreases |bs|
  {
    hide Coded;
    if k == |bs| {
      assert bs[..k] == bs;
    } else {
      var n := |bs| - 1;
      CodeSplits(enc, bs[..n], k);
      assert bs[..n][..k] == bs[..k];
    }
  }

  lemma CodeNext(enc: Block -> seq<Piece>, bs: seq<Block>, k: nat)
    requires k < |bs|
    ensures var c := BlocksCode(enc, bs[..k]); BlocksCode(enc, bs[..k + 1]) == c + CodeAt(enc, bs[k], |c|)
  {
    assert bs[..k + 1][..k] == bs[..k];
  }

  lemma {:induction false} DecodePrefix(bs: seq<Block>, stored: seq<bool>, k: nat)
    requires k <= |bs| == |stored| && forall i :: 0 <= i < |bs| ==> stored[i] ==> bs[i].buf.Some?
    requires DecodeBlocks(bs, stored).Some?
    ensures DecodeBlocks(bs[..k], stored[..k]).Some?
    decreases |bs|
  {
    if k == |bs| {
      assert bs[..k] == bs && stored[..k] == stored;
    } else {
      var n := |bs| - 1;
      DecodePrefix(bs[..n], stored[..n], k);
      assert bs[..n][..k] == bs[..k] && stored[..n][..k] == stored[..k];
    }
  }

  lemma DecodeNext(bs: seq<Block>, stored: seq<bool>, k: nat)
    requires k < |bs| == |stored| && forall i :: 0 <= i < |bs| ==> stored[i] ==> bs[i].buf.Some?
    requires DecodeBlocks(bs[..k], stored[..k]).Some?
    ensures DecodeBlocks(bs[..k + 1], stored[..k + 1])
         == DecodeBlock(DecodeBlocks(bs[..k], stored[..k]).value, bs[k], stored[k])
  {
    assert bs[..k + 1][..k] == bs[..k] && stored[..k + 1][..k] == stored[..k];
  }

  /** Reading the code of the blocks from block k on gives what all of them decode to. */
  lemma {:induction false} ReadsFrom(read: Reader, enc: Block -> seq<Piece>, bs: seq<Block>, stored: seq<bool>, k: nat)
    requires k < |bs| == |stored| && OneLast(bs)
    requires forall i :: 0 <= i < |bs| ==> (stored[i] ==> bs[i].buf.Some?) && Inverts(read, enc, bs[i], stored[i])
    requires DecodeBlocks(bs, stored).Some? && DecodeBlocks(bs[..k], stored[..k]).Some?
    ensures var bits, pos := BlocksCode(enc, bs), |BlocksCode(enc, bs[..k])|;
            pos <= |bits|
            && ReadAll(read, bits, pos, DecodeBlocks(bs[..k], stored[..k]).value) == DecodeBlocks(bs, stored)
    decreases |bs| - k
  {
    hide BlocksCode, DecodeBlocks, DecodeBlock, CodeAt, Inverts;
    var bits, before := BlocksCode(enc, bs), BlocksCode(enc, bs[..k]);
    var out := DecodeBlocks(bs[..k], stored[..k]).value;
    CodeSplits(enc, bs, k);
    CodeSplits(enc, bs, k + 1);
    CodeNext(enc, bs, k);
    DecodePrefix(bs, stored, k + 1);
    DecodeNext(bs, stored, k);
    var code := CodeAt(enc, bs[k], |before|);
    var after := bits[|before| + |code|..];
    assert bits == before + code + after;
    InvertsHere(read, enc, bs[k], stored[k], before, after, out);
    if k + 1 < |bs| {
      ReadsFrom(read, enc, bs, stored, k + 1);
    } else {
      assert bs[..k + 1] == bs && stored[..k + 1] == stored;
    }
  }

  lemma InvertsHere(read: Reader, enc: Block -> seq<Piece>, b: Block, asStored: bool, before: seq<bool>,
                    after: seq<bool>, out: seq<byte>)
    requires (asStored ==> b.buf.Some?) && Inverts(read, enc, b, asStored)
    ensures Reads(read, enc, b, asStored, before, after, out)
  {
  }
}
