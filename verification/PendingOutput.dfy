/**
 The pending output buffer of the compressor and the caller's output stream:
 put_byte, flush_pending, and the bit buffer that the encoders of trees.c fill with
 send_bits and bi_windup.
 */
module PendingOutputs {
  import opened Bits
  import opened BitStreams

  lemma Deliver(out: seq<byte>, buf: seq<byte>, from: nat, n: nat, len: nat)
    requires from + n <= |buf| && len <= n
    ensures out + buf[from..from + n]
         == (out + buf[from..from + len]) + buf[from + len..from + n]
    ensures buf[from + n..from + n] == []
  {
    assert buf[from..from + n] == buf[from..from + len] + buf[from + len..from + n];
  }

  class PendingOutput {
    var pending_buf: seq<byte>
    var pending_out: nat       // index in pending_buf of the next byte to deliver
    var pending: nat           // number of bytes waiting
    var bi_buf: nat
    var bi_valid: nat
    var avail_out: nat
    var next_out: seq<byte>    // everything delivered so far
    ghost var put: seq<byte>   // everything put so far

    ghost predicate Valid()
      reads this
    {
      && pending_out + pending <= |pending_buf|
      && (pending == 0 ==> pending_out == 0)
      && bi_valid <= 16 && bi_buf < Pow2(bi_valid)
      && (pending_out != 0 ==> bi_valid < 8)
      && next_out + pending_buf[pending_out..pending_out + pending] == put
    }

    // put_byte may run: nothing has been delivered from the front of the buffer.
    ghost predicate Aligned()
      reads this`pending_out
    {
      pending_out == 0
    }

    // Every bit put so far, those in the bit buffer included.
    ghost function Stream(): seq<bool>
      reads this`put, this`bi_buf, this`bi_valid
    {
      BitsOf(put) + LowBits(bi_buf, bi_valid)
    }

    // Only ever appended to.
    ghost predicate Extends(p: seq<byte>, d: seq<byte>)
      reads this`put, this`next_out
    {
      p <= put && d <= next_out
    }

    constructor ()
      ensures Valid() && Aligned() && pending == 0 && put == [] && next_out == [] && bi_valid == 0
    {
      assert Pow2(0) == 1;
      pending_buf, pending_out, pending := [], 0, 0;
      bi_buf, bi_valid, avail_out := 0, 0, 0;
      next_out, put := [], [];
    }

    method PutByte(c: byte)
      requires Valid() && Aligned()
      modifies this`pending_buf, this`pending, this`put
      ensures Valid() && Aligned()
      ensures put == old(put) + [c] && pending == old(pending) + 1
    {
      if pending < |pending_buf| {
        pending_buf := pending_buf[pending := c];
      } else {
        pending_buf := pending_buf + [c];
      }
      assert pending_buf[..pending] == old(pending_buf[..pending]);
      assert pending_buf[..pending + 1] == pending_buf[..pending] + [c];
      pending := pending + 1;
      put := put + [c];
    }

    // Least significant byte first.
    method PutShort(w: nat)
      requires Valid() && Aligned()
      requires w < 0x1_0000
      modifies this`pending_buf, this`pending, this`put
      ensures Valid() && Aligned()
      ensures put == old(put) + [w % 256, w / 256] && pending == old(pending) + 2
    {
      PutByte(w % 256);
      PutByte(w / 256);
    }

    // Most significant byte first.
    method PutShortMSB(b: nat)
      requires Valid() && Aligned()
      requires b < 0x1_0000
      modifies this`pending_buf, this`pending, this`put
      ensures Valid() && Aligned()
      ensures put == old(put) + [b / 256, b % 256] && pending == old(pending) + 2
    {
      PutByte(b / 256);
      PutByte(b % 256);
    }

    // The whole bytes of the bit buffer, lowest bits first.
    ghost function WholeBytes(): seq<byte>
      requires Valid()
      reads this
    {
      BufferBound();
      if bi_valid == 16 then [bi_buf % 256, bi_buf / 256]
      else if bi_valid >= 8 then [bi_buf % 256]
      else []
    }

    lemma BufferBound()
      requires bi_valid <= 16 && bi_buf < Pow2(bi_valid)
      ensures bi_buf < 0x1_0000 && (bi_valid <= 8 ==> bi_buf < 256)
    {
      hide Pow2;
      TwoBytes();
      Pow2Mono(bi_valid, if bi_valid <= 8 then 8 else 16);
    }

    // Taking a byte or a word out of the bit buffer moves no bit.
    lemma BitsMove(put0: seq<byte>, n: nat)
      requires n <= 16 && bi_valid <= 16 && bi_buf < Pow2(bi_valid)
      ensures bi_valid == 16 ==>
        bi_buf < 0x1_0000 && BitsOf(put0 + [bi_buf % 256, bi_buf / 256]) == BitsOf(put0) + LowBits(bi_buf, 16)
      ensures bi_valid >= 8 ==>
        && BitsOf(put0 + [bi_buf % 256]) + LowBits(bi_buf / 256, bi_valid - 8)
        == BitsOf(put0) + LowBits(bi_buf, bi_valid)
        && bi_buf / 256 < Pow2(bi_valid - 8)
    {
      hide BitsOf, LowBits, Pow2;
      TwoBytes();
      BufferBound();
      if bi_valid == 16 {
        BitsTwo(put0, bi_buf % 256, bi_buf / 256);
        WordBits(bi_buf);
      }
      if bi_valid >= 8 {
        BitsSnoc(put0, bi_buf % 256);
        UpperIs(bi_buf, 8);
        LowBitsSplit(bi_buf, 8, bi_valid - 8);
        Pow2Add(8, bi_valid - 8);
      }
    }

    // bi_flush: at most seven bits stay behind.
    method FlushBits()
      requires Valid()
      modifies this`pending_buf, this`pending, this`put, this`bi_buf, this`bi_valid
      ensures Valid() && bi_valid < 8 && bi_valid <= old(bi_valid)
      ensures put == old(put) + old(WholeBytes()) && Stream() == old(Stream())
      ensures 8 * pending + bi_valid == 8 * old(pending) + old(bi_valid)
    {
      hide BitsOf, LowBits, Pow2;
      BufferBound();
      BitsMove(put, 8);
      if bi_valid == 16 {
        PutShort(bi_buf);
        bi_buf, bi_valid := 0, 0;
        Emptied();
      } else if bi_valid >= 8 {
        PutByte(bi_buf % 256);
        bi_buf, bi_valid := bi_buf / 256, bi_valid - 8;
      }
    }

    lemma Emptied()
      ensures Pow2(0) == 1 && LowBits(0, 0) == []
    {
    }

    /** Deliver as much as fits.  Nothing is lost, duplicated or reordered
        (Valid), and either everything was delivered or the output is full. */
    method FlushPending()
      requires Valid()
      modifies this
      ensures Valid()
      ensures put == old(put) + old(WholeBytes()) && Stream() == old(Stream())
      ensures bi_valid < 8 && bi_valid <= old(bi_valid)
      ensures old(next_out) <= next_out
      ensures |next_out| - |old(next_out)| == old(avail_out) - avail_out
      ensures pending == 0 || avail_out == 0
      ensures 8 * pending + bi_valid == 8 * old(pending) + old(bi_valid) - 8 * (old(avail_out) - avail_out)
    {
      FlushBits();
      hide WholeBytes, Valid, BitsOf, LowBits;
      var len := if pending > avail_out then avail_out else pending;
      if len == 0 {
        return;
      }
      HandOut(len);
    }

    // A caller that offers room for everything waiting.
    method MakeSpace()
      requires Valid()
      modifies this
      ensures Valid() && Aligned() && pending == 0 && avail_out > 0 && Stream() == old(Stream())
    {
      avail_out := pending + 3;
      FlushPending();
    }

    // memcpy to next_out, and the counters.
    method HandOut(len: nat)
      requires Valid() && bi_valid < 8 && 0 < len <= pending && len <= avail_out
      modifies this`next_out, this`pending_out, this`pending, this`avail_out
      ensures Valid() && old(next_out) <= next_out && |next_out| == |old(next_out)| + len
      ensures avail_out == old(avail_out) - len && pending == old(pending) - len
    {
      Deliver(next_out, pending_buf, pending_out, pending, len);
      next_out := next_out + pending_buf[pending_out..pending_out + len];
      pending_out := pending_out + len;
      avail_out := avail_out - len;
      pending := pending - len;
      if pending == 0 {
        pending_out := 0;
      }
    }

    /** send_bits: the value joins the bit buffer above what it holds; a full word goes out
        and the bits of the value that no longer fitted begin the next one. */
    method SendBits(value: nat, length: nat)
      requires Valid() && Aligned() && length <= 16 && value < Pow2(length)
      modifies this`pending_buf, this`pending, this`put, this`bi_buf, this`bi_valid
      ensures Valid() && Aligned() && old(put) <= put
      ensures Stream() == old(Stream()) + LowBits(value, length)
    {
      hide BitsOf, LowBits, Pow2;
      ghost var held := LowBits(bi_buf, bi_valid);
      if bi_valid > 16 - length {
        var room := 16 - bi_valid;
        CutBits(value, room, length);
        ShiftedIn(bi_buf, bi_valid, value % Pow2(room), room);
        ghost var low, high := LowBits(value % Pow2(room), room), LowBits(value / Pow2(room), length - room);
        var word := bi_buf + value % Pow2(room) * Pow2(bi_valid);
        WordOut(put, word);
        PutShort(word);
        bi_buf, bi_valid := value / Pow2(room), bi_valid + length - 16;
        assert (BitsOf(old(put)) + (held + low)) + high == (BitsOf(old(put)) + held) + (low + high);
      } else {
        ShiftedIn(bi_buf, bi_valid, value, length);
        bi_buf := bi_buf + value * Pow2(bi_valid);
        bi_valid := bi_valid + length;
        assert BitsOf(put) + (held + LowBits(value, length)) == (BitsOf(put) + held) + LowBits(value, length);
      }
    }

    // A full word.
    lemma WordOut(put0: seq<byte>, word: nat)
      requires word < Pow2(16)
      ensures word < 0x1_0000
      ensures BitsOf(put0 + [word % 256, word / 256]) == BitsOf(put0) + LowBits(word, 16)
    {
      hide BitsOf, LowBits, Pow2;
      TwoBytes();
      BitsTwo(put0, word % 256, word / 256);
      WordBits(word);
      var a, l, h := BitsOf(put0), LowBits(word % 256, 8), LowBits(word / 256, 8);
      assert (a + l) + h == a + (l + h);
    }

    // bi_windup: pad with zeros to a byte boundary and empty the bit buffer.
    method WindUp()
      requires Valid() && Aligned()
      modifies this`pending_buf, this`pending, this`put, this`bi_buf, this`bi_valid
      ensures Valid() && Aligned() && old(put) <= put && bi_valid == 0
      ensures Stream() == old(Stream()) + Padding(|old(Stream())|)
    {
      hide BitsOf, LowBits, Pow2, Padding;
      BufferBound();
      Emptied();
      PadNothing(put);
      if bi_valid > 8 {
        PadWord(put, bi_buf, bi_valid);
        PutShort(bi_buf);
      } else if bi_valid > 0 {
        PadByte(put, bi_buf, bi_valid);
        PutByte(bi_buf);
      } else {
        BufferEmpty();
      }
      bi_buf, bi_valid := 0, 0;
      PadNothing(put);
    }

    lemma BufferEmpty()
      requires bi_buf < Pow2(bi_valid)
      ensures bi_valid == 0 ==> bi_buf == 0
    {
    }

    // Any bits, one send_bits at a time.
    method SendAll(bits: seq<bool>)
      requires Valid() && Aligned()
      modifies this`pending_buf, this`pending, this`put, this`bi_buf, this`bi_valid
      ensures Valid() && Aligned() && old(put) <= put
      ensures Stream() == old(Stream()) + bits
    {
      hide Stream;
      var i := 0;
      while i < |bits|
        invariant 0 <= i <= |bits| && Valid() && Aligned() && old(put) <= put
        invariant Stream() == old(Stream()) + bits[..i]
      {
        OneBit(bits[i]);
        SendBits(if bits[i] then 1 else 0, 1);
        i := i + 1;
      }
      assert bits[..i] == bits;
    }

    lemma OneBit(b: bool)
      ensures var v := if b then 1 else 0; v < Pow2(1) && LowBits(v, 1) == [b]
    {
      assert LowBits(0, 0) == [];
      assert Pow2(0) == 1;
    }

    method PutBytes(bytes: seq<byte>)
      requires Valid() && Aligned() && bi_valid == 0
      modifies this`pending_buf, this`pending, this`put
      ensures Valid() && Aligned() && put == old(put) + bytes && pending == old(pending) + |bytes|
    {
      var i := 0;
      while i < |bytes|
        invariant 0 <= i <= |bytes| && Valid() && Aligned() && bi_valid == 0
        invariant put == old(put) + bytes[..i] && pending == old(pending) + i
      {
        PutByte(bytes[i]);
        i := i + 1;
      }
      assert bytes[..i] == bytes;
    }

    // One piece of an encoder's code.
    method PutPiece(p: Piece)
      requires Valid() && Aligned()
      modifies this`pending_buf, this`pending, this`put, this`bi_buf, this`bi_valid
      ensures Valid() && Aligned() && old(put) <= put && (p.Bytes? ==> bi_valid == 0)
      ensures Stream() == old(Stream()) + PieceCode(p, |old(Stream())|)
    {
      hide Valid, Stream, BitsOf, LowBits, Padding;
      match p
      case Bits(bits) =>
        SendAll(bits);
      case Bytes(bytes) =>
        PutStored(bytes);
    }

    // copy_block: bytes from a byte boundary on.
    method PutStored(bytes: seq<byte>)
      requires Valid() && Aligned()
      modifies this`pending_buf, this`pending, this`put, this`bi_buf, this`bi_valid
      ensures Valid() && Aligned() && old(put) <= put && bi_valid == 0
      ensures Stream() == old(Stream()) + (Padding(|old(Stream())|) + BitsOf(bytes))
    {
      hide Valid, Stream, BitsOf, LowBits, Padding;
      ghost var s := Stream();
      WindUp();
      PutAligned(bytes);
      assert s + (Padding(|s|) + BitsOf(bytes)) == (s + Padding(|s|)) + BitsOf(bytes);
    }

    // put_byte of all bytes of a stored block; the bit buffer is empty.
    method PutAligned(bytes: seq<byte>)
      requires Valid() && Aligned() && bi_valid == 0
      modifies this`pending_buf, this`pending, this`put
      ensures Valid() && Aligned() && old(put) <= put
      ensures Stream() == old(Stream()) + BitsOf(bytes)
    {
      hide BitsOf, LowBits;
      BitsAppend(put, bytes);
      PadNothing(put);
      BufferEmpty();
      PutBytes(bytes);
      PadNothing(put);
    }

    /** Any encoder of trees.c: its code follows the bits put before. */
    method Encode(ps: seq<Piece>)
      requires Valid() && Aligned()
      modifies this`pending_buf, this`pending, this`put, this`bi_buf, this`bi_valid
      ensures Valid() && Aligned() && old(put) <= put
      ensures ps != [] && ps[|ps| - 1].Bytes? ==> bi_valid == 0
      ensures Stream() == old(Stream()) + Coded(ps, |old(Stream())|)
    {
      hide Stream, PieceCode, Coded, Valid;
      ghost var s := Stream();
      var i := 0;
      NothingCoded(|s|);
      assert ps[..0] == [];
      while i < |ps|
        invariant 0 <= i <= |ps| && Valid() && Aligned() && old(put) <= put
        invariant i > 0 && ps[i - 1].Bytes? ==> bi_valid == 0
        invariant Stream() == s + Coded(ps[..i], |s|)
      {
        CodedSnoc(ps[..i], ps[i], |s|);
        assert ps[..i + 1] == ps[..i] + [ps[i]];
        PutPiece(ps[i]);
        i := i + 1;
      }
      assert ps[..i] == ps;
    }
  }
}
