/**
 Buffered reading and seeking of gzip files: gz_load, gz_avail, gz_look, gz_decomp,
 gz_fetch, gz_skip, gzread and gzungetc of gzread.c, gz_reset, gzrewind, gzseek64
 and gztell64 of gzlib.c.

 read() may return any short count.  inflate() is an oracle: it knows what each gzip
 member of the file expands to and may stop wherever its input or output space ends.
 */
module GzReaders {
  import opened Bits

  // One gzip member of the file: its compressed length and what it expands to.
  datatype Member = Member(len: nat, plain: seq<byte>)

  // Where member k starts in the file.
  function Start(ms: seq<Member>, k: nat): nat
    requires k <= |ms|
  {
    if k == 0 then 0 else Start(ms, k - 1) + ms[k - 1].len
  }

  // What the first k members expand to.
  function PlainUpTo(ms: seq<Member>, k: nat): seq<byte>
    requires k <= |ms|
  {
    if k == 0 then [] else PlainUpTo(ms, k - 1) + ms[k - 1].plain
  }

  predicate Magic(file: seq<byte>, at: nat) {
    at + 1 < |file| && file[at] == 31 && file[at + 1] == 139
  }

  predicate MemberOk(file: seq<byte>, ms: seq<Member>, k: nat)
    requires k < |ms|
  {
    ms[k].len >= 2 && Magic(file, Start(ms, k))
  }

  /** A file is complete gzip members, each starting with the magic bytes, and then
      anything that does not start with them.  Without members it is read as is. */
  ghost predicate WellFormed(file: seq<byte>, ms: seq<Member>) {
    && Start(ms, |ms|) <= |file|
    && (forall k :: 0 <= k < |ms| ==> MemberOk(file, ms, k))
    && !Magic(file, Start(ms, |ms|))
  }

  // The uncompressed stream.
  function Plain(file: seq<byte>, ms: seq<Member>): seq<byte> {
    if ms == [] then file else PlainUpTo(ms, |ms|)
  }

  function Drop<T>(s: seq<T>, n: int): seq<T> {
    if n <= 0 then s else if n <= |s| then s[n..] else []
  }

  function Take<T>(s: seq<T>, n: nat): seq<T> {
    if n <= |s| then s[..n] else s
  }

  // b1 is b0 with `bytes` written at `at`.
  predicate Wrote(b0: seq<byte>, b1: seq<byte>, at: nat, bytes: seq<byte>) {
    && |b1| == |b0| && at + |bytes| <= |b0|
    && b1[..at] == b0[..at] && b1[at..at + |bytes|] == bytes && b1[at + |bytes|..] == b0[at + |bytes|..]
  }

  lemma WroteMore(b0: seq<byte>, b1: seq<byte>, b2: seq<byte>, at: nat, x: seq<byte>, y: seq<byte>)
    requires Wrote(b0, b1, at, x) && Wrote(b1, b2, at + |x|, y)
    ensures Wrote(b0, b2, at, x + y)
  {
    var n, m := at + |x|, at + |x| + |y|;
    SlicePrefix(b2, b1, n, at);
    SliceJoin(b2, at, n, m);
    SliceSuffix(b1, b0, n, m);
  }

  lemma SlicePrefix(s: seq<byte>, t: seq<byte>, n: nat, at: nat)
    requires at <= n <= |s| && |t| == |s| && s[..n] == t[..n]
    ensures s[..at] == t[..at] && s[at..n] == t[at..n]
  {
    assert s[..at] == s[..n][..at] && t[..at] == t[..n][..at];
    assert s[at..n] == s[..n][at..] && t[at..n] == t[..n][at..];
  }

  lemma SliceJoin(s: seq<byte>, a: nat, b: nat, c: nat)
    requires a <= b <= c <= |s|
    ensures s[a..c] == s[a..b] + s[b..c]
  {
  }

  lemma SliceSuffix(s: seq<byte>, t: seq<byte>, n: nat, m: nat)
    requires n <= m <= |s| && |t| == |s| && s[n..] == t[n..]
    ensures s[m..] == t[m..]
  {
    assert s[m..] == s[n..][m - n..] && t[m..] == t[n..][m - n..];
  }

  lemma WroteNothing(b: seq<byte>, at: nat)
    requires at <= |b|
    ensures Wrote(b, b, at, [])
  {
  }

  // A stretch of a sequence in two parts.
  lemma TakeMore<T>(s: seq<T>, a: nat, m: nat, n: nat)
    requires m <= |Drop(s, a)| && n <= |Drop(s, a + m)|
    ensures m + n <= |Drop(s, a)| && Take(Drop(s, a), m) + Take(Drop(s, a + m), n) == Take(Drop(s, a), m + n)
    ensures |Take(Drop(s, a), m)| == m && |Take(Drop(s, a + m), n)| == n
  {
  }

  lemma TakeNothing<T>(s: seq<T>)
    ensures Take(s, 0) == [] && Drop(s, 0) == s
  {
  }

  lemma DropDrop<T>(s: seq<T>, a: nat, b: nat)
    ensures Drop(Drop(s, a), b) == Drop(s, a + b)
  {
  }

  lemma {:induction false} StartMono(ms: seq<Member>, k: nat, j: nat)
    requires k <= j <= |ms|
    ensures Start(ms, k) <= Start(ms, j)
    decreases j
  {
    if k < j {
      StartMono(ms, k, j - 1);
    }
  }

  lemma StartNext(ms: seq<Member>, k: nat)
    requires k < |ms|
    ensures Start(ms, k + 1) == Start(ms, k) + ms[k].len
  {
  }

  // What the members from k on expand to follows what those before expand to.
  lemma {:induction false} PlainPrefix(ms: seq<Member>, k: nat, j: nat)
    requires k <= j <= |ms|
    ensures PlainUpTo(ms, k) <= PlainUpTo(ms, j)
    decreases j
  {
    if k < j {
      PlainPrefix(ms, k, j - 1);
    }
  }

  lemma MemberPlain(file: seq<byte>, ms: seq<Member>, k: nat)
    requires k < |ms|
    ensures PlainUpTo(ms, k + 1) == PlainUpTo(ms, k) + ms[k].plain && PlainUpTo(ms, k + 1) <= Plain(file, ms)
  {
    PlainPrefix(ms, k + 1, |ms|);
  }

  // One call of inflate(): dc input bytes become dp output bytes.  The member ends
  // with a trailer, so its last byte is not taken before all output has been given;
  // otherwise inflate() stops only for lack of input or of space.
  predicate InflateStep(restIn: nat, restOut: nat, availIn: nat, availOut: nat, dc: nat, dp: nat) {
    && dc <= restIn && dc <= availIn && dp <= restOut && dp <= availOut
    && (if dc == restIn then dp == restOut else dc == availIn || dp == availOut)
  }

  lemma InflateCan(restIn: nat, restOut: nat, availIn: nat, availOut: nat)
    requires restIn > 0
    ensures exists dc: nat, dp: nat :: InflateStep(restIn, restOut, availIn, availOut, dc, dp)
  {
    if availIn >= restIn {
      if availOut >= restOut {
        assert InflateStep(restIn, restOut, availIn, availOut, restIn, restOut);
      } else {
        assert InflateStep(restIn, restOut, availIn, availOut, 0, availOut);
      }
    } else {
      assert InflateStep(restIn, restOut, availIn, availOut, availIn, 0);
    }
  }

  datatype How = Look | CopyRaw | Gunzip

  // The error codes that can arise on a file without errors: Z_OK and Z_DATA_ERROR.
  datatype Error = NoError | DataError

  type Unsigned = n: nat | n < 0x1_0000_0000

  // Lengths from here on do not fit an int.
  const INT_LIMIT := 0x8000_0000

  // What a caller can see of a reader: the position, a skip request on top of it, and
  // whether it is in error.
  datatype Place = Place(pos: int, pending: int, failed: bool) {
    function Tell(): int { pos + pending }
  }

  // What a program does with a reader, and what it gets.
  datatype Op = Seek(offset: int, fromCurrent: bool) | Read(len: Unsigned)
  datatype Result = Sought(ret: int) | Got(bytes: seq<byte>) | Refused

  // One operation on the stream u, from place `before` to place `after`.  A seek before
  // the start is refused and drops the skip request; a read of a length that does not fit
  // an int is refused and leaves an error; after an error everything is refused.
  ghost predicate StepOk(u: seq<byte>, before: Place, op: Op, r: Result, after: Place) {
    if before.failed then r == Refused && after == before
    else
      match op
      case Seek(offset, fromCurrent) =>
        var target := offset + if fromCurrent then before.Tell() else 0;
        if target >= 0 then r == Sought(target) && after.Tell() == target && !after.failed
        else r == Refused && after == before.(pending := 0)
      case Read(len) =>
        if len >= INT_LIMIT then r == Refused && after == before.(failed := true)
        else
          && r.Got? && r.bytes == Take(Drop(u, before.Tell()), len) && !after.failed
          && GzReader.MovedOn(|u|, before.Tell(), |r.bytes|, after.Tell()) && (len > 0 ==> after.pending == 0)
  }

  class GzReader {
    const file: seq<byte>
    const ms: seq<Member>
    const want: nat
    const inbuf: array<byte>
    const outbuf: array<byte>

    var fdpos: nat        // lseek position relative to state->start
    var eof: bool
    var past: bool
    var size: nat         // 0 until the buffers are in use
    var how: How
    var direct: bool
    var next_in: nat
    var avail_in: nat
    var x_next: nat
    var x_have: nat
    var x_pos: int
    var seek: bool
    var skip: int
    var err: Error
    ghost var lost: nat   // bytes thrown away with the output buffer by errors

    var k: nat            // inflate()'s own state: the current member,
    var c: nat            // how much of it has been taken,
    var p: nat            // and how much it has expanded to so far

    /** Just opened for reading: no buffers yet. */
    constructor (contents: seq<byte>, members: seq<Member>, bufSize: nat)
      requires WellFormed(contents, members)
      ensures Valid() && Clean() && file == contents && ms == members
      ensures size == 0 && GzTell() == 0 && !seek && err == NoError
      ensures want == if bufSize < 2 then 2 else bufSize
      ensures fresh(inbuf) && fresh(outbuf)
    {
      var n := if bufSize < 2 then 2 else bufSize;
      file, ms, want := contents, members, n;
      inbuf, outbuf := new byte[n], new byte[2 * n];
      fdpos, eof, past, size, how, direct := 0, false, false, 0, Look, true;
      next_in, avail_in, x_next, x_have, x_pos, seek, skip := 0, 0, 0, 0, 0, false, 0;
      k, c, p := 0, 0, 0;
      err, lost := NoError, 0;
    }

    ghost predicate Shape() {
      && want >= 2 && inbuf.Length == want && outbuf.Length == 2 * want && inbuf != outbuf
      && WellFormed(file, ms)
    }

    // The next byte of the file the decoder has not seen.
    function In(): int
      reads this`fdpos, this`avail_in
    {
      fdpos - avail_in
    }

    // The input buffer holds the bytes of the file before fdpos.
    ghost predicate InputOk()
      reads this`fdpos, this`avail_in, this`next_in, inbuf
    {
      && avail_in <= fdpos && next_in + avail_in <= inbuf.Length
      && (avail_in > 0 ==> fdpos <= |file| && inbuf[next_in..next_in + avail_in] == file[fdpos - avail_in..fdpos])
    }

    // The decoder has given out the first b bytes of the uncompressed stream.
    ghost predicate Phase(b: int)
      requires Shape()
      reads this`how, this`k, this`c, this`p, this`fdpos, this`avail_in, this`eof, this`direct
    {
      b >= 0 &&
      match how
      case CopyRaw => ms == [] && avail_in == 0 && fdpos == b && direct
      case Gunzip =>
        && k < |ms| && c < ms[k].len && p <= |ms[k].plain| && !direct
        && In() == Start(ms, k) + c && fdpos <= |file| && b == |PlainUpTo(ms, k)| + p
      case Look =>
        && k <= |ms| && b == |PlainUpTo(ms, k)| && (ms == [] ==> direct) && (k > 0 ==> !direct)
        && ((In() == Start(ms, k) && fdpos <= |file|) || Ignoring() || InTail())
    }

    // Bytes after the last member are ignored.
    ghost predicate Ignoring()
      reads this`k, this`eof, this`avail_in, this`fdpos
    {
      k == |ms| && ms != [] && eof && avail_in == 0 && Start(ms, k) <= fdpos <= |file|
    }

    // After gzclearerr they are looked at again, from where ignoring them had stopped.
    ghost predicate InTail()
      reads this`k, this`avail_in, this`fdpos
    {
      k == |ms| && ms != [] && Start(ms, k) <= In() && fdpos <= |file| && NoMagicFrom(In())
    }

    ghost predicate NoMagicFrom(at: int) {
      forall i: nat :: at <= i ==> !Magic(file, i)
    }

    ghost predicate EofOk()
      reads this`eof, this`fdpos, this`how, this`k, this`avail_in
    {
      eof ==> fdpos >= |file| || (how == Look && Ignoring())
    }

    ghost predicate Decoding(b: int)
      reads this`how, this`k, this`c, this`p, this`fdpos, this`avail_in, this`next_in, this`eof, this`direct, inbuf
    {
      Shape() && InputOk() && Phase(b) && EofOk()
    }

    // Where the output buffer ends in the uncompressed stream.
    ghost function Base(): int
      reads this`x_pos, this`x_have, this`lost
    {
      x_pos + x_have + lost
    }

    // As gzopen left it: nothing read yet, nothing given out.
    ghost predicate Untouched()
      reads this`fdpos, this`eof, this`how, this`avail_in, this`x_have, this`x_pos, this`k, this`lost
    {
      fdpos == 0 && !eof && how == Look && avail_in == 0 && x_have == 0 && x_pos == 0 && k == 0 && lost == 0
    }

    ghost predicate Valid()
      reads this`fdpos, this`eof, this`size, this`how, this`direct, this`next_in, this`avail_in, this`x_next
      reads this`x_have
      reads this`x_pos, this`seek, this`skip, this`k, this`c, this`p, this`lost, inbuf
    {
      && Decoding(Base()) && (size == 0 || size == want)
      && x_next + x_have <= outbuf.Length
      && (size == 0 ==> Untouched())
      && (seek ==> skip > 0)
    }

    // What will be read next: the output buffer, then the rest of the stream.
    ghost function Remaining(): seq<byte>
      reads this`x_next, this`x_have, this`x_pos, this`lost, outbuf
    {
      Buffered() + Drop(Plain(file, ms), Base())
    }

    ghost function Buffered(): seq<byte>
      reads this`x_next, this`x_have, outbuf
    {
      if x_next + x_have <= outbuf.Length then outbuf[x_next..x_next + x_have] else []
    }

    lemma MemberFits(j: nat)
      requires WellFormed(file, ms) && j < |ms|
      ensures ms[j].len >= 2 && Start(ms, j) + ms[j].len <= |file| && Magic(file, Start(ms, j))
    {
      hide Magic, Start;
      assert MemberOk(file, ms, j);
      StartNext(ms, j);
      StartMono(ms, j + 1, |ms|);
    }

    // The end of the input is not in the middle of a member.
    lemma EndIsLast(b: int)
      requires Shape() && Phase(b) && EofOk() && eof && avail_in == 0
      ensures how != Gunzip && (how == Look ==> k == |ms| && (ms == [] ==> file == []))
    {
      hide Magic, WellFormed, PlainUpTo;
      if how != CopyRaw && k < |ms| {
        MemberFits(k);
      }
    }

    /** At the end of the input all of the stream has been given out. */
    lemma AtEnd(b: int)
      requires Shape() && Phase(b) && EofOk() && eof && avail_in == 0
      ensures Drop(Plain(file, ms), b) == []
    {
      hide Magic, WellFormed, PlainUpTo, Start;
      EndIsLast(b);
    }

    // read(): any short count, 0 only at the end of the file.
    method ReadFd(buf: array<byte>, at: nat, n: nat) returns (ret: nat)
      requires n > 0 && at + n <= buf.Length
      modifies this`fdpos, buf
      ensures ret <= n && fdpos == old(fdpos) + ret && (ret == 0 <==> old(fdpos) >= |file|)
      ensures ret <= |Drop(file, old(fdpos))| && Wrote(old(buf[..]), buf[..], at, Take(Drop(file, old(fdpos)), ret))
    {
      if fdpos >= |file| {
        return 0;
      }
      assert 1 <= n && fdpos + 1 <= |file|;
      ret :| 1 <= ret <= n && fdpos + ret <= |file|;
      forall i | 0 <= i < ret {
        buf[at + i] := file[fdpos + i];
      }
      assert buf[at..at + ret] == file[fdpos..fdpos + ret];
      fdpos := fdpos + ret;
    }

    /** gz_load: read until the buffer is full or the file ends. */
    method GzLoad(buf: array<byte>, at: nat, len: nat) returns (have: nat)
      requires len > 0 && at + len <= buf.Length
      modifies this`fdpos, this`eof, buf
      ensures have <= len && fdpos == old(fdpos) + have
      ensures have <= |Drop(file, old(fdpos))| && Wrote(old(buf[..]), buf[..], at, Take(Drop(file, old(fdpos)), have))
      ensures eof == (old(eof) || have < len) && (have < len ==> fdpos >= |file|)
    {
      hide Wrote, Take, Drop;
      have := 0;
      ghost var b0 := buf[..];
      TakeNothing(Drop(file, fdpos));
      WroteNothing(b0, at);
      while have < len
        invariant have <= len && fdpos == old(fdpos) + have && eof == old(eof)
        invariant have <= |Drop(file, old(fdpos))| && Wrote(b0, buf[..], at, Take(Drop(file, old(fdpos)), have))
      {
        ghost var b1 := buf[..];
        var ret := ReadFd(buf, at + have, len - have);
        if ret == 0 {
          TakeMore(file, old(fdpos), have, 0);
          TakeNothing(Drop(file, old(fdpos) + have));
          WroteMore(b0, b1, buf[..], at, Take(Drop(file, old(fdpos)), have), []);
          eof := true;
          return;
        }
        TakeMore(file, old(fdpos), have, ret);
        WroteMore(b0, b1, buf[..], at, Take(Drop(file, old(fdpos)), have), Take(Drop(file, old(fdpos) + have), ret));
        have := have + ret;
      }
    }

    // Move the unread input to the start of its buffer, in place.
    method MoveInput()
      requires next_in + avail_in <= inbuf.Length
      modifies inbuf
      ensures inbuf[..avail_in] == old(inbuf[next_in..next_in + avail_in])
    {
      var i := 0;
      while i < avail_in
        invariant 0 <= i <= avail_in
        invariant forall j :: 0 <= j < i ==> inbuf[j] == old(inbuf[next_in + j])
        invariant forall j :: next_in + i <= j < next_in + avail_in ==> inbuf[j] == old(inbuf[j])
      {
        inbuf[i] := inbuf[next_in + i];
        i := i + 1;
      }
    }

    /** gz_avail: fill the input buffer, keeping what is unread.  There is no error here: the
        calls that lead to it have checked. */
    method GzAvail(ghost b: int)
      requires Decoding(b) && how != CopyRaw && avail_in < want
      modifies this`fdpos, this`eof, this`next_in, this`avail_in, inbuf
      ensures Decoding(b) && In() == old(In()) && avail_in >= old(avail_in) && (old(eof) ==> eof)
      ensures avail_in == want || eof
    {
      hide WellFormed, PlainUpTo, Start, InputOk;
      if !eof {
        LoadInput();
      }
    }

    // What there is moves to the start of the buffer and the rest is loaded behind it.
    method LoadInput()
      requires InputOk() && avail_in < inbuf.Length
      modifies this`fdpos, this`eof, this`next_in, this`avail_in, inbuf
      ensures InputOk() && In() == old(In()) && old(avail_in) <= avail_in <= inbuf.Length && fdpos >= old(fdpos)
      ensures fdpos > old(fdpos) ==> fdpos <= |file|
      ensures eof == (old(eof) || avail_in < inbuf.Length) && (avail_in < inbuf.Length ==> fdpos >= |file|)
    {
      hide InputOk;
      UnreadIs();
      ghost var unread := inbuf[next_in..next_in + avail_in];
      MoveInput();
      assert inbuf[..avail_in] == unread;
      AppendInput();
    }

    lemma UnreadIs()
      requires InputOk()
      ensures avail_in <= fdpos && next_in + avail_in <= inbuf.Length
      ensures avail_in > 0 ==> fdpos <= |file| && inbuf[next_in..next_in + avail_in] == file[fdpos - avail_in..fdpos]
    {
    }

    // The unread input is at the start of the buffer: load the rest behind it.
    method AppendInput()
      requires avail_in <= fdpos && avail_in < inbuf.Length
      requires avail_in > 0 ==> fdpos <= |file| && inbuf[..avail_in] == file[fdpos - avail_in..fdpos]
      modifies this`fdpos, this`eof, this`next_in, this`avail_in, inbuf
      ensures InputOk() && In() == old(In()) && old(avail_in) <= avail_in <= inbuf.Length && fdpos >= old(fdpos)
      ensures fdpos > old(fdpos) ==> fdpos <= |file|
      ensures eof == (old(eof) || avail_in < inbuf.Length) && (avail_in < inbuf.Length ==> fdpos >= |file|)
    {
      hide InputOk, Wrote, Take, Drop;
      ghost var from, b0 := fdpos, inbuf[..];
      assert inbuf[..avail_in] == b0[..avail_in];
      var got := GzLoad(inbuf, avail_in, inbuf.Length - avail_in);
      Joined(b0, inbuf[..], avail_in, got, from);
      avail_in := avail_in + got;
      next_in := 0;
      InputIs();
    }

    lemma InputIs()
      requires avail_in <= fdpos && next_in == 0 && avail_in <= inbuf.Length
      requires avail_in > 0 ==> fdpos <= |file| && inbuf[..][..avail_in] == file[fdpos - avail_in..fdpos]
      ensures InputOk()
    {
      assert inbuf[0..avail_in] == inbuf[..][..avail_in];
    }

    lemma Joined(b0: seq<byte>, b1: seq<byte>, n: nat, got: nat, from: nat)
      requires n <= from && n <= |b0| && got <= |Drop(file, from)| && Wrote(b0, b1, n, Take(Drop(file, from), got))
      requires n > 0 ==> from <= |file| && b0[..n] == file[from - n..from]
      ensures n + got <= |b1| && (got > 0 ==> from + got <= |file|)
      ensures n + got > 0 ==> from + got <= |file| && b1[..n + got] == file[from - n..from + got]
    {
      if n + got > 0 {
        assert b1[..n + got] == b1[..n] + b1[n..n + got];
      }
    }

    /** inflate(), as an oracle. */
    method Inflate(dst: array<byte>, at: nat, availOut: nat, ghost b: int) returns (got: nat, end: bool)
      requires Decoding(b) && how == Gunzip && avail_in > 0 && availOut > 0 && at + availOut <= dst.Length
      requires dst != inbuf
      modifies dst, this`next_in, this`avail_in, this`c, this`p
      ensures Shape() && InputOk() && EofOk() && k < |ms| && c <= ms[k].len && p <= |ms[k].plain|
      ensures In() == Start(ms, k) + c && fdpos <= |file|
      ensures got <= availOut && p == old(p) + got && Wrote(old(dst[..]), dst[..], at, ms[k].plain[old(p)..p])
      ensures end <==> c == ms[k].len
      ensures end ==> p == |ms[k].plain|
      ensures !end ==> avail_in == 0 || got == availOut
      ensures c >= old(c) && (got < availOut ==> c > old(c))
    {
      hide WellFormed, PlainUpTo, Start, InputOk, Wrote;
      var restIn, restOut := ms[k].len - c, |ms[k].plain| - p;
      InflateCan(restIn, restOut, avail_in, availOut);
      var dc: nat, dp: nat :| InflateStep(restIn, restOut, avail_in, availOut, dc, dp);
      WriteOut(dst, at, dp);
      TakeInput(dc);
      p := p + dp;
      return dp, dc == restIn;
    }

    method WriteOut(dst: array<byte>, at: nat, n: nat)
      requires k < |ms| && p + n <= |ms[k].plain| && at + n <= dst.Length
      modifies dst
      ensures Wrote(old(dst[..]), dst[..], at, ms[k].plain[p..p + n])
    {
      forall i | 0 <= i < n {
        dst[at + i] := ms[k].plain[p + i];
      }
      assert dst[at..at + n] == ms[k].plain[p..p + n];
    }

    method TakeInput(n: nat)
      requires InputOk() && n <= avail_in
      modifies this`next_in, this`avail_in, this`c
      ensures InputOk() && In() == old(In()) + n && avail_in == old(avail_in) - n && c == old(c) + n
    {
      ghost var bytes := inbuf[next_in..next_in + avail_in];
      next_in, avail_in, c := next_in + n, avail_in - n, c + n;
      assert inbuf[next_in..next_in + avail_in] == bytes[n..];
    }

    // inflateReset(): the next member begins.
    method StartMember(ghost b: int)
      requires Decoding(b) && how == Look && avail_in > 1 && inbuf[next_in] == 31 && inbuf[next_in + 1] == 139
      modifies this`how, this`direct, this`c, this`p
      ensures Decoding(b) && how == Gunzip && c == 0
    {
      hide PlainUpTo;
      MagicIsMember(b);
      how, direct, c, p := Gunzip, false, 0, 0;
    }

    // The magic bytes at a place to look are those of a member.
    lemma MagicIsMember(b: int)
      requires Decoding(b) && how == Look && avail_in > 1 && inbuf[next_in] == 31 && inbuf[next_in + 1] == 139
      ensures k < |ms| && ms[k].len >= 2
    {
      hide PlainUpTo, Start;
      assert inbuf[next_in..next_in + avail_in][0] == file[In()];
      assert inbuf[next_in..next_in + avail_in][1] == file[In() + 1];
      assert Magic(file, In());
      if k < |ms| {
        MemberFits(k);
      }
    }

    // Where there is a member its magic bytes can be seen.
    lemma MemberShowsMagic(b: int)
      requires Decoding(b) && how == Look && k < |ms| && (avail_in > 1 || eof)
      ensures avail_in > 1 && inbuf[next_in] == 31 && inbuf[next_in + 1] == 139
    {
      hide PlainUpTo, Start;
      MemberFits(k);
      assert inbuf[next_in..next_in + avail_in][0] == file[In()];
      assert inbuf[next_in..next_in + avail_in][1] == file[In() + 1];
    }

    /** gz_look: decide between copying and decompressing, or find the end. */
    method GzLook()
      requires Valid() && how == Look && x_have == 0
      modifies this`size, this`fdpos, this`eof, this`how, this`direct, this`next_in, this`avail_in, this`x_next
      modifies this`x_have
      modifies this`c, this`p, inbuf, outbuf
      ensures Valid() && size == want && Remaining() == old(Remaining())
      ensures how == Look ==> x_have == 0 && eof && avail_in == 0
      ensures In() >= old(In()) && (how == Gunzip ==> x_have == 0 && In() == old(In()))
      ensures how == CopyRaw ==> x_have > 0
    {
      hide WellFormed, PlainUpTo, Start, Plain, Phase, InputOk, Remaining;
      NeedMagic();
      if avail_in == 0 {
        return;
      }
      InputRange();
      if avail_in > 1 && inbuf[next_in] == 31 && inbuf[next_in + 1] == 139 {
        StartMember(Base());
        return;
      }
      NoMember();
      if !direct {
        IgnoreRest();
        return;
      }
      CopyLeftover();
    }

    // get at least the magic bytes in the input buffer
    method NeedMagic()
      requires Valid() && how == Look && x_have == 0
      modifies this`size, this`fdpos, this`eof, this`next_in, this`avail_in, inbuf
      ensures Valid() && size == want && In() == old(In()) && (avail_in > 1 || eof)
    {
      hide WellFormed, PlainUpTo, Start, Plain, Phase, InputOk;
      size := want;
      if avail_in < 2 {
        GzAvail(Base());
      }
    }

    lemma NoMember()
      requires Valid() && how == Look && (avail_in > 1 || eof)
      requires avail_in > 1 ==> inbuf[next_in] != 31 || inbuf[next_in + 1] != 139
      ensures k == |ms|
    {
      if k < |ms| {
        MemberShowsMagic(Base());
      }
    }

    // Raw data is looked at only once, at its start.
    lemma RawStart()
      requires Valid() && how == Look && x_have == 0 && k == |ms| && direct && avail_in > 0
      ensures ms == [] && fdpos == avail_in && Base() == 0 && (eof ==> fdpos >= |file|)
    {
    }

    lemma InputRange()
      requires InputOk()
      ensures next_in + avail_in <= inbuf.Length
    {
    }

    // Trailing garbage after the last member.
    method IgnoreRest()
      requires Valid() && size > 0 && how == Look && x_have == 0 && k == |ms| && !direct
      modifies this`avail_in, this`eof, this`x_have
      ensures Valid() && x_have == 0 && eof && avail_in == 0 && Base() == old(Base()) && In() >= old(In())
    {
      hide WellFormed, PlainUpTo, Start;
      avail_in := 0;
      eof := true;
      x_have := 0;
    }

    // Raw data: what has been read so far goes to the output buffer.
    method CopyLeftover()
      requires Valid() && how == Look && x_have == 0 && k == |ms| && direct && avail_in > 0
      modifies this`x_next, this`x_have, this`avail_in, this`how, this`direct, outbuf
      ensures Valid() && how == CopyRaw && x_have > 0 && Remaining() == old(Remaining()) && In() >= old(In())
    {
      hide WellFormed, PlainUpTo, Start, Plain, Phase, InputOk, EofOk, Drop, Remaining;
      RawStart();
      AllRemains();
      CopyInput();
      x_next := 0;
      x_have := avail_in;
      avail_in := 0;
      how, direct := CopyRaw, true;
      NoInput();
      RawState(Base());
      AllRemains();
    }

    // At the start of a raw file, whether its first bytes are buffered or not.
    lemma AllRemains()
      requires ms == [] && x_next + x_have <= outbuf.Length && Base() == x_have <= |file|
      requires x_have == 0 || (x_next == 0 && forall i :: 0 <= i < x_have ==> outbuf[i] == file[i])
      ensures Remaining() == file
    {
    }

    // A freshly filled output buffer and what follows it.
    lemma RawRemaining(bytes: seq<byte>, b: int, r: seq<byte>)
      requires x_next == 0 && x_have <= outbuf.Length && ms == [] && bytes == outbuf[0..x_have]
      requires Base() == b && bytes + Drop(file, b) == r
      ensures Remaining() == r
    {
      hide Drop;
      assert Plain(file, ms) == file;
    }

    // memcpy of the unread input to the start of the output buffer.
    method CopyInput()
      requires Shape() && InputOk()
      modifies outbuf
      ensures next_in + avail_in <= inbuf.Length
      ensures avail_in > 0 ==>
        fdpos <= |file| && forall i :: 0 <= i < avail_in ==> outbuf[i] == file[fdpos - avail_in + i]
    {
      ghost var unread := inbuf[next_in..next_in + avail_in];
      forall i | 0 <= i < avail_in {
        outbuf[i] := inbuf[next_in + i];
      }
      forall i | 0 <= i < avail_in ensures outbuf[i] == unread[i] {
      }
    }

    // What inflate() gives out lies in the stream where it is due.
    lemma Due(p0: nat, p1: nat, j: nat)
      requires j < |ms| && p0 <= p1 <= |ms[j].plain|
      ensures var b, u := |PlainUpTo(ms, j)|, Plain(file, ms);
              && p1 - p0 <= |Drop(u, b + p0)| && Take(Drop(u, b + p0), p1 - p0) == ms[j].plain[p0..p1]
              && b + p1 <= |u| && |PlainUpTo(ms, j + 1)| == b + |ms[j].plain|
    {
      MemberPlain(file, ms, j);
      var b, u := |PlainUpTo(ms, j)|, Plain(file, ms);
      assert u[b..b + |ms[j].plain|] == ms[j].plain;
      assert u[b + p0..b + p1] == u[b..b + |ms[j].plain|][p0..p1];
    }

    /** gz_decomp: decompress until the space is full or the member ends. */
    method GzDecomp(dst: array<byte>, at: nat, n: nat, ghost b: nat) returns (got: nat)
      requires Decoding(b) && how == Gunzip && n > 0 && at + n <= dst.Length && dst != inbuf
      modifies this`fdpos, this`eof, this`how, this`next_in, this`avail_in, this`k, this`c, this`p, inbuf, dst
      ensures Decoding(b + got) && how != CopyRaw && got <= n && (got < n ==> how == Look)
      ensures got <= |Drop(Plain(file, ms), b)| && Wrote(old(dst[..]), dst[..], at, Take(Drop(Plain(file, ms), b), got))
      ensures In() >= old(In()) && (got < n ==> In() > old(In())) && In() <= |file|
    {
      hide WellFormed, PlainUpTo, Start, Plain, Wrote, Take, Drop, Phase, InputOk;
      got := 0;
      ghost var b0, u := dst[..], Plain(file, ms);
      DueNow(b);
      TakeNothing(Drop(u, b));
      WroteNothing(b0, at);
      while got < n && how == Gunzip
        invariant Decoding(b + got) && how != CopyRaw && got <= n
        invariant got <= |Drop(u, b)| && Wrote(b0, dst[..], at, Take(Drop(u, b), got))
        invariant In() >= old(In()) && (got < n && how == Look ==> In() > old(In())) && In() <= |file|
        decreases |file| - In(), n - got
      {
        ghost var b1 := dst[..];
        var more := DecompSome(dst, at + got, n - got, b + got);
        TakeMore(u, b, got, more);
        WroteMore(b0, b1, dst[..], at, Take(Drop(u, b), got), Take(Drop(u, b + got), more));
        got := got + more;
      }
    }

    lemma DueNow(b: int)
      requires Decoding(b) && how == Gunzip
      ensures b >= 0 && In() <= |file|
    {
      hide WellFormed, PlainUpTo, Start, Plain;
      Due(p, p, k);
    }

    // One round: more input if there is none, and one call of inflate().
    method DecompSome(dst: array<byte>, at: nat, n: nat, ghost b: nat) returns (more: nat)
      requires Decoding(b) && how == Gunzip && n > 0 && at + n <= dst.Length && dst != inbuf
      modifies this`fdpos, this`eof, this`how, this`next_in, this`avail_in, this`k, this`c, this`p, inbuf, dst
      ensures Decoding(b + more) && how != CopyRaw && more <= n
      ensures more <= |Drop(Plain(file, ms), b)|
      ensures Wrote(old(dst[..]), dst[..], at, Take(Drop(Plain(file, ms), b), more))
      ensures In() >= old(In()) && In() <= |file| && (In() == old(In()) ==> how == Gunzip && more == n)
    {
      hide WellFormed, PlainUpTo, Start, Plain, Wrote, Take, Drop, Phase, InputOk;
      if avail_in == 0 {
        GzAvail(b);
      }
      NotAtEnd(b);
      assert dst[..] == old(dst[..]);
      more := InflateMember(dst, at, n, b);
    }

    // One call of inflate(), and what follows if the member ends.
    method InflateMember(dst: array<byte>, at: nat, n: nat, ghost b: nat) returns (more: nat)
      requires Decoding(b) && how == Gunzip && avail_in > 0 && n > 0 && at + n <= dst.Length && dst != inbuf
      modifies this`how, this`next_in, this`avail_in, this`k, this`c, this`p, dst
      ensures Decoding(b + more) && how != CopyRaw && more <= n
      ensures more <= |Drop(Plain(file, ms), b)|
      ensures Wrote(old(dst[..]), dst[..], at, Take(Drop(Plain(file, ms), b), more))
      ensures In() >= old(In()) && In() <= |file| && (In() == old(In()) ==> how == Gunzip && more == n)
    {
      hide WellFormed, PlainUpTo, Start, Plain, InputOk, Wrote, Take, Drop;
      ghost var p0 := p;
      var end: bool;
      more, end := Inflate(dst, at, n, b);
      Due(p0, p, k);
      if end {
        MemberEnds();
        k, how := k + 1, Look;
      }
    }

    // A member is complete, so there is input while it lasts.
    lemma NotAtEnd(b: int)
      requires Decoding(b) && how == Gunzip && (avail_in == want || eof || avail_in > 0)
      ensures avail_in > 0
    {
      hide WellFormed, PlainUpTo, Start;
      MemberFits(k);
    }

    lemma MemberEnds()
      requires k < |ms|
      ensures Start(ms, k + 1) == Start(ms, k) + ms[k].len
    {
    }
  
    // Input left in the file.
    function InLeft(): nat
      reads this`fdpos, this`avail_in
    {
      if In() <= |file| then |file| - In() else 0
    }

    /** gz_fetch: fill the empty output buffer, or find the end. */
    method GzFetch()
      requires Valid() && x_have == 0
      modifies this`size, this`fdpos, this`eof, this`how, this`direct, this`next_in, this`avail_in, this`x_next
      modifies this`x_have
      modifies this`k, this`c, this`p, inbuf, outbuf
      ensures Valid() && size == want > 0 && Remaining() == old(Remaining()) && In() >= old(In())
      ensures x_have > 0 || (eof && avail_in == 0)
    {
      hide WellFormed, PlainUpTo, Start, Plain, InputOk, Phase;
      var more := true;
      while more
        invariant Valid() && Remaining() == old(Remaining()) && In() >= old(In())
        invariant more ==> x_have == 0
        invariant size == want || (more && how == Look)
        invariant !more ==> x_have > 0 || (eof && avail_in == 0)
        decreases more, InLeft(), how == Look
      {
        match how
        case Look =>
          GzLook();
          if how == Look {
            return;
          }
          more := x_have == 0 && (!eof || avail_in > 0);
        case CopyRaw =>
          FetchRaw();
          return;
        case Gunzip =>
          FetchMember();
          more := x_have == 0 && (!eof || avail_in > 0);
      }
    }

    // COPY: load the output buffer from the file.
    method FetchRaw()
      requires Valid() && x_have == 0 && how == CopyRaw
      modifies this`fdpos, this`eof, this`x_next, this`x_have, outbuf
      ensures Valid() && Remaining() == old(Remaining()) && In() >= old(In())
      ensures (x_have > 0 || eof) && avail_in == 0
    {
      hide WellFormed, PlainUpTo, Start, InputOk, Plain, Phase, EofOk, Wrote, Take, Drop, Remaining;
      ghost var from, b0 := fdpos, outbuf[..];
      RawPlain();
      NoInput();
      NoneBuffered();
      RawState(Base());
      x_have := GzLoad(outbuf, 0, 2 * want);
      NoInput();
      RawState(Base());
      x_next := 0;
      PlainDue(file, b0, outbuf[..], from, x_have);
      RawRemaining(outbuf[..][..x_have], from + x_have, Drop(file, from));
    }

    lemma RawState(b: int)
      requires Shape() && how == CopyRaw
      ensures Phase(b) <==> b >= 0 && ms == [] && avail_in == 0 && fdpos == b && direct
      ensures EofOk() <==> (eof ==> fdpos >= |file|)
    {
    }

    lemma RawPlain()
      ensures ms == [] ==> Plain(file, ms) == file
    {
    }

    lemma NoInput()
      ensures avail_in == 0 ==> (InputOk() <==> next_in <= inbuf.Length)
    {
    }

    lemma NoneBuffered()
      ensures x_have == 0 ==> Remaining() == Drop(Plain(file, ms), Base())
    {
      assert x_have == 0 ==> Buffered() == [];
    }

    // GZIP: decompress into the output buffer.
    method FetchMember()
      requires Valid() && x_have == 0 && how == Gunzip
      modifies this`fdpos, this`eof, this`how, this`next_in, this`avail_in, this`x_next, this`x_have
      modifies this`k, this`c, this`p, inbuf, outbuf
      ensures Valid() && Remaining() == old(Remaining()) && how != CopyRaw
      ensures In() >= old(In()) && In() <= |file| && (x_have == 0 ==> In() > old(In()))
    {
      hide WellFormed, PlainUpTo, Start, Plain, InputOk, Phase, Wrote, Take, Drop;
      ghost var b, b0 := Base(), outbuf[..];
      BaseNat();
      NoneBuffered();
      var got := GzDecomp(outbuf, 0, 2 * want, b);
      x_have := got;
      x_next := 0;
      PlainDue(Plain(file, ms), b0, outbuf[..], b, got);
    }

    lemma BaseNat()
      requires Valid()
      ensures Base() >= 0
    {
      hide WellFormed, PlainUpTo, Start;
    }

    lemma PlainDue(u: seq<byte>, b0: seq<byte>, b1: seq<byte>, b: nat, got: nat)
      requires got <= |Drop(u, b)| && Wrote(b0, b1, 0, Take(Drop(u, b), got))
      ensures got <= |b1| && b1[..got] + Drop(u, b + got) == Drop(u, b)
    {
    }

    // Hand out n bytes of the output buffer.
    method Consume(n: nat)
      requires Valid() && n <= x_have
      modifies this`x_next, this`x_have, this`x_pos
      ensures Valid() && Remaining() == Drop(old(Remaining()), n) && n <= |old(Remaining())|
      ensures x_pos == old(x_pos) + n && x_have == old(x_have) - n
    {
      hide WellFormed, PlainUpTo, Start, Plain, Decoding, Shape, Drop;
      DropBuffered(outbuf, x_next, x_have, Drop(Plain(file, ms), Base()), n);
      x_next, x_have, x_pos := x_next + n, x_have - n, x_pos + n;
    }

    lemma DropFront(s: seq<byte>, t: seq<byte>, n: nat)
      requires n <= |s|
      ensures Drop(s + t, n) == s[n..] + t && (s + t)[..n] == s[..n]
    {
    }

    static lemma DropBuffered(a: array<byte>, i: nat, have: nat, t: seq<byte>, n: nat)
      requires n <= have && i + have <= a.Length
      ensures Drop(a[i..i + have] + t, n) == a[i + n..i + have] + t
      ensures n <= |a[i..i + have] + t|
    {
      assert a[i..i + have][n..] == a[i + n..i + have];
    }

    // At the end with nothing in the output buffer, nothing remains.
    lemma NothingRemains()
      requires Valid() && x_have == 0 && eof && avail_in == 0
      ensures Remaining() == []
    {
      hide WellFormed, PlainUpTo, Start, Plain, InputOk, Phase;
      AtEnd(Base());
    }

    // What a loop that fetches needs to come to an end.
    function Stage(): nat
      reads this`x_have, this`eof, this`avail_in
    {
      if x_have > 0 || (eof && avail_in == 0) then 0 else 1
    }

    /** gz_skip: drop len bytes, or all that remain. */
    method GzSkip(len0: nat)
      requires Valid()
      modifies this`size, this`fdpos, this`eof, this`how, this`direct, this`next_in, this`avail_in, this`x_next
      modifies this`x_have
      modifies this`x_pos, this`k, this`c, this`p, inbuf, outbuf
      ensures Valid() && Remaining() == Drop(old(Remaining()), len0)
      ensures x_pos == old(x_pos) + |old(Remaining())| - |Remaining()|
      ensures old(size) > 0 || len0 > 0 ==> size > 0
      ensures len0 > 0 ==> x_have < 2 * want
    {
      hide WellFormed, PlainUpTo, Start, Plain, InputOk, Phase, Valid, Remaining, Drop, InLeft;
      var len := len0;
      TakeNothing(Remaining());
      ghost var r := Remaining();
      while len > 0
        invariant 0 <= len <= len0 && Valid() && (old(size) > 0 || len < len0 ==> size > 0)
        invariant len == 0 && len0 > 0 ==> x_have < 2 * want
        invariant len0 - len <= |r| && Remaining() == Drop(r, len0 - len) && |Remaining()| == |r| - (len0 - len)
        invariant x_pos == old(x_pos) + (len0 - len)
        decreases len, Stage()
      {
        if x_have > 0 {
          var n := if x_have > len then len else x_have;
          SkippedMore(r, len0 - len, n);
          ValidParts();
          Consume(n);
          len := len - n;
        } else if eof && avail_in == 0 {
          NothingRemains();
          ValidParts();
          SkippedAll(r, len0 - len, len0);
          return;
        } else {
          GzFetch();
        }
      }
    }

    lemma SkippedMore(r: seq<byte>, m: nat, n: nat)
      requires m <= |r|
      ensures Drop(Drop(r, m), n) == Drop(r, m + n)
      ensures (n <= |Drop(r, m)| ==> m + n <= |r| && |Drop(r, m + n)| == |r| - m - n)
    {
    }

    lemma SkippedAll(r: seq<byte>, m: nat, n: nat)
      requires m <= |r| && Drop(r, m) == [] && m <= n
      ensures Drop(r, n) == [] && m == |r|
    {
    }

    // What the caller will read next, a pending seek included.
    ghost function Logical(): seq<byte>
      reads this`x_next, this`x_have, this`x_pos, this`lost, this`seek, this`skip, outbuf
    {
      Drop(Remaining(), if seek then skip else 0)
    }

    /** gztell64. */
    function GzTell(): int
      reads this`x_pos, this`seek, this`skip
    {
      x_pos + if seek then skip else 0
    }

    // A call on a reader in error: nothing happens.
    twostate predicate InError()
      reads this, outbuf
    {
      && Here() == old(Here()) && err == old(err) && x_have == old(x_have)
      && Remaining() == old(Remaining())
    }

    // What a caller can see.
    ghost function Here(): Place
      reads this`x_pos, this`seek, this`skip, this`err
    {
      Place(x_pos, if seek then skip else 0, err != NoError)
    }

    /** gz_error.  An error empties the output buffer: what it held is never given out, and
        the reported position does not move over it. */
    method GzError(e: Error)
      requires Valid()
      modifies this`err, this`x_have, this`lost
      ensures Valid() && err == e
      ensures e == NoError ==> x_have == old(x_have) && lost == old(lost) && Remaining() == old(Remaining())
      ensures e != NoError ==> x_have == 0 && lost == old(lost) + old(x_have)
      ensures e != NoError ==> Remaining() == Drop(old(Remaining()), old(x_have)) && old(x_have) <= |old(Remaining())|
    {
      hide WellFormed, PlainUpTo, Start, Plain, InputOk, Phase, EofOk, Drop;
      if e != NoError {
        DropFront(Buffered(), Drop(Plain(file, ms), Base()), x_have);
        BufferedAll();
        lost, x_have := lost + x_have, 0;
        NoneBuffered();
      }
      err := e;
    }

    lemma BufferedAll()
      requires x_next + x_have <= outbuf.Length
      ensures |Buffered()| == x_have
      ensures Buffered()[x_have..] + Drop(Plain(file, ms), Base()) == Drop(Plain(file, ms), Base())
    {
      assert Buffered()[x_have..] == [];
    }

    /** gzeof: a read since then has asked for more than there was. */
    function GzEof(): bool
      reads this`past
    {
      past
    }

    // gzread may begin: no error, and the length fits an int.
    ghost predicate MayRead(len: nat)
      reads this`err
    {
      err == NoError && len < INT_LIMIT
    }

    /** gzread: copy out of the output buffer, or fill it, or for large requests read
        or decompress straight into the caller's buffer.  A length that does not fit an
        int is an error, which empties the output buffer. */
    method GzRead(buf: array<byte>, len: Unsigned) returns (ret: int)
      requires Valid() && (len < INT_LIMIT ==> len <= buf.Length) && buf != inbuf && buf != outbuf
      modifies this`size, this`fdpos, this`eof, this`past, this`how, this`direct, this`next_in, this`avail_in
      modifies this`x_next, this`x_have
      modifies this`x_pos, this`seek, this`k, this`c, this`p, this`err, this`lost, inbuf, outbuf, buf
      ensures Valid() && (ret == -1 <==> !old(MayRead(len)))
      ensures old(err) != NoError ==> InError()
      ensures old(err) == NoError && len >= INT_LIMIT ==> TooLong()
      ensures old(MayRead(len)) ==> err == NoError && lost == old(lost) && (len == 0 ==> ret == 0)
      ensures old(MayRead(len)) ==> ret == if len <= |old(Logical())| then len else |old(Logical())|
      ensures old(MayRead(len)) ==> buf[..ret] == Take(old(Logical()), len) && Logical() == Drop(old(Logical()), ret)
      ensures old(MayRead(len)) && len > 0 ==> !seek && x_pos == old(x_pos) + |old(Remaining())| - |Remaining()|
      ensures old(MayRead(len)) && len == 0 ==>
        seek == old(seek) && x_pos == old(x_pos) && Remaining() == old(Remaining())
      ensures GzEof() == (old(GzEof()) || (old(MayRead(len)) && ret < len))
      ensures old(MayRead(len)) && old(Clean()) ==>
        Clean() && MovedOn(|Plain(file, ms)|, old(GzTell()), ret, GzTell())
    {
      hide WellFormed, PlainUpTo, Start, Plain, InputOk, Phase, Valid, Remaining, Drop;
      if err != NoError {
        return -1;
      }
      if len >= INT_LIMIT {
        GzError(DataError);
        return -1;
      }
      ret := ReadBytes(buf, len);
    }

    // gzread has refused a length.
    twostate predicate TooLong()
      reads this, outbuf
    {
      && err == DataError && x_have == 0 && Here() == old(Here()).(failed := true)
      && Remaining() == Drop(old(Remaining()), old(x_have))
    }

    // gzread once its arguments have been checked.
    method ReadBytes(buf: array<byte>, len: nat) returns (got: nat)
      requires Valid() && err == NoError && len <= buf.Length && buf != inbuf && buf != outbuf
      modifies this`size, this`fdpos, this`eof, this`past, this`how, this`direct, this`next_in, this`avail_in
      modifies this`x_next, this`x_have
      modifies this`x_pos, this`seek, this`k, this`c, this`p, inbuf, outbuf, buf
      ensures Valid() && (len == 0 ==> got == 0)
      ensures got == if len <= |old(Logical())| then len else |old(Logical())|
      ensures buf[..got] == Take(old(Logical()), len) && Logical() == Drop(old(Logical()), got)
      ensures len > 0 ==> !seek && x_pos == old(x_pos) + |old(Remaining())| - |Remaining()|
      ensures len == 0 ==> seek == old(seek) && x_pos == old(x_pos) && Remaining() == old(Remaining())
      ensures past == (old(past) || got < len)
      ensures old(Clean()) ==> Clean() && MovedOn(|Plain(file, ms)|, old(GzTell()), got, GzTell())
    {
      hide WellFormed, PlainUpTo, Start, Plain, InputOk, Phase, Valid, Remaining, Drop;
      got := 0;
      ValidParts();
      ghost var r, pos, skipped := Remaining(), x_pos, if seek then skip else 0;
      if len == 0 {
        TakeNothing(Logical());
        PastTheEnd();
        return;
      }
      SkipPending();
      got := ReadLoop(buf, len);
      TakeNothing(Remaining());
      DropDrop(r, skipped, got);
      if old(Clean()) {
        CleanAfter(pos, r, skipped + got);
        Advanced(Plain(file, ms), pos, skipped, got, len, |Remaining()|);
      }
    }

    // Where a read of `got` bytes leaves the reported position: right behind them, or,
    // if it was past the end, no further.
    static predicate MovedOn(n: nat, before: int, got: nat, after: int) {
      if before <= n then after == before + got else n <= after <= before
    }

    lemma PastTheEnd()
      ensures MovedOn(|Plain(file, ms)|, GzTell(), 0, GzTell())
    {
    }

    lemma Advanced(u: seq<byte>, pos: int, skipped: int, got: nat, len: nat, left: nat)
      requires pos >= 0 && skipped >= 0 && left == |Drop(Drop(u, pos), skipped + got)|
      requires var l := |Drop(Drop(u, pos), skipped)|; got == if len <= l then len else l
      ensures MovedOn(|u|, pos + skipped, got, pos + |Drop(u, pos)| - left)
    {
    }

    // The loop of gzread.
    method ReadLoop(buf: array<byte>, len: nat) returns (got: nat)
      requires Valid() && !seek && len > 0 && len <= buf.Length && buf != inbuf && buf != outbuf
      modifies this`size, this`fdpos, this`eof, this`past, this`how, this`direct, this`next_in, this`avail_in
      modifies this`x_next, this`x_have
      modifies this`x_pos, this`k, this`c, this`p, inbuf, outbuf, buf
      ensures Valid() && got == if len <= |old(Remaining())| then len else |old(Remaining())|
      ensures buf[..got] == Take(old(Remaining()), len) && Remaining() == Drop(old(Remaining()), got)
      ensures x_pos == old(x_pos) + got && |Remaining()| == |old(Remaining())| - got
      ensures past == (old(past) || got < len)
    {
      hide WellFormed, PlainUpTo, Start, Plain, InputOk, Phase, Valid, Remaining, InLeft, Stage, Drop, Take, Wrote;
      got := 0;
      ghost var r, b0 := Remaining(), buf[..];
      TakeNothing(r);
      WroteNothing(b0, 0);
      var stop := false;
      while got < len && !stop
        invariant Valid() && !seek
        invariant got <= len && got <= |r| && Wrote(b0, buf[..], 0, Take(r, got))
        invariant Remaining() == Drop(r, got) && x_pos == old(x_pos) + got
        invariant (stop ==> Remaining() == [] && got < len) && past == (old(past) || stop)
        decreases !stop, len - got, InLeft(), Stage()
      {
        ghost var b1 := buf[..];
        var n: nat;
        n, stop := ReadSome(buf, got, len - got);
        NextBytes(r, got, n);
        WroteMore(b0, b1, buf[..], 0, Take(r, got), Take(Drop(r, got), n));
        got := got + n;
      }
      AllRead(r, b0, buf[..], got, len);
    }

    lemma AllRead(r: seq<byte>, b0: seq<byte>, b1: seq<byte>, got: nat, len: nat)
      requires got <= len && got <= |r| && (got == len || Drop(r, got) == []) && Wrote(b0, b1, 0, Take(r, got))
      ensures got == (if len <= |r| then len else |r|) && |Drop(r, got)| == |r| - got
      ensures got <= |b1| && b1[..got] == Take(r, len)
    {
    }

    // The stretch read so far and the next one.
    lemma NextBytes(r: seq<byte>, got: nat, n: nat)
      requires got <= |r| && n <= |Drop(r, got)|
      ensures got + n <= |r| && |Take(r, got)| == got && |Take(Drop(r, got), n)| == n
      ensures Take(r, got) + Take(Drop(r, got), n) == Take(r, got + n) && Drop(Drop(r, got), n) == Drop(r, got + n)
    {
    }

    // A pending skip request is carried out first; there is no error at this point.
    method SkipPending()
      requires Valid()
      modifies this`size, this`fdpos, this`eof, this`how, this`direct, this`next_in, this`avail_in, this`x_next
      modifies this`x_have
      modifies this`x_pos, this`seek, this`k, this`c, this`p, inbuf, outbuf
      ensures Valid() && !seek && Remaining() == old(Logical())
      ensures x_pos == old(x_pos) + |old(Remaining())| - |Remaining()|
      ensures if old(seek) then size > 0 && x_have < 2 * want
              else size == old(size) && x_have == old(x_have) && x_pos == old(x_pos)
    {
      hide WellFormed, PlainUpTo, Start, Plain, InputOk, Phase;
      if seek {
        seek := false;
        GzSkip(skip);
      }
    }

    // One round of the loop of gzread.
    method ReadSome(buf: array<byte>, at: nat, len: nat) returns (n: nat, stop: bool)
      requires Valid() && !seek && len > 0 && at + len <= buf.Length && buf != inbuf && buf != outbuf
      modifies this`size, this`fdpos, this`eof, this`past, this`how, this`direct, this`next_in, this`avail_in
      modifies this`x_next, this`x_have
      modifies this`x_pos, this`k, this`c, this`p, inbuf, outbuf, buf
      ensures Valid() && n <= len && n <= |old(Remaining())|
      ensures Wrote(old(buf[..]), buf[..], at, Take(old(Remaining()), n))
      ensures Remaining() == Drop(old(Remaining()), n) && x_pos == old(x_pos) + n
      ensures (stop ==> n == 0 && Remaining() == []) && past == (old(past) || stop)
      ensures n == 0 && !stop ==> InLeft() < old(InLeft()) || (InLeft() == old(InLeft()) && Stage() < old(Stage()))
    {
      hide WellFormed, PlainUpTo, Start, Plain, InputOk, Phase, Valid, Remaining, Wrote, Take, Drop;
      stop := false;
      TakeNothing(Remaining());
      WroteNothing(buf[..], at);
      if x_have > 0 {
        n := if x_have > len then len else x_have;
        CopyOut(buf, at, n);
      } else if eof && avail_in == 0 {
        past := true;
        NothingRemains();
        n, stop := 0, true;
      } else if how == Look || len < 2 * size {
        ghost var b0 := buf[..];
        GzFetch();
        n := 0;
        assert buf[..] == b0;
      } else if how == CopyRaw {
        n := LoadDirect(buf, at, len);
      } else {
        n := DecompDirect(buf, at, len);
      }
    }

    // memcpy from the output buffer.
    method CopyOut(buf: array<byte>, at: nat, n: nat)
      requires Valid() && n <= x_have && at + n <= buf.Length && buf != inbuf && buf != outbuf
      modifies buf, this`x_next, this`x_have, this`x_pos
      ensures Valid() && n <= |old(Remaining())|
      ensures Wrote(old(buf[..]), buf[..], at, Take(old(Remaining()), n))
      ensures Remaining() == Drop(old(Remaining()), n) && x_pos == old(x_pos) + n
    {
      hide WellFormed, PlainUpTo, Start, Plain, InputOk, Phase;
      FrontOf(Buffered(), Drop(Plain(file, ms), Base()), n);
      ghost var front := Take(Remaining(), n);
      MemCpy(buf, at, n);
      hide Wrote, Take, Remaining, Valid;
      Consume(n);
    }

    lemma FrontOf(s: seq<byte>, t: seq<byte>, n: nat)
      requires n <= |s|
      ensures n <= |s + t| && Take(s + t, n) == s[..n]
    {
    }

    method MemCpy(buf: array<byte>, at: nat, n: nat)
      requires n <= x_have && x_next + x_have <= outbuf.Length && at + n <= buf.Length && buf != outbuf
      modifies buf
      ensures Wrote(old(buf[..]), buf[..], at, Buffered()[..n])
    {
      ghost var w := outbuf[x_next..x_next + x_have];
      forall i | 0 <= i < n {
        buf[at + i] := outbuf[x_next + i];
      }
      forall i | 0 <= i < n ensures buf[at..at + n][i] == w[..n][i] {
        assert buf[at + i] == outbuf[x_next + i] == w[i];
      }
    }

    // large len -- read directly
    method LoadDirect(buf: array<byte>, at: nat, len: nat) returns (n: nat)
      requires Valid() && x_have == 0 && how == CopyRaw && len > 0 && at + len <= buf.Length && buf != inbuf
      requires buf != outbuf
      requires !(eof && avail_in == 0)
      modifies this`fdpos, this`eof, this`x_pos, buf
      ensures Valid() && n <= len && n <= |old(Remaining())|
      ensures Wrote(old(buf[..]), buf[..], at, Take(old(Remaining()), n))
      ensures Remaining() == Drop(old(Remaining()), n) && x_pos == old(x_pos) + n
      ensures n == 0 ==> InLeft() == old(InLeft()) && Stage() < old(Stage())
    {
      hide WellFormed, PlainUpTo, Start, InputOk, Plain, Phase, EofOk, Wrote, Take, Drop;
      ghost var from := fdpos;
      RawPlain();
      NoInput();
      NoneBuffered();
      RawState(Base());
      n := GzLoad(buf, at, len);
      NoInput();
      x_pos := x_pos + n;
      RawState(Base());
      DropDrop(file, from, n);
      NoneBuffered();
    }

    // large len -- decompress directly
    method DecompDirect(buf: array<byte>, at: nat, len: nat) returns (n: nat)
      requires Valid() && x_have == 0 && how == Gunzip && len > 0 && at + len <= buf.Length && buf != inbuf
      requires buf != outbuf
      modifies this`fdpos, this`eof, this`how, this`next_in, this`avail_in, this`x_pos, this`k, this`c, this`p, inbuf
      modifies buf
      ensures Valid() && n <= len && n <= |old(Remaining())|
      ensures Wrote(old(buf[..]), buf[..], at, Take(old(Remaining()), n))
      ensures Remaining() == Drop(old(Remaining()), n) && x_pos == old(x_pos) + n
      ensures n == 0 ==> InLeft() < old(InLeft())
    {
      hide WellFormed, PlainUpTo, Start, Plain, InputOk, Phase, Wrote, Take, Drop;
      ghost var b := Base();
      BaseNat();
      NoneBuffered();
      n := GzDecomp(buf, at, len, b);
      x_pos := x_pos + n;
      DropDrop(Plain(file, ms), b, n);
      NoneBuffered();
    }

    // Nothing has been pushed back or lost: what remains is the stream from x.pos on.
    ghost predicate Clean()
      reads this`x_next, this`x_have, this`x_pos, this`lost, outbuf
    {
      x_pos >= 0 && lost == 0 && Remaining() == Drop(Plain(file, ms), x_pos)
    }

    /** gzread on a stream without push-back returns the bytes of the uncompressed
        stream from the reported position on. */
    lemma CleanReads()
      requires Valid() && Clean()
      ensures Logical() == Drop(Plain(file, ms), GzTell())
    {
      hide Plain, Remaining, Phase, InputOk, WellFormed;
      if seek {
        DropDrop(Plain(file, ms), x_pos, skip);
      }
    }

    // Reading and skipping keep it so.
    lemma CleanAfter(pos0: int, r0: seq<byte>, n: nat)
      requires pos0 >= 0 && r0 == Drop(Plain(file, ms), pos0) && Remaining() == Drop(r0, n)
      requires x_pos == pos0 + |r0| - |Remaining()| && lost == 0
      ensures Clean()
    {
      hide Plain, Remaining;
      DropDrop(Plain(file, ms), pos0, n);
      DropDrop(Plain(file, ms), pos0, |r0| - |Remaining()|);
    }

    /** gzrewind. */
    method GzRewind() returns (ret: int)
      requires Valid()
      modifies this`fdpos, this`eof, this`past, this`how, this`avail_in, this`x_have, this`x_pos, this`seek, this`k
      modifies this`err, this`lost
      ensures Valid()
      ensures old(err) != NoError ==> ret == -1 && InError()
      ensures old(err) == NoError ==> ret == 0 && AtStart() && Clean()
    {
      hide Valid, Remaining, Plain, Drop;
      if err != NoError {
        return -1;
      }
      GzReset();
      return 0;
    }

    ghost predicate AtStart()
      reads this`eof, this`past, this`how, this`x_have, this`x_pos, this`seek, this`err
    {
      x_pos == 0 && x_have == 0 && !seek && !eof && !past && how == Look && err == NoError
    }

    // Back to the start of the file, and gz_reset.
    method GzReset()
      requires Valid()
      modifies this`fdpos, this`eof, this`past, this`how, this`avail_in, this`x_have, this`x_pos, this`seek, this`k
      modifies this`err, this`lost
      ensures Valid() && Clean() && err == NoError
      ensures x_pos == 0 && x_have == 0 && !seek && !eof && !past && how == Look
    {
      BeforeRewind();
      hide *;
      ResetFields();
      AfterRewind();
      CleanAtStart();
    }

    method ResetFields()
      modifies this`fdpos, this`eof, this`past, this`how, this`avail_in, this`x_have, this`x_pos, this`seek, this`k
      modifies this`err, this`lost
      ensures x_pos == 0 && x_have == 0 && !seek && !eof && !past && how == Look && err == NoError
      ensures fdpos == 0 && avail_in == 0 && k == 0 && lost == 0
    {
      fdpos := 0;
      x_have := 0;
      eof, past, how := false, false, Look;
      seek := false;
      err, lost := NoError, 0;
      x_pos := 0;
      avail_in := 0;
      k := 0;    // inflate() will see the first member again
    }

    // What a rewind leaves alone.
    lemma BeforeRewind()
      requires Valid()
      ensures Shape() && (ms == [] ==> direct) && next_in <= inbuf.Length && x_next <= outbuf.Length
      ensures (size == 0 || size == want)
    {
      hide WellFormed, PlainUpTo, Start;
    }

    lemma AfterRewind()
      requires Shape() && (ms == [] ==> direct) && next_in <= inbuf.Length && x_next <= outbuf.Length
      requires (size == 0 || size == want)
      requires fdpos == 0 && x_have == 0 && !eof && how == Look && !seek && x_pos == 0 && avail_in == 0 && k == 0
      requires lost == 0
      ensures Valid()
    {
    }

    lemma CleanAtStart()
      requires x_pos == 0 && x_have == 0 && lost == 0
      ensures Clean()
    {
    }

    /** gzseek64, from the start or from the reported position. */
    method GzSeek(offset: int, fromCurrent: bool) returns (ret: int)
      requires Valid()
      modifies this`fdpos, this`eof, this`past, this`how, this`avail_in, this`x_next, this`x_have, this`x_pos
      modifies this`seek, this`skip, this`k, this`err, this`lost
      ensures Valid() && err == old(err)
      ensures err != NoError ==> ret == -1 && InError()
      ensures err == NoError ==>
        var target := offset + if fromCurrent then old(GzTell()) else 0;
        && (target >= 0 || target >= old(x_pos) ==> ret == target && GzTell() == target)
        && (target < 0 && target < old(x_pos) ==>
              ret == -1 && !seek && x_pos == old(x_pos) && Remaining() == old(Remaining()))
        && (old(Clean()) ==> Clean())
    {
      hide WellFormed, PlainUpTo, Start, Plain, InputOk, Phase, Valid;
      if err != NoError {
        return -1;
      }
      var off := offset;
      if !fromCurrent {
        off := off - x_pos;
      } else if seek {
        off := off + skip;
      }
      DropRequest();
      if how == CopyRaw && x_pos + off >= 0 {
        SeekRaw(off);
        return x_pos;
      }
      if off < 0 {
        off := off + x_pos;
        if off < 0 {
          return -1;
        }
        var _ := GzRewind();
      }
      SkipBuffered(off);
      return GzTell();
    }

    // state->seek = 0
    method DropRequest()
      requires Valid()
      modifies this`seek
      ensures Valid() && !seek
    {
      hide WellFormed, PlainUpTo, Start, Plain, InputOk, Phase;
      seek := false;
    }

    // if within raw area while reading, just go there
    method SeekRaw(off: int)
      requires Valid() && how == CopyRaw && x_pos + off >= 0 && !seek
      modifies this`fdpos, this`eof, this`past, this`avail_in, this`x_have, this`x_pos, this`err
      ensures Valid() && (lost == 0 ==> Clean()) && x_pos == old(x_pos) + off && x_have == 0 && err == NoError
    {
      hide WellFormed, PlainUpTo, Start, InputOk, Plain;
      NoInput();
      MoveRaw(off);
      NoInput();
    }

    // lseek, and the fields.
    method MoveRaw(off: int)
      requires fdpos + off - x_have >= 0
      modifies this`fdpos, this`eof, this`past, this`avail_in, this`x_have, this`x_pos, this`err
      ensures fdpos == old(fdpos) + off - old(x_have) && x_have == 0 && !eof && !past && err == NoError
      ensures avail_in == 0 && x_pos == old(x_pos) + off
    {
      fdpos := fdpos + off - x_have;
      x_have := 0;
      eof, past := false, false;
      err := NoError;
      avail_in := 0;
      x_pos := x_pos + off;
    }

    // skip what is in the output buffer and ask for the rest
    method SkipBuffered(off: int)
      requires Valid() && off >= 0 && !seek
      modifies this`x_next, this`x_have, this`x_pos, this`seek, this`skip
      ensures Valid() && GzTell() == old(x_pos) + off
      ensures old(Clean()) ==> Clean()
    {
      hide WellFormed, PlainUpTo, Start, Plain, InputOk, Phase, Untouched, Remaining, EofOk, Drop;
      var n := if x_have > off then off else x_have;
      ghost var r, pos := Remaining(), x_pos;
      ghost var clean := Clean();
      Consume(n);
      if clean {
        DropLength(r, n);
        CleanAfter(pos, r, n);
      }
      if off - n != 0 {
        seek, skip := true, off - n;
      }
    }

    lemma DropLength(r: seq<byte>, n: nat)
      requires n <= |r|
      ensures |Drop(r, n)| == |r| - n
    {
    }

    /** Random access: whatever was read or sought before, seeking to `at` and reading
        gives the bytes of the uncompressed stream there. */
    method ReadAt(at: nat, buf: array<byte>, len: nat) returns (got: int)
      requires Valid() && Clean() && MayRead(len) && len <= buf.Length && buf != inbuf && buf != outbuf
      modifies this`size, this`fdpos, this`eof, this`past, this`how, this`direct, this`next_in, this`avail_in
      modifies this`x_next, this`x_have, this`err, this`lost
      modifies this`x_pos, this`seek, this`skip, this`k, this`c, this`p, inbuf, outbuf, buf
      ensures Valid() && Clean() && err == NoError && 0 <= got <= len
      ensures buf[..got] == Take(Drop(Plain(file, ms), at), len)
    {
      hide WellFormed, PlainUpTo, Start, Plain, InputOk, Phase, Valid, Remaining, Take;
      var _ := GzSeek(at, false);
      CleanReads();
      got := GzRead(buf, len);
    }

    /** Any mix of gzseek64, from the start or from the current position, and gzread:
        each result is that of plain random access to the uncompressed stream at the
        place reported before, and the next one starts from the place reported after. */
    method Perform(ops: seq<Op>) returns (results: seq<Result>, ghost places: seq<Place>)
      requires Valid() && (err == NoError ==> Clean())
      modifies this`size, this`fdpos, this`eof, this`past, this`how, this`direct, this`next_in, this`avail_in
      modifies this`x_next, this`x_have, this`err, this`lost
      modifies this`x_pos, this`seek, this`skip, this`k, this`c, this`p, inbuf, outbuf
      ensures Valid() && (err == NoError ==> Clean()) && |results| == |ops| && |places| == |ops| + 1
      ensures places[0] == old(Here()) && places[|ops|] == Here()
      ensures forall i :: 0 <= i < |ops| ==> StepOk(Plain(file, ms), places[i], ops[i], results[i], places[i + 1])
    {
      hide WellFormed, PlainUpTo, Start, Plain, InputOk, Phase, Valid, Remaining, StepOk, Clean;
      results, places := [], [Here()];
      var i := 0;
      while i < |ops|
        invariant 0 <= i <= |ops| && Valid() && |results| == i && |places| == i + 1
        invariant (err == NoError ==> Clean()) && places[0] == old(Here()) && places[i] == Here()
        invariant forall j :: 0 <= j < i ==> StepOk(Plain(file, ms), places[j], ops[j], results[j], places[j + 1])
      {
        var r := PerformOne(ops[i]);
        results, places := results + [r], places + [Here()];
        i := i + 1;
      }
    }

    method PerformOne(op: Op) returns (r: Result)
      requires Valid() && (err == NoError ==> Clean())
      modifies this`size, this`fdpos, this`eof, this`past, this`how, this`direct, this`next_in, this`avail_in
      modifies this`x_next, this`x_have, this`err, this`lost
      modifies this`x_pos, this`seek, this`skip, this`k, this`c, this`p, inbuf, outbuf
      ensures Valid() && (err == NoError ==> Clean())
      ensures StepOk(Plain(file, ms), old(Here()), op, r, Here())
    {
      hide WellFormed, PlainUpTo, Start, Plain, InputOk, Phase, Valid, Remaining, Take, Drop;
      ValidParts();
      match op
      case Seek(offset, fromCurrent) =>
        var ret := GzSeek(offset, fromCurrent);
        r := if ret == -1 then Refused else Sought(ret);
      case Read(len) =>
        var buf := new byte[if len < INT_LIMIT then len else 0];
        if err == NoError {
          CleanReads();
        }
        var ret := GzRead(buf, len);
        r := if ret == -1 then Refused else Got(buf[..ret]);
    }

    lemma ValidParts()
      requires Valid()
      ensures (seek ==> skip > 0) && (size == 0 || size == want) && x_next + x_have <= outbuf.Length == 2 * want
      ensures size == 0 ==> Untouched()
    {
      hide WellFormed, PlainUpTo, Start, Plain, InputOk, Phase;
    }

    // Slide the output data to the end of its buffer, in place.
    method SlideUp()
      requires x_next == 0 && x_have < outbuf.Length
      modifies this`x_next, outbuf
      ensures x_next == outbuf.Length - x_have && outbuf[x_next..] == old(outbuf[..x_have])
    {
      var src, dest := x_have, outbuf.Length;
      while src > 0
        invariant 0 <= src <= x_have && dest == outbuf.Length - x_have + src
        invariant forall j :: 0 <= j < src ==> outbuf[j] == old(outbuf[j])
        invariant forall j :: dest <= j < outbuf.Length ==> outbuf[j] == old(outbuf[j - (outbuf.Length - x_have)])
      {
        dest, src := dest - 1, src - 1;
        outbuf[dest] := outbuf[src];
      }
      x_next := dest;
    }

    /** A reader without buffers is as gzopen left it, up to a pending skip request. */
    lemma UnreadIsUntouched()
      requires Valid() && size == 0
      ensures Untouched() && Clean() && Logical() == Drop(Plain(file, ms), GzTell())
      ensures !seek ==> GzTell() == 0 && Logical() == Plain(file, ms)
    {
      hide WellFormed, PlainUpTo, Start, Plain, InputOk, Phase;
      CleanAtStart();
      CleanReads();
    }

    // There is no room for another byte, and no skip request that would make some.
    ghost predicate Full()
      reads this`seek, this`x_have
    {
      !seek && x_have == 2 * want
    }

    /** gzungetc.  Pushing a byte that fits, it comes first of what remains and the end of
        the buffered data stays where it is in the stream.  Pushing one that does not fit is
        an error, which throws away the whole output buffer.  There must be buffers, or a
        skip request, which makes them, or nothing to push. */
    method GzUngetc(ch: int) returns (ret: int)
      requires Valid() && (size > 0 || seek || ch < 0 || err != NoError)
      modifies this`size, this`fdpos, this`eof, this`past, this`how, this`direct, this`next_in, this`avail_in
      modifies this`x_next, this`x_have
      modifies this`x_pos, this`seek, this`k, this`c, this`p, this`err, this`lost, inbuf, outbuf
      ensures Valid()
      ensures old(err) != NoError ==> ret == -1 && InError()
      ensures old(err) == NoError ==> !seek && ret == if ch < 0 || old(Full()) then -1 else ch
      ensures old(err) == NoError ==> (err == NoError <==> ch < 0 || !old(Full()))
      ensures old(err) == NoError && ch < 0 ==> Remaining() == old(Logical())
      ensures GzEof() == (old(GzEof()) && (old(err) != NoError || ch < 0 || old(Full())))
      ensures old(err) == NoError && ch >= 0 && !old(Full()) ==>
        && Remaining() == [ch % 256] + old(Logical()) && lost == old(lost) && size > 0
        && x_have > 0 && (!old(seek) ==> x_have == old(x_have) + 1)
      ensures old(err) == NoError && !old(seek) ==>
        (x_pos + x_have == old(x_pos + x_have) <==> ch < 0 || old(x_have) < 2 * want)
      ensures old(err) == NoError && ch >= 0 && old(Full()) ==>
        && err == DataError && x_have == 0 && x_pos == old(x_pos) && lost == old(lost) + 2 * want
        && 2 * want <= |old(Remaining())| && Remaining() == old(Remaining())[2 * want..]
    {
      hide WellFormed, PlainUpTo, Start, Plain, InputOk, Phase, Valid, Remaining;
      if err != NoError {
        return -1;
      }
      ValidParts();
      ghost var full := Full();
      SkipPending();
      ValidParts();
      if ch < 0 {
        return -1;
      }
      if x_have == 2 * size {
        GzError(DataError);
        return -1;
      }
      PushBack(ch % 256);
      return ch;
    }

    /** gzclearerr: reading goes on behind what an error threw away.  If bytes after the last
        member have been ignored they are looked at again, so there must be nothing among
        them that looks like a member. */
    method GzClearErr()
      requires Valid() && (how == Look && Ignoring() ==> NoMagicFrom(fdpos))
      modifies this`eof, this`past, this`err
      ensures Valid() && err == NoError && !eof && !past && Remaining() == old(Remaining())
    {
      hide WellFormed, PlainUpTo, Start, Plain, InputOk, Magic, NoMagicFrom;
      eof, past := false, false;
      err := NoError;
    }

    /** Pushing back until it is refused, from any reader with buffers: all that was in the
        output buffer is gone, pushed back or not, and the position has not moved over it. */
    method PushTooMuch(ch: int) returns (pushed: nat)
      requires Valid() && size > 0 && !seek && err == NoError && ch >= 0
      modifies this`size, this`fdpos, this`eof, this`past, this`how, this`direct, this`next_in, this`avail_in
      modifies this`x_next, this`x_have
      modifies this`x_pos, this`seek, this`k, this`c, this`p, this`err, this`lost, inbuf, outbuf
      ensures Valid() && err == DataError && x_have == 0 && pushed == 2 * want - old(x_have)
      ensures x_pos == old(x_pos) - pushed && lost == old(lost) + 2 * want
      ensures old(x_have) <= |old(Remaining())| && Remaining() == old(Remaining())[old(x_have)..]
    {
      hide WellFormed, PlainUpTo, Start, Plain, InputOk, Phase, Valid, Remaining;
      pushed := 0;
      ghost var r, had := Remaining(), x_have;
      ghost var front: seq<byte> := [];
      ValidParts();
      BufferedRemains();
      while x_have < 2 * want
        invariant Valid() && size > 0 && !seek && err == NoError && x_have == had + pushed <= 2 * want
        invariant lost == old(lost) && x_pos + x_have == old(x_pos + x_have)
        invariant |front| == pushed && Remaining() == front + r
        decreases 2 * want - x_have
      {
        ghost var before := Remaining();
        var _ := GzUngetc(ch);
        front := [ch % 256] + front;
        pushed := pushed + 1;
        assert [ch % 256] + before == front + r;
        ValidParts();
      }
      var _ := GzUngetc(ch);
      assert (front + r)[2 * want..] == r[had..];
    }

    lemma BufferedRemains()
      requires Valid()
      ensures x_have <= |Remaining()|
    {
      hide WellFormed, PlainUpTo, Start, Plain, InputOk, Phase;
    }

    // There is room for one more byte.
    method PushBack(ch: byte)
      requires Valid() && !seek && x_have < 2 * size
      modifies this`past, this`x_next, this`x_have, this`x_pos, outbuf
      ensures Valid() && !seek && Remaining() == [ch] + old(Remaining())
      ensures Base() == old(Base()) && x_have == old(x_have) + 1 && !past
    {
      hide WellFormed, PlainUpTo, Start, Plain, InputOk, Phase, Valid;
      ghost var b := Buffered();
      MakeRoom();
      ValidParts();
      Push(ch);
      assert ([ch] + b) + Drop(Plain(file, ms), Base()) == [ch] + (b + Drop(Plain(file, ms), Base()));
    }

    // The buffered data does not start at the beginning of the buffer.
    method MakeRoom()
      requires Valid() && !seek && x_have < 2 * size
      modifies this`x_next, outbuf
      ensures Valid() && !seek && x_next > 0 && Buffered() == old(Buffered())
    {
      hide WellFormed, PlainUpTo, Start, Plain, InputOk, Phase;
      if x_have == 0 {
        x_next := 2 * size;
      } else if x_next == 0 {
        SlideUp();
        assert outbuf[x_next..x_next + x_have] == outbuf[x_next..];
        assert old(outbuf[0..x_have]) == old(outbuf[..x_have]);
      }
    }

    method Push(ch: byte)
      requires Valid() && !seek && 0 < x_next && size > 0
      modifies this`past, this`x_next, this`x_have, this`x_pos, outbuf
      ensures Valid() && !seek && Buffered() == [ch] + old(Buffered())
      ensures Base() == old(Base()) && x_have == old(x_have) + 1 && !past
    {
      hide WellFormed, PlainUpTo, Start, Plain, InputOk, Phase;
      x_have := x_have + 1;
      x_next := x_next - 1;
      outbuf[x_next] := ch;
      x_pos := x_pos - 1;
      past := false;
      assert outbuf[x_next + 1..x_next + x_have] == old(outbuf[x_next..x_next + x_have]);
    }
  }

  /** One byte is read from a file of eight and pushed back, and then bytes are pushed back
      until one is refused.  When the error has been cleared, part of the file is missing
      from what remains although only one byte has been given out. */
  method PushBackLoses() returns (r: GzReader)
    ensures fresh(r) && r.Valid() && r.err == NoError && r.lost > 0
    ensures |Plain(r.file, r.ms)| == 8 && |r.Remaining()| < 8
  {
    r := new GzReader([1, 2, 3, 4, 5, 6, 7, 8], [], 2);
    hide Drop, GzReader.Valid, GzReader.Remaining, GzReader.Clean;
    r.UnreadIsUntouched();
    assert Plain(r.file, r.ms) == r.file;
    ReadAndPush(r);
    r.GzClearErr();
  }

  method ReadAndPush(r: GzReader)
    requires r.Valid() && r.size == 0 && !r.seek && r.err == NoError && r.want == 2 && r.x_pos == 0 && r.lost == 0
    requires |r.Remaining()| == 8 && r.Logical() == r.Remaining()
    modifies r, r.inbuf, r.outbuf
    ensures r.Valid() && r.err == DataError && r.lost > 0 && |r.Remaining()| < 8
  {
    hide GzReader.Valid, GzReader.Remaining, GzReader.Clean, Plain;
    var buf := new byte[1];
    var _ := r.GzRead(buf, 1);
    r.ValidParts();
    var _ := r.GzUngetc(buf[0]);
    if r.err == NoError {
      var _ := r.PushTooMuch(7);
    }
  }
}
