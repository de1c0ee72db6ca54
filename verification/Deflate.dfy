/**
 The block strategies of deflate.c: deflate_stored, deflate_fast, deflate_slow,
 deflate_rle and deflate_huff.  Level and strategy are fixed for a run.
 */
module Deflaters {
  import opened Bits
  import opened HashKey
  import opened HashChain
  import opened Tokens
  import opened SymbolBuffers
  import opened BitStreams
  import opened PendingOutputs
  import opened MatchFinders
  import opened Checksum
  import opened Choices

  datatype Flush = NoFlush | PartialFlush | SyncFlush | FullFlush | Finish | BlockFlush
  datatype BlockState = NeedMore | BlockDone | FinishStarted | FinishDone

  // The distance the compressor computes for a match at window index `start` of
  // the string at window index `str`, in 32-bit unsigned arithmetic.
  function Distance(str: int, start: nat): nat {
    U32(str - start)
  }

  // A slide changes neither the distance nor what it refers to.
  lemma DistanceSlides(str: int, start: nat, w: nat)
    requires start < 0x1_0000_0000
    ensures Distance(str - w, U32(start - w)) == Distance(str, start)
  {
    var a, b := str - start, str - w - U32(start - w);
    assert U32(start - w) == start - w - ((start - w) / 0x1_0000_0000) * 0x1_0000_0000;
    assert b == a + ((start - w) / 0x1_0000_0000) * 0x1_0000_0000;
    ModShift(a, (start - w) / 0x1_0000_0000);
  }

  lemma ModShift(a: int, q: int)
    ensures U32(a + q * 0x1_0000_0000) == U32(a)
  {
  }

  // An incomplete string asks nothing of the rolling key.
  lemma IncompleteReady(bits: nat, h: nat, data: seq<byte>, p: nat)
    requires p + 2 >= |data|
    ensures KeyReady(bits, h, data, p)
  {
  }

  lemma PowersOfTwo()
    ensures Pow2(7) == 128 && Pow2(15) == 0x8000
  {
    assert Pow2(7) == 128;
    assert Pow2(11) == 2048;
  }

  // Every byte from just before str up to (not including) end is the same.
  ghost predicate Run(win: seq<byte>, str: nat, end: nat)
    requires 0 < str <= end <= |win|
  {
    forall i :: str <= i < end ==> win[i] == win[str - 1]
  }

  lemma RunAgrees(win: seq<byte>, str: nat, len: nat)
    requires 0 < str && str + len <= |win| && Run(win, str, str + len)
    ensures Agree(win, str - 1, str, len)
  {
    var x, y := win[str - 1..str - 1 + len], win[str..str + len];
    forall i | 0 <= i < len ensures x[i] == y[i] {
      assert x[i] == win[str - 1 + i] && y[i] == win[str + i];
    }
  }

  lemma RunEnds(win: seq<byte>, str: nat, n: nat, i: nat)
    requires 0 < str && i < n && str + n <= |win|
    requires Run(win, str, str + i) && win[str + i] != win[str - 1]
    ensures !Agree(win, str - 1, str, n)
  {
    hide Agree;
    Differs(win, str - 1, str, i, n);
  }

  // What the encoder writes for a block; the last one is padded to a byte boundary.
  function Pieces(enc: Block -> seq<Piece>, b: Block): seq<Piece> {
    enc(b) + if b.last then [Bytes([])] else []
  }

  /** The code of the blocks, one after the other. */
  function BlocksCode(enc: Block -> seq<Piece>, bs: seq<Block>): seq<bool> {
    if bs == [] then []
    else
      var c := BlocksCode(enc, bs[..|bs| - 1]);
      c + Coded(Pieces(enc, bs[|bs| - 1]), |c|)
  }

  // One more block, behind whole bytes that were put before the first.
  lemma CodeSnoc(enc: Block -> seq<Piece>, head: seq<byte>, bs: seq<Block>, b: Block)
    ensures var s := BitsOf(head) + BlocksCode(enc, bs);
            s + Coded(Pieces(enc, b), |s|) == BitsOf(head) + BlocksCode(enc, bs + [b])
  {
    hide BitsOf, Coded;
    assert (bs + [b])[..|bs|] == bs;
    CodedShift(Pieces(enc, b), |BlocksCode(enc, bs)|, |head|);
  }

  class Deflater {
    const level: nat
    const strategy: Strategy
    const m: MatchFinder
    const sym: SymbolBuffer
    const out: PendingOutput
    const enc: Block -> seq<Piece>    // how trees.c encodes a block
    ghost const head: seq<byte>       // what is put before the first block

    var match_length: nat
    var prev_match: nat
    var match_available: bool
    ghost var blocks: seq<Block>
    ghost var cuts: seq<Cut>          // where a reader may start
    ghost var log: seq<Choice>        // why each token was emitted
    ghost var seen: Seen              // what there was to be seen at the byte before strstart

    ghost predicate Objects() {
      && level <= 9
      && m.Shape() && m.cfg == ConfigFor(level)
      && sym.d_buf != m.head && sym.d_buf != m.prev && sym.l_buf != m.window
      && 128 <= sym.lit_bufsize <= 0x8000
    }

    /** deflateInit2_ with window size w and memLevel 1..9. */
    constructor (lev: nat, strat: Strategy, w: nat, memLevel: nat, initial: Check, encoder: Block -> seq<Piece>,
                 ghost header: seq<byte>)
      requires lev <= 9 && 512 <= w <= 0x8000 && 1 <= memLevel <= 9
      requires initial == NoCheck || initial == AdlerCheck(1) || initial == CrcCheck(0)
      ensures Objects() && level == lev && strategy == strat && m.w_size == w && m.start == initial
      ensures enc == encoder && head == header && out.bi_valid == 0
      ensures m.Valid() && m.WrittenOk() && m.solid == 0 && m.high_water == 0 && m.data == [] && m.next_in == []
      ensures m.base == 0 && m.hist == []
      ensures m.strstart == 0 && m.lookahead == 0 && m.block_start == 0 && m.insert == 0
      ensures m.match_start == 0 && m.prev_length == MIN_MATCH - 1 && match_length == MIN_MATCH - 1 && !match_available
      ensures blocks == [] && cuts == [Cut(0, 0)] && log == []
      ensures sym.Valid() && sym.HasRoom() && sym.Tokens() == []
      ensures out.Valid() && out.Aligned() && out.pending == 0 && out.put == [] && out.next_out == []
      ensures fresh(m) && fresh(m.window) && fresh(m.head) && fresh(m.prev)
      ensures fresh(sym) && fresh(sym.d_buf) && fresh(sym.l_buf) && fresh(out)
    {
      level, strategy, enc, head := lev, strat, encoder, header;
      PowersOfTwo();
      Pow2Mono(7, memLevel + 6);
      Pow2Mono(memLevel + 6, 15);
      m := new MatchFinder(w, memLevel + 7, ConfigFor(lev), initial);
      sym := new SymbolBuffer(Pow2(memLevel + 6));
      out := new PendingOutput();
      match_length, prev_match, match_available := MIN_MATCH - 1, 0, false;
      blocks, cuts, log, seen := [], [Cut(0, 0)], [], Seen(0, 0, 0, {}, true);
    }

    function MaxDist(): nat
      requires MIN_LOOKAHEAD <= m.w_size
    {
      m.w_size - MIN_LOOKAHEAD
    }

    ghost function Rules(): Rule
      requires MIN_LOOKAHEAD <= m.w_size
    {
      Rule(level, strategy, MaxDist())
    }

    // Absolute position up to which blocks have been flushed.
    ghost function Flushed(): int
      reads m`base, m`block_start
    {
      m.base + m.block_start
    }

    // Flushed blocks and tallied tokens stand for exactly data[..n], and for what follows
    // each cut, and there is a reason for every token.
    ghost predicate Emitted(n: int)
      requires Objects()
      reads m`data, m`base, m`block_start, this`blocks, this`log, this`cuts, sym, sym.d_buf, sym.l_buf
    {
      sym.Valid() && Reported(Rules(), m.data, blocks, sym.Tokens(), Flushed(), n, cuts, log)
    }

    // The window has not lost anything since the last cut, or it has slid.
    ghost predicate Based()
      reads this`cuts, m`base, m`strstart
    {
      Horizon(cuts) <= m.base && (m.base == Horizon(cuts) || m.strstart >= m.MaxDist())
    }

    // There is a reason for token t at position s.pos.
    ghost predicate Reason(t: Token, s: Seen, next: Option<Seen>)
      requires Objects()
      reads m`data, this`log, this`cuts
    {
      !StoredMode() && Follows(Rules(), m.data, cuts, log, Choice(t, s, next))
    }

    // _tr_tally_lit of the window byte at index i, the next one to be emitted.
    method TallyLitAt(i: nat, ghost s: Seen, ghost next: Option<Seen>) returns (bflush: bool)
      requires Objects() && m.DataOk() && m.base + i < |m.data|
      requires s.pos == m.base + i && Reason(Literal(m.data[m.base + i]), s, next)
      requires Emitted(m.base + i) && sym.HasRoom()
      modifies sym`last_lit, sym.d_buf, sym.l_buf, this`log
      ensures Emitted(m.base + i + 1) && log == old(log) + [Choice(Literal(m.data[m.base + i]), s, next)]
      ensures bflush <==> !sym.HasRoom()
    {
      hide Reported, WindowAgrees, Follows;
      ghost var c := Choice(Literal(m.data[m.base + i]), s, next);
      ReportedLiteral(Rules(), m.data, blocks, sym.Tokens(), Flushed(), m.base + i, cuts, log, c);
      WindowByte(m.window[..], m.data, m.base, |m.data| - m.base, i);
      bflush := sym.TallyLit(m.window[i]);
      log := log + [c];
    }

    // _tr_tally_dist of a match at absolute position s.pos.
    method TallyMatchAt(dist: nat, len: nat, ghost s: Seen, ghost next: Option<Seen>) returns (bflush: bool)
      requires Objects() && Repeats(m.data, s.pos, dist, len)
      requires MIN_MATCH <= len <= MAX_MATCH && dist <= MaxDist() && Horizon(cuts) + dist <= s.pos
      requires Reason(Match(dist, len), s, next)
      requires Emitted(s.pos) && sym.HasRoom()
      modifies sym`last_lit, sym.d_buf, sym.l_buf, this`log
      ensures Emitted(s.pos + len) && log == old(log) + [Choice(Match(dist, len), s, next)]
      ensures bflush <==> !sym.HasRoom()
    {
      hide Reported, Follows;
      ghost var c := Choice(Match(dist, len), s, next);
      ReportedMatch(Rules(), m.data, blocks, sym.Tokens(), Flushed(), s.pos, cuts, log, c);
      bflush := sym.TallyDist(dist, len - MIN_MATCH);
      log := log + [c];
    }

    // FLUSH_BLOCK_ONLY hands over either tokens that reach strstart or, at level 0,
    // the bytes themselves.
    ghost predicate CanFlush()
      requires Objects()
      reads m`data, m`base, m`block_start, m`strstart, this`blocks, this`log, this`cuts, sym, sym.d_buf, sym.l_buf
    {
      && m.At() <= |m.data|
      && (Emitted(m.At()) || (StoredMode() && m.block_start >= 0 && Flushed() <= m.At() && Emitted(Flushed())))
    }

    /** FLUSH_BLOCK_ONLY: the block stands for the input from block_start to
        strstart, whichever way the encoder writes it. */
    method FlushBlockOnly(last: bool)
      requires Objects() && m.DataOk() && CanFlush()
      requires out.Valid() && out.Aligned() && Traced()
      modifies this`blocks, m`block_start, sym`last_lit, out
      ensures Flushed() == m.At() && Emitted(m.At()) && sym.HasRoom() && sym.Tokens() == []
      ensures |blocks| == |old(blocks)| + 1 && old(blocks) <= blocks
      ensures blocks[|old(blocks)|].storedLen == m.At() - old(Flushed()) && blocks[|old(blocks)|].last == last
      ensures out.Valid() && (out.Aligned() || out.avail_out == 0) && Traced()
      ensures last ==> out.bi_valid == 0
      ensures out.pending == 0 || out.avail_out == 0
      ensures out.Extends(old(out.put), old(out.next_out))
      ensures out.avail_out <= old(out.avail_out)
    {
      hide WindowAgrees, Reported, BlocksCode, Coded, PendingOutput.Stream;
      BlockInWindow();
      var b := Block(sym.Tokens(), BlockBytes(), m.strstart - m.block_start, last);
      BlockIsFaithful(b);
      SendBlock(b);
      blocks := blocks + [b];
      sym.Reset();
      m.block_start := m.strstart;
      out.FlushPending();
    }

    lemma BlockInWindow()
      requires Objects() && m.DataOk() && CanFlush()
      ensures m.block_start <= m.strstart <= m.window.Length
    {
      hide WindowAgrees, Reported;
      if Emitted(m.At()) {
        ReportedBounds(Rules(), m.data, blocks, sym.Tokens(), Flushed(), m.At(), cuts, log);
      }
    }

    // The `buf` argument of _tr_flush_block.
    function BlockBytes(): Option<seq<byte>>
      requires m.block_start <= m.strstart <= m.window.Length
      reads m`block_start, m`strstart, m.window
    {
      if m.block_start >= 0 then Some(m.window[m.block_start..m.strstart]) else None
    }

    lemma BlockIsFaithful(b: Block)
      requires Objects() && m.DataOk() && CanFlush() && m.block_start <= m.strstart <= m.window.Length
      requires b.tokens == sym.Tokens() && b.buf == BlockBytes() && b.storedLen == m.strstart - m.block_start
      ensures Reported(Rules(), m.data, blocks + [b], [], m.At(), m.At(), cuts, log)
    {
      hide WindowAgrees, Reported;
      var n := if Emitted(m.At()) then m.At() else Flushed();
      if m.block_start >= 0 {
        WindowSlice(m.window[..], m.data, m.base, |m.data| - m.base, m.block_start, m.strstart);
      }
      ReportedBounds(Rules(), m.data, blocks, sym.Tokens(), Flushed(), n, cuts, log);
      ReportedFlush(Rules(), m.data, blocks, sym.Tokens(), Flushed(), n, cuts, log, b, m.At());
    }

    // The bits put so far are those of the header and of the code of bs.
    ghost predicate TracedAs(bs: seq<Block>)
      reads out`put, out`bi_buf, out`bi_valid
    {
      out.Stream() == BitsOf(head) + BlocksCode(enc, bs)
    }

    ghost predicate Traced()
      reads this`blocks, out`put, out`bi_buf, out`bi_valid
    {
      TracedAs(blocks)
    }

    // Before the first block.
    lemma HeaderTraced()
      requires out.put == head && out.bi_valid == 0 && blocks == []
      ensures Traced()
    {
    }

    // The code of one more block goes out.
    method SendBlock(b: Block)
      requires out.Valid() && out.Aligned() && Traced()
      modifies out`pending_buf, out`pending, out`put, out`bi_buf, out`bi_valid
      ensures out.Valid() && out.Aligned() && TracedAs(blocks + [b]) && (b.last ==> out.bi_valid == 0)
      ensures old(out.put) <= out.put
    {
      hide BitsOf, BlocksCode, Coded, PendingOutput.Stream;
      CodeSnoc(enc, head, blocks, b);
      out.Encode(Pieces(enc, b));
    }

    // Every block so far leaves the stream open; the last one closes it.
    ghost predicate Open()
      reads this`blocks
    {
      forall i :: 0 <= i < |blocks| ==> !blocks[i].last
    }

    ghost predicate Closed()
      reads this`blocks
    {
      && blocks != [] && blocks[|blocks| - 1].last
      && forall i :: 0 <= i < |blocks| - 1 ==> !blocks[i].last
    }

    ghost predicate WindowOk()
      reads m`data, m`check, m`total_in, m`base, m`strstart, m`lookahead, m`hist, m`insert, m`written, m`solid
      reads m`high_water, this`cuts
      reads m.window, m.head, m.prev
    {
      m.Valid() && m.WrittenOk() && Based()
    }

    // The rolling key is ready for the string at strstart.
    ghost predicate KeyReadyHere()
      reads m`ins_h, m`data, m`base, m`strstart
    {
      KeyReady(m.hash_bits, m.ins_h, m.data, m.At())
    }

    ghost predicate OutputOk()
      reads out, this`blocks
    {
      out.Valid() && out.Aligned() && out.avail_out > 0 && Traced()
    }

    // The output may have been cut short because the caller's buffer is full.
    ghost predicate OutputOkOrFull()
      reads out, this`blocks
    {
      out.Valid() && (out.Aligned() || out.avail_out == 0) && Traced()
    }

    // The caller offers room for everything waiting.
    method MakeSpace()
      requires OutputOkOrFull()
      modifies out
      ensures OutputOk() && OutputOkOrFull()
    {
      hide PendingOutput.Stream, BlocksCode, BitsOf;
      out.MakeSpace();
    }

    // A match found at s.pos, good whatever the window does since, and chosen for a reason.
    ghost predicate GoodMatch(start: nat, len: nat, s: Seen)
      requires Objects()
      reads m`data, m`base, this`cuts
    {
      var d := Distance(s.pos - m.base, start);
      && 1 <= d <= MaxDist() && Repeats(m.data, s.pos, d, len) && start < 0x1_0000_0000
      && Horizon(cuts) + d <= s.pos && Chosen(Rules(), m.data, s, d, len)
    }

    // The state at the head of every strategy's loop: tokens reach up to n.
    ghost predicate LoopOk(n: int)
      requires Objects()
      reads m`data, m`check, m`total_in, m`base, m`strstart, m`lookahead, m`hist, m`insert, m`written, m`solid
      reads m`high_water
      reads m`block_start
      reads m.window, m.head, m.prev, this`blocks, this`log, this`cuts, sym, sym.d_buf, sym.l_buf, out
    {
      WindowOk() && OutputOk() && Emitted(n) && sym.HasRoom() && Open()
    }

    /** fill_window, seen from the block strategies: nothing emitted so far and no
        match found so far is affected. */
    method Fill(ghost n: int, ghost len: nat, ghost s: Seen)
      requires Objects() && LoopOk(n) && m.lookahead < MIN_LOOKAHEAD
      modifies m.window, m.head, m.prev
      modifies m`next_in, m`strstart, m`lookahead, m`block_start, m`match_start, m`ins_h, m`insert
      modifies m`data, m`check, m`total_in, m`base, m`hist, m`written, m`solid, m`high_water
      ensures LoopOk(n)
      ensures m.Taken(old(m.data), old(m.next_in))
      ensures m.At() == old(m.At()) && Flushed() == old(Flushed())
      ensures |m.next_in| + m.lookahead == old(|m.next_in| + m.lookahead)
      ensures m.base == old(m.base) || (m.base == old(m.base) + m.w_size && old(m.strstart) >= m.w_size + MaxDist())
      ensures m.insert <= old(m.insert)
      ensures Grown(old(m.hist), m.hist, m.At() - old(m.insert), old(m.insert) - m.insert)
      ensures m.strstart + MIN_LOOKAHEAD <= 2 * m.w_size
      ensures m.lookahead >= MIN_LOOKAHEAD || m.next_in == []
      ensures old(KeyReadyHere()) ==> KeyReadyHere()
      ensures old(GoodMatch(m.match_start, len, s) && Within(m.data, s)) ==> GoodMatch(m.match_start, len, s)
      ensures old(m.match_start) < 0x1_0000_0000 ==> m.match_start < 0x1_0000_0000
      ensures m.Initialised() <==> !old(m.LeavesGap())
      ensures m.high_water == HighWater(2 * m.w_size, m.strstart + m.lookahead, old(m.high_water))
      ensures old(m.SolidSlid()) >= 0
      ensures m.solid == SolidNext(m.w_size, old(m.SolidSlid()), old(m.high_water), m.strstart + m.lookahead)
      ensures old(m.Early()) ==> m.Early()
    {
      hide TracedAs, Reported, Repeats, KeyReady, WindowAgrees, ChainsAgree, KeysAgree, Distance, U32, WrittenBelow,
        Tracked, HighWater,
        SolidNext, Gap, EarlyWindow, Chosen, Grown;
      m.FillWindow();
      ReportedGrows(Rules(), old(m.data), m.data, blocks, sym.Tokens(), Flushed(), n, cuts, log);
      if old(GoodMatch(m.match_start, len, s) && Within(m.data, s)) {
        MatchMoves(old(m.data), m.data, s.pos, len, s.pos - old(m.base), old(m.match_start), m.w_size);
        MatchEnds(old(m.data), s.pos, Distance(s.pos - old(m.base), old(m.match_start)), len);
        ChosenGrows(Rules(), old(m.data), m.data, s, Distance(s.pos - old(m.base), old(m.match_start)), len);
      }
    }

    lemma MatchEnds(d: seq<byte>, pos: nat, dist: nat, len: nat)
      requires Repeats(d, pos, dist, len)
      ensures pos + len <= |d|
    {
    }

    lemma MatchMoves(d: seq<byte>, d': seq<byte>, pos: nat, len: nat, str: int, start: nat, w: nat)
      requires start < 0x1_0000_0000 && d <= d'
      ensures Distance(str - w, U32(start - w)) == Distance(str, start) && U32(start - w) < 0x1_0000_0000
      ensures Repeats(d, pos, Distance(str, start), len) ==> Repeats(d', pos, Distance(str, start), len)
    {
      DistanceSlides(str, start, w);
      if Repeats(d, pos, Distance(str, start), len) {
        RepeatsGrow(d, d', pos, Distance(str, start), len);
      }
    }

    // What a strategy leaves behind.  `n` is how far the tokens reach.
    ghost predicate Left(bs: BlockState, flush: Flush, n: int)
      requires Objects()
      reads m`data, m`check, m`total_in, m`base, m`strstart, m`lookahead, m`hist, m`insert, m`written, m`solid
      reads m`high_water
      reads m`block_start, m`next_in
      reads m.window, m.head, m.prev, this`blocks, this`log, this`cuts, sym, sym.d_buf, sym.l_buf, out
    {
      && WindowOk() && OutputOkOrFull() && Emitted(n) && sym.HasRoom()
      && match bs {
           case NeedMore => Open() && (out.avail_out == 0 || (flush == NoFlush && m.next_in == []))
           case BlockDone => AllFlushed() && Open() && OutputOk() && flush != NoFlush && flush != Finish
           case FinishStarted => AllFlushed() && Closed() && flush == Finish && out.avail_out == 0 && out.bi_valid == 0
           case FinishDone =>
             AllFlushed() && Closed() && flush == Finish && OutputOk() && out.bi_valid == 0 && out.pending == 0
         }
    }

    // All input has been read, turned into blocks and handed to the encoder.
    ghost predicate AllFlushed()
      reads m`data, m`check, m`total_in, m`base, m`strstart, m`lookahead, m`block_start, m`next_in
    {
      m.next_in == [] && Consumed()
    }

    // Everything read is in a block.
    ghost predicate Consumed()
      reads m`data, m`base, m`strstart, m`lookahead, m`block_start
    {
      m.lookahead == 0 && Flushed() == m.At() == |m.data|
    }

    // No dictionary is kept by deflate_stored, deflate_rle and deflate_huff.
    ghost predicate NoDictionary()
      reads m`hist, m`insert
    {
      m.hist == [] && m.insert == 0
    }

    // FLUSH_BLOCK(s, 0) if the symbol buffer is full; `stop` asks for a premature exit.
    method FlushIf(bflush: bool) returns (stop: bool)
      requires Objects() && WindowOk() && OutputOk() && Emitted(m.At()) && Open()
      requires bflush || sym.HasRoom()
      modifies this`blocks, m`block_start, sym`last_lit, out
      ensures WindowOk() && Emitted(m.At()) && sym.HasRoom() && Open()
      ensures OutputOkOrFull() && (stop ==> out.avail_out == 0) && (!stop ==> OutputOk())
      ensures out.Extends(old(out.put), old(out.next_out)) && old(blocks) <= blocks
    {
      hide TracedAs, Reported, WindowAgrees;
      stop := false;
      if bflush {
        FlushBlockOnly(false);
        stop := out.avail_out == 0;
      }
    }

    // The common end of the strategies, once the lookahead is used up.
    method EndBlocks(flush: Flush) returns (bs: BlockState)
      requires Objects() && WindowOk() && OutputOk() && Emitted(m.At()) && Open()
      requires m.lookahead == 0 && m.next_in == [] && flush != NoFlush
      modifies this`blocks, m`block_start, sym`last_lit, out
      ensures Left(bs, flush, m.At())
      ensures out.Extends(old(out.put), old(out.next_out)) && old(blocks) <= blocks
      ensures flush == Finish ==> bs != NeedMore
      ensures |blocks| == |old(blocks)| + if flush == Finish || old(sym.last_lit) > 0 then 1 else 0
    {
      hide TracedAs, Reported, WindowAgrees;
      if flush == Finish {
        FlushBlockOnly(true);
        return if out.avail_out == 0 then FinishStarted else FinishDone;
      }
      if sym.last_lit != 0 {
        FlushBlockOnly(false);
        if out.avail_out == 0 {
          return NeedMore;
        }
      } else {
        NothingTallied();
      }
      return BlockDone;
    }

    lemma NothingTallied()
      requires Objects() && Emitted(m.At()) && sym.last_lit == 0
      ensures Flushed() == m.At() && sym.HasRoom()
    {
      hide Blocks, Explained, Restartable, CutsOk;
      assert sym.Tokens() == [];
      assert |m.data[..Flushed()]| == |m.data[..m.At()]|;
    }

    // Between emitting a symbol and flushing.
    ghost predicate Tallied(bflush: bool)
      requires Objects()
      reads m`data, m`check, m`total_in, m`base, m`strstart, m`lookahead, m`hist, m`insert, m`written, m`solid
      reads m`high_water
      reads m`block_start
      reads m.window, m.head, m.prev, this`blocks, this`log, this`cuts, sym, sym.d_buf, sym.l_buf, out
    {
      WindowOk() && OutputOk() && Emitted(m.At()) && Open() && (bflush || sym.HasRoom())
    }

    // strstart moves on by n bytes in the strategies that keep no dictionary.
    method Advance(n: nat)
      requires Objects() && WindowOk() && NoDictionary() && n <= m.lookahead
      modifies m`strstart, m`lookahead
      ensures WindowOk() && m.At() == old(m.At()) + n && m.lookahead == old(m.lookahead) - n
    {
      hide WindowAgrees, ChainsAgree, KeysAgree;
      m.lookahead := m.lookahead - n;
      m.strstart := m.strstart + n;
    }

    // What deflate_huff and deflate_rle, without a dictionary, know of the current byte.
    ghost function PlainSeen(): Seen
      reads this`cuts, m`base, m`strstart, m`lookahead
    {
      Seen(Horizon(cuts), m.At(), m.lookahead, {}, true)
    }

    lemma PlainSees(n: int)
      requires Objects() && Emitted(n) && Based() && (HuffMode() || RleMode())
      ensures Sees(Rules(), cuts, log, PlainSeen())
    {
      hide Reported;
      ReportedBounds(Rules(), m.data, blocks, sym.Tokens(), Flushed(), n, cuts, log);
      SinceLast(cuts, PlainSeen());
    }

    // Emit the current byte.
    method EmitLiteral() returns (bflush: bool)
      requires Objects() && LoopOk(m.At()) && NoDictionary() && 0 < m.lookahead == |m.data| - m.At()
      requires Reason(Literal(m.data[m.At()]), PlainSeen(), None)
      modifies sym`last_lit, sym.d_buf, sym.l_buf, this`log, m`strstart, m`lookahead
      ensures Tallied(bflush) && m.lookahead == old(m.lookahead) - 1
      ensures Added(old(log), log, old(m.At()), old(m.lookahead))
    {
      hide Reported, WindowAgrees, ChainsAgree, KeysAgree;
      bflush := TallyLitAt(m.strstart, PlainSeen(), None);
      Advance(1);
    }

    // Emit a run of the previous byte.
    method EmitRun(len: nat) returns (bflush: bool)
      requires Objects() && LoopOk(m.At()) && NoDictionary() && len <= m.lookahead
      requires MIN_MATCH <= len <= MAX_MATCH && Repeats(m.data, m.At(), 1, len) && Horizon(cuts) < m.At()
      requires Reason(Match(1, len), PlainSeen(), None)
      modifies sym`last_lit, sym.d_buf, sym.l_buf, this`log, m`strstart, m`lookahead
      ensures Tallied(bflush) && m.lookahead == old(m.lookahead) - len
      ensures Added(old(log), log, old(m.At()), old(m.lookahead))
    {
      hide Reported, WindowAgrees, ChainsAgree, KeysAgree, Repeats;
      bflush := TallyMatchAt(1, len, PlainSeen(), None);
      Advance(len);
    }

    lemma LoopParts(n: int)
      requires Objects() && LoopOk(n)
      ensures Emitted(n) && Based() && m.lookahead == |m.data| - m.At()
    {
      hide Reported, WindowAgrees, ChainsAgree, KeysAgree;
    }

    // A literal needs no other reason in deflate_huff.
    lemma HuffReason()
      requires Objects() && LoopOk(m.At()) && HuffMode() && m.lookahead > 0
      ensures m.lookahead == |m.data| - m.At() && Reason(Literal(m.data[m.At()]), PlainSeen(), None)
    {
      hide LoopOk, Emitted, Sees;
      LoopParts(m.At());
      PlainSees(m.At());
    }

    // One literal of deflate_huff.
    method HuffStep() returns (stop: bool)
      requires Objects() && LoopOk(m.At()) && NoDictionary() && m.lookahead > 0 && HuffMode()
      modifies this`match_length, this`blocks, sym`last_lit, sym.d_buf, sym.l_buf, this`log, out
      modifies m`strstart, m`lookahead, m`block_start
      ensures m.lookahead == old(m.lookahead) - 1
      ensures StepDone(stop)
      ensures out.Extends(old(out.put), old(out.next_out)) && old(blocks) <= blocks
    {
      hide LoopOk, Emitted, Tallied, StepDone, Reason;
      match_length := 0;
      HuffReason();
      var bflush := EmitLiteral();
      stop := FlushStep(bflush);
    }

    method FlushStep(bflush: bool) returns (stop: bool)
      requires Objects() && Tallied(bflush)
      modifies this`blocks, m`block_start, sym`last_lit, out
      ensures StepDone(stop)
      ensures out.Extends(old(out.put), old(out.next_out)) && old(blocks) <= blocks
    {
      hide WindowOk, Emitted;
      stop := FlushIf(bflush);
    }

    // After one step: back at the loop head, or leaving because the output is full.
    ghost predicate StepDone(stop: bool)
      requires Objects()
      reads m`data, m`check, m`total_in, m`base, m`strstart, m`lookahead, m`hist, m`insert, m`written, m`solid
      reads m`high_water
      reads m`block_start, m`next_in
      reads m.window, m.head, m.prev, this`blocks, this`log, this`cuts, sym, sym.d_buf, sym.l_buf, out
    {
      if stop then Left(NeedMore, NoFlush, m.At()) && out.avail_out == 0 else LoopOk(m.At())
    }

    // The loop ends with all input used up: flush what is left.
    method Finishing(flush: Flush) returns (bs: BlockState)
      requires Objects() && LoopOk(m.At()) && m.lookahead == 0 && m.next_in == [] && flush != NoFlush
      requires NoDictionary()
      modifies this`blocks, m`block_start, m`insert, sym`last_lit, out
      ensures Left(bs, flush, m.At()) && NoDictionary()
      ensures out.Extends(old(out.put), old(out.next_out)) && old(blocks) <= blocks
      ensures flush == Finish ==> bs != NeedMore
    {
      hide Reported, WindowAgrees, ChainsAgree, KeysAgree;
      m.insert := 0;
      bs := EndBlocks(flush);
    }

    lemma LeftEarly(flush: Flush)
      requires Objects()
      ensures Left(NeedMore, NoFlush, m.At()) && out.avail_out == 0 ==> Left(NeedMore, flush, m.At())
      ensures LoopOk(m.At()) && flush == NoFlush && m.next_in == [] ==> Left(NeedMore, flush, m.At())
    {
      hide Reported, WindowOk;
    }

    /** deflate_huff: literals only. */
    method DeflateHuff(flush: Flush) returns (bs: BlockState)
      requires Objects() && LoopOk(m.At()) && NoDictionary() && HuffMode()
      modifies this`match_length, this`blocks, m.window, m.head, m.prev, sym`last_lit, sym.d_buf, sym.l_buf, this`log
      modifies out
      modifies m`next_in, m`strstart, m`lookahead, m`block_start, m`match_start, m`ins_h, m`insert
      modifies m`data, m`check, m`total_in, m`base, m`hist, m`written, m`solid, m`high_water
      ensures NoDictionary() && Left(bs, flush, m.At())
      ensures m.Taken(old(m.data), old(m.next_in))
      ensures out.Extends(old(out.put), old(out.next_out)) && old(blocks) <= blocks
      ensures flush == Finish && bs == NeedMore ==> m.Unread() < old(m.Unread())
    {
      hide LoopOk, Left, GoodMatch, KeyReadyHere, MatchFinder.Early, MatchFinder.Initialised, MatchFinder.LeavesGap,
        SolidNext, HighWater;
      while true
        invariant LoopOk(m.At()) && NoDictionary()
        invariant m.Taken(old(m.data), old(m.next_in))
        invariant m.Unread() <= old(m.Unread())
        invariant out.Extends(old(out.put), old(out.next_out)) && old(blocks) <= blocks
        decreases |m.next_in| + m.lookahead
      {
        if m.lookahead == 0 {
          Fill(m.At(), 0, seen);
          if m.lookahead == 0 {
            LeftEarly(flush);
            if flush == NoFlush {
              return NeedMore;
            }
            break;
          }
        }
        var stop := HuffStep();
        if stop {
          LeftEarly(flush);
          return NeedMore;
        }
      }
      bs := Finishing(flush);
    }

    // The scan of deflate_rle, which pays no attention to the lookahead.
    method ScanRun() returns (len: nat)
      requires 0 < m.strstart && m.strstart + MAX_MATCH < m.window.Length
      ensures len == 0 || MIN_MATCH <= len <= MAX_MATCH
      ensures Agree(m.window[..], m.strstart - 1, m.strstart, len)
      ensures len < MAX_MATCH ==>
        !Agree(m.window[..], m.strstart - 1, m.strstart, if len == 0 then MIN_MATCH else len + 1)
    {
      hide Agree;
      ghost var win := m.window[..];
      var scan := m.strstart - 1;
      var strend := m.strstart + MAX_MATCH;
      var prev := m.window[scan];
      RunAgrees(win, m.strstart, 0);
      if m.window[scan + 1] != prev || m.window[scan + 2] != prev || m.window[scan + 3] != prev {
        RunEnds(win, m.strstart, MIN_MATCH,
                if win[scan + 1] != prev then 0 else if win[scan + 2] != prev then 1 else 2);
        return 0;
      }
      scan := scan + 3;
      var equal := true;
      while equal && scan < strend
        invariant m.strstart + 2 <= scan <= strend
        invariant Run(win, m.strstart, scan)
        invariant equal <==> win[scan] == prev
        invariant equal || scan >= m.strstart + MIN_MATCH
        decreases strend - scan
      {
        scan := scan + 1;
        equal := m.window[scan] == prev;
      }
      len := MAX_MATCH - (strend - scan);
      RunAgrees(win, m.strstart, len);
      if len < MAX_MATCH {
        RunEnds(win, m.strstart, len + 1, len);
      }
    }

    /** How often the byte before strstart repeats: 0 or MIN_MATCH..MAX_MATCH, never
        beyond the lookahead, and as long as possible. */
    method RunLength() returns (len: nat)
      requires Objects() && m.DataOk() && m.Synced()
      requires m.lookahead >= MIN_MATCH && m.strstart > 0 && m.strstart + MAX_MATCH < 2 * m.w_size
      ensures len == 0 || MIN_MATCH <= len <= MAX_MATCH
      ensures len <= m.lookahead
      ensures len > 0 ==> Repeats(m.data, m.At(), 1, len)
      ensures len < MAX_MATCH && len < m.lookahead ==>
        !Repeats(m.data, m.At(), 1, if len == 0 then MIN_MATCH else len + 1)
    {
      hide WindowAgrees, Repeats, Agree;
      ghost var win := m.window[..];
      len := ScanRun();
      if len > m.lookahead {
        AgreeMono(win, m.strstart - 1, m.strstart, m.lookahead, len);
        len := m.lookahead;
      }
      AgreeRepeats(win, m.data, m.base, m.strstart + m.lookahead, m.strstart - 1, m.strstart, len);
      ghost var next := if len == 0 then MIN_MATCH else len + 1;
      if len < MAX_MATCH && len < m.lookahead {
        AgreeRepeats(win, m.data, m.base, m.strstart + m.lookahead, m.strstart - 1, m.strstart, next);
      }
    }

    // Emit a run or a literal.
    method RleStep() returns (stop: bool)
      requires Objects() && LoopOk(m.At()) && NoDictionary() && m.lookahead > 0 && RleMode()
      requires m.strstart + MAX_MATCH < 2 * m.w_size
      modifies this`match_length, this`blocks, sym`last_lit, sym.d_buf, sym.l_buf, this`log, out
      modifies m`strstart, m`lookahead, m`block_start
      ensures m.lookahead < old(m.lookahead)
      ensures StepDone(stop) && Added(old(log), log, old(m.At()), old(m.lookahead))
      ensures out.Extends(old(out.put), old(out.next_out)) && old(blocks) <= blocks
    {
      hide LoopOk, Emitted, Tallied, StepDone, Repeats, Reason;
      FindRun();
      LoopParts(m.At());
      RunReason();
      var bflush;
      if match_length >= MIN_MATCH {
        bflush := EmitRun(match_length);
        match_length := 0;
      } else {
        bflush := EmitLiteral();
      }
      stop := FlushStep(bflush);
    }

    // What is tallied next: the run that has been found, or the current byte.
    ghost predicate RunFound()
      reads this`match_length, this`cuts, m`data, m`base, m`strstart, m`lookahead
    {
      if match_length >= MIN_MATCH then
        && match_length <= MAX_MATCH && match_length <= m.lookahead && Horizon(cuts) < m.At()
        && Repeats(m.data, m.At(), 1, match_length)
        && (match_length < Min(m.lookahead, MAX_MATCH) ==> !Repeats(m.data, m.At(), 1, match_length + 1))
      else
        Horizon(cuts) < m.At() && m.lookahead >= MIN_MATCH ==> !Repeats(m.data, m.At(), 1, MIN_MATCH)
    }

    // The same, with enough bytes ahead.
    method AmpleRleStep(ghost from: nat, ghost total: nat, ghost flushing: bool) returns (stop: bool)
      requires Objects() && LoopOk(m.At()) && NoDictionary() && m.lookahead > 0 && RleMode()
      requires m.strstart + MAX_MATCH < 2 * m.w_size
      requires Ample(log, from, MAX_MATCH + 1, total, flushing)
      requires m.lookahead > MAX_MATCH || (flushing && |m.data| == total)
      modifies this`match_length, this`blocks, sym`last_lit, sym.d_buf, sym.l_buf, this`log, out
      modifies m`strstart, m`lookahead, m`block_start
      ensures m.lookahead < old(m.lookahead)
      ensures StepDone(stop) && Ample(log, from, MAX_MATCH + 1, total, flushing)
      ensures out.Extends(old(out.put), old(out.next_out)) && old(blocks) <= blocks
    {
      hide LoopOk, StepDone, Ample, Added;
      LoopParts(m.At());
      ghost var log0, p, ahead := log, m.At(), m.lookahead;
      stop := RleStep();
      AmpleMore(log0, log, p, ahead, from, MAX_MATCH + 1, total, flushing);
    }

    // The run at strstart, if there can be one.
    method FindRun()
      requires Objects() && LoopOk(m.At()) && m.strstart + MAX_MATCH < 2 * m.w_size
      modifies this`match_length
      ensures RunFound()
    {
      hide Emitted, WindowAgrees, ChainsAgree, KeysAgree, Repeats;
      match_length := 0;
      if m.lookahead >= MIN_MATCH && m.strstart > 0 {
        match_length := RunLength();
      }
    }

    lemma RunReason()
      requires Objects() && LoopOk(m.At()) && RleMode() && RunFound() && m.lookahead > 0
      ensures m.lookahead == |m.data| - m.At()
      ensures if match_length >= MIN_MATCH then Reason(Match(1, match_length), PlainSeen(), None)
              else Reason(Literal(m.data[m.At()]), PlainSeen(), None)
    {
      hide LoopOk, Emitted, Sees, Repeats;
      LoopParts(m.At());
      PlainSees(m.At());
    }

    // Make sure of enough lookahead, except at the end of the input.
    method RleFill()
      requires Objects() && LoopOk(m.At()) && NoDictionary()
      modifies m.window, m.head, m.prev
      modifies m`next_in, m`strstart, m`lookahead, m`block_start, m`match_start, m`ins_h, m`insert
      modifies m`data, m`check, m`total_in, m`base, m`hist, m`written, m`solid, m`high_water
      ensures LoopOk(m.At()) && NoDictionary()
      ensures m.Taken(old(m.data), old(m.next_in))
      ensures |m.next_in| + m.lookahead == old(|m.next_in| + m.lookahead)
      ensures m.strstart + MAX_MATCH < 2 * m.w_size
      ensures m.lookahead > MAX_MATCH || m.next_in == []
    {
      hide LoopOk, GoodMatch, KeyReadyHere, MatchFinder.Early, MatchFinder.Initialised, MatchFinder.LeavesGap,
        SolidNext, HighWater;
      if m.lookahead <= MAX_MATCH {
        Fill(m.At(), 0, seen);
      } else {
        RoomToScan();
      }
    }

    /** deflate_rle: runs of the previous byte.  Nothing is chosen with MAX_MATCH bytes ahead
        or less, unless flushing. */
    method DeflateRle(flush: Flush) returns (bs: BlockState)
      requires Objects() && LoopOk(m.At()) && NoDictionary() && RleMode()
      modifies this`match_length, this`blocks, m.window, m.head, m.prev, sym`last_lit, sym.d_buf, sym.l_buf, this`log
      modifies out
      modifies m`next_in, m`strstart, m`lookahead, m`block_start, m`match_start, m`ins_h, m`insert
      modifies m`data, m`check, m`total_in, m`base, m`hist, m`written, m`solid, m`high_water
      ensures NoDictionary() && Left(bs, flush, m.At())
      ensures m.Taken(old(m.data), old(m.next_in))
      ensures out.Extends(old(out.put), old(out.next_out)) && old(blocks) <= blocks
      ensures Ample(log, |old(log)|, MAX_MATCH + 1, old(|m.data| + |m.next_in|), flush != NoFlush)
      ensures flush == Finish && bs == NeedMore ==> m.Unread() < old(m.Unread())
    {
      hide Objects, LoopOk, Left, Ample;
      ghost var total := |m.data| + |m.next_in|;
      AmpleNone(log, MAX_MATCH + 1, total, flush != NoFlush);
      while true
        invariant LoopOk(m.At()) && NoDictionary()
        invariant m.Taken(old(m.data), old(m.next_in))
        invariant m.Unread() <= old(m.Unread())
        invariant out.Extends(old(out.put), old(out.next_out)) && old(blocks) <= blocks
        invariant Ample(log, |old(log)|, MAX_MATCH + 1, total, flush != NoFlush)
        decreases |m.next_in| + m.lookahead
      {
        RleFill();
        LeftEarly(flush);
        if m.lookahead <= MAX_MATCH && flush == NoFlush {
          return NeedMore;
        }
        if m.lookahead == 0 {
          break;
        }
        m.TakenTotal(old(m.data), old(m.next_in));
        var stop := AmpleRleStep(|old(log)|, total, flush != NoFlush);
        if stop {
          LeftEarly(flush);
          return NeedMore;
        }
      }
      bs := Finishing(flush);
    }

    lemma RoomToScan()
      requires Objects() && LoopOk(m.At()) && m.lookahead > MAX_MATCH
      ensures m.strstart + MAX_MATCH < 2 * m.w_size
    {
      hide WindowAgrees, ChainsAgree, KeysAgree, Reported;
    }

    // Stored blocks are limited to 0xffff bytes and to what pending_buf can hold
    // besides the 5-byte header; pending_buf_size is 4 * lit_bufsize.
    function MaxBlock(): (r: int)
      ensures r <= 0xffff && r + 5 <= 4 * sym.lit_bufsize && (r == 0xffff || r + 5 == 4 * sym.lit_bufsize)
    {
      if 0xffff > 4 * sym.lit_bufsize - 5 then 4 * sym.lit_bufsize - 5 else 0xffff
    }

    ghost predicate SmallBlocks()
      reads this`blocks
    {
      forall i :: 0 <= i < |blocks| ==> blocks[i].storedLen <= MaxBlock()
    }

    // The unflushed bytes are still in the window and fit into one block.
    ghost predicate StoredOk()
      requires Objects()
      reads m`data, m`check, m`total_in, m`base, m`strstart, m`lookahead, m`hist, m`insert, m`written, m`solid
      reads m`high_water
      reads m`block_start
      reads m.window, m.head, m.prev, this`blocks, this`log, this`cuts, sym, sym.d_buf, sym.l_buf
    {
      && StoredMode() && NoDictionary()
      && WindowOk() && Emitted(Flushed()) && sym.last_lit == 0 && Open() && SmallBlocks()
      && 0 <= m.block_start <= m.strstart
    }

    ghost predicate Short()
      requires Objects()
      reads m`strstart, m`block_start
    {
      m.strstart - m.block_start < MaxDist() && m.strstart - m.block_start < MaxBlock()
    }

    method FlushStored(last: bool)
      requires Objects() && StoredOk() && OutputOk() && m.strstart - m.block_start <= MaxBlock()
      modifies this`blocks, m`block_start, sym`last_lit, out
      ensures WindowOk() && Emitted(Flushed()) && sym.last_lit == 0 && SmallBlocks()
      ensures m.block_start == m.strstart && (if last then Closed() && out.bi_valid == 0 else Open())
      ensures |blocks| == |old(blocks)| + 1
      ensures OutputOkOrFull() && (out.pending == 0 || out.avail_out == 0)
      ensures out.Extends(old(out.put), old(out.next_out)) && old(blocks) <= blocks
    {
      hide TracedAs, Reported, WindowAgrees, ChainsAgree, KeysAgree;
      FlushBlockOnly(last);
    }

    // Take over all of the lookahead, up to a full block.
    method StoredStep() returns (stop: bool)
      requires Objects() && StoredOk() && Short() && OutputOk() && m.lookahead > 0
      modifies this`blocks, m`block_start, m`strstart, m`lookahead, sym`last_lit, out
      ensures StoredOk() && Short() && m.lookahead < old(m.lookahead)
      ensures OutputOkOrFull() && (stop ==> out.avail_out == 0) && (!stop ==> OutputOk())
      ensures out.Extends(old(out.put), old(out.next_out)) && old(blocks) <= blocks
    {
      hide StoredOk, OutputOk, OutputOkOrFull;
      var fullBlock := TakeOver();
      if fullBlock {
        stop := FlushFull();
        if stop {
          return;
        }
      }
      if m.strstart - m.block_start >= MaxDist() {
        stop := FlushFull();
        return;
      }
      OutputParts();
      return false;
    }

    // strstart moves to the end of the lookahead, or to the end of a full block.
    method TakeOver() returns (fullBlock: bool)
      requires Objects() && StoredOk() && Short() && m.lookahead > 0
      modifies m`strstart, m`lookahead
      ensures StoredOk() && m.lookahead < old(m.lookahead) && m.strstart - m.block_start <= MaxBlock()
      ensures !fullBlock ==> m.strstart - m.block_start < MaxBlock()
    {
      hide WindowAgrees, ChainsAgree, KeysAgree, Emitted, SmallBlocks;
      m.strstart := m.strstart + m.lookahead;
      m.lookahead := 0;
      var max_start := m.block_start + MaxBlock();
      fullBlock := m.strstart >= max_start;
      if fullBlock {
        m.lookahead := m.strstart - max_start;
        m.strstart := max_start;
      }
    }

    // FLUSH_BLOCK(s, 0)
    method FlushFull() returns (stop: bool)
      requires Objects() && StoredOk() && OutputOk() && m.strstart - m.block_start <= MaxBlock()
      modifies this`blocks, m`block_start, sym`last_lit, out
      ensures StoredOk() && Short()
      ensures OutputOkOrFull() && (stop ==> out.avail_out == 0) && (!stop ==> OutputOk())
      ensures out.Extends(old(out.put), old(out.next_out)) && old(blocks) <= blocks
    {
      hide WindowOk, Emitted, SmallBlocks;
      FlushStored(false);
      stop := out.avail_out == 0;
    }

    // fill_window never slides bytes away that have not been flushed.
    method FillStored()
      requires Objects() && StoredOk() && Short() && OutputOk() && m.lookahead <= 1
      modifies m.window, m.head, m.prev
      modifies m`next_in, m`strstart, m`lookahead, m`block_start, m`match_start, m`ins_h, m`insert
      modifies m`data, m`check, m`total_in, m`base, m`hist, m`written, m`solid, m`high_water
      ensures StoredOk() && Short() && OutputOk() && OutputOkOrFull()
      ensures m.Taken(old(m.data), old(m.next_in))
      ensures |m.next_in| + m.lookahead == old(|m.next_in| + m.lookahead)
      ensures m.lookahead >= MIN_LOOKAHEAD || m.next_in == []
    {
      hide Reported, WindowAgrees, ChainsAgree, KeysAgree, Emitted, GoodMatch, KeyReadyHere;
      Fill(Flushed(), 0, seen);
    }

    /** deflate_stored: blocks of at most MaxBlock() bytes, straight from the window. */
    method DeflateStored(flush: Flush) returns (bs: BlockState)
      requires Objects() && StoredOk() && Short() && OutputOk()
      modifies this`blocks, m.window, m.head, m.prev, sym`last_lit, out
      modifies m`next_in, m`strstart, m`lookahead, m`block_start, m`match_start, m`ins_h, m`insert
      modifies m`data, m`check, m`total_in, m`base, m`hist, m`written, m`solid, m`high_water
      ensures Left(bs, flush, Flushed()) && SmallBlocks() && NoDictionary() && sym.last_lit == 0
      ensures m.block_start >= 0 && (bs.NeedMore? ==> StoredOk() && Short())
      ensures m.Taken(old(m.data), old(m.next_in))
      ensures out.Extends(old(out.put), old(out.next_out)) && old(blocks) <= blocks
      ensures flush == Finish && bs == NeedMore ==> m.Unread() < old(m.Unread())
    {
      hide StoredOk, Short, Left, OutputOk, OutputOkOrFull, Emitted;
      while true
        invariant StoredOk() && Short() && OutputOk()
        invariant m.Taken(old(m.data), old(m.next_in))
        invariant m.Unread() <= old(m.Unread())
        invariant out.Extends(old(out.put), old(out.next_out)) && old(blocks) <= blocks
        decreases |m.next_in| + m.lookahead
      {
        if m.lookahead <= 1 {
          FillStored();
          if m.lookahead == 0 && flush == NoFlush {
            StoredLeft(flush);
            return NeedMore;
          }
          if m.lookahead == 0 {
            break;
          }
        }
        var stop := StoredStep();
        if stop {
          StoredLeft(flush);
          return NeedMore;
        }
      }
      bs := EndStored(flush);
    }

    lemma StoredLeft(flush: Flush)
      requires Objects() && StoredOk() && OutputOkOrFull()
      requires out.avail_out == 0 || (flush == NoFlush && m.next_in == [])
      ensures Left(NeedMore, flush, Flushed()) && SmallBlocks() && NoDictionary() && m.block_start >= 0
      ensures sym.last_lit == 0
    {
      hide Reported, WindowOk;
    }

    method EndStored(flush: Flush) returns (bs: BlockState)
      requires Objects() && StoredOk() && Short() && OutputOk()
      requires m.lookahead == 0 && m.next_in == [] && flush != NoFlush
      modifies this`blocks, m`block_start, m`insert, sym`last_lit, out
      ensures Left(bs, flush, Flushed()) && SmallBlocks() && NoDictionary() && sym.last_lit == 0
      ensures m.block_start >= 0 && (bs.NeedMore? ==> StoredOk() && Short())
      ensures out.Extends(old(out.put), old(out.next_out)) && old(blocks) <= blocks
      ensures flush == Finish ==> bs != NeedMore
      ensures |blocks| == |old(blocks)| + if flush == Finish || m.strstart > old(m.block_start) then 1 else 0
    {
      hide TracedAs, Reported, WindowAgrees, ChainsAgree, KeysAgree, Emitted;
      m.insert := 0;
      if flush == Finish {
        FlushStored(true);
        return if out.avail_out == 0 then FinishStarted else FinishDone;
      }
      if m.strstart > m.block_start {
        FlushStored(false);
        if out.avail_out == 0 {
          return NeedMore;
        }
      }
      return BlockDone;
    }

    // Strings up to and including absolute position p - 1 may be in the dictionary,
    // and the rolling key is ready for p.
    ghost predicate DictUpTo(p: nat)
      requires Objects()
      reads m`ins_h, m`data, m`base, m`hist, m.window, m.head, m.prev
    {
      m.DataOk() && m.DictOk() && m.Before(p) && KeyReady(m.hash_bits, m.ins_h, m.data, p)
    }

    // One more string joins the dictionary.
    method InsertAt(str: nat)
      requires Objects() && DictUpTo(m.base + str) && m.base + str + 2 < |m.data|
      modifies m`ins_h, m`hist, m.head, m.prev
      ensures DictUpTo(m.base + str + 1) && Grown(old(m.hist), m.hist, m.base + str, 1)
    {
      hide MatchFinder.DataOk, MatchFinder.DictOk, KeyReady, Link, Key3, Pow2;
      var _ := m.InsertString(str);
    }

    // A string without a third byte is passed over.
    lemma DictFurther(p: nat)
      requires Objects() && DictUpTo(p) && p + 3 >= |m.data|
      ensures DictUpTo(p + 1)
    {
      hide MatchFinder.DataOk, MatchFinder.DictOk;
      IncompleteReady(m.hash_bits, m.ins_h, m.data, p + 1);
    }

    // The dictionary holds every string that has joined since the last cut.
    ghost predicate Recalls()
      requires Objects()
      reads this`log, this`cuts, m`hist
    {
      Recalled(Rules(), log, Horizon(cuts), m.Positions())
    }

    // What a search at the current string has before it.
    ghost function Here(): Seen
      reads this`cuts, m`hist, m`strstart, m`base, m`lookahead, m`prev_length
    {
      m.Here(Horizon(cuts))
    }

    // A search sees everything within reach.
    lemma SeesHere(n: int)
      requires Objects() && Inserted() && Recalls() && Emitted(n)
      ensures Sees(Rules(), cuts, log, Here()) && Within(m.data, Here()) && Here().pos == m.At()
      ensures Here().ahead == m.lookahead
    {
      hide MatchFinder.DataOk, MatchFinder.DictOk, KeyReady, Reported, Recalled, MatchFinder.WrittenOk;
      ReportedBounds(Rules(), m.data, blocks, sym.Tokens(), Flushed(), n, cuts, log);
      m.FewCandidates(Horizon(cuts));
      RecalledSees(Rules(), cuts, log, Here(), m.Positions());
    }

    // The head of the loop of deflate_fast.
    ghost predicate FastOk()
      requires Objects()
      reads m`data, m`check, m`total_in, m`base, m`strstart, m`lookahead, m`hist, m`insert, m`written, m`solid
      reads m`high_water
      reads m`block_start
      reads m`ins_h, m`prev_length
      reads m.window, m.head, m.prev, this`blocks, this`log, this`cuts, this`match_length, sym, sym.d_buf, sym.l_buf
    {
      && WindowOk() && Emitted(m.At()) && sym.HasRoom() && Open()
      && KeyReadyHere() && match_length < MIN_MATCH && m.prev_length == MIN_MATCH - 1
      && Recalls()
    }

    // What the window looks like between inserting the current string and moving on.
    ghost predicate Inserted()
      requires Objects()
      reads m`ins_h, m`data, m`check, m`total_in, m`base, m`strstart, m`lookahead, m`hist, m`insert, m`written
      reads m`solid, m`high_water, m.window, m.head, m.prev, this`cuts
    {
      && DictUpTo(m.At() + 1) && m.CheckOk() && m.Synced() && m.InsertOk() && m.Before(m.At() + 1 - m.insert)
      && m.WrittenOk() && Based()
    }

    // A search may start from hash_head, or there is nothing to be found.
    ghost predicate Headed(hash_head: nat)
      reads m`data, m`base, m`strstart, m`lookahead, m`hist
    {
      && (hash_head < m.strstart || hash_head == 0)
      && (hash_head > 0 && m.strstart - hash_head <= m.MaxDist() ==> m.SearchReady(hash_head))
      && (m.lookahead >= MIN_MATCH && (hash_head == 0 || m.strstart - hash_head > m.MaxDist()) ==>
            m.Longest(MIN_MATCH - 1))
    }

    /** Insert the string at strstart if it is complete, and return the head of its
        hash chain if a search from there may start. */
    method InsertCurrent() returns (hash_head: nat)
      requires Objects() && WindowOk() && KeyReadyHere()
      requires m.strstart + MIN_LOOKAHEAD <= 2 * m.w_size
      modifies m`ins_h, m`hist, m.head, m.prev
      ensures Inserted() && Headed(hash_head)
      ensures m.lookahead >= MIN_MATCH ==> m.insert == 0
      ensures Grown(old(m.hist), m.hist, m.At(), if m.lookahead >= MIN_MATCH then 1 else 0)
    {
      hide MatchFinder.DataOk, MatchFinder.DictOk, KeyReady, MatchFinder.CheckOk, MatchFinder.WrittenOk, Based, Headed;
      if m.lookahead >= MIN_MATCH {
        hash_head := InsertComplete();
      } else {
        hash_head := 0;
        IncompleteReady(m.hash_bits, m.ins_h, m.data, m.At() + 1);
        NoneHeaded();
      }
    }

    lemma NoneHeaded()
      requires m.lookahead < MIN_MATCH
      ensures Headed(0)
    {
    }

    method InsertComplete() returns (hash_head: nat)
      requires Objects() && m.DataOk() && m.DictOk() && m.Synced() && m.Before(m.At()) && KeyReadyHere()
      requires m.lookahead >= MIN_MATCH && m.strstart + MIN_LOOKAHEAD <= 2 * m.w_size
      modifies m`ins_h, m`hist, m.head, m.prev
      ensures DictUpTo(m.At() + 1) && Headed(hash_head) && Grown(old(m.hist), m.hist, m.At(), 1)
    {
      hide MatchFinder.DataOk, MatchFinder.DictOk, KeyReady, Link, Key3, Pow2, MatchFinder.Longest;
      hash_head := m.InsertString(m.strstart);
      if hash_head == 0 || m.strstart - hash_head > m.MaxDist() {
        m.NothingInReach(hash_head);
      }
    }

    // Leaving the strategies that keep a dictionary: the last two strings wait.
    method FinishingHashed(flush: Flush) returns (bs: BlockState)
      requires Objects() && WindowOk() && OutputOk() && Emitted(m.At()) && Open()
      requires m.lookahead == 0 && m.next_in == [] && flush != NoFlush
      modifies this`blocks, m`block_start, m`insert, sym`last_lit, out
      ensures Left(bs, flush, m.At()) && m.insert == Min(m.strstart, MIN_MATCH - 1)
      ensures out.Extends(old(out.put), old(out.next_out)) && old(blocks) <= blocks
      ensures flush == Finish ==> bs != NeedMore
    {
      hide Reported, WindowAgrees, ChainsAgree;
      m.insert := if m.strstart < MIN_MATCH - 1 then m.strstart else MIN_MATCH - 1;
      assert m.Before(m.At() - m.insert) by {
        if m.hist != [] {
          assert m.hist[|m.hist| - 1].pos + 2 < |m.data|;
        }
      }
      bs := EndBlocks(flush);
    }

    /** Move over a match of `len` bytes, inserting all of its strings. */
    method InsertAll(len: nat)
      requires Objects() && DictUpTo(m.At() + 1)
      requires MIN_MATCH <= len && m.At() + len + 2 < |m.data|
      modifies m`strstart, m`ins_h, m`hist, m.head, m.prev
      ensures m.strstart == old(m.strstart) + len && DictUpTo(m.At())
      ensures Grown(old(m.hist), m.hist, old(m.At()) + 1, len - 1)
    {
      hide DictUpTo;
      var match_length := len - 1;
      while match_length != 0
        invariant match_length >= 0 && m.strstart + match_length == old(m.strstart) + len - 1
        invariant Grown(old(m.hist), m.hist, old(m.At()) + 1, m.strstart - old(m.strstart))
        invariant DictUpTo(m.At() + 1)
        decreases match_length
      {
        m.strstart := m.strstart + 1;
        InsertAt(m.strstart);
        match_length := match_length - 1;
      }
      m.strstart := m.strstart + 1;
    }

    /** Move over a match of `len` bytes without inserting its strings: the rolling
        key restarts behind it. */
    method SkipAll(len: nat)
      requires Objects() && DictUpTo(m.At() + 1)
      requires 1 <= len && m.At() + len <= |m.data| && m.strstart + len + 1 < 2 * m.w_size
      modifies m`strstart, m`ins_h
      ensures m.strstart == old(m.strstart) + len && DictUpTo(m.At())
    {
      hide WindowAgrees, ChainsAgree, KeysAgree, Key3;
      m.strstart := m.strstart + len;
      m.ins_h := m.window[m.strstart];
      m.ins_h := Update(m.hash_bits, m.ins_h, m.window[m.strstart + 1]);
      if m.At() + 2 < |m.data| {
        m.RestartReady(m.strstart);
      }
    }

    // Move over a match of the current string.
    method MoveOver(len: nat)
      requires Objects() && Inserted() && m.insert == 0
      requires MIN_MATCH <= len <= MAX_MATCH && len <= m.lookahead
      requires m.strstart + MIN_LOOKAHEAD <= 2 * m.w_size
      modifies m`strstart, m`lookahead, m`ins_h, m`hist, m.head, m.prev
      ensures WindowOk() && KeyReadyHere()
      ensures m.At() == old(m.At()) + len && m.lookahead == old(m.lookahead) - len
      ensures Grown(old(m.hist), m.hist, old(m.At()) + 1,
                    if len <= m.cfg.max_lazy && m.lookahead >= MIN_MATCH then len - 1 else 0)
    {
      hide WindowAgrees, ChainsAgree, KeysAgree, Ready, Key3, Pow2;
      m.lookahead := m.lookahead - len;
      if len <= m.cfg.max_lazy && m.lookahead >= MIN_MATCH {
        InsertAll(len);
      } else {
        SkipAll(len);
      }
    }

    // The current string has been looked for: a match, or a byte that matches nothing.
    ghost predicate FastFound()
      requires Objects()
      reads m`data, m`base, m`strstart, m`lookahead, m`hist, m`insert, m`match_start, m`prev_length
      reads this`match_length, this`log, this`cuts
    {
      && Recalls() && (m.lookahead >= MIN_MATCH ==> m.At() in m.Positions())
      && if match_length >= MIN_MATCH then
           && m.MatchOk(match_length) && m.insert == 0 && m.match_start < m.strstart
           && Chosen(Rules(), m.data, Here(), m.strstart - m.match_start, match_length)
         else Best(Rules(), m.data, Here(), MIN_MATCH - 1)
    }

    lemma FastReason()
      requires Objects() && Inserted() && Emitted(m.At()) && FastFound() && FastMode() && m.lookahead > 0
      ensures m.lookahead == |m.data| - m.At() && Here().pos == m.At()
      ensures if match_length >= MIN_MATCH then Reason(Match(m.strstart - m.match_start, match_length), Here(), None)
              else Reason(Literal(m.data[m.At()]), Here(), None)
    {
      hide Emitted, DictUpTo, Sees, Chosen, Best, Recalls;
      SeesHere(m.At());
    }

    // The log has one more choice, and the dictionary what has joined with it.
    lemma FastRecalls(log0: seq<Choice>, c: Choice, hist0: seq<Entry>, n: int)
      requires Objects() && Recalled(Rules(), log0, Horizon(cuts), PositionsOf(hist0)) && log == log0 + [c]
      requires FastMode() && (c.at.ahead >= MIN_MATCH ==> c.at.pos in PositionsOf(hist0))
      requires Grown(hist0, m.hist, c.at.pos + 1, n)
      requires c.token.Match? && c.token.len <= m.cfg.max_lazy && c.token.len + MIN_MATCH <= c.at.ahead ==>
                 n == c.token.len - 1
      ensures Recalls()
    {
      hide Recalled;
      GrownPositions(hist0, m.hist, c.at.pos + 1, n);
      RecallMore(Rules(), log0, c, Horizon(cuts), PositionsOf(hist0), m.Positions());
    }

    // Emit the match found for the current string and move over it.
    method FastMatch() returns (bflush: bool)
      requires Objects() && Inserted() && Emitted(m.At()) && sym.HasRoom() && FastMode()
      requires m.prev_length == MIN_MATCH - 1 && MIN_MATCH <= match_length && FastFound()
      requires m.strstart + MIN_LOOKAHEAD <= 2 * m.w_size
      modifies this`match_length, sym`last_lit, sym.d_buf, sym.l_buf, this`log
      modifies m`strstart, m`lookahead, m`ins_h, m`hist, m.head, m.prev
      ensures WindowOk() && KeyReadyHere() && Emitted(m.At()) && match_length == 0 && Recalls()
      ensures m.lookahead < old(m.lookahead) && Added(old(log), log, old(m.At()), old(m.lookahead))
      ensures bflush || sym.HasRoom()
    {
      hide Reported, Inserted, Repeats, WindowOk, KeyReadyHere, Reason, Recalled, Chosen, Grown;
      FastReason();
      BasedHere();
      ghost var s, log0 := Here(), log;
      bflush := TallyMatchAt(m.strstart - m.match_start, match_length, s, None);
      MoveOver(match_length);
      FastRecalls(log0, Choice(Match(old(m.strstart - m.match_start), match_length), s, None), old(m.hist),
                  if match_length <= m.cfg.max_lazy && m.lookahead >= MIN_MATCH then match_length - 1 else 0);
      match_length := 0;
    }

    lemma BasedHere()
      requires Objects() && Inserted()
      ensures Horizon(cuts) <= m.base && m.lookahead == |m.data| - m.At()
    {
      hide DictUpTo;
    }

    // Move on by one byte after the current string has been inserted.
    method StepOn()
      requires Objects() && Inserted() && m.lookahead > 0
      modifies m`strstart, m`lookahead
      ensures WindowOk() && KeyReadyHere()
      ensures m.strstart == old(m.strstart) + 1 && m.lookahead == old(m.lookahead) - 1
    {
      hide MatchFinder.DataOk, MatchFinder.DictOk, KeyReady;
      m.lookahead := m.lookahead - 1;
      m.strstart := m.strstart + 1;
    }

    // Emit the current byte after its string has been inserted.
    method FastLiteral() returns (bflush: bool)
      requires Objects() && Inserted() && Emitted(m.At()) && sym.HasRoom() && m.lookahead > 0 && FastMode()
      requires match_length < MIN_MATCH && FastFound()
      modifies sym`last_lit, sym.d_buf, sym.l_buf, this`log, m`strstart, m`lookahead
      ensures WindowOk() && KeyReadyHere() && Emitted(m.At()) && Recalls()
      ensures m.lookahead < old(m.lookahead) && Added(old(log), log, old(m.At()), old(m.lookahead))
      ensures bflush || sym.HasRoom()
    {
      hide Reported, WindowAgrees, ChainsAgree, KeysAgree, WindowOk, KeyReadyHere, Reason, Recalled, Best;
      FastReason();
      ghost var s, log0 := Here(), log;
      bflush := TallyLitAt(m.strstart, s, None);
      FastRecalls(log0, Choice(Literal(m.data[m.At()]), s, None), m.hist, 0);
      StepOn();
    }

    // Find a match for the current string, if there is one.
    method FastSearch()
      requires Objects() && FastOk() && FastMode()
      requires m.strstart + MIN_LOOKAHEAD <= 2 * m.w_size
      modifies this`match_length, m`match_start, m`ins_h, m`hist, m.head, m.prev
      ensures Inserted() && Emitted(m.At()) && FastFound()
      ensures Grown(old(m.hist), m.hist, m.At(), if m.lookahead >= MIN_MATCH then 1 else 0)
    {
      hide Emitted, Inserted, MatchFinder.Longest, MatchFinder.SearchReady, Best, Chosen, Recalled, Grown, WindowOk,
        MatchFinder.MatchOk;
      var hash_head := InsertCurrent();
      if hash_head != 0 && m.strstart - hash_head <= m.MaxDist() {
        FastLongest(hash_head);
      } else {
        NotFoundHere();
      }
      GrownPositions(old(m.hist), m.hist, m.At(), if m.lookahead >= MIN_MATCH then 1 else 0);
      RecallStays(old(m.Positions()));
    }

    // What longest_match promises, in terms of what there was to be seen.
    lemma FoundHere(r: nat)
      requires Objects() && m.hist != [] && m.MatchOk(r)
      requires m.ChainLength() <= m.Budget() && r < Min(m.cfg.nice_match, Min(m.lookahead, MAX_MATCH)) ==> m.Longest(r)
      requires r > m.prev_length ==> m.Nearest(r)
      ensures Best(Rules(), m.data, Here(), r)
      ensures r > m.prev_length ==> Chosen(Rules(), m.data, Here(), m.strstart - m.match_start, r)
    {
      hide NoneRepeats, Repeats, MatchFinder.ChainLength, MatchFinder.Budget, MatchFinder.Reach;
    }

    lemma NotFoundHere()
      requires Objects() && (m.lookahead >= MIN_MATCH ==> m.Longest(MIN_MATCH - 1))
      ensures Best(Rules(), m.data, Here(), MIN_MATCH - 1)
    {
      hide NoneRepeats, MatchFinder.ChainLength, MatchFinder.Budget, MatchFinder.Reach;
    }

    // There is something to look for.
    method FastLongest(hash_head: nat)
      requires Objects() && Inserted() && m.SearchReady(hash_head) && FastMode() && m.prev_length == MIN_MATCH - 1
      modifies this`match_length, m`match_start
      ensures m.MatchOk(match_length) && Best(Rules(), m.data, Here(), match_length)
      ensures match_length >= MIN_MATCH ==> Chosen(Rules(), m.data, Here(), m.strstart - m.match_start, match_length)
      ensures MIN_MATCH - 1 <= match_length && (match_length >= MIN_MATCH ==> m.match_start < m.strstart)
      ensures m.insert == 0
    {
      hide WindowAgrees, ChainsAgree, KeysAgree, Ready, Key3, MatchFinder.Longest, MatchFinder.Nearest, Link, Best,
        Chosen, Repeats, MatchFinder.Here;
      match_length := m.LongestMatch(hash_head);
      FoundHere(match_length);
    }

    lemma RecallStays(ps: set<nat>)
      requires Objects() && Recalled(Rules(), log, Horizon(cuts), ps) && ps <= m.Positions()
      ensures Recalls()
    {
    }

    // The current string's match or byte, before a possible flush.
    method FastEmit() returns (bflush: bool)
      requires Objects() && FastOk() && m.lookahead > 0 && FastMode()
      requires m.strstart + MIN_LOOKAHEAD <= 2 * m.w_size
      modifies this`match_length, sym`last_lit, sym.d_buf, sym.l_buf, this`log
      modifies m`strstart, m`lookahead, m`match_start, m`ins_h, m`hist, m.head, m.prev
      ensures WindowOk() && Emitted(m.At()) && KeyReadyHere() && match_length < MIN_MATCH && Recalls()
      ensures m.lookahead < old(m.lookahead) && (bflush || sym.HasRoom())
      ensures Added(old(log), log, old(m.At()), old(m.lookahead))
    {
      hide Emitted, Inserted, KeyReadyHere, WindowOk, FastFound, Recalls;
      FastSearch();
      if match_length >= MIN_MATCH {
        bflush := FastMatch();
      } else {
        bflush := FastLiteral();
      }
    }

    // One round of deflate_fast.
    method FastStep() returns (stop: bool)
      requires Objects() && FastOk() && OutputOk() && m.lookahead > 0 && FastMode()
      requires m.strstart + MIN_LOOKAHEAD <= 2 * m.w_size
      modifies this`match_length, this`blocks, sym`last_lit, sym.d_buf, sym.l_buf, this`log, out
      modifies m`strstart, m`lookahead, m`block_start, m`match_start, m`ins_h, m`hist, m.head, m.prev
      ensures FastOk() && m.lookahead < old(m.lookahead) && Added(old(log), log, old(m.At()), old(m.lookahead))
      ensures OutputOkOrFull() && (stop ==> out.avail_out == 0) && (!stop ==> OutputOk())
      ensures out.Extends(old(out.put), old(out.next_out)) && old(blocks) <= blocks
    {
      hide Emitted, Inserted, KeyReadyHere, WindowOk, OutputOk, OutputOkOrFull, Recalls;
      var bflush := FastEmit();
      stop := FlushIf(bflush);
    }

    // The same, with enough bytes ahead.
    method AmpleFastStep(ghost from: nat, ghost total: nat, ghost flushing: bool) returns (stop: bool)
      requires Objects() && FastOk() && OutputOk() && m.lookahead > 0 && FastMode()
      requires m.strstart + MIN_LOOKAHEAD <= 2 * m.w_size
      requires Ample(log, from, MIN_LOOKAHEAD, total, flushing)
      requires m.lookahead >= MIN_LOOKAHEAD || (flushing && |m.data| == total)
      modifies this`match_length, this`blocks, sym`last_lit, sym.d_buf, sym.l_buf, this`log, out
      modifies m`strstart, m`lookahead, m`block_start, m`match_start, m`ins_h, m`hist, m.head, m.prev
      ensures FastOk() && m.lookahead < old(m.lookahead) && Ample(log, from, MIN_LOOKAHEAD, total, flushing)
      ensures OutputOkOrFull() && (stop ==> out.avail_out == 0) && (!stop ==> OutputOk())
      ensures out.Extends(old(out.put), old(out.next_out)) && old(blocks) <= blocks
    {
      hide FastOk, OutputOk, OutputOkOrFull, Ample, Added;
      WindowEnds();
      ghost var log0, p, ahead := log, m.At(), m.lookahead;
      stop := FastStep();
      AmpleMore(log0, log, p, ahead, from, MIN_LOOKAHEAD, total, flushing);
    }

    lemma FastLeft(flush: Flush)
      requires Objects() && FastOk() && OutputOkOrFull()
      requires out.avail_out == 0 || (flush == NoFlush && m.next_in == [])
      ensures Left(NeedMore, flush, m.At()) && KeyReadyHere() && match_length < MIN_MATCH && Recalls()
    {
      hide Emitted, KeyReadyHere, WindowOk;
    }

    // Make sure of enough lookahead, except at the end of the input.
    method FastFill()
      requires Objects() && FastOk() && OutputOk()
      modifies m.window, m.head, m.prev
      modifies m`next_in, m`strstart, m`lookahead, m`block_start, m`match_start, m`ins_h, m`insert
      modifies m`data, m`check, m`total_in, m`base, m`hist, m`written, m`solid, m`high_water
      ensures FastOk() && OutputOk() && OutputOkOrFull()
      ensures m.Taken(old(m.data), old(m.next_in))
      ensures |m.next_in| + m.lookahead == old(|m.next_in| + m.lookahead)
      ensures m.strstart + MIN_LOOKAHEAD <= 2 * m.w_size
      ensures m.lookahead >= MIN_LOOKAHEAD || m.next_in == []
    {
      hide Emitted, KeyReadyHere, WindowOk, GoodMatch, Recalled, Grown;
      if m.lookahead < MIN_LOOKAHEAD {
        Fill(m.At(), 0, seen);
        GrownPositions(old(m.hist), m.hist, m.At() - old(m.insert), old(m.insert) - m.insert);
        RecallStays(old(m.Positions()));
      } else {
        RoomToSearch();
      }
    }

    /** deflate_fast.  Nothing is chosen with less than MIN_LOOKAHEAD bytes ahead, unless
        flushing. */
    method DeflateFast(flush: Flush) returns (bs: BlockState)
      requires Objects() && FastOk() && OutputOk() && FastMode()
      modifies this`match_length, this`blocks, m.window, m.head, m.prev, sym`last_lit, sym.d_buf, sym.l_buf, this`log
      modifies out
      modifies m`next_in, m`strstart, m`lookahead, m`block_start, m`match_start, m`ins_h, m`insert
      modifies m`data, m`check, m`total_in, m`base, m`hist, m`written, m`solid, m`high_water
      ensures Left(bs, flush, m.At()) && KeyReadyHere() && match_length < MIN_MATCH && Recalls()
      ensures m.Taken(old(m.data), old(m.next_in))
      ensures out.Extends(old(out.put), old(out.next_out)) && old(blocks) <= blocks
      ensures Ample(log, |old(log)|, MIN_LOOKAHEAD, old(|m.data| + |m.next_in|), flush != NoFlush)
      ensures flush == Finish && bs == NeedMore ==> m.Unread() < old(m.Unread())
    {
      hide Objects, FastOk, Left, OutputOk, OutputOkOrFull, KeyReadyHere, Recalls, Ample;
      ghost var total := |m.data| + |m.next_in|;
      AmpleNone(log, MIN_LOOKAHEAD, total, flush != NoFlush);
      while true
        invariant FastOk() && OutputOk()
        invariant m.Taken(old(m.data), old(m.next_in))
        invariant m.Unread() <= old(m.Unread())
        invariant out.Extends(old(out.put), old(out.next_out)) && old(blocks) <= blocks
        invariant Ample(log, |old(log)|, MIN_LOOKAHEAD, total, flush != NoFlush)
        decreases |m.next_in| + m.lookahead
      {
        FastFill();
        if m.lookahead < MIN_LOOKAHEAD && flush == NoFlush {
          FastLeft(flush);
          return NeedMore;
        }
        if m.lookahead == 0 {
          break;
        }
        m.TakenTotal(old(m.data), old(m.next_in));
        var stop := AmpleFastStep(|old(log)|, total, flush != NoFlush);
        if stop {
          FastLeft(flush);
          return NeedMore;
        }
      }
      bs := EndFast(flush);
    }

    // Flush what is left.
    method EndFast(flush: Flush) returns (bs: BlockState)
      requires Objects() && FastOk() && OutputOk()
      requires m.lookahead == 0 && m.next_in == [] && flush != NoFlush
      modifies this`blocks, m`block_start, m`insert, sym`last_lit, out
      ensures Left(bs, flush, m.At()) && KeyReadyHere() && match_length < MIN_MATCH && Recalls()
      ensures out.Extends(old(out.put), old(out.next_out)) && old(blocks) <= blocks
      ensures flush == Finish ==> bs != NeedMore
    {
      hide Emitted, WindowOk, KeyReadyHere, OutputOk, Left;
      FastParts();
      bs := FinishingHashed(flush);
    }

    lemma WindowEnds()
      requires Objects() && (FastOk() || SlowOk())
      ensures m.At() + m.lookahead == |m.data|
    {
      hide WindowAgrees, ChainsAgree, KeysAgree, Emitted, KeyReadyHere, Waiting, Recalls;
    }

    lemma RoomToSearch()
      requires Objects() && WindowOk() && m.lookahead >= MIN_LOOKAHEAD
      ensures m.strstart + MIN_LOOKAHEAD <= 2 * m.w_size
    {
      hide WindowAgrees, ChainsAgree, KeysAgree;
    }

    lemma FastParts()
      requires Objects() && FastOk()
      ensures WindowOk() && Emitted(m.At()) && Open() && KeyReadyHere() && match_length < MIN_MATCH && Recalls()
    {
      hide Emitted, KeyReadyHere, WindowOk;
    }

    // How far the tokens reach in deflate_slow: one byte short if the previous
    // byte is still waiting for a decision.
    ghost function Decided(): int
      reads m`base, m`strstart, this`match_available
    {
      m.At() - if match_available then 1 else 0
    }

    // deflate_slow keeps no match of five bytes or less when filtering.
    predicate Keeps(len: nat) {
      strategy == Filtered ==> len < MIN_MATCH || len > 5
    }

    // What there was to be seen at s and is still known.
    ghost predicate Noted(s: Seen)
      requires Objects()
      reads m`data, m`hist, this`log, this`cuts
    {
      && Within(m.data, s) && Sees(Rules(), cuts, log, s)
      && (s.ahead >= MIN_MATCH ==> s.pos in m.Positions())
    }

    // A match of len bytes at the previous byte, not yet emitted, or that none was kept.
    ghost predicate Previous(start: nat, len: nat)
      requires Objects()
      reads m`data, m`base, m`hist, m`strstart, this`match_available, this`log, this`cuts, this`seen
    {
      && (match_available ==> m.strstart >= 1 && seen.pos == m.At() - 1 && Noted(seen))
      && MIN_MATCH - 1 <= len <= MAX_MATCH && Keeps(len)
      && (len >= MIN_MATCH ==> match_available && GoodMatch(start, len, seen))
      && (match_available && len < MIN_MATCH ==> NothingKept(Rules(), m.data, seen))
    }

    // What waits for a decision at the loop head.
    ghost predicate Waiting()
      requires Objects()
      reads m`data, m`base, m`hist, m`strstart, m`match_start, this`match_length, this`match_available
      reads this`log, this`cuts, this`seen
    {
      Previous(m.match_start, match_length) && m.match_start < 0x1_0000_0000
    }

    // The head of the loop of deflate_slow.
    ghost predicate SlowOk()
      requires Objects()
      reads m`data, m`check, m`total_in, m`base, m`strstart, m`lookahead, m`hist, m`insert, m`written, m`solid
      reads m`high_water
      reads m`block_start
      reads m`ins_h, m`match_start
      reads m.window, m.head, m.prev, this`blocks, this`log, this`cuts, this`seen
      reads this`match_length, this`match_available, sym, sym.d_buf, sym.l_buf
    {
      && WindowOk() && Emitted(Decided()) && sym.HasRoom() && Open()
      && KeyReadyHere() && Waiting() && Recalls()
    }

    // What the search of deflate_slow at the current byte has come to, when the match at
    // the byte before has m.prev_length bytes.
    ghost predicate LazyFound()
      requires Objects()
      reads m`data, m`base, m`strstart, m`lookahead, m`hist, m`match_start, m`prev_length
      reads this`match_length, this`cuts
    {
      && MIN_MATCH - 1 <= match_length <= MAX_MATCH && Keeps(match_length) && m.match_start < 0x1_0000_0000
      && (match_length > m.prev_length ==> GoodMatch(m.match_start, match_length, Here()))
      && (m.prev_length < MIN_MATCH && match_length < MIN_MATCH ==> NothingKept(Rules(), m.data, Here()))
      && (MIN_MATCH <= m.prev_length < m.cfg.max_lazy && match_length <= m.prev_length ==>
            Best(Rules(), m.data, Here(), m.prev_length))
      && (m.prev_length >= m.cfg.max_lazy ==> match_length < MIN_MATCH)
    }

    /** The search of deflate_slow; short matches may be thrown away. */
    method LazySearch(hash_head: nat)
      requires Objects() && Inserted() && SlowMode()
      requires Headed(hash_head)
      requires MIN_MATCH - 1 <= m.prev_length <= MAX_MATCH && Keeps(m.prev_length)
      requires m.match_start < 0x1_0000_0000
      modifies this`match_length, m`match_start
      ensures LazyFound()
    {
      hide Inserted, MatchFinder.Longest, MatchFinder.SearchReady, MatchFinder.MatchOk, NothingKept, Best, Chosen,
        MatchFinder.Here;
      match_length := MIN_MATCH - 1;
      if hash_head != 0 && m.prev_length < m.cfg.max_lazy && m.strstart - hash_head <= m.MaxDist() {
        LazyLongest(hash_head);
        if match_length <= 5
          && (strategy == Filtered
              || (match_length == MIN_MATCH && Distance(m.strstart, m.match_start) > TOO_FAR))
        {
          Dropped(match_length);
          match_length := MIN_MATCH - 1;
        } else {
          NotDropped(match_length);
        }
      } else if m.prev_length < m.cfg.max_lazy {
        NotFoundHere();
        NoneToKeep(Rules(), m.data, Here());
        BestMore(Rules(), m.data, Here(), MIN_MATCH - 1, m.prev_length);
      }
    }

    method LazyLongest(hash_head: nat)
      requires Objects() && Inserted() && m.SearchReady(hash_head) && SlowMode()
      requires MIN_MATCH - 1 <= m.prev_length <= MAX_MATCH && m.match_start < 0x1_0000_0000
      modifies this`match_length, m`match_start
      ensures m.MatchOk(match_length) && Best(Rules(), m.data, Here(), match_length) && m.lookahead >= MIN_MATCH
      ensures match_length > m.prev_length ==>
        && Chosen(Rules(), m.data, Here(), m.strstart - m.match_start, match_length)
        && Distance(m.strstart, m.match_start) == m.strstart - m.match_start
      ensures m.match_start < 0x1_0000_0000 && Horizon(cuts) <= m.base
    {
      hide WindowAgrees, ChainsAgree, KeysAgree, Ready, Key3, MatchFinder.Longest, MatchFinder.Nearest, Link, Repeats,
        NothingKept, Best, Chosen, MatchFinder.Here, Distance;
      match_length := m.LongestMatch(hash_head);
      FoundHere(match_length);
      StartFits();
      BasedHere();
    }

    // A match that does not count leaves nothing to be kept here, and no more than before.
    lemma Dropped(r: nat)
      requires Objects() && SlowMode() && m.MatchOk(r) && MIN_MATCH - 1 <= m.prev_length && r <= 5
      requires m.lookahead >= MIN_MATCH && Best(Rules(), m.data, Here(), r)
      requires r > m.prev_length ==> Chosen(Rules(), m.data, Here(), m.strstart - m.match_start, r)
      requires Keeps(m.prev_length)
      requires strategy == Filtered || (r == MIN_MATCH && Distance(m.strstart, m.match_start) > TOO_FAR)
      requires r > m.prev_length ==> Distance(m.strstart, m.match_start) == m.strstart - m.match_start
      ensures m.prev_length < MIN_MATCH ==> NothingKept(Rules(), m.data, Here())
      ensures m.prev_length >= MIN_MATCH ==> Best(Rules(), m.data, Here(), m.prev_length)
    {
      hide NothingKept, Best, Chosen, Distance, Repeats;
      if m.prev_length >= MIN_MATCH {
        BestMore(Rules(), m.data, Here(), r, m.prev_length);
      } else if strategy == Filtered {
        DroppedShort(Rules(), m.data, Here(), r);
      } else {
        DroppedFar(Rules(), m.data, Here(), m.strstart - m.match_start);
      }
    }

    lemma NotDropped(r: nat)
      requires Objects() && SlowMode() && m.MatchOk(r) && r == match_length
      requires MIN_MATCH - 1 <= m.prev_length <= MAX_MATCH
      requires m.lookahead >= MIN_MATCH && Best(Rules(), m.data, Here(), r) && Horizon(cuts) <= m.base
      requires r > m.prev_length ==> Chosen(Rules(), m.data, Here(), m.strstart - m.match_start, r)
      requires Keeps(m.prev_length) && m.match_start < 0x1_0000_0000 && m.prev_length < m.cfg.max_lazy
      requires r > 5 || !(strategy == Filtered || (r == MIN_MATCH && Distance(m.strstart, m.match_start) > TOO_FAR))
      requires r > m.prev_length ==> Distance(m.strstart, m.match_start) == m.strstart - m.match_start
      ensures LazyFound()
    {
      hide NothingKept, Best, Chosen, Distance, Repeats;
      if r <= m.prev_length {
        BestMore(Rules(), m.data, Here(), r, m.prev_length);
        if r < MIN_MATCH {
          NoneToKeep(Rules(), m.data, Here());
        }
      }
    }

    lemma StartFits()
      requires Objects() && m.strstart + MIN_LOOKAHEAD <= 2 * m.w_size
      ensures m.match_start < m.strstart && m.strstart - m.match_start <= MaxDist() ==>
                Distance(m.strstart, m.match_start) == m.strstart - m.match_start && m.match_start < 0x1_0000_0000
    {
    }

    // Insert the strings behind the current one up to window index max_insert.
    method InsertUpTo(max_insert: nat)
      requires Objects() && DictUpTo(m.At() + 1)
      requires max_insert + MIN_MATCH == |m.data| - m.base
      requires 1 <= m.prev_length
      modifies m`strstart, m`ins_h, m`hist, m`prev_length, m.head, m.prev
      ensures m.strstart == old(m.strstart) + old(m.prev_length) && DictUpTo(m.At() + 1)
      ensures Grown(old(m.hist), m.hist, old(m.At()) + 1,
                    Min(old(m.prev_length), Max(max_insert, old(m.strstart)) - old(m.strstart)))
    {
      hide DictUpTo;
      while true
        invariant 1 <= m.prev_length && m.strstart + m.prev_length == old(m.strstart) + old(m.prev_length)
        invariant DictUpTo(m.At() + 1)
        invariant m.strstart >= old(m.strstart)
        invariant Grown(old(m.hist), m.hist, old(m.At()) + 1,
                        Min(m.strstart - old(m.strstart), Max(max_insert, old(m.strstart)) - old(m.strstart)))
        decreases m.prev_length
      {
        m.strstart := m.strstart + 1;
        if m.strstart <= max_insert {
          InsertAt(m.strstart);
        } else {
          DictFurther(m.At());
        }
        m.prev_length := m.prev_length - 1;
        if m.prev_length == 0 {
          break;
        }
      }
    }

    /** Move over the rest of a match that began one byte back, inserting its
        strings as far as they are complete. */
    method InsertRest(len: nat)
      requires Objects() && Inserted()
      requires MIN_MATCH <= len && m.At() - 1 + len <= |m.data| && 1 <= m.strstart
      modifies m`strstart, m`lookahead, m`ins_h, m`hist, m`prev_length, m.head, m.prev
      ensures m.strstart == old(m.strstart) + len - 1 && WindowOk() && KeyReadyHere()
      ensures m.lookahead == old(m.lookahead) - (len - 1)
      ensures Grown(old(m.hist), m.hist, old(m.At()) + 1, Min(len - 2, Max(old(m.lookahead), MIN_MATCH) - MIN_MATCH))
    {
      hide WindowAgrees, ChainsAgree, KeysAgree, KeyReady, Pow2, Grown;
      var max_insert := m.strstart + m.lookahead - MIN_MATCH;
      m.lookahead := m.lookahead - (len - 1);
      m.prev_length := len - 2;
      InsertUpTo(max_insert);
      m.strstart := m.strstart + 1;
    }

    // After the search at the current byte: the previous match and the new one.
    ghost predicate Searched()
      requires Objects()
      reads m`ins_h, m`data, m`check, m`total_in, m`base, m`strstart, m`lookahead, m`hist, m`insert, m`written
      reads m`solid, m`high_water, m.window, m.head, m.prev
      reads m`prev_length, m`match_start, this`match_length, this`prev_match, this`match_available
      reads this`log, this`cuts, this`seen
    {
      && Inserted() && Previous(prev_match, m.prev_length) && LazyFound()
      && Recalls() && (m.lookahead >= MIN_MATCH ==> m.At() in m.Positions())
    }

    // Insert the current string and remember the previous match.
    method InsertSlow() returns (hash_head: nat)
      requires Objects() && SlowOk() && m.strstart + MIN_LOOKAHEAD <= 2 * m.w_size
      modifies this`prev_match, m`prev_length, m`ins_h, m`hist, m.head, m.prev
      ensures Inserted() && Emitted(Decided()) && Recalls() && Previous(prev_match, m.prev_length)
      ensures Grown(old(m.hist), m.hist, m.At(), if m.lookahead >= MIN_MATCH then 1 else 0)
      ensures m.lookahead >= MIN_MATCH ==> m.At() in m.Positions()
      ensures Headed(hash_head)
      ensures prev_match == m.match_start < 0x1_0000_0000
    {
      hide WindowOk, Inserted, Emitted, KeyReadyHere, GoodMatch, Headed, Sees, NothingKept, Recalled, Grown;
      hash_head := InsertCurrent();
      GrownPositions(old(m.hist), m.hist, m.At(), if m.lookahead >= MIN_MATCH then 1 else 0);
      RecallStays(old(m.Positions()));
      m.prev_length, prev_match := match_length, m.match_start;
    }

    // Insert the current string, remember the previous match and look for a new one.
    method SlowSearch()
      requires Objects() && SlowOk() && SlowMode()
      requires m.strstart + MIN_LOOKAHEAD <= 2 * m.w_size
      modifies this`match_length, this`prev_match, m`prev_length, m`match_start, m`ins_h, m`hist, m.head, m.prev
      ensures Searched() && Emitted(Decided())
      ensures Grown(old(m.hist), m.hist, m.At(), if m.lookahead >= MIN_MATCH then 1 else 0)
    {
      hide SlowOk, Inserted, Emitted, GoodMatch, NothingKept, Noted, LazyFound, Recalls, Headed, Grown;
      var hash_head := InsertSlow();
      LazySearch(hash_head);
    }

    // Between a decision of deflate_slow and a possible flush.
    ghost predicate SlowTallied(bflush: bool)
      requires Objects()
      reads m`data, m`check, m`total_in, m`base, m`strstart, m`lookahead, m`hist, m`insert, m`written, m`solid
      reads m`high_water
      reads m`block_start
      reads m`ins_h, m`match_start
      reads m.window, m.head, m.prev, this`blocks, this`log, this`cuts, this`seen
      reads this`match_length, this`match_available, sym, sym.d_buf, sym.l_buf
    {
      && WindowOk() && Emitted(Decided()) && (bflush || sym.HasRoom()) && Open()
      && KeyReadyHere() && Waiting() && Recalls()
    }

    // There is a reason for the match at the previous byte.
    lemma PreviousReason()
      requires Objects() && Searched() && Emitted(Decided()) && SlowMode()
      requires MIN_MATCH <= m.prev_length && match_length <= m.prev_length
      ensures m.strstart >= 1 && seen.pos == m.At() - 1 && Here().pos == m.At() && m.match_start < 0x1_0000_0000
      ensures var dist := Distance(m.strstart - 1, prev_match);
              && 1 <= dist <= MaxDist() && Repeats(m.data, seen.pos, dist, m.prev_length)
              && Horizon(cuts) + dist <= seen.pos && Reason(Match(dist, m.prev_length), seen, Some(Here()))
    {
      hide Inserted, Emitted, Recalls, Sees, Chosen, Best, NothingKept, Repeats, Distance;
      SeesHere(Decided());
    }

    // The match at s is in the log, and its strings in the dictionary.
    lemma MatchRecalls(log0: seq<Choice>, s: Seen, next: Seen, d: nat, len: nat, hist0: seq<Entry>)
      requires Objects() && Recalled(Rules(), log0, Horizon(cuts), PositionsOf(hist0)) && SlowMode()
      requires log == log0 + [Choice(Match(d, len), s, Some(next))]
      requires s.ahead >= MIN_MATCH ==> s.pos in PositionsOf(hist0)
      requires next.pos == s.pos + 1 && (next.ahead >= MIN_MATCH ==> next.pos in PositionsOf(hist0))
      requires MIN_MATCH <= len
      requires Grown(hist0, m.hist, next.pos + 1, Min(len - 2, Max(next.ahead, MIN_MATCH) - MIN_MATCH))
      ensures Recalls()
    {
      hide Recalled, Grown;
      var c, n := Choice(Match(d, len), s, Some(next)), Min(len - 2, Max(next.ahead, MIN_MATCH) - MIN_MATCH);
      GrownPositions(hist0, m.hist, next.pos + 1, n);
      forall q: nat | Joins(Rules(), c, q) && Horizon(cuts) < q ensures q in m.Positions() {
        assert q == s.pos || q == next.pos || next.pos + 1 <= q < next.pos + 1 + n;
      }
      RecallMore(Rules(), log0, c, Horizon(cuts), PositionsOf(hist0), m.Positions());
    }

    // A literal at s is in the log, and its string in the dictionary.
    lemma LiteralRecalls(log0: seq<Choice>, c: byte, s: Seen, next: Option<Seen>)
      requires Objects() && Recalled(Rules(), log0, Horizon(cuts), m.Positions()) && SlowMode()
      requires log == log0 + [Choice(Literal(c), s, next)]
      requires s.ahead >= MIN_MATCH ==> s.pos in m.Positions()
      ensures Recalls()
    {
      hide Recalled;
      RecallMore(Rules(), log0, Choice(Literal(c), s, next), Horizon(cuts), m.Positions(), m.Positions());
    }

    // No better match here: emit the match found at the previous byte.
    method EmitPrevious() returns (bflush: bool)
      requires Objects() && Searched() && Emitted(Decided()) && sym.HasRoom() && Open() && SlowMode()
      requires MIN_MATCH <= m.prev_length && match_length <= m.prev_length
      modifies this`match_length, this`match_available, sym`last_lit, sym.d_buf, sym.l_buf, this`log
      modifies m`strstart, m`lookahead, m`ins_h, m`hist, m`prev_length, m.head, m.prev
      ensures SlowTallied(bflush) && !match_available && m.lookahead < old(m.lookahead)
      ensures Added(old(log), log, seen.pos, seen.ahead)
    {
      hide WindowOk, Inserted, Emitted, KeyReadyHere, GoodMatch, Repeats, Distance, Reason, Recalled, LazyFound, Sees,
        NothingKept, Grown;
      ghost var len, log0, hist0, s, next := m.prev_length, log, m.hist, seen, Here();
      var dist := Distance(m.strstart - 1, prev_match);
      PreviousReason();
      MatchFits(s.pos, dist, m.prev_length);
      bflush := TallyMatchAt(dist, m.prev_length, s, Some(next));
      InsertRest(m.prev_length);
      MatchRecalls(log0, s, next, dist, len, hist0);
      match_available, match_length := false, MIN_MATCH - 1;
    }

    lemma MatchFits(pos: nat, dist: nat, len: nat)
      requires Objects() && Inserted() && Repeats(m.data, pos, dist, len) && len >= MIN_MATCH && pos + 1 == m.At()
      ensures pos + len <= |m.data|
    {
      hide DictUpTo;
    }

    // FLUSH_BLOCK_ONLY if the symbol buffer is full.
    method FlushOnlyIf(bflush: bool)
      requires Objects() && m.DataOk() && OutputOk() && Emitted(m.At()) && m.At() <= |m.data| && Open()
      requires bflush || sym.HasRoom()
      modifies this`blocks, m`block_start, sym`last_lit, out
      ensures Emitted(m.At()) && sym.HasRoom() && Open()
      ensures OutputOkOrFull()
      ensures out.Extends(old(out.put), old(out.next_out)) && old(blocks) <= blocks
    {
      hide TracedAs, Reported, WindowAgrees;
      if bflush {
        FlushBlockOnly(false);
      }
    }

    // The decision has been made; the current byte becomes the previous one.
    ghost predicate MayWait()
      requires Objects()
      reads m`ins_h, m`data, m`check, m`total_in, m`base, m`strstart, m`lookahead, m`hist, m`insert, m`written
      reads m`solid, m`high_water, m.window, m.head, m.prev
      reads m`prev_length, m`match_start, this`match_length, this`prev_match, this`match_available
      reads this`log, this`cuts, this`seen
    {
      && Searched() && m.lookahead > 0
      && (m.prev_length < MIN_MATCH || match_length > m.prev_length)
    }

    // There is a reason for the previous byte alone.
    lemma LiteralReason()
      requires Objects() && MayWait() && match_available && Emitted(Decided()) && SlowMode()
      ensures 1 <= m.strstart && seen.pos == m.At() - 1 < |m.data|
      ensures Reason(Literal(m.data[m.At() - 1]), seen, None)
    {
      hide Emitted, Recalls, Sees, Chosen, Best, NothingKept, Repeats, Distance, DictUpTo;
      if m.prev_length >= MIN_MATCH {
        assert GivenUp(Rules(), m.data, seen, Distance(m.strstart - 1, prev_match), m.prev_length,
                       Distance(m.strstart, m.match_start), match_length);
      }
    }

    // What is known of the current byte when it becomes the previous one.
    lemma NoteHere()
      requires Objects() && Inserted() && LazyFound() && Recalls() && Emitted(m.At())
      requires m.lookahead >= MIN_MATCH ==> m.At() in m.Positions()
      requires m.prev_length < MIN_MATCH || match_length > m.prev_length
      ensures Here().pos == m.At() && Noted(Here()) && m.match_start < 0x1_0000_0000
      ensures MIN_MATCH - 1 <= match_length <= MAX_MATCH && Keeps(match_length)
      ensures match_length >= MIN_MATCH ==> GoodMatch(m.match_start, match_length, Here())
      ensures match_length < MIN_MATCH ==> NothingKept(Rules(), m.data, Here())
    {
      hide Inserted, Recalls, Emitted, Sees, GoodMatch, NothingKept, Best;
      SeesHere(m.At());
    }

    // The current byte becomes the previous one.
    method Postpone()
      requires Objects() && Inserted() && LazyFound() && Recalls() && Emitted(m.At()) && match_available
      requires m.lookahead > 0 && (m.lookahead >= MIN_MATCH ==> m.At() in m.Positions())
      requires m.prev_length < MIN_MATCH || match_length > m.prev_length
      modifies this`seen, m`strstart, m`lookahead
      ensures WindowOk() && Emitted(Decided()) && KeyReadyHere() && Waiting() && Recalls()
      ensures m.lookahead < old(m.lookahead) && seen == old(Here())
    {
      hide Emitted, WindowOk, KeyReadyHere, Inserted, GoodMatch, Noted, NothingKept, LazyFound, Recalls, Best;
      NoteHere();
      seen := Here();
      StepOn();
    }

    // A longer match begins here, or there was none: emit the previous byte alone.
    method EmitPreviousByte() returns (stop: bool)
      requires Objects() && MayWait() && Emitted(Decided()) && sym.HasRoom() && Open() && OutputOk() && SlowMode()
      requires match_available
      modifies this`blocks, sym`last_lit, sym.d_buf, sym.l_buf, this`log, this`seen, out
      modifies m`strstart, m`lookahead, m`block_start
      ensures SlowOk() && m.lookahead < old(m.lookahead)
      ensures Added(old(log), log, old(seen.pos), old(seen.ahead)) && seen == old(Here())
      ensures OutputOkOrFull() && (stop ==> out.avail_out == 0) && (!stop ==> OutputOk())
      ensures out.Extends(old(out.put), old(out.next_out)) && old(blocks) <= blocks
    {
      hide TracedAs, Emitted, WindowOk, KeyReadyHere, Inserted, Previous, LazyFound, Recalls, Waiting;
      LiteralBefore();
      Postpone();
      stop := out.avail_out == 0;
    }

    // The previous byte as a literal, and FLUSH_BLOCK_ONLY if the buffer is full.
    method LiteralBefore()
      requires Objects() && MayWait() && match_available && SlowMode()
      requires Emitted(Decided()) && sym.HasRoom() && Open() && OutputOk()
      modifies this`blocks, sym`last_lit, sym.d_buf, sym.l_buf, this`log, out, m`block_start
      ensures Emitted(m.At()) && sym.HasRoom() && Open() && OutputOkOrFull() && Recalls()
      ensures Added(old(log), log, seen.pos, seen.ahead)
      ensures out.Extends(old(out.put), old(out.next_out)) && old(blocks) <= blocks
    {
      hide Emitted, WindowAgrees, ChainsAgree, KeysAgree, KeyReady, Reason, LazyFound, GoodMatch, Recalled, Sees,
        NothingKept;
      LiteralReason();
      ghost var log0 := log;
      var bflush := TallyLitAt(m.strstart - 1, seen, None);
      LiteralRecalls(log0, m.data[m.At() - 1], seen, None);
      FlushOnlyIf(bflush);
    }

    // There is no previous match to compare with: decide at the next byte.
    method Wait()
      requires Objects() && MayWait() && Emitted(Decided()) && sym.HasRoom() && Open()
      requires !match_available
      modifies this`match_available, this`seen, m`strstart, m`lookahead
      ensures SlowOk() && m.lookahead < old(m.lookahead) && match_available && seen == old(Here())
    {
      hide Emitted, WindowOk, KeyReadyHere, Inserted, Previous, LazyFound, Recalls, Waiting;
      match_available := true;
      Postpone();
    }

    lemma MatchWaits()
      requires Objects() && Searched()
      ensures m.prev_length >= MIN_MATCH ==> match_available
      ensures match_available ==> seen.pos == m.At() - 1
    {
      hide Inserted, LazyFound, Recalls;
    }

    // One round of deflate_slow.
    method SlowStep() returns (stop: bool)
      requires Objects() && SlowOk() && OutputOk() && m.lookahead > 0 && SlowMode()
      requires m.strstart + MIN_LOOKAHEAD <= 2 * m.w_size
      modifies this`match_length, this`prev_match, this`match_available, this`seen, this`blocks
      modifies sym`last_lit, sym.d_buf, sym.l_buf, this`log, out
      modifies m`strstart, m`lookahead, m`block_start, m`match_start, m`prev_length, m`ins_h, m`hist, m.head, m.prev
      ensures SlowOk() && m.lookahead < old(m.lookahead)
      ensures if old(match_available) then Added(old(log), log, old(seen.pos), old(seen.ahead)) else log == old(log)
      ensures match_available ==> seen.pos == old(m.At()) && seen.ahead == old(m.lookahead)
      ensures OutputOkOrFull() && (stop ==> out.avail_out == 0) && (!stop ==> OutputOk())
      ensures out.Extends(old(out.put), old(out.next_out)) && old(blocks) <= blocks
    {
      hide TracedAs, WindowOk, Emitted, KeyReadyHere, GoodMatch, Inserted, LazyFound, Previous, Recalls, Added;
      SlowSearch();
      hide OutputOk, OutputOkOrFull, Waiting, SlowOk, Searched;
      MatchWaits();
      if m.prev_length >= MIN_MATCH && match_length <= m.prev_length {
        stop := EmitAndFlush();
      } else {
        WaitsOn();
        if match_available {
          stop := EmitPreviousByte();
        } else {
          Wait();
          stop := false;
          OutputParts();
        }
      }
    }

    lemma WaitsOn()
      requires Objects() && Searched() && m.lookahead > 0 && (m.prev_length < MIN_MATCH || match_length > m.prev_length)
      ensures MayWait()
    {
      hide Inserted, Previous, LazyFound, Recalls;
    }

    // The previous match goes out, and the block with it if the symbol buffer is full.
    method EmitAndFlush() returns (stop: bool)
      requires Objects() && Searched() && Emitted(Decided()) && sym.HasRoom() && Open() && OutputOk() && SlowMode()
      requires MIN_MATCH <= m.prev_length && match_length <= m.prev_length
      modifies this`match_length, this`match_available, this`blocks
      modifies sym`last_lit, sym.d_buf, sym.l_buf, this`log, out
      modifies m`strstart, m`lookahead, m`block_start, m`ins_h, m`hist, m`prev_length, m.head, m.prev
      ensures SlowOk() && m.lookahead < old(m.lookahead) && !match_available
      ensures Added(old(log), log, seen.pos, seen.ahead)
      ensures OutputOkOrFull() && (stop ==> out.avail_out == 0) && (!stop ==> OutputOk())
      ensures out.Extends(old(out.put), old(out.next_out)) && old(blocks) <= blocks
    {
      hide Searched, Emitted, OutputOk, OutputOkOrFull, Waiting, WindowOk, KeyReadyHere, Recalls, Added;
      var bflush := EmitPrevious();
      stop := FlushIf(bflush);
    }

    // The same, with enough bytes ahead.
    method AmpleSlowStep(ghost from: nat, ghost total: nat, ghost flushing: bool) returns (stop: bool)
      requires Objects() && SlowOk() && OutputOk() && m.lookahead > 0 && SlowMode()
      requires m.strstart + MIN_LOOKAHEAD <= 2 * m.w_size
      requires AmpleSlow(from, total, flushing)
      requires m.lookahead >= MIN_LOOKAHEAD || (flushing && |m.data| == total)
      modifies this`match_length, this`prev_match, this`match_available, this`seen, this`blocks
      modifies sym`last_lit, sym.d_buf, sym.l_buf, this`log, out
      modifies m`strstart, m`lookahead, m`block_start, m`match_start, m`prev_length, m`ins_h, m`hist, m.head, m.prev
      ensures SlowOk() && m.lookahead < old(m.lookahead) && AmpleSlow(from, total, flushing)
      ensures OutputOkOrFull() && (stop ==> out.avail_out == 0) && (!stop ==> OutputOk())
      ensures out.Extends(old(out.put), old(out.next_out)) && old(blocks) <= blocks
    {
      hide SlowOk, OutputOk, OutputOkOrFull, Ample, Added;
      WindowEnds();
      ghost var log0, seen0, available := log, seen, match_available;
      stop := SlowStep();
      AmpleStep(log0, seen0, available, from, total, flushing);
    }

    lemma OutputParts()
      requires OutputOk()
      ensures OutputOkOrFull()
    {
    }

    // fill_window in deflate_slow.
    method SlowFill()
      requires Objects() && SlowOk() && OutputOk()
      modifies m.window, m.head, m.prev
      modifies m`next_in, m`strstart, m`lookahead, m`block_start, m`match_start, m`ins_h, m`insert
      modifies m`data, m`check, m`total_in, m`base, m`hist, m`written, m`solid, m`high_water
      ensures SlowOk() && OutputOk() && OutputOkOrFull()
      ensures m.Taken(old(m.data), old(m.next_in))
      ensures |m.next_in| + m.lookahead == old(|m.next_in| + m.lookahead)
      ensures m.strstart + MIN_LOOKAHEAD <= 2 * m.w_size
      ensures m.lookahead >= MIN_LOOKAHEAD || m.next_in == []
      ensures old(m.lookahead) < MIN_LOOKAHEAD ==> (m.Initialised() <==> !old(m.LeavesGap()))
      ensures old(m.Early()) ==> m.Early()
    {
      hide Emitted, KeyReadyHere, WindowOk, GoodMatch, MatchFinder.Early, MatchFinder.Initialised,
        MatchFinder.LeavesGap, Sees, NothingKept, Recalled, Grown;
      if m.lookahead < MIN_LOOKAHEAD {
        Fill(Decided(), match_length, seen);
        GrownPositions(old(m.hist), m.hist, m.At() - old(m.insert), old(m.insert) - m.insert);
        RecallStays(old(m.Positions()));
        if match_available && match_length < MIN_MATCH {
          NothingKeptGrows(Rules(), old(m.data), m.data, seen);
        }
      } else {
        RoomToSearch();
      }
    }

    // Between calls the loop head of deflate_slow is reached again.
    lemma SlowAgain(bs: BlockState)
      requires Objects() && Left(bs, SyncFlush, Decided()) && KeyReadyHere() && Waiting() && Recalls()
      ensures SlowOk() && OutputOkOrFull()
    {
      hide Emitted, KeyReadyHere, WindowOk, Waiting;
    }

    lemma SlowLeft(flush: Flush, from: nat, total: nat)
      requires Objects() && SlowOk() && OutputOkOrFull() && AmpleSlow(from, total, flush != NoFlush)
      requires out.avail_out == 0 || (flush == NoFlush && m.next_in == [])
      ensures Left(NeedMore, flush, Decided()) && KeyReadyHere() && Waiting() && Recalls()
      ensures Ample(log, from, MIN_LOOKAHEAD, total, flush != NoFlush)
    {
      hide Emitted, KeyReadyHere, WindowOk, Waiting;
    }

    // From the choice given on everything is chosen, and what waits has been seen, with enough
    // bytes ahead.
    ghost predicate AmpleSlow(from: nat, total: nat, flushing: bool)
      reads this`log, this`seen, this`match_available
    {
      && Ample(log, from, MIN_LOOKAHEAD, total, flushing)
      && (match_available ==>
            |log| < from || seen.ahead >= MIN_LOOKAHEAD || (flushing && seen.pos + seen.ahead == total))
      && from <= |log| + if match_available then 1 else 0
    }

    // A step of deflate_slow with enough bytes ahead.
    lemma AmpleStep(log0: seq<Choice>, seen0: Seen, available: bool, from: nat, total: nat, flushing: bool)
      requires Ample(log0, from, MIN_LOOKAHEAD, total, flushing)
      requires available ==>
                 |log0| < from || seen0.ahead >= MIN_LOOKAHEAD || (flushing && seen0.pos + seen0.ahead == total)
      requires from <= |log0| + if available then 1 else 0
      requires if available then Added(log0, log, seen0.pos, seen0.ahead) else log == log0
      requires match_available ==> seen.ahead >= MIN_LOOKAHEAD || (flushing && seen.pos + seen.ahead == total)
      ensures AmpleSlow(from, total, flushing)
    {
      hide Ample;
      if available {
        AmpleMore(log0, log, seen0.pos, seen0.ahead, from, MIN_LOOKAHEAD, total, flushing);
      }
    }

    /** deflate_slow.  Nothing is looked for with less than MIN_LOOKAHEAD bytes ahead, unless
        flushing; the previous byte may have been looked for in an earlier call. */
    method DeflateSlow(flush: Flush) returns (bs: BlockState)
      requires Objects() && SlowOk() && OutputOk() && SlowMode()
      modifies this`match_length, this`prev_match, this`match_available, this`seen, this`blocks
      modifies m.window, m.head, m.prev, sym`last_lit, sym.d_buf, sym.l_buf, this`log, out
      modifies m`next_in, m`strstart, m`lookahead, m`block_start, m`match_start, m`prev_length, m`ins_h, m`insert
      modifies m`data, m`check, m`total_in, m`base, m`hist, m`written, m`solid, m`high_water
      ensures Left(bs, flush, Decided()) && KeyReadyHere() && Waiting() && Recalls()
      ensures bs != NeedMore ==> !match_available
      ensures m.Taken(old(m.data), old(m.next_in))
      ensures out.Extends(old(out.put), old(out.next_out)) && old(blocks) <= blocks
      ensures old(m.Early()) ==> m.Early()
      ensures flush != NoFlush ==> (m.lookahead == 0 && m.next_in == []) || m.Unread() < old(m.Unread())
      ensures Ample(log, |old(log)| + if old(match_available) then 1 else 0, MIN_LOOKAHEAD,
                    old(|m.data| + |m.next_in|), flush != NoFlush)
      ensures flush == Finish && bs == NeedMore ==> m.Unread() < old(m.Unread())
    {
      hide Objects, MatchFinder.Early, SlowOk, Left, OutputOk, OutputOkOrFull, KeyReadyHere, Waiting, Recalls, Ample,
        AmpleSlow;
      ghost var from, total := |log| + if match_available then 1 else 0, |m.data| + |m.next_in|;
      AmpleStart(total, flush != NoFlush);
      while true
        invariant SlowOk() && OutputOk()
        invariant m.Taken(old(m.data), old(m.next_in))
        invariant (old(m.Early()) ==> m.Early()) && m.Unread() <= old(m.Unread())
        invariant out.Extends(old(out.put), old(out.next_out)) && old(blocks) <= blocks
        invariant AmpleSlow(from, total, flush != NoFlush)
        decreases |m.next_in| + m.lookahead
      {
        SlowFill();
        if m.lookahead < MIN_LOOKAHEAD && flush == NoFlush {
          SlowLeft(flush, from, total);
          return NeedMore;
        }
        if m.lookahead == 0 {
          break;
        }
        var stop := AmpleSlowStep(from, total, flush != NoFlush);
        if stop {
          SlowLeft(flush, from, total);
          return NeedMore;
        }
      }
      bs := AmpleEndSlow(flush, from, total);
    }

    lemma AmpleStart(total: nat, flushing: bool)
      ensures AmpleSlow(|log| + if match_available then 1 else 0, total, flushing)
    {
    }

    method AmpleEndSlow(flush: Flush, ghost from: nat, ghost total: nat) returns (bs: BlockState)
      requires Objects() && SlowOk() && OutputOk() && SlowMode() && AmpleSlow(from, total, true)
      requires m.lookahead == 0 && m.next_in == [] && flush != NoFlush
      modifies this`match_available, this`blocks, m`block_start, m`insert
      modifies sym`last_lit, sym.d_buf, sym.l_buf, this`log, out
      ensures Left(bs, flush, Decided()) && KeyReadyHere() && Waiting() && Recalls() && !match_available
      ensures Ample(log, from, MIN_LOOKAHEAD, total, true)
      ensures out.Extends(old(out.put), old(out.next_out)) && old(blocks) <= blocks
      ensures flush == Finish ==> bs != NeedMore
    {
      hide SlowOk, OutputOk, Left, KeyReadyHere, Waiting, Recalls, Ample, Added;
      ghost var log0, seen0, available := log, seen, match_available;
      bs := EndSlow(flush);
      AmpleStep(log0, seen0, available, from, total, true);
    }


    // The last byte is still waiting: emit it, then flush what is left.
    method EndSlow(flush: Flush) returns (bs: BlockState)
      requires Objects() && SlowOk() && OutputOk() && SlowMode()
      requires m.lookahead == 0 && m.next_in == [] && flush != NoFlush
      modifies this`match_available, this`blocks, m`block_start, m`insert, sym`last_lit, sym.d_buf, sym.l_buf
      modifies this`log, out
      ensures Left(bs, flush, Decided()) && KeyReadyHere() && Waiting() && Recalls() && !match_available
      ensures if old(match_available) then Added(old(log), log, seen.pos, seen.ahead) else log == old(log)
      ensures out.Extends(old(out.put), old(out.next_out)) && old(blocks) <= blocks
      ensures flush == Finish ==> bs != NeedMore
    {
      hide TracedAs, Reported, Emitted, Repeats, WindowAgrees, ChainsAgree, KeysAgree, KeyReady, Distance, OutputOk,
        Recalls, Previous;
      EmitLast();
      bs := FinishingHashed(flush);
    }

    method EmitLast()
      requires Objects() && SlowOk() && m.lookahead == 0 && SlowMode()
      modifies this`match_available, sym`last_lit, sym.d_buf, sym.l_buf, this`log
      ensures WindowOk() && Emitted(m.At()) && Open() && KeyReadyHere() && Waiting() && !match_available && Recalls()
      ensures if old(match_available) then Added(old(log), log, seen.pos, seen.ahead) else log == old(log)
    {
      hide Reported, WindowAgrees, ChainsAgree, KeysAgree, KeyReady, Reason, GoodMatch, NothingKept, Sees, Recalled;
      NoneWaiting();
      if match_available {
        LastReason();
        ghost var log0 := log;
        var _ := TallyLitAt(m.strstart - 1, seen, None);
        LiteralRecalls(log0, m.data[m.At() - 1], seen, None);
        match_available := false;
      }
    }

    lemma LastReason()
      requires Objects() && SlowOk() && match_available && match_length < MIN_MATCH && SlowMode()
      ensures 1 <= m.strstart && seen.pos == m.At() - 1 < |m.data|
      ensures Reason(Literal(m.data[m.At() - 1]), seen, None)
    {
      hide Emitted, Sees, NothingKept, KeyReadyHere, Recalls, WindowAgrees, ChainsAgree, KeysAgree;
    }

    // At the end of the input no match can be pending.
    lemma NoneWaiting()
      requires Objects() && SlowOk() && m.lookahead == 0
      ensures match_length < MIN_MATCH
    {
      hide Reported, WindowAgrees, ChainsAgree, KeysAgree, KeyReady, Distance;
    }

    // ----- one entry point for all strategies

    predicate HuffMode() { ModeOf(level, strategy) == Huff }
    predicate RleMode() { ModeOf(level, strategy) == Runs }
    predicate StoredMode() { ModeOf(level, strategy) == Stored }
    predicate SlowMode() { ModeOf(level, strategy) == Slow }
    predicate FastMode() { ModeOf(level, strategy) == Fast }

    ghost predicate PlainOk()
      requires Objects()
      reads m`data, m`check, m`total_in, m`base, m`strstart, m`lookahead, m`hist, m`insert, m`written, m`solid
      reads m`high_water
      reads m`block_start
      reads m.window, m.head, m.prev, this`blocks, this`log, this`cuts, sym, sym.d_buf, sym.l_buf
    {
      WindowOk() && Emitted(m.At()) && sym.HasRoom() && Open() && NoDictionary()
    }

    /** The invariant of a run, between calls and until the stream is finished. */
    ghost predicate Ready()
      requires Objects()
      reads m`data, m`check, m`total_in, m`base, m`strstart, m`lookahead, m`hist, m`insert, m`written, m`solid
      reads m`high_water
      reads m`block_start
      reads m`ins_h, m`match_start, m`prev_length
      reads m.window, m.head, m.prev, this`blocks, this`log, this`cuts, this`seen
      reads this`match_length, this`match_available, sym, sym.d_buf, sym.l_buf
    {
      if HuffMode() || RleMode() then PlainOk()
      else if StoredMode() then StoredOk() && Short()
      else if FastMode() then FastOk()
      else SlowOk()
    }

    /** Between any two calls, whatever the strategy, the bytes a search may look at have all
        been given a value exactly if they end before the hole left by a slide. */
    lemma InitialisedBetweenCalls()
      requires Objects() && Ready() && m.End() > 0
      ensures m.Initialised() <==> Min(m.w_size, m.strstart + m.lookahead + WIN_INIT) <= m.solid
    {
      hide Emitted, KeyReadyHere, Waiting, NoDictionary, SmallBlocks, Open, MatchFinder.Initialised, MatchFinder.Valid,
        MatchFinder.WrittenOk;
      m.InitialisedExactly();
    }

    // deflateInit2_ leaves a stream that may be compressed.
    lemma FreshIsReady()
      requires Objects() && m.Valid() && m.WrittenOk() && m.data == [] && m.base == 0 && m.hist == []
      requires m.strstart == 0 && m.lookahead == 0 && m.block_start == 0 && m.insert == 0
      requires m.prev_length == MIN_MATCH - 1 && match_length == MIN_MATCH - 1 && !match_available
      requires m.match_start < 0x1_0000_0000
      requires blocks == [] && cuts == [Cut(0, 0)] && log == [] && sym.Valid() && sym.HasRoom() && sym.Tokens() == []
      ensures Ready()
    {
      hide WindowAgrees, ChainsAgree, KeysAgree, Tracked, Reported;
      NothingReported(Rules());
    }

    // What any strategy leaves behind.
    ghost predicate Outcome(bs: BlockState, flush: Flush)
      requires Objects()
      reads m`data, m`check, m`total_in, m`base, m`strstart, m`lookahead, m`hist, m`insert, m`written, m`solid
      reads m`high_water
      reads m`block_start
      reads m`ins_h, m`match_start, m`prev_length, m`next_in
      reads m.window, m.head, m.prev, this`blocks, this`log, this`cuts, this`seen
      reads this`match_length, this`match_available, sym, sym.d_buf, sym.l_buf
      reads out
    {
      && OutputOkOrFull()
      && match bs {
           case NeedMore => Ready() && (out.avail_out == 0 || (flush == NoFlush && m.next_in == []))
           case BlockDone =>
             && Ready() && AllFlushed() && OutputOk() && flush != NoFlush && flush != Finish
             && (SlowMode() ==> !match_available)
           case FinishStarted => Complete() && m.next_in == [] && flush == Finish && out.avail_out == 0
           case FinishDone => Complete() && m.next_in == [] && flush == Finish && OutputOk() && out.pending == 0
         }
    }

    // The stream is finished: every byte of input is in a block, one last block.
    ghost predicate Complete()
      requires Objects()
      reads m`data, m`check, m`total_in, m`base, m`strstart, m`lookahead, m`hist, m`insert, m`written, m`solid
      reads m`high_water
      reads m`block_start
      reads m.window, m.head, m.prev, this`blocks, this`log, this`cuts, sym, sym.d_buf, sym.l_buf, out`bi_valid
    {
      WindowOk() && Emitted(m.At()) && Consumed() && Closed() && out.bi_valid == 0
    }

    lemma PlainOutcome(bs: BlockState, flush: Flush)
      requires Objects() && Left(bs, flush, m.At()) && NoDictionary() && (HuffMode() || RleMode())
      ensures Outcome(bs, flush)
    {
      hide Emitted, WindowOk;
    }

    lemma StoredOutcome(bs: BlockState, flush: Flush)
      requires Objects() && Left(bs, flush, Flushed()) && NoDictionary() && SmallBlocks() && StoredMode()
      requires sym.last_lit == 0 && m.block_start >= 0 && (bs.NeedMore? ==> StoredOk() && Short())
      ensures Outcome(bs, flush)
    {
      hide Emitted, WindowOk;
    }

    lemma FastOutcome(bs: BlockState, flush: Flush)
      requires Objects() && Left(bs, flush, m.At()) && FastMode()
      requires KeyReadyHere() && match_length < MIN_MATCH && m.prev_length == MIN_MATCH - 1 && Recalls()
      ensures Outcome(bs, flush)
    {
      hide Emitted, WindowOk, KeyReadyHere;
    }

    lemma SlowOutcome(bs: BlockState, flush: Flush)
      requires Objects() && Left(bs, flush, Decided()) && !HuffMode() && !RleMode() && level >= 4
      requires KeyReadyHere() && Waiting() && Recalls() && (bs != NeedMore ==> !match_available)
      ensures Outcome(bs, flush)
    {
      hide Emitted, WindowOk, KeyReadyHere, Waiting;
    }

    /** The dispatch in deflate(): strategy first, then the level's function. */
    method Compress(flush: Flush) returns (bs: BlockState)
      requires Objects() && Ready() && OutputOk()
      modifies this`match_length, this`prev_match, this`match_available, this`seen, this`blocks
      modifies m.window, m.head, m.prev, sym`last_lit, sym.d_buf, sym.l_buf, this`log, out
      modifies m`next_in, m`strstart, m`lookahead, m`block_start, m`match_start, m`prev_length, m`ins_h, m`insert
      modifies m`data, m`check, m`total_in, m`base, m`hist, m`written, m`solid, m`high_water
      ensures Outcome(bs, flush)
      ensures m.Taken(old(m.data), old(m.next_in))
      ensures out.Extends(old(out.put), old(out.next_out)) && old(blocks) <= blocks
      ensures flush == Finish && bs == NeedMore ==> m.Unread() < old(m.Unread())
    {
      hide WindowOk, Emitted, StoredOk, FastOk, SlowOk, OutputOkOrFull, Left, Outcome, KeyReadyHere, Waiting, Recalls;
      if strategy == HuffmanOnly {
        bs := DeflateHuff(flush);
        PlainOutcome(bs, flush);
      } else if strategy == Rle {
        bs := DeflateRle(flush);
        PlainOutcome(bs, flush);
      } else if level == 0 {
        bs := DeflateStored(flush);
        StoredOutcome(bs, flush);
      } else if level <= 3 {
        FastLength();
        bs := DeflateFast(flush);
        FastOutcome(bs, flush);
      } else {
        bs := DeflateSlow(flush);
        SlowOutcome(bs, flush);
      }
    }

    // An empty block asked for by a flush mode: tokens, or stored bytes.
    method EmptyBlock(asStored: bool)
      requires Objects() && Ready() && AllFlushed() && OutputOk()
      modifies this`blocks, out
      ensures Ready() && AllFlushed() && OutputOk()
      ensures blocks == old(blocks) + [Block([], if asStored then Some([]) else None, 0, false)]
      ensures out.Extends(old(out.put), old(out.next_out)) && out.avail_out == old(out.avail_out)
    {
      hide Ready, AllFlushed;
      var b := Block([], if asStored then Some([]) else None, 0, false);
      SendBlock(b);
      AddEmpty(b);
    }

    // How far the tokens reach between calls.
    ghost function Reach(): int
      reads m`base, m`strstart, m`block_start, this`match_available
    {
      if StoredMode() then Flushed() else if SlowMode() then Decided() else m.At()
    }

    ghost method AddEmpty(b: Block)
      requires Objects() && Ready() && Empty(b) && !b.last
      modifies this`blocks
      ensures Ready() && blocks == old(blocks) + [b]
    {
      hide Reported, WindowOk, KeyReadyHere, Waiting, NoDictionary;
      ReportedEmpty(Rules(), m.data, blocks, sym.Tokens(), Flushed(), Reach(), cuts, log, b);
      blocks := blocks + [b];
    }

    // What of Ready() does not depend on the history, when everything is in blocks.
    ghost predicate Settled()
      requires Objects()
      reads m`match_start, m`prev_length, this`blocks, this`match_length, this`match_available, sym
    {
      && sym.HasRoom() && Open()
      && (StoredMode() ==> sym.last_lit == 0 && SmallBlocks())
      && (FastMode() ==> match_length < MIN_MATCH && m.prev_length == MIN_MATCH - 1)
      && (SlowMode() ==> !match_available && match_length == MIN_MATCH - 1 && m.match_start < 0x1_0000_0000)
    }

    lemma Settle()
      requires Objects() && Ready() && AllFlushed() && (SlowMode() ==> !match_available)
      ensures Settled() && WindowOk() && Emitted(m.At()) && Consumed()
    {
      hide WindowOk, Emitted, KeyReadyHere, Recalls, SmallBlocks, GoodMatch, NothingKept, Noted;
    }

    lemma ReadyAgain()
      requires Objects() && Settled() && WindowOk() && Emitted(m.At()) && Consumed() && NoDictionary()
      requires m.strstart == 0 && m.block_start == 0 && Recalls()
      ensures Ready() && AllFlushed() == (m.next_in == [])
    {
      hide WindowOk, Emitted, Recalls, SmallBlocks, Open;
    }

    /** A full flush forgets the history: a reader may start here from now on. */
    method ForgetHistory()
      requires Objects() && Ready() && AllFlushed() && (SlowMode() ==> !match_available)
      modifies m.head, m`hist, m`strstart, m`block_start, m`insert, m`base, this`cuts
      ensures Ready() && AllFlushed() && m.hist == [] && m.strstart == 0
      ensures cuts == old(cuts) + [Cut(|m.data|, |blocks|)]
    {
      hide Ready, Reported, Settled, MatchFinder.Valid, MatchFinder.WrittenOk, Recalled;
      Settle();
      ReportedCut(Rules(), m.data, blocks, sym.Tokens(), cuts, log);
      NothingRecalled(Rules(), m.data, blocks, sym.Tokens(), cuts, log);
      m.Forget();
      cuts := cuts + [Cut(|m.data|, |blocks|)];
      RecallStays({});
      ReadyAgain();
    }

    lemma FastLength()
      requires Objects() && FastOk()
      ensures m.prev_length == MIN_MATCH - 1
    {
      hide WindowOk, Emitted;
    }
  }

  // Call deflate_slow for a flush, with room for everything pending, once.
  method FlushSlow(d: Deflater)
    requires d.Objects() && d.SlowOk() && d.OutputOkOrFull() && d.SlowMode() && d.m.Early() && d.m.Unread() > 0
    modifies d`match_length, d`prev_match, d`match_available, d`blocks
    modifies d.m.window, d.m.head, d.m.prev, d.sym`last_lit, d.sym.d_buf, d.sym.l_buf, d`log, d`seen, d.out
    modifies d.m`next_in, d.m`strstart, d.m`lookahead, d.m`block_start, d.m`match_start, d.m`prev_length, d.m`ins_h
    modifies d.m`insert
    modifies d.m`data, d.m`check, d.m`total_in, d.m`base, d.m`hist, d.m`written, d.m`solid, d.m`high_water
    ensures d.SlowOk() && d.OutputOkOrFull() && d.m.Early() && d.m.Unread() < old(d.m.Unread())
    ensures d.m.Taken(old(d.m.data), old(d.m.next_in))
  {
    hide Deflater.TracedAs, Deflater.SlowOk, Deflater.Left, Deflater.KeyReadyHere, Deflater.Waiting,
      MatchFinder.Early, PendingOutput.Valid;
    d.MakeSpace();
    var bs := d.DeflateSlow(SyncFlush);
    d.SlowAgain(bs);
  }

  // Until it has taken all of the input.
  method UseUp(d: Deflater)
    requires d.Objects() && d.SlowOk() && d.OutputOkOrFull() && d.SlowMode() && d.m.Early()
    modifies d`match_length, d`prev_match, d`match_available, d`blocks
    modifies d.m.window, d.m.head, d.m.prev, d.sym`last_lit, d.sym.d_buf, d.sym.l_buf, d`log, d`seen, d.out
    modifies d.m`next_in, d.m`strstart, d.m`lookahead, d.m`block_start, d.m`match_start, d.m`prev_length, d.m`ins_h
    modifies d.m`insert
    modifies d.m`data, d.m`check, d.m`total_in, d.m`base, d.m`hist, d.m`written, d.m`solid, d.m`high_water
    ensures d.SlowOk() && d.OutputOkOrFull() && d.m.Early()
    ensures d.m.next_in == [] && d.m.lookahead == 0 && d.m.Taken(old(d.m.data), old(d.m.next_in))
  {
    hide Deflater.SlowOk, Deflater.OutputOkOrFull, MatchFinder.Early;
    while d.m.Unread() > 0
      invariant d.SlowOk() && d.OutputOkOrFull() && d.m.Early()
      invariant d.m.Taken(old(d.m.data), old(d.m.next_in))
      decreases d.m.Unread()
    {
      FlushSlow(d);
    }
  }

  /** fill_window does not keep its promise that every byte a search may look at has been
      given a value.  deflate_slow compresses 762 bytes for a flush, and then three more
      arrive: the window has slid, or slides now, before its top four bytes have ever
      been written.  The next step of deflate_slow searches from here. */
  method HighWaterGap(enc: Block -> seq<Piece>) returns (d: Deflater)
    ensures fresh(d) && d.Objects() && d.SlowOk() && d.OutputOk()
    ensures |d.m.data| == 765 && d.m.lookahead == MIN_MATCH && !d.m.Initialised()
  {
    hide Deflater.TracedAs, Deflater.SlowOk, Deflater.OutputOkOrFull, MatchFinder.Initialised, MatchFinder.Early,
      MatchFinder.Valid,
      MatchFinder.WrittenOk, Pow2;
    d := new Deflater(6, DefaultStrategy, 512, 8, NoCheck, enc, []);
    StartSlow(d);
    d.m.next_in := seq(762, _ => 0);
    FewBytes(d, 762);
    d.m.next_in := [0, 0, 0];
    NextFill(d);
  }

  lemma StartSlow(d: Deflater)
    requires d.Objects() && d.m.Valid() && d.m.WrittenOk() && d.m.data == [] && d.m.base == 0 && d.m.hist == []
    requires d.m.strstart == 0 && d.m.lookahead == 0 && d.m.block_start == 0 && d.m.insert == 0 && d.m.high_water == 0
    requires d.m.prev_length == MIN_MATCH - 1 && d.match_length == MIN_MATCH - 1 && !d.match_available
    requires d.m.match_start == 0
    requires d.blocks == [] && d.cuts == [Cut(0, 0)] && d.log == [] && d.SlowMode()
    requires d.sym.Valid() && d.sym.HasRoom() && d.sym.Tokens() == []
    requires d.out.put == d.head && d.out.bi_valid == 0 && d.out.Valid() && d.out.Aligned()
    ensures d.SlowOk() && d.OutputOkOrFull() && d.m.Early()
  {
    hide Deflater.SlowOk, Deflater.TracedAs, MatchFinder.Valid, MatchFinder.WrittenOk;
    d.FreshIsReady();
    d.HeaderTraced();
  }

  // The first input of a stream is used up.
  method FewBytes(d: Deflater, ghost n: nat)
    requires d.Objects() && d.SlowOk() && d.OutputOkOrFull() && d.SlowMode() && d.m.Early()
    requires d.m.data == [] && |d.m.next_in| == n
    modifies d`match_length, d`prev_match, d`match_available, d`blocks
    modifies d.m.window, d.m.head, d.m.prev, d.sym`last_lit, d.sym.d_buf, d.sym.l_buf, d`log, d`seen, d.out
    modifies d.m`next_in, d.m`strstart, d.m`lookahead, d.m`block_start, d.m`match_start, d.m`prev_length, d.m`ins_h
    modifies d.m`insert
    modifies d.m`data, d.m`check, d.m`total_in, d.m`base, d.m`hist, d.m`written, d.m`solid, d.m`high_water
    ensures d.SlowOk() && d.OutputOkOrFull() && d.m.Early()
    ensures d.m.next_in == [] && d.m.lookahead == 0 && |d.m.data| == n
  {
    hide Deflater.SlowOk, Deflater.OutputOkOrFull, MatchFinder.Early;
    UseUp(d);
    assert |d.m.data + d.m.next_in| == n;
  }

  // deflate_slow goes on: its fill_window leaves the gap.
  method NextFill(d: Deflater)
    requires d.Objects() && d.SlowOk() && d.OutputOkOrFull() && d.m.Early() && d.m.w_size == 512
    requires |d.m.data| == 762 && d.m.lookahead == 0 && |d.m.next_in| == MIN_MATCH
    modifies d.out, d.m.window, d.m.head, d.m.prev
    modifies d.m`next_in, d.m`strstart, d.m`lookahead, d.m`block_start, d.m`match_start, d.m`ins_h, d.m`insert
    modifies d.m`data, d.m`check, d.m`total_in, d.m`base, d.m`hist, d.m`written, d.m`solid, d.m`high_water
    ensures d.SlowOk() && d.OutputOk() && |d.m.data| == 765 && d.m.lookahead == MIN_MATCH && !d.m.Initialised()
  {
    hide Deflater.TracedAs, Deflater.Emitted, Deflater.KeyReadyHere, Deflater.Waiting, MatchFinder.Initialised,
      MatchFinder.Early, MatchFinder.LeavesGap,
      MatchFinder.Valid, MatchFinder.WrittenOk;
    GapAhead(d.m);
    d.MakeSpace();
    hide Deflater.SlowOk;
    d.SlowFill();
    assert |d.m.data + d.m.next_in| == 765;
  }

  // 762 bytes in the smallest window, however far it has slid.
  lemma GapAhead(m: MatchFinder)
    requires m.Valid() && m.WrittenOk() && m.Early() && m.w_size == 512
    requires |m.data| == 762 && m.lookahead == 0 && |m.next_in| == MIN_MATCH
    ensures m.LeavesGap()
  {
    hide WindowAgrees, ChainsAgree, KeysAgree, Halves;
  }
}
