/**
 The symbol buffer of trees.c as deflate.h's tally macros fill it: parallel arrays
 of distances and literals-or-lengths, and the running index last_lit.
 */
module SymbolBuffers {
  import opened Bits
  import opened Tokens

  type ush = i: int | 0 <= i < 0x1_0000

  // A zero distance marks a literal; lengths are stored minus MIN_MATCH.
  function SymbolToken(d: ush, l: byte): Token {
    if d == 0 then Literal(l) else Match(d, l + MIN_MATCH)
  }

  function Symbols(d: seq<ush>, l: seq<byte>): (r: seq<Token>)
    requires |d| == |l|
    ensures |r| == |d|
  {
    seq(|d|, i requires 0 <= i < |d| => SymbolToken(d[i], l[i]))
  }

  lemma SymbolsSnoc(d: seq<ush>, l: seq<byte>, n: nat)
    requires |d| == |l| && n < |d|
    ensures Symbols(d[..n + 1], l[..n + 1]) == Symbols(d[..n], l[..n]) + [SymbolToken(d[n], l[n])]
  {
  }

  class SymbolBuffer {
    const lit_bufsize: nat
    const d_buf: array<ush>
    const l_buf: array<byte>
    var last_lit: nat

    ghost predicate Valid()
      reads this
    {
      && 2 <= lit_bufsize
      && d_buf.Length == lit_bufsize
      && l_buf.Length == lit_bufsize
      && last_lit < lit_bufsize
    }

    function Tokens(): (r: seq<Token>)
      requires Valid()
      reads this, d_buf, l_buf
      ensures |r| == last_lit
    {
      Symbols(d_buf[..last_lit], l_buf[..last_lit])
    }

    constructor (size: nat)
      requires 2 <= size
      ensures Valid() && lit_bufsize == size && Tokens() == []
      ensures fresh(d_buf) && fresh(l_buf)
    {
      lit_bufsize := size;
      d_buf := new ush[size];
      l_buf := new byte[size];
      last_lit := 0;
    }

    // Room for one more symbol before the block has to be flushed.
    ghost predicate HasRoom()
      reads this
    {
      last_lit < lit_bufsize - 1
    }

    method TallyLit(c: byte) returns (flush: bool)
      requires Valid() && HasRoom()
      modifies this`last_lit, d_buf, l_buf
      ensures Valid()
      ensures Tokens() == old(Tokens()) + [Literal(c)]
      ensures flush <==> !HasRoom()
    {
      d_buf[last_lit] := 0;
      l_buf[last_lit] := c;
      SymbolsSnoc(d_buf[..], l_buf[..], last_lit);
      Prefixes(old(last_lit));
      last_lit := last_lit + 1;
      flush := last_lit == lit_bufsize - 1;
    }

    /** `length` is the match length minus MIN_MATCH.  The casts to ush and uch are
        written out as remainders. */
    method TallyDist(distance: nat, length: nat) returns (flush: bool)
      requires Valid() && HasRoom()
      requires 1 <= distance < 0x1_0000 && length < 256
      modifies this`last_lit, d_buf, l_buf
      ensures Valid()
      ensures Tokens() == old(Tokens()) + [Match(distance, length + MIN_MATCH)]
      ensures flush <==> !HasRoom()
    {
      d_buf[last_lit] := distance % 0x1_0000;
      l_buf[last_lit] := length % 256;
      SymbolsSnoc(d_buf[..], l_buf[..], last_lit);
      Prefixes(old(last_lit));
      last_lit := last_lit + 1;
      flush := last_lit == lit_bufsize - 1;
    }

    // Slices of the whole arrays are slices of the arrays.
    twostate lemma Prefixes(n: nat)
      requires Valid() && n < lit_bufsize
      requires d_buf[..n] == old(d_buf[..n]) && l_buf[..n] == old(l_buf[..n])
      ensures d_buf[..][..n + 1] == d_buf[..n + 1] && l_buf[..][..n + 1] == l_buf[..n + 1]
      ensures d_buf[..][..n] == old(d_buf[..n]) && l_buf[..][..n] == old(l_buf[..n])
    {
    }

    // init_block, when the block has been encoded.
    method Reset()
      requires Valid()
      modifies this`last_lit
      ensures Valid() && HasRoom() && Tokens() == []
    {
      last_lit := 0;
    }
  }
}
