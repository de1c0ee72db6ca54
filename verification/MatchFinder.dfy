/**
 The sliding window and the match finder of deflate.c: fill_window,
 INSERT_STRING and longest_match.

 Ghost state relates the window to the whole input: `data` is everything read so
 far, `base` the absolute position of window[0], `hist` the strings inserted in
 the dictionary.
 */
module MatchFinders {
  import opened Bits
  import opened HashKey
  import opened HashChain
  import opened Tokens
  import opened SymbolBuffers
  import opened Checksum
  import opened Choices

  const MIN_LOOKAHEAD := MAX_MATCH + MIN_MATCH + 1
  const WIN_INIT := MAX_MATCH

  // Unsigned 32-bit wrap-around.
  function U32(x: int): (r: nat)
    ensures r < 0x1_0000_0000
  {
    x % 0x1_0000_0000
  }

  // window[..n] holds the end of data, which starts at base.
  ghost predicate WindowAgrees(win: seq<byte>, data: seq<byte>, base: nat, n: nat) {
    n <= |win| && |data| == base + n && win[..n] == data[base..]
  }

  // The key of the string at absolute position p.
  ghost function KeyAt(bits: nat, data: seq<byte>, p: nat): nat
    requires p + 2 < |data|
  {
    Key3(bits, data[p], data[p + 1], data[p + 2])
  }

  // Every dictionary entry carries the key of the input at its position.
  ghost predicate KeysAgree(bits: nat, data: seq<byte>, hist: seq<Entry>) {
    forall i :: 0 <= i < |hist| ==>
      hist[i].pos + 2 < |data| && hist[i].key == KeyAt(bits, data, hist[i].pos)
  }

  // The rolling key is ready for the string at p, if that string is complete.
  ghost predicate KeyReady(bits: nat, h: nat, data: seq<byte>, p: nat) {
    p + 2 < |data| ==> Ready(bits, h, data[p], data[p + 1])
  }

  // The strings at n positions from p on have joined the dictionary.
  ghost predicate Grown(hist: seq<Entry>, hist': seq<Entry>, p: int, n: int) {
    && 0 <= n && hist <= hist' && |hist'| == |hist| + n
    && forall i :: |hist| <= i < |hist'| ==> hist'[i].pos == p + i - |hist|
  }

  ghost function PositionsOf(hist: seq<Entry>): set<nat> {
    set e | e in hist :: e.pos
  }

  lemma GrownPositions(hist: seq<Entry>, hist': seq<Entry>, p: int, n: int)
    requires Grown(hist, hist', p, n)
    ensures PositionsOf(hist) <= PositionsOf(hist')
    ensures forall q: nat :: p <= q < p + n ==> q in PositionsOf(hist')
  {
    forall q: nat | p <= q < p + n ensures q in PositionsOf(hist') {
      assert hist'[|hist| + q - p] in hist' && hist'[|hist| + q - p].pos == q;
    }
  }

  lemma KeysGrow(bits: nat, data: seq<byte>, more: seq<byte>, hist: seq<Entry>)
    requires KeysAgree(bits, data, hist)
    ensures KeysAgree(bits, data + more, hist)
  {
  }

  lemma WindowByte(win: seq<byte>, data: seq<byte>, base: nat, n: nat, i: nat)
    requires WindowAgrees(win, data, base, n) && i < n
    ensures win[i] == data[base + i]
  {
    assert win[..n][i] == data[base..][i];
  }

  lemma WindowString(win: seq<byte>, data: seq<byte>, base: nat, n: nat, i: nat)
    requires WindowAgrees(win, data, base, n) && i + 2 < n
    ensures win[i] == data[base + i] && win[i + 1] == data[base + i + 1] && win[i + 2] == data[base + i + 2]
  {
    WindowByte(win, data, base, n, i);
    WindowByte(win, data, base, n, i + 1);
    WindowByte(win, data, base, n, i + 2);
  }

  // n bytes at window indices a and b agree.
  ghost predicate Agree(win: seq<byte>, a: nat, b: nat, n: nat)
    requires a + n <= |win| && b + n <= |win|
  {
    win[a..a + n] == win[b..b + n]
  }

  // Inside the data, agreement in the window is repetition in the input.
  lemma AgreeRepeats(win: seq<byte>, data: seq<byte>, base: nat, n: nat, a: nat, b: nat, len: nat)
    requires WindowAgrees(win, data, base, n)
    requires a < b && b + len <= n
    ensures Agree(win, a, b, len) <==> Repeats(data, base + b, b - a, len)
  {
    assert win[b..b + len] == data[base + b..base + b + len] by {
      WindowSlice(win, data, base, n, b, b + len);
    }
    assert win[a..a + len] == data[base + a..base + a + len] by {
      WindowSlice(win, data, base, n, a, a + len);
    }
    RepeatsSlices(data, base + b, b - a, len);
  }

  lemma WindowSlice(win: seq<byte>, data: seq<byte>, base: nat, n: nat, i: nat, j: nat)
    requires WindowAgrees(win, data, base, n) && i <= j <= n
    ensures win[i..j] == data[base + i..base + j]
  {
    assert win[i..j] == win[..n][i..j];
    assert data[base + i..base + j] == data[base..][i..j];
  }

  lemma RepeatsSlices(data: seq<byte>, pos: nat, dist: nat, len: nat)
    requires 1 <= dist <= pos && pos + len <= |data|
    ensures Repeats(data, pos, dist, len) <==> data[pos - dist..pos - dist + len] == data[pos..pos + len]
  {
    var x, y := data[pos - dist..pos - dist + len], data[pos..pos + len];
    if x == y {
      forall k | pos <= k < pos + len ensures data[k] == data[k - dist] {
        assert x[k - pos] == y[k - pos];
      }
    }
    if Repeats(data, pos, dist, len) {
      forall i | 0 <= i < len ensures x[i] == y[i] {
        var k := pos + i;
        assert data[k] == data[k - dist];
      }
    }
  }

  /** INSERT_STRING on values: the updated tables agree with the longer index. */
  lemma InsertEntry(bits: nat, data: seq<byte>, head: seq<nat>, prev: seq<nat>, hist: seq<Entry>,
                    base: nat, str: nat, h: nat)
    requires ValidBits(bits) && |head| == Pow2(bits)
    requires ChainsAgree(head, prev, hist, base) && KeysAgree(bits, data, hist)
    requires base + str + 2 < |data|
    requires hist != [] ==> hist[|hist| - 1].pos < base + str
    requires KeyReady(bits, h, data, base + str)
    ensures var p := base + str;
            var k := Update(bits, h, data[p + 2]);
            && k == KeyAt(bits, data, p)
            && k < |head| && head[k] == Link(hist, k, base) && (head[k] < str || head[k] == 0)
            && ChainsAgree(head[k := str], prev[str % |prev| := head[k]], hist + [Entry(p, k)], base)
            && KeysAgree(bits, data, hist + [Entry(p, k)])
            && KeyReady(bits, k, data, p + 1)
  {
    hide Update, Key3, Newest, Pow2;
    var p := base + str;
    var k := Update(bits, h, data[p + 2]);
    assert k == KeyAt(bits, data, p);
    ReadyAfterInsert(bits, data[p], data[p + 1], data[p + 2]);
    InsertAgrees(head, prev, hist, base, Entry(p, k));
    LinkBelow(hist, k, base, p);
    assert Slot(p, base, |prev|) == str % |prev|;
  }

  lemma SlideData(win: seq<byte>, data: seq<byte>, base: nat, n: nat, w: nat)
    requires WindowAgrees(win, data, base, n) && |win| == 2 * w && w <= n
    ensures WindowAgrees(win[w..] + win[w..], data, base + w, n - w)
  {
    assert (win[w..] + win[w..])[..n - w] == win[..n][w..];
    assert data[base..][w..] == data[base + w..];
  }

  lemma ReadData(win: seq<byte>, win': seq<byte>, data: seq<byte>, more: seq<byte>, base: nat, n: nat)
    requires WindowAgrees(win, data, base, n)
    requires n + |more| <= |win'|
    requires win'[..n] == win[..n] && win'[n..n + |more|] == more
    ensures WindowAgrees(win', data + more, base, n + |more|)
  {
    assert win'[..n + |more|] == win'[..n] + win'[n..n + |more|];
    assert (data + more)[base..] == data[base..] + more;
  }

  // The seq with positions i..j set.
  function MarkWritten(written: seq<bool>, i: nat, j: nat): (r: seq<bool>)
    requires i <= j <= |written|
    ensures |r| == |written|
  {
    seq(|written|, k requires 0 <= k < |written| => written[k] || i <= k < j)
  }

  // Entry e is no better than `best` as a match for the string at strstart.
  ghost predicate NotBetter(win: seq<byte>, base: nat, strstart: nat, e: Entry, key: nat, best: nat) {
    e.key == key && base < e.pos < base + strstart && best < MAX_MATCH && strstart + best < |win| ==>
      !Agree(win, e.pos - base, strstart, best + 1)
  }

  // Every entry newer than k has been looked at.
  ghost predicate Examined(win: seq<byte>, base: nat, strstart: nat, hist: seq<Entry>, k: int, key: nat, best: nat) {
    forall i :: k < i < |hist| && 0 <= i ==> NotBetter(win, base, strstart, hist[i], key, best)
  }

  // No entry beyond absolute position `limit` matches more than `best` bytes.
  ghost predicate NoneBetter(win: seq<byte>, base: nat, strstart: nat, hist: seq<Entry>, limit: int, key: nat,
                             best: nat) {
    forall i :: 0 <= i < |hist| && hist[i].pos > limit ==> NotBetter(win, base, strstart, hist[i], key, best)
  }

  // One more entry examined, with the best length so far not decreasing.
  lemma ExamineMore(win: seq<byte>, base: nat, strstart: nat, hist: seq<Entry>, j: int, k: nat, key: nat, best: nat,
                    best': nat)
    requires -1 <= j < k < |hist| && best <= best'
    requires Examined(win, base, strstart, hist, k, key, best)
    requires NotBetter(win, base, strstart, hist[k], key, best')
    requires NoneBetween(hist, j, k, key)
    ensures Examined(win, base, strstart, hist, j, key, best')
  {
    hide NotBetter;
    ExaminedMono(win, base, strstart, hist, k, key, best, best');
    forall i | j < i < |hist| && 0 <= i ensures NotBetter(win, base, strstart, hist[i], key, best') {
      if i < k {
        OtherKey(win, base, strstart, hist[i], key, best');
      }
    }
  }

  lemma ExaminedNewer(win: seq<byte>, base: nat, strstart: nat, hist: seq<Entry>, k: nat, key: nat, best: nat)
    requires k < |hist| && Increasing(hist) && Examined(win, base, strstart, hist, k, key, best)
    ensures NoneBetter(win, base, strstart, hist, hist[k].pos, key, best)
  {
    hide NotBetter;
  }

  lemma OtherKey(win: seq<byte>, base: nat, strstart: nat, e: Entry, key: nat, best: nat)
    requires e.key != key
    ensures NotBetter(win, base, strstart, e, key, best)
  {
  }

  lemma RepeatsSameKey(bits: nat, data: seq<byte>, pos: nat, d: nat, len: nat)
    requires MIN_MATCH <= len && 1 <= d <= pos && pos + len <= |data|
    ensures Repeats(data, pos, d, len) ==> KeyAt(bits, data, pos) == KeyAt(bits, data, pos - d)
  {
    hide Key3;
    if Repeats(data, pos, d, len) {
      assert data[pos] == data[pos - d] && data[pos + 1] == data[pos + 1 - d] && data[pos + 2] == data[pos + 2 - d];
    }
  }

  lemma NotBetterRepeats(win: seq<byte>, data: seq<byte>, base: nat, n: nat, strstart: nat, e: Entry, key: nat, r: nat)
    requires WindowAgrees(win, data, base, n) && strstart + r + 1 <= n && r < MAX_MATCH
    requires e.key == key && base < e.pos < base + strstart
    requires NotBetter(win, base, strstart, e, key, r)
    ensures !Repeats(data, base + strstart, base + strstart - e.pos, r + 1)
  {
    hide Agree, Repeats;
    AgreeRepeats(win, data, base, n, e.pos - base, strstart, r + 1);
  }

  lemma LinkOf(head: seq<nat>, prev: seq<nat>, hist: seq<Entry>, base: nat, k: nat)
    requires ChainsAgree(head, prev, hist, base)
    requires k < |hist| && hist[k].pos + |prev| > hist[|hist| - 1].pos && hist[k].pos > base
    ensures var m := prev[(hist[k].pos - base) % |prev|];
            m == Link(hist[..k], hist[k].key, base) && m < hist[k].pos - base
  {
    hide HeadAgrees, PrevAgrees;
    Step(head, prev, hist, base, k);
  }

  lemma TooNew(win: seq<byte>, base: nat, strstart: nat, e: Entry, key: nat, best: nat)
    requires e.pos >= base + strstart
    ensures NotBetter(win, base, strstart, e, key, best)
  {
  }

  lemma AllExamined(win: seq<byte>, base: nat, strstart: nat, hist: seq<Entry>, k: nat, key: nat, best: nat,
                    best': nat, limit: int)
    requires k < |hist| && best <= best'
    requires Examined(win, base, strstart, hist, k, key, best)
    requires NotBetter(win, base, strstart, hist[k], key, best')
    requires forall i :: 0 <= i < k && hist[i].key == key ==> hist[i].pos <= limit
    ensures NoneBetter(win, base, strstart, hist, limit, key, best')
  {
    hide NotBetter;
    ExaminedMono(win, base, strstart, hist, k, key, best, best');
    forall i | 0 <= i < |hist| && hist[i].pos > limit ensures NotBetter(win, base, strstart, hist[i], key, best') {
      if i < k {
        OtherKey(win, base, strstart, hist[i], key, best');
      }
    }
  }

  /** Candidates with the key of the current string agree on the third byte as soon
      as they agree on the first two. */
  lemma ThirdByteAgrees(bits: nat, win: seq<byte>, data: seq<byte>, base: nat, n: nat, cur: nat, str: nat)
    requires ValidBits(bits) && WindowAgrees(win, data, base, n)
    requires cur + 2 < n && str + 2 < n
    requires KeyAt(bits, data, base + cur) == KeyAt(bits, data, base + str)
    ensures Agree(win, cur, str, 2) ==> Agree(win, cur, str, MIN_MATCH)
  {
    hide Key3, Agree;
    if Agree(win, cur, str, 2) {
      WindowString(win, data, base, n, cur);
      WindowString(win, data, base, n, str);
      AgreeByte(win, cur, str, 2, 0);
      AgreeByte(win, cur, str, 2, 1);
      ThirdByte(bits, win[str], win[str + 1], win[cur + 2], win[str + 2]);
      AgreeSnoc(win, cur, str, 2);
    }
  }

  lemma ExaminedMono(win: seq<byte>, base: nat, strstart: nat, hist: seq<Entry>, k: int, key: nat, best: nat,
                     best': nat)
    requires Examined(win, base, strstart, hist, k, key, best) && best <= best'
    ensures Examined(win, base, strstart, hist, k, key, best')
  {
    forall i | k < i < |hist| && 0 <= i ensures NotBetter(win, base, strstart, hist[i], key, best') {
      assert NotBetter(win, base, strstart, hist[i], key, best);
      var e := hist[i];
      if e.key == key && base < e.pos < base + strstart && best' < MAX_MATCH && strstart + best' < |win| {
        AgreeMono(win, e.pos - base, strstart, best + 1, best' + 1);
      }
    }
  }

  lemma AgreeMono(win: seq<byte>, a: nat, b: nat, m: nat, n: nat)
    requires m <= n && a + n <= |win| && b + n <= |win|
    ensures Agree(win, a, b, n) ==> Agree(win, a, b, m)
  {
    if Agree(win, a, b, n) {
      assert win[a..a + m] == win[a..a + n][..m];
      assert win[b..b + m] == win[b..b + n][..m];
    }
  }

  lemma AgreeByte(win: seq<byte>, a: nat, b: nat, n: nat, i: nat)
    requires i < n && a + n <= |win| && b + n <= |win|
    ensures Agree(win, a, b, n) ==> win[a + i] == win[b + i]
  {
    assert win[a..a + n][i] == win[a + i];
    assert win[b..b + n][i] == win[b + i];
  }

  lemma AgreeBytes(win: seq<byte>, a: nat, b: nat, n: nat)
    requires a + n <= |win| && b + n <= |win| && forall i :: b <= i < b + n ==> win[i] == win[i - b + a]
    ensures Agree(win, a, b, n)
  {
    var x, y := win[a..a + n], win[b..b + n];
    forall i | 0 <= i < n ensures x[i] == y[i] {
      assert win[b + i] == win[b + i - b + a];
    }
  }

  lemma AgreeTwo(win: seq<byte>, a: nat, b: nat)
    requires a + 2 <= |win| && b + 2 <= |win|
    requires win[a] == win[b] && win[a + 1] == win[b + 1]
    ensures Agree(win, a, b, 2)
  {
    assert win[a..a + 2] == [win[a], win[a + 1]];
    assert win[b..b + 2] == [win[b], win[b + 1]];
  }

  // A difference at i rules out agreement on more than i bytes.
  lemma Differs(win: seq<byte>, a: nat, b: nat, i: nat, n: nat)
    requires i < n && a + n <= |win| && b + n <= |win| && win[a + i] != win[b + i]
    ensures !Agree(win, a, b, n)
  {
    AgreeByte(win, a, b, n, i);
  }

  lemma AgreeSnoc(win: seq<byte>, a: nat, b: nat, n: nat)
    requires a + n < |win| && b + n < |win|
    requires Agree(win, a, b, n) && win[a + n] == win[b + n]
    ensures Agree(win, a, b, n + 1)
  {
    assert win[a..a + n + 1] == win[a..a + n] + [win[a + n]];
    assert win[b..b + n + 1] == win[b..b + n] + [win[b + n]];
  }

  // Which window bytes have ever been given a value, after the slide.
  function SlideWritten(written: seq<bool>, w: nat): (r: seq<bool>)
    ensures |written| == 2 * w ==> |r| == 2 * w
  {
    if |written| == 2 * w then written[w..] + written[w..] else written
  }

  lemma MarkTwice(written: seq<bool>, i: nat, j: nat, k: nat)
    requires i <= j <= k <= |written|
    ensures MarkWritten(MarkWritten(written, i, j), j, k) == MarkWritten(written, i, k)
  {
  }

  lemma MarkNothing(written: seq<bool>, i: nat)
    requires i <= |written|
    ensures MarkWritten(written, i, i) == written
  {
  }

  predicate InHalves(i: int, w: nat, s: nat, hw: nat) {
    if i < w then i < s else i < hw
  }

  // The bytes given a value are the first s of the lower half, and those of the upper
  // half that lie below hw.
  ghost predicate Halves(written: seq<bool>, w: nat, s: nat, hw: nat) {
    |written| == 2 * w && s <= w && forall i :: 0 <= i < 2 * w ==> written[i] == InHalves(i, w, s, hw)
  }

  /** What fill_window knows about the bytes given a value, with the data ending at e and
      the high water mark at hw.  A hole is left below w only while hw is at least w. */
  ghost predicate Tracked(written: seq<bool>, w: nat, s: nat, e: int, hw: nat) {
    && |written| == 2 * w && 0 <= e <= hw <= 2 * w
    && Halves(written, w, s, hw)
    && Min(e, w) <= s
    && (hw < w ==> s == hw)
    && (hw == 2 * w ==> s == w)
    && (e > 0 ==> Min(2 * w, e + WIN_INIT) <= hw)
  }

  // Every byte below n has been given a value.
  ghost predicate WrittenBelow(written: seq<bool>, n: nat) {
    n <= |written| && forall i :: 0 <= i < n ==> written[i]
  }

  // Where zeroing ahead of the data leaves the high water mark.
  function HighWater(size: nat, end: nat, hw: nat): nat {
    if hw < Min(size, end + WIN_INIT) then Min(size, end + WIN_INIT) else hw
  }

  // The zeroing at the end of fill_window: the range and the new high water mark.
  function ZeroFrom(size: nat, curr: nat, hw: nat): (r: (nat, nat))
    requires curr <= size && hw <= size
    ensures r.0 <= r.1 <= size
  {
    if hw < curr then (curr, curr + Min(size - curr, WIN_INIT))
    else if hw < curr + WIN_INIT then (hw, hw + Min(curr + WIN_INIT - hw, size - hw))
    else (hw, hw)
  }

  lemma SlideHalves(written: seq<bool>, w: nat, s: nat, hw: nat)
    requires Halves(written, w, s, hw) && w <= hw <= 2 * w
    ensures Halves(SlideWritten(written, w), w, hw - w, hw)
  {
    forall i | 0 <= i < 2 * w ensures SlideWritten(written, w)[i] == InHalves(i, w, hw - w, hw) {
      var j := if i < w then w + i else i;
      assert SlideWritten(written, w)[i] == written[j] == InHalves(j, w, s, hw);
    }
  }

  // Bytes are written behind the data.
  lemma MarkHalves(written: seq<bool>, w: nat, s: nat, hw: nat, i: nat, j: nat)
    requires Halves(written, w, s, hw) && i <= j <= 2 * w
    requires Min(i, w) <= s && i <= hw
    ensures Halves(MarkWritten(written, i, j), w, Max(s, Min(j, w)), Max(hw, j))
  {
    var m := MarkWritten(written, i, j);
    forall k | 0 <= k < 2 * w ensures m[k] == InHalves(k, w, Max(s, Min(j, w)), Max(hw, j)) {
      assert written[k] == InHalves(k, w, s, hw);
    }
  }

  lemma MarkUpper(written: seq<bool>, w: nat, s: nat, hw: nat, i: nat, j: nat)
    requires Halves(written, w, s, hw) && w <= i <= j <= 2 * w && i <= hw
    ensures Halves(MarkWritten(written, i, j), w, s, Max(hw, j))
  {
    var m := MarkWritten(written, i, j);
    forall k | 0 <= k < 2 * w ensures m[k] == InHalves(k, w, s, Max(hw, j)) {
      assert written[k] == InHalves(k, w, s, hw);
    }
  }

  // The end of the written part of the lower half after fill_window: s is where it ended
  // before (after the slide, if there was one), e is where the data end now.
  function SolidNext(w: nat, s: nat, hw: nat, e: nat): nat {
    if hw < w then Min(w, HighWater(2 * w, e, hw)) else Max(s, Min(e, w))
  }

  // Bytes that a search may look at lie between s and w.
  predicate Gap(w: nat, s: nat, hw: nat, e: nat) {
    hw >= w && e < w && s < Min(w, e + WIN_INIT)
  }

  // What is known of the high water mark and the hole while the window, whose bytes have
  // always been used in order, has not slid twice: n bytes have been read.
  predicate EarlyWindow(w: nat, base: nat, n: nat, s: nat, hw: nat) {
    && (base == 0 ==> hw <= n + WIN_INIT)
    && (base == w ==> base + s <= n + WIN_INIT && hw >= w)
    && (base == 0 || base == w || base >= 2 * w)
  }

  lemma EarlyStays(w: nat, base: nat, n: nat, s: nat, hw: nat, slides: bool, n': nat)
    requires WIN_INIT <= w && n <= n' && (slides ==> w <= hw)
    requires var base' := if slides then base + w else base; base' <= n' <= base' + 2 * w
    ensures var base', s0 := if slides then base + w else base, if slides then hw - w else s;
            EarlyWindow(w, base, n, s, hw) ==>
              EarlyWindow(w, base', n', SolidNext(w, s0, hw, n' - base'), HighWater(2 * w, n' - base', hw))
  {
  }

  // An empty window says nothing about what has been written.
  lemma StartOver(written: seq<bool>, w: nat, s: nat, e: int, hw: nat)
    ensures Tracked(written, w, s, e, hw) ==> Tracked(written, w, s, 0, hw)
  {
    hide Halves;
  }

  lemma TrackedBounds(written: seq<bool>, w: nat, s: nat, e: int, hw: nat)
    requires Tracked(written, w, s, e, hw)
    ensures |written| == 2 * w && 0 <= e <= hw <= 2 * w
  {
  }

  lemma InitialisedHalves(written: seq<bool>, w: nat, s: nat, e: nat, hw: nat)
    requires Tracked(written, w, s, e, hw) && Min(2 * w, e + WIN_INIT) <= hw
    ensures WrittenBelow(written, Min(2 * w, e + WIN_INIT)) <==> Min(w, e + WIN_INIT) <= s
  {
    if Min(w, e + WIN_INIT) <= s {
      forall i | 0 <= i < Min(2 * w, e + WIN_INIT) ensures written[i] {
        assert written[i] == InHalves(i, w, s, hw);
      }
    } else {
      assert written[s] == InHalves(s, w, s, hw);
    }
  }

  // Reading up to e' and zeroing what lies behind.
  lemma ReadAndZero(slid: seq<bool>, w: nat, s: nat, hw: nat, a: nat, e': nat)
    requires Halves(slid, w, s, hw) && a <= e' <= 2 * w && a <= hw <= 2 * w
    requires Min(a, w) <= s && (hw < w ==> s == hw)
    ensures var z := ZeroFrom(2 * w, e', hw);
            Halves(MarkWritten(MarkWritten(slid, a, e'), z.0, z.1), w, SolidNext(w, s, hw, e'), z.1)
  {
    HalvesLength(slid, w, s, hw);
    hide Halves, MarkWritten;
    var z := ZeroFrom(2 * w, e', hw);
    MarkHalves(slid, w, s, hw, a, e');
    var read, s1, hw1 := MarkWritten(slid, a, e'), Max(s, Min(e', w)), Max(hw, e');
    if hw < w {
      MarkHalves(read, w, s1, hw1, z.0, z.1);
    } else {
      MarkUpper(read, w, s1, hw1, z.0, z.1);
    }
  }

  lemma NextBounds(w: nat, s: nat, hw: nat, a: nat, e': nat)
    requires WIN_INIT <= w && a <= e' <= 2 * w && a <= hw <= 2 * w && Min(a, w) <= s <= w
    requires (hw < w ==> s == hw) && (hw == 2 * w ==> s == w)
    ensures var s', hw' := SolidNext(w, s, hw, e'), ZeroFrom(2 * w, e', hw).1;
            && e' <= hw' && Min(2 * w, e' + WIN_INIT) <= hw' <= 2 * w && Min(e', w) <= s' <= w
            && (hw' < w ==> s' == hw') && (hw' == 2 * w ==> s' == w)
            && (Min(w, e' + WIN_INIT) <= s' <==> !Gap(w, s, hw, e'))
  {
  }

  /** fill_window on the record of what has been written, after the slide if there is one:
      the data grow from a to e', and the bytes behind them are zeroed. */
  lemma FillTracks(slid: seq<bool>, w: nat, s: nat, hw: nat, a: nat, e': nat)
    requires WIN_INIT <= w && Halves(slid, w, s, hw) && a <= e' <= 2 * w == |slid| && a <= hw <= 2 * w
    requires Min(a, w) <= s && (hw < w ==> s == hw) && (hw == 2 * w ==> s == w)
    ensures var z := ZeroFrom(2 * w, e', hw);
            var marked := MarkWritten(MarkWritten(slid, a, e'), z.0, z.1);
            && Tracked(marked, w, SolidNext(w, s, hw, e'), e', z.1)
            && (WrittenBelow(marked, Min(2 * w, e' + WIN_INIT)) <==> !Gap(w, s, hw, e'))
  {
    HalvesLength(slid, w, s, hw);
    hide Halves, MarkWritten, WrittenBelow, SolidNext, Gap, ZeroFrom;
    var z := ZeroFrom(2 * w, e', hw);
    var marked := MarkWritten(MarkWritten(slid, a, e'), z.0, z.1);
    ReadAndZero(slid, w, s, hw, a, e');
    NextBounds(w, s, hw, a, e');
    InitialisedHalves(marked, w, SolidNext(w, s, hw, e'), e', z.1);
  }

  // Where fill_window begins to read.
  lemma SlidTracked(written: seq<bool>, w: nat, s: nat, e: nat, hw: nat)
    requires Tracked(written, w, s, e, hw)
    ensures Halves(written, w, s, hw) && Min(e, w) <= s && (hw < w ==> s == hw) && (hw == 2 * w ==> s == w)
    ensures w <= e ==> Halves(SlideWritten(written, w), w, hw - w, hw) && |SlideWritten(written, w)| == 2 * w
  {
    if w <= e {
      SlideHalves(written, w, s, hw);
    }
  }

  lemma HalvesLength(written: seq<bool>, w: nat, s: nat, hw: nat)
    requires Halves(written, w, s, hw)
    ensures |written| == 2 * w && s <= w
  {
  }

  lemma NothingTracked(written: seq<bool>, w: nat)
    requires |written| == 2 * w && w > 0 && forall i :: 0 <= i < 2 * w ==> !written[i]
    ensures Tracked(written, w, 0, 0, 0)
  {
  }

  class MatchFinder {
    const w_size: nat
    const hash_bits: nat
    const cfg: Config
    const start: Check          // strm->adler before the first byte
    const window: array<byte>
    const head: array<ush>
    const prev: array<ush>

    var next_in: seq<byte>      // input not yet read; its length is avail_in
    var strstart: nat
    var lookahead: nat
    var block_start: int
    var match_start: nat
    var prev_length: nat
    var ins_h: nat
    var insert: nat

    var check: Check            // strm->adler
    var total_in: nat
    var high_water: nat         // window bytes at or above it were never zeroed

    ghost var data: seq<byte>
    ghost var base: nat
    ghost var hist: seq<Entry>
    ghost var written: seq<bool>
    ghost var solid: nat        // where the bytes given a value end in the lower half

    // Sizes fixed when the stream is initialised.
    ghost predicate Shape() {
      && 512 <= w_size <= 0x8000
      && ValidBits(hash_bits)
      && window.Length == 2 * w_size
      && head.Length == Pow2(hash_bits)
      && prev.Length == w_size
      && head != prev
    }

    function MaxDist(): int {
      w_size - MIN_LOOKAHEAD
    }

    // str & w_mask, for a power of two w_size.
    function Mask(str: nat): (r: nat)
      requires w_size > 0
      ensures r < w_size
    {
      str % w_size
    }

    // Absolute position of strstart.
    ghost function At(): nat
      reads this`base, this`strstart
    {
      base + strstart
    }

    // The window ends with the end of the data.
    ghost predicate DataOk()
      reads this`data, this`base, window
    {
      && base <= |data| <= base + window.Length
      && WindowAgrees(window[..], data, base, |data| - base)
    }

    // The lookahead is what lies between strstart and the end of the data.
    ghost predicate Synced()
      reads this`data, this`base, this`strstart, this`lookahead
    {
      |data| == base + strstart + lookahead
    }

    // The checksum covers exactly the data read.
    ghost predicate CheckOk()
      reads this`check, this`total_in, this`data
    {
      Covers(check, start, data) && total_in == |data|
    }

    ghost predicate DictOk()
      reads this`data, this`base, this`hist, head, prev
    {
      && ChainsAgree(head[..], prev[..], hist, base)
      && KeysAgree(hash_bits, data, hist)
    }

    // Dictionary positions lie before absolute position p.
    ghost predicate Before(p: int)
      reads this`hist
    {
      hist != [] ==> hist[|hist| - 1].pos < p
    }

    // Strings still to be inserted because their third byte was not there yet.
    ghost predicate InsertOk()
      reads this`insert, this`strstart, this`lookahead
    {
      && insert <= 2
      && insert <= strstart
      && (insert > 0 ==> lookahead + insert < MIN_MATCH)
    }

    ghost predicate Valid()
      reads this`data, this`check, this`total_in, this`base, this`strstart, this`lookahead, this`hist, this`insert
      reads window, head, prev
    {
      && Shape() && DataOk() && Synced() && DictOk() && InsertOk()
      && Before(At() - insert) && CheckOk()
    }

    /** deflateInit2_ and lm_init: an empty window and an empty dictionary.  The
        contents of window and prev are whatever the allocator returned. */
    constructor (w: nat, hashBits: nat, config: Config, initial: Check)
      requires 512 <= w <= 0x8000 && ValidBits(hashBits)
      requires initial == NoCheck || initial == AdlerCheck(1) || initial == CrcCheck(0)
      ensures Valid() && WrittenOk() && solid == 0
      ensures w_size == w && hash_bits == hashBits && cfg == config && start == initial
      ensures data == [] && next_in == [] && base == 0 && hist == []
      ensures strstart == 0 && lookahead == 0 && block_start == 0 && insert == 0
      ensures prev_length == MIN_MATCH - 1 && match_start == 0 && high_water == 0
      ensures fresh(window) && fresh(head) && fresh(prev)
    {
      w_size, hash_bits, cfg := w, hashBits, config;
      start, check, total_in := initial, initial, 0;
      window := new byte[2 * w];
      head := new ush[Pow2(hashBits)];
      prev := new ush[w];
      next_in := [];
      strstart, lookahead, block_start, match_start := 0, 0, 0, 0;
      prev_length := MIN_MATCH - 1;
      ins_h, insert, high_water := 0, 0, 0;
      data, base, hist := [], 0, [];
      written, solid := seq(2 * w, _ => false), 0;
      new;
      hide Tracked;
      NothingTracked(written, w);
      ClearHash();
      CoversNothing(initial);
    }

    // CLEAR_HASH: forget every string.
    method ClearHash()
      requires Shape()
      modifies head, this`hist
      ensures hist == [] && DictOk()
    {
      var n := head.Length;
      while n > 0
        invariant 0 <= n <= head.Length
        invariant forall i :: n <= i < head.Length ==> head[i] == 0
      {
        n := n - 1;
        head[n] := 0;
      }
      hist := [];
    }

    /** What a full flush does to the history: no later match refers to what came
        before, and an empty lookahead lets the window start over. */
    method Forget()
      requires Valid()
      modifies head, this`hist, this`strstart, this`block_start, this`insert, this`base
      ensures Valid() && hist == [] && At() == old(At())
      ensures old(WrittenOk()) ==> WrittenOk()
      ensures old(lookahead) == 0 ==> strstart == 0 && block_start == 0 && insert == 0
      ensures old(lookahead) != 0 ==>
        strstart == old(strstart) && block_start == old(block_start) && insert == old(insert)
    {
      hide Tracked, CheckOk, KeysAgree;
      ClearHash();
      if lookahead == 0 {
        StartOver(written, w_size, solid, End(), high_water);
        base := At();
        strstart, block_start, insert := 0, 0, 0;
      }
    }

    /** INSERT_STRING: insert the string at window index str, which lies beyond
        all inserted strings, and return the previous head of its chain. */
    method InsertString(str: nat) returns (match_head: nat)
      requires Shape() && DataOk() && DictOk()
      requires base + str + 2 < |data|
      requires Before(base + str)
      requires KeyReady(hash_bits, ins_h, data, base + str)
      modifies this`ins_h, this`hist, head, prev
      ensures DictOk()
      ensures hist == old(hist) + [Entry(base + str, KeyAt(hash_bits, data, base + str))]
      ensures match_head == Link(old(hist), KeyAt(hash_bits, data, base + str), base)
      ensures hist != [] && hist[|hist| - 1].pos == base + str
      ensures match_head == Link(hist[..|hist| - 1], hist[|hist| - 1].key, base)
      ensures match_head < str || match_head == 0
      ensures KeyReady(hash_bits, ins_h, data, base + str + 1)
    {
      hide Update, Key3, Ready, KeysAgree, ChainsAgree, Link, Pow2;
      WindowByte(window[..], data, base, |data| - base, str + 2);
      InsertEntry(hash_bits, data, head[..], prev[..], hist, base, str, ins_h);
      ins_h := Update(hash_bits, ins_h, window[str + 2]);
      match_head := Push(ins_h, str);
      hist := hist + [Entry(base + str, ins_h)];
      assert hist[..|hist| - 1] == old(hist);
    }

    // Put str at the front of chain h.
    method Push(h: nat, str: nat) returns (match_head: nat)
      requires head != prev && h < head.Length && prev.Length == w_size > 0 && str < 0x1_0000
      modifies head, prev
      ensures match_head == old(head[h])
      ensures head[..] == old(head[..])[h := str]
      ensures prev[..] == old(prev[..])[str % w_size := match_head]
    {
      match_head := head[h];
      prev[str % w_size] := match_head;
      head[h] := str;
    }

    // Shift every link of a table by w_size, cutting those that fall to NIL.
    method SlideLinks(a: array<ush>)
      modifies a
      ensures a[..] == SlideTable(old(a[..]), w_size)
    {
      var n := a.Length;
      while n > 0
        invariant 0 <= n <= a.Length
        invariant forall i :: n <= i < a.Length ==> a[i] == SlideEntry(old(a[i]), w_size)
        invariant forall i :: 0 <= i < n ==> a[i] == old(a[i])
      {
        n := n - 1;
        var m := a[n];
        a[n] := if m >= w_size then m - w_size else 0;
      }
    }

    // Move the upper half of the window to the lower half.
    method SlideBytes()
      requires window.Length == 2 * w_size
      modifies window
      ensures window[..] == old(window[w_size..]) + old(window[w_size..])
    {
      forall i | 0 <= i < w_size {
        window[i] := window[w_size + i];
      }
      assert window[..w_size] == old(window[w_size..]);
      assert window[w_size..] == old(window[w_size..]);
      assert window[..] == window[..w_size] + window[w_size..];
    }

    /** Slide the window: every absolute position stays what it was. */
    method Slide()
      requires Shape() && DataOk() && Synced() && DictOk()
      requires strstart >= w_size
      modifies window, head, prev, this`match_start, this`strstart, this`block_start, this`base, this`written
      ensures DataOk() && Synced() && DictOk()
      ensures base == old(base) + w_size && strstart == old(strstart) - w_size
      ensures block_start == old(block_start) - w_size
      ensures match_start == U32(old(match_start) - w_size)
      ensures written == SlideWritten(old(written), w_size)
    {
      hide ChainsAgree, KeysAgree, WindowAgrees, SlideTable, SlideWritten;
      ghost var h, p := head[..], prev[..];
      SlideAgrees(h, p, hist, base);
      SlideData(window[..], data, base, strstart + lookahead, w_size);
      SlideBytes();
      match_start := U32(match_start - w_size);
      strstart := strstart - w_size;
      block_start := block_start - w_size;
      SlideLinks(head);
      SlideLinks(prev);
      base := base + w_size;
      written := SlideWritten(written, w_size);
    }

    /** read_buf into the window: the next bytes of the input join the data. */
    method ReadBuf(size: nat)
      requires Shape() && DataOk() && Synced() && CheckOk() && |written| == 2 * w_size
      requires size == 2 * w_size - lookahead - strstart
      modifies window, this`next_in, this`lookahead, this`data, this`check, this`total_in, this`written
      ensures DataOk() && Synced() && CheckOk() && |written| == 2 * w_size
      ensures var n := if |old(next_in)| > size then size else |old(next_in)|;
              && next_in == old(next_in)[n..]
              && data == old(data) + old(next_in)[..n]
              && lookahead == old(lookahead) + n
              && written == MarkWritten(old(written), strstart + old(lookahead), strstart + lookahead)
    {
      hide WindowAgrees, MarkWritten;
      var n := if |next_in| > size then size else |next_in|;
      var at := strstart + lookahead;
      forall i | 0 <= i < n {
        window[at + i] := next_in[i];
      }
      assert window[..at] == old(window[..at]);
      assert window[at..at + n] == next_in[..n];
      ReadData(old(window[..]), window[..], data, next_in[..n], base, at);
      hide Covers, Extend;
      CoversMore(check, start, data, next_in[..n]);
      check := Extend(check, next_in[..n]);
      total_in := total_in + n;
      data := data + next_in[..n];
      next_in := next_in[n..];
      lookahead := lookahead + n;
      written := MarkWritten(written, at, at + n);
    }

    /** The strings that had to wait for their third byte are inserted now, and the
        rolling key restarts at the current string. */
    method InsertPending()
      requires Shape() && DataOk() && Synced() && DictOk()
      requires insert <= 2 && insert <= strstart && Before(At() - insert)
      requires strstart + 1 < 2 * w_size
      requires CheckOk()
      modifies this`ins_h, this`insert, this`hist, head, prev
      ensures Valid()
      ensures KeyReady(hash_bits, ins_h, data, At())
      ensures insert <= old(insert) && Grown(old(hist), hist, At() - old(insert), old(insert) - insert)
    {
      if lookahead + insert >= MIN_MATCH {
        var str := strstart - insert;
        hide ChainsAgree, KeysAgree, Ready, WindowAgrees, Pow2;
        ins_h := window[str];
        ins_h := Update(hash_bits, ins_h, window[str + 1]);
        RestartReady(str);
        DrainPending(str);
      }
    }

    // Insert the waiting strings, oldest first, while their third byte is there.
    method DrainPending(from: nat)
      requires Shape() && DataOk() && Synced() && DictOk()
      requires insert <= 2 && from + insert == strstart && Before(base + from)
      requires lookahead + insert >= MIN_MATCH
      requires KeyReady(hash_bits, ins_h, data, base + from)
      requires CheckOk()
      modifies this`ins_h, this`insert, this`hist, head, prev
      ensures Valid()
      ensures KeyReady(hash_bits, ins_h, data, At())
      ensures insert <= old(insert) && Grown(old(hist), hist, At() - old(insert), old(insert) - insert)
    {
      hide ChainsAgree, KeysAgree, Ready, WindowAgrees, Link, Pow2;
      var str := from;
      while insert > 0
        invariant 0 <= insert <= 2 && insert <= strstart && str == strstart - insert
        invariant DataOk() && Synced() && DictOk() && Before(base + str)
        invariant lookahead + insert >= MIN_MATCH
        invariant KeyReady(hash_bits, ins_h, data, base + str)
        invariant insert <= old(insert) && Grown(old(hist), hist, At() - old(insert), old(insert) - insert)
        decreases insert
      {
        var _ := InsertString(str);
        str := str + 1;
        insert := insert - 1;
        if lookahead + insert < MIN_MATCH {
          break;
        }
      }
    }

    lemma RestartReady(str: nat)
      requires Shape() && DataOk() && base + str + 2 < |data|
      ensures Ready(hash_bits, Update(hash_bits, window[str], window[str + 1]), data[base + str], data[base + str + 1])
    {
      WindowByte(window[..], data, base, |data| - base, str);
      WindowByte(window[..], data, base, |data| - base, str + 1);
      ReadyAfterRestart(hash_bits, window[str], window[str + 1]);
    }

    // The slide happens when the window is almost full.
    ghost predicate MustSlide()
      reads this`strstart
    {
      strstart >= w_size + MaxDist()
    }

    /** Slide if the window is almost full. */
    method SlideIfFull()
      requires Valid() && |written| == 2 * w_size
      modifies window, head, prev
      modifies this`strstart, this`block_start, this`match_start, this`base, this`written
      ensures Valid() && !MustSlide()
      ensures Moved(if old(MustSlide()) then w_size else 0)
      ensures written == if old(MustSlide()) then SlideWritten(old(written), w_size) else old(written)
    {
      if strstart >= w_size + MaxDist() {
        Slide();
      }
    }

    /** Read as much as fits and bring the dictionary up to date. */
    method Refill(more: nat)
      requires Valid() && |written| == 2 * w_size
      requires more == 2 * w_size - lookahead - strstart && strstart + 1 < 2 * w_size
      requires next_in != [] && more > 0
      modifies window, head, prev
      modifies this`next_in, this`lookahead, this`ins_h, this`insert, this`data, this`check, this`total_in, this`hist
      modifies this`written
      ensures Valid()
      ensures Taken(old(data), old(next_in))
      ensures old(lookahead) <= lookahead
      ensures |next_in| < |old(next_in)| && (next_in == [] || lookahead == 2 * w_size - strstart)
      ensures KeyReady(hash_bits, ins_h, data, At())
      ensures insert <= old(insert) && Grown(old(hist), hist, At() - old(insert), old(insert) - insert)
      ensures written == MarkWritten(old(written), strstart + old(lookahead), strstart + lookahead)
    {
      hide ChainsAgree, KeysAgree, KeyReady, WindowAgrees;
      ghost var d := data;
      ghost var n := if |next_in| > more then more else |next_in|;
      ReadBuf(more);
      KeysGrow(hash_bits, d, old(next_in)[..n], hist);
      assert old(next_in) == old(next_in)[..n] + old(next_in)[n..];
      InsertPending();
    }

    // Input that has not been turned into symbols.
    function Unread(): nat
      reads this`next_in, this`lookahead
    {
      |next_in| + lookahead
    }

    // Bytes moved from the caller's input to the data, none lost or reordered.
    ghost predicate Taken(d: seq<byte>, input: seq<byte>)
      reads this`data, this`next_in
    {
      d <= data && data + next_in == d + input
    }

    lemma TakenTotal(d: seq<byte>, input: seq<byte>)
      requires Taken(d, input)
      ensures |data| + |next_in| == |d| + |input|
    {
      assert |data + next_in| == |d + input|;
    }

    /** One round of fill_window: slide if the window is almost full, then read as
        much input as fits.  The caller goes round again while `again`. */
    method FillOnce() returns (again: bool)
      requires Valid() && lookahead < MIN_LOOKAHEAD && |written| == 2 * w_size
      modifies window, head, prev
      modifies this`next_in, this`strstart, this`lookahead, this`block_start, this`match_start, this`ins_h, this`insert
      modifies this`data, this`check, this`total_in, this`base, this`hist, this`written
      ensures Valid()
      ensures Taken(old(data), old(next_in))
      ensures Moved(if old(MustSlide()) then w_size else 0) && !MustSlide()
      ensures old(KeyReady(hash_bits, ins_h, data, At())) ==> KeyReady(hash_bits, ins_h, data, At())
      ensures insert <= old(insert) && Grown(old(hist), hist, At() - old(insert), old(insert) - insert)
      ensures again <==> next_in != [] && lookahead < MIN_LOOKAHEAD
      ensures again ==> |next_in| < |old(next_in)|
      ensures !again ==> next_in == [] || strstart + lookahead == 2 * w_size
      ensures |written| == 2 * w_size && old(lookahead) <= lookahead && strstart + lookahead <= 2 * w_size
      ensures written == MarkWritten(if old(MustSlide()) then SlideWritten(old(written), w_size) else old(written),
                                     strstart + old(lookahead), strstart + lookahead)
    {
      hide DictOk, KeyReady, SlideWritten, Before, InsertOk, WindowAgrees;
      var more := 2 * w_size - lookahead - strstart;
      if strstart >= w_size + MaxDist() {
        more := more + w_size;
      }
      SlideIfFull();
      if next_in == [] {
        again := false;
      } else {
        assert more >= 2;
        Refill(more);
        again := lookahead < MIN_LOOKAHEAD && next_in != [];
      }
    }

    lemma DataBound()
      requires Valid()
      ensures strstart + lookahead == End() <= 2 * w_size && Shape() && |data| == base + strstart + lookahead
    {
    }

    // Where the data end in the window.
    ghost function End(): int
      reads this`data, this`base
    {
      |data| - base
    }

    // Kept by every call: which window bytes have been given a value.
    ghost predicate WrittenOk()
      reads this`written, this`solid, this`high_water, this`data, this`base
    {
      Tracked(written, w_size, solid, End(), high_water)
    }

    // Every byte a search may look at has been given a value.
    ghost predicate Initialised()
      reads this`written, this`strstart, this`lookahead
    {
      WrittenBelow(written, Min(2 * w_size, strstart + lookahead + WIN_INIT))
    }

    // Where `solid` stands once the window has slid, if it is about to.
    ghost function SolidSlid(): int
      reads this`solid, this`strstart, this`high_water
    {
      if MustSlide() then high_water - w_size else solid
    }

    // Where the data will end.
    ghost function EndFilled(): int
      reads this`strstart, this`lookahead, this`next_in
    {
      var e := strstart + lookahead + |next_in| - if MustSlide() then w_size else 0;
      if e < 2 * w_size then e else 2 * w_size
    }

    // fill_window will leave bytes that a search may look at without a value: the new
    // data neither reach the upper half nor stay far enough below the hole before it.
    ghost predicate LeavesGap()
      reads this`solid, this`strstart, this`lookahead, this`high_water, this`next_in
    {
      && 0 <= SolidSlid() && 0 <= EndFilled()
      && Gap(w_size, SolidSlid(), high_water, EndFilled())
    }

    /** In every state of a run with data in the window, what a search may look at has
        been given a value exactly if the hole, if any, lies beyond it. */
    lemma InitialisedExactly()
      requires Valid() && WrittenOk() && End() > 0
      ensures Initialised() <==> Min(w_size, strstart + lookahead + WIN_INIT) <= solid
    {
      hide DictOk, CheckOk, InsertOk, WindowAgrees, Halves, WrittenBelow;
      InitialisedHalves(written, w_size, solid, End(), high_water);
    }

    // A slide leaves a hole of at most four bytes below the middle of the window.
    lemma HoleIsSmall()
      requires Valid() && WrittenOk() && MustSlide()
      ensures w_size - 4 <= SolidSlid() <= w_size
    {
      hide DictOk, CheckOk, InsertOk, WindowAgrees, Halves;
    }

    // The window has not slid more than once since the stream began.
    ghost predicate Early()
      reads this`solid, this`high_water, this`data, this`base
    {
      EarlyWindow(w_size, base, |data|, solid, high_water)
    }

    /** Zero the bytes just beyond the data that have never been written, and note it. */
    method ZeroAhead()
      requires Shape() && DataOk() && Synced() && |written| == 2 * w_size && high_water <= 2 * w_size
      modifies window, this`high_water, this`written
      ensures DataOk() && Synced()
      ensures high_water <= 2 * w_size
      ensures var z := ZeroFrom(2 * w_size, strstart + lookahead, old(high_water));
              && written == MarkWritten(old(written), z.0, z.1)
              && high_water == z.1
              && forall i :: z.0 <= i < z.1 ==> window[i] == 0
      ensures high_water == HighWater(2 * w_size, strstart + lookahead, old(high_water))
    {
      hide WindowAgrees, MarkWritten;
      MarkNothing(written, high_water);
      if high_water < 2 * w_size {
        var curr := strstart + lookahead;
        if high_water < curr {
          var init := if 2 * w_size - curr > WIN_INIT then WIN_INIT else 2 * w_size - curr;
          ZeroRange(curr, init);
          high_water := curr + init;
        } else if high_water < curr + WIN_INIT {
          var init := curr + WIN_INIT - high_water;
          if init > 2 * w_size - high_water {
            init := 2 * w_size - high_water;
          }
          ZeroRange(high_water, init);
          high_water := high_water + init;
        }
      }
    }

    method ZeroRange(from: nat, n: nat)
      requires Shape() && DataOk() && Synced() && |written| == 2 * w_size
      requires strstart + lookahead <= from && from + n <= 2 * w_size
      modifies window, this`written
      ensures DataOk() && Synced() && written == MarkWritten(old(written), from, from + n)
      ensures forall i :: from <= i < from + n ==> window[i] == 0
    {
      written := MarkWritten(written, from, from + n);
      forall i | from <= i < from + n {
        window[i] := 0;
      }
      assert window[..strstart + lookahead] == old(window[..strstart + lookahead]);
      ReadData(old(window[..]), window[..], data, [], base, strstart + lookahead);
      assert data + [] == data;
    }

    // The loop of fill_window.
    method FillLoop()
      requires Valid() && lookahead < MIN_LOOKAHEAD && |written| == 2 * w_size
      modifies window, head, prev
      modifies this`next_in, this`strstart, this`lookahead, this`block_start, this`match_start, this`ins_h, this`insert
      modifies this`data, this`check, this`total_in, this`base, this`hist, this`written
      ensures Valid() && !MustSlide()
      ensures Taken(old(data), old(next_in))
      ensures Moved(if old(MustSlide()) then w_size else 0)
      ensures lookahead >= MIN_LOOKAHEAD || next_in == []
      ensures next_in == [] || strstart + lookahead == 2 * w_size
      ensures old(KeyReady(hash_bits, ins_h, data, At())) ==> KeyReady(hash_bits, ins_h, data, At())
      ensures insert <= old(insert) && Grown(old(hist), hist, At() - old(insert), old(insert) - insert)
      ensures |written| == 2 * w_size && At() + old(lookahead) - base <= strstart + lookahead
      ensures written == MarkWritten(if old(MustSlide()) then SlideWritten(old(written), w_size) else old(written),
                                     At() + old(lookahead) - base, strstart + lookahead)
    {
      hide Valid, KeyReady, MarkWritten, U32, SlideWritten;
      ghost var slid := if MustSlide() then SlideWritten(written, w_size) else written;
      ghost var at := strstart + lookahead - (if MustSlide() then w_size else 0);
      var again := FillOnce();
      while again
        invariant Valid() && !MustSlide()
        invariant Taken(old(data), old(next_in))
        invariant Moved(if old(MustSlide()) then w_size else 0)
        invariant old(KeyReady(hash_bits, ins_h, data, At())) ==> KeyReady(hash_bits, ins_h, data, At())
        invariant insert <= old(insert) && Grown(old(hist), hist, At() - old(insert), old(insert) - insert)
        invariant again <==> next_in != [] && lookahead < MIN_LOOKAHEAD
        invariant !again ==> next_in == [] || strstart + lookahead == 2 * w_size
        invariant |written| == 2 * w_size == |slid| && at <= strstart + lookahead <= 2 * w_size
        invariant written == MarkWritten(slid, at, strstart + lookahead)
        decreases |next_in|, again
      {
        ghost var mid := strstart + lookahead;
        again := FillOnce();
        MarkTwice(slid, at, mid, strstart + lookahead);
      }
    }

    // The loop and the zeroing, in terms of the bytes written.
    method FillAndZero()
      requires Valid() && lookahead < MIN_LOOKAHEAD && |written| == 2 * w_size && high_water <= 2 * w_size
      requires SolidSlid() >= 0
      modifies window, head, prev
      modifies this`next_in, this`strstart, this`lookahead, this`block_start, this`match_start, this`ins_h, this`insert
      modifies this`data, this`check, this`total_in, this`base, this`hist, this`written, this`solid, this`high_water
      ensures Valid() && !MustSlide()
      ensures Taken(old(data), old(next_in))
      ensures Moved(if old(MustSlide()) then w_size else 0)
      ensures lookahead >= MIN_LOOKAHEAD || next_in == []
      ensures next_in == [] || strstart + lookahead == 2 * w_size
      ensures old(KeyReady(hash_bits, ins_h, data, At())) ==> KeyReady(hash_bits, ins_h, data, At())
      ensures insert <= old(insert) && Grown(old(hist), hist, At() - old(insert), old(insert) - insert)
      ensures |written| == 2 * w_size && 0 <= At() + old(lookahead) - base <= strstart + lookahead <= 2 * w_size
      ensures high_water == HighWater(2 * w_size, strstart + lookahead, old(high_water)) <= 2 * w_size
      ensures solid == SolidNext(w_size, old(SolidSlid()), old(high_water), strstart + lookahead)
      ensures var z := ZeroFrom(2 * w_size, strstart + lookahead, old(high_water));
              var slid := if old(MustSlide()) then SlideWritten(old(written), w_size) else old(written);
              && high_water == z.1
              && written == MarkWritten(MarkWritten(slid, At() + old(lookahead) - base, strstart + lookahead), z.0, z.1)
    {
      hide DictOk, KeyReady, WindowAgrees, SlideWritten, MarkWritten, Before, InsertOk, U32, ZeroFrom, HighWater,
        SolidNext, Grown, CheckOk;
      ghost var s, hw := SolidSlid(), high_water;
      FillLoop();
      DataBound();
      ZeroAhead();
      solid := SolidNext(w_size, s, hw, strstart + lookahead);
    }

    /** fill_window.  No absolute position changes, the bytes read join the data in
        order, there is room for a search, and there is enough lookahead unless the
        input ran out.  What has been written stays on record, and every byte a search
        may look at has been given a value exactly unless LeavesGap held before. */
    method FillWindow()
      requires Valid() && lookahead < MIN_LOOKAHEAD
      requires WrittenOk()
      modifies window, head, prev
      modifies this`next_in, this`strstart, this`lookahead, this`block_start, this`match_start, this`ins_h, this`insert
      modifies this`data, this`check, this`total_in, this`base, this`hist, this`written, this`solid, this`high_water
      ensures Valid()
      ensures Taken(old(data), old(next_in))
      ensures Moved(if old(MustSlide()) then w_size else 0)
      ensures strstart + MIN_LOOKAHEAD <= 2 * w_size
      ensures lookahead >= MIN_LOOKAHEAD || next_in == []
      ensures old(KeyReady(hash_bits, ins_h, data, At())) ==> KeyReady(hash_bits, ins_h, data, At())
      ensures insert <= old(insert) && Grown(old(hist), hist, At() - old(insert), old(insert) - insert)
      ensures next_in == [] || strstart + lookahead == 2 * w_size
      ensures WrittenOk() && high_water == HighWater(2 * w_size, strstart + lookahead, old(high_water))
      ensures old(SolidSlid()) >= 0
      ensures solid == SolidNext(w_size, old(SolidSlid()), old(high_water), strstart + lookahead)
      ensures Initialised() <==> !old(LeavesGap())
      ensures old(Early()) ==> Early()
    {
      hide Valid, KeyReady, SlideWritten, MarkWritten, Tracked, Halves, WrittenBelow, U32, ZeroFrom,
        HighWater, Gap, Grown, SolidNext, EarlyWindow;
      ghost var wr, hw, slides, e, n := written, high_water, MustSlide(), strstart + lookahead, |data|;
      DataBound();
      TrackedBounds(wr, w_size, solid, e, hw);
      SlidTracked(wr, w_size, solid, e, hw);
      FillAndZero();
      DataBound();
      assert |data + next_in| == n + |old(next_in)|;
      ghost var slid := if slides then SlideWritten(wr, w_size) else wr;
      ghost var s := if slides then hw - w_size else old(solid);
      FillTracks(slid, w_size, s, hw, if slides then e - w_size else e, strstart + lookahead);
      EarlyStays(w_size, old(base), n, old(solid), hw, slides, |data|);
    }

    // The window moved by w; no absolute position changed.
    twostate predicate Moved(w: nat)
      reads this`base, this`strstart, this`block_start, this`match_start
    {
      && base == old(base) + w
      && strstart == old(strstart) - w
      && block_start == old(block_start) - w
      && match_start == (if w == 0 then old(match_start) else U32(old(match_start) - w))
    }

    /** The comparison loop of longest_match: the first three bytes are known to
        agree, the rest is compared up to MAX_MATCH. */
    method Compare(cur: nat) returns (len: nat)
      requires cur < strstart && strstart + MAX_MATCH < window.Length
      requires Agree(window[..], cur, strstart, MIN_MATCH)
      ensures MIN_MATCH <= len <= MAX_MATCH
      ensures Agree(window[..], cur, strstart, len)
      ensures len < MAX_MATCH ==> window[cur + len] != window[strstart + len]
    {
      hide Agree;
      FirstThree(cur);
      var scan, mat := strstart + 2, cur + 2;
      var strend := strstart + MAX_MATCH;
      var equal := true;
      while equal && scan < strend
        invariant strstart + 2 <= scan <= strend && mat == cur + (scan - strstart)
        invariant equal <==> window[scan] == window[mat]
        invariant forall i :: strstart <= i < scan ==> window[i] == window[i - strstart + cur]
        invariant equal || scan >= strstart + MIN_MATCH
        decreases strend - scan
      {
        scan, mat := scan + 1, mat + 1;
        equal := window[scan] == window[mat];
      }
      len := MAX_MATCH - (strend - scan);
      AgreeBytes(window[..], cur, strstart, len);
    }

    lemma FirstThree(cur: nat)
      requires cur < strstart && strstart + MAX_MATCH < window.Length
      requires Agree(window[..], cur, strstart, MIN_MATCH)
      ensures window[cur] == window[strstart] && window[cur + 1] == window[strstart + 1]
      ensures window[cur + 2] == window[strstart + 2]
    {
      hide Agree;
      AgreeByte(window[..], cur, strstart, MIN_MATCH, 0);
      AgreeByte(window[..], cur, strstart, MIN_MATCH, 1);
      AgreeByte(window[..], cur, strstart, MIN_MATCH, 2);
    }

    /** Look at one candidate: 0 if the quick checks on the bytes that decide
        whether the match can improve reject it, else its length. */
    method Candidate(cur: nat, best: nat) returns (len: nat)
      requires cur < strstart && strstart + MIN_LOOKAHEAD <= window.Length
      requires 1 <= best <= MAX_MATCH
      requires Agree(window[..], cur, strstart, 2) ==> Agree(window[..], cur, strstart, MIN_MATCH)
      ensures len <= MAX_MATCH
      ensures len > best ==> Agree(window[..], cur, strstart, len)
      ensures best < MAX_MATCH && len <= best ==> !Agree(window[..], cur, strstart, best + 1)
      ensures best < len < MAX_MATCH ==> !Agree(window[..], cur, strstart, len + 1)
    {
      hide Agree;
      ghost var win := window[..];
      if window[cur + best] != window[strstart + best] {
        if best < MAX_MATCH { Differs(win, cur, strstart, best, best + 1); }
        return 0;
      }
      if window[cur + best - 1] != window[strstart + best - 1] {
        if best < MAX_MATCH { Differs(win, cur, strstart, best - 1, best + 1); }
        return 0;
      }
      if window[cur] != window[strstart] {
        if best < MAX_MATCH { Differs(win, cur, strstart, 0, best + 1); }
        return 0;
      }
      if window[cur + 1] != window[strstart + 1] {
        if best < MAX_MATCH { Differs(win, cur, strstart, 1, best + 1); }
        return 0;
      }
      AgreeTwo(win, cur, strstart);
      len := Compare(cur);
      if len < MAX_MATCH {
        Differs(win, cur, strstart, len, len + 1);
        if best > len {
          Differs(win, cur, strstart, len, best + 1);
        }
      }
    }

    // The walk stands at entry k of the dictionary, window index cur.
    ghost predicate AtEntry(k: nat, cur: nat, key: nat)
      reads this`hist, this`base, this`strstart
    {
      && k < |hist| - 1
      && hist[|hist| - 1].pos == At()
      && hist[k] == Entry(base + cur, key)
      && 0 < cur < strstart && strstart - cur <= MaxDist()
    }

    // What is known about the best match so far.
    ghost predicate BestOk(best: nat)
      reads this`match_start, this`strstart, this`prev_length, window
    {
      && prev_length <= best <= MAX_MATCH
      && strstart + MIN_LOOKAHEAD <= window.Length
      && (best > prev_length ==>
            && match_start < strstart && strstart - match_start <= MaxDist()
            && Agree(window[..], match_start, strstart, best))
    }

    // The oldest window index a search goes back to, exclusive.
    ghost function Limit(): (r: nat)
      reads this`strstart
    {
      if strstart > MaxDist() && MaxDist() >= 0 then strstart - MaxDist() else 0
    }

    function Budget(): nat
      reads this`prev_length
    {
      if prev_length >= cfg.good_match then cfg.max_chain / 4 else cfg.max_chain
    }

    // How many candidates a full walk would look at.
    ghost function ChainLength(): nat
      requires hist != []
      reads this`hist, this`base, this`strstart
    {
      Candidates(hist[..|hist| - 1], hist[|hist| - 1].key, base + Limit())
    }

    // One candidate: the match improves, or the candidate is no better.
    method TryCandidate(ghost k: nat, cur: nat, best: nat, ghost key: nat) returns (best': nat, improved: bool)
      requires Shape() && DataOk() && Synced() && KeysAgree(hash_bits, data, hist)
      requires AtEntry(k, cur, key) && hist[|hist| - 1].key == key && lookahead >= MIN_MATCH
      requires 1 <= prev_length && BestOk(best)
      modifies this`match_start
      ensures BestOk(best') && (if improved then best < best' else best == best')
      ensures match_start == if improved then cur else old(match_start)
      ensures NotBetter(window[..], base, strstart, hist[k], key, best')
    {
      hide Key3, Agree, WindowAgrees;
      assert hist[k].key == KeyAt(hash_bits, data, hist[k].pos);
      assert hist[|hist| - 1].key == KeyAt(hash_bits, data, At());
      ThirdByteAgrees(hash_bits, window[..], data, base, strstart + lookahead, cur, strstart);
      var len := Candidate(cur, best);
      best', improved := best, false;
      if len > best {
        match_start := cur;
        best', improved := len, true;
      }
    }

    // What longest_match returns: capped by the lookahead.
    ghost predicate MatchOk(r: nat)
      reads this`match_start, this`strstart, this`prev_length, this`lookahead, this`data, this`base
    {
      && r <= lookahead && r <= MAX_MATCH
      && r >= Min(prev_length, lookahead)
      && (r > prev_length ==>
            && match_start < strstart && strstart - match_start <= MaxDist()
            && Repeats(data, At(), strstart - match_start, r))
    }

    // The strings in the dictionary.
    ghost function Positions(): set<nat>
      reads this`hist
    {
      PositionsOf(hist)
    }

    // Those a search may go back to.
    ghost function Reach(): set<nat>
      reads this`hist, this`strstart, this`base
    {
      set q | q in Positions() && base + Limit() < q < At()
    }

    // No string in the dictionary within reach continues longer than r.
    ghost predicate Longest(r: nat)
      reads this`hist, this`strstart, this`data, this`base
    {
      NoneRepeats(data, At(), Reach(), r + 1)
    }

    // No string that lies closer than the match continues for r bytes.
    ghost predicate Nearest(r: nat)
      requires match_start <= strstart
      reads this`hist, this`strstart, this`data, this`base, this`match_start
    {
      NoneRepeats(data, At(), Closer(Reach(), At(), strstart - match_start), r)
    }

    // What a search at the current string has before it.
    ghost function Here(from: nat): Seen
      reads this`hist, this`strstart, this`base, this`lookahead, this`prev_length
    {
      Seen(from, At(), lookahead, Reach(), hist != [] ==> ChainLength() <= Budget())
    }

    /** With few strings within reach, the budget covers the chain. */
    lemma FewCandidates(from: nat)
      requires DictOk() && Before(At() + 1)
      ensures |Here(from).cands| <= cfg.max_chain / 4 ==> Here(from).all
    {
      hide HeadAgrees, PrevAgrees, KeysBelow, KeysAgree;
      if hist != [] {
        var n := |hist| - 1;
        forall i | 0 <= i < n && hist[..n][i].pos > base + Limit() ensures hist[..n][i].pos in Reach() {
          assert hist[i] in hist && hist[i].pos < hist[n].pos;
        }
        CandidatesAtMost(hist[..n], hist[n].key, base + Limit(), Reach());
      }
    }

    // The search may start: the current string has been inserted and hash_head is
    // the previous head of its chain, within reach.
    ghost predicate SearchReady(hash_head: nat)
      reads this`hist, this`base, this`strstart, this`lookahead
    {
      && hist != [] && hist[|hist| - 1].pos == At()
      && lookahead >= MIN_MATCH && strstart + MIN_LOOKAHEAD <= 2 * w_size
      && hash_head == Link(hist[..|hist| - 1], hist[|hist| - 1].key, base)
      && hash_head > 0 && strstart - hash_head <= MaxDist()
    }

    ghost function SearchKey(): nat
      requires hist != []
      reads this`hist
    {
      hist[|hist| - 1].key
    }

    // Strings newer than the match of best_len bytes match no more than `before`, which
    // was not enough to end the search.
    ghost predicate NewerBelow(best_len: nat, nice_match: nat, before: nat)
      requires hist != []
      reads this`hist, this`base, this`strstart, this`match_start, this`prev_length, window
    {
      && prev_length <= before < best_len && (before == prev_length || before < nice_match)
      && NoneBetter(window[..], base, strstart, hist, base + match_start, SearchKey(), before)
    }

    // The walk along the chain.  It ends because the match is long enough, because
    // the budget is spent with candidates left, or because all were examined.  Strings
    // newer than the match found matched no more than `before` bytes.
    method Walk(hash_head: nat, nice_match: nat) returns (best_len: nat, ghost full: bool, ghost before: nat)
      requires Shape() && DataOk() && Synced() && DictOk()
      requires SearchReady(hash_head) && cfg.max_chain >= 4
      requires MIN_MATCH - 1 <= prev_length <= MAX_MATCH
      modifies this`match_start
      ensures BestOk(best_len) && (match_start == old(match_start) || match_start < strstart)
      ensures full ==> NoneBetter(window[..], base, strstart, hist, base + Limit(), SearchKey(), best_len)
      ensures !full ==> best_len >= nice_match || ChainLength() > Budget()
      ensures best_len > prev_length ==> NewerBelow(best_len, nice_match, before)
    {
      hide ChainsAgree, KeysAgree, WindowAgrees, Agree, Key3, NotBetter, Candidates, Newest, Link, NoneBetween,
        Examined, NoneBetter, Pow2;
      ghost var win := window[..];
      ghost var key := SearchKey();
      ghost var k: nat := FirstEntry(hash_head);
      assert Increasing(hist) by {
        OldestFirst();
      }
      var chain_length := if prev_length >= cfg.good_match then cfg.max_chain / 4 else cfg.max_chain;
      var limit := if strstart > MaxDist() then strstart - MaxDist() else 0;
      var cur: nat := hash_head;
      best_len, full, before := prev_length, false, prev_length;
      while true
        invariant AtEntry(k, cur, key)
        invariant BestOk(best_len) && (match_start == old(match_start) || match_start < strstart)
        invariant Examined(win, base, strstart, hist, k, key, best_len)
        invariant 1 <= chain_length && !full && (best_len == prev_length || best_len < nice_match)
        invariant best_len > prev_length ==> NewerBelow(best_len, nice_match, before)
        invariant ChainLength() == Budget() - chain_length + (if cur > limit then 1 else 0)
                                   + Candidates(hist[..k], key, base + limit)
        decreases cur
      {
        ghost var was := best_len;
        var improved;
        best_len, improved := TryCandidate(k, cur, best_len, key);
        if improved {
          before := was;
          ExaminedNewer(win, base, strstart, hist, k, key, was);
        }
        if improved && best_len >= nice_match {
          break;
        }
        var next := prev[Mask(cur)];
        ghost var j := NextEntry(k, cur, key, next);
        if next <= limit {
          AllExamined(win, base, strstart, hist, k, key, was, best_len, base + limit);
          full := true;
          break;
        }
        chain_length := chain_length - 1;
        if chain_length == 0 {
          break;
        }
        ExamineMore(win, base, strstart, hist, j, k, key, was, best_len);
        k, cur := j, next;
      }
    }

    /** longest_match.  A result above prev_length is a true match at match_start.
        If the chain budget covers every candidate and the result is below
        nice_match, no string of the dictionary within reach matches longer; and none
        closer matches as long, whatever the budget. */
    method LongestMatch(hash_head: nat) returns (r: nat)
      requires Shape() && DataOk() && Synced() && DictOk()
      requires SearchReady(hash_head) && cfg.max_chain >= 4
      requires MIN_MATCH - 1 <= prev_length <= MAX_MATCH
      modifies this`match_start
      ensures MatchOk(r) && (match_start == old(match_start) || match_start < strstart)
      ensures ChainLength() <= Budget() && r < Min(cfg.nice_match, Min(lookahead, MAX_MATCH)) ==> Longest(r)
      ensures r > prev_length ==> Nearest(r)
    {
      hide ChainsAgree, KeysAgree, WindowAgrees, Agree, NoneBetter, Candidates, Link, Pow2, Longest, Nearest;
      var nice_match := if cfg.nice_match > lookahead then lookahead else cfg.nice_match;
      var best_len, full, before := Walk(hash_head, nice_match);
      r := if best_len <= lookahead then best_len else lookahead;
      BestIsMatch(best_len, r);
      if full && r < Min(lookahead, MAX_MATCH) {
        NoneLonger(base + Limit(), r, SearchKey());
        LongestHere(r);
      }
      if r > prev_length {
        NoneLonger(base + match_start, before, SearchKey());
        NearestHere(before, r);
      }
    }

    lemma OldestFirst()
      requires DictOk()
      ensures Increasing(hist)
    {
    }

    lemma FirstEntry(hash_head: nat) returns (k: nat)
      requires Shape() && DictOk()
      requires hist != [] && hist[|hist| - 1].pos == At()
      requires hash_head == Link(hist[..|hist| - 1], hist[|hist| - 1].key, base)
      requires hash_head > 0 && strstart - hash_head <= MaxDist()
      ensures var key := hist[|hist| - 1].key;
              && AtEntry(k, hash_head, key)
              && Examined(window[..], base, strstart, hist, k, key, prev_length)
              && ChainLength() == (if hash_head > Limit() then 1 else 0) + Candidates(hist[..k], key, base + Limit())
    {
      hide NotBetter, KeysAgree, Candidates, HeadAgrees, PrevAgrees;
      var n := |hist| - 1;
      var key := hist[n].key;
      FollowLink(hist, base, n, key, hash_head - 1);
      FollowLink(hist, base, n, key, Limit());
      k := Newest(hist[..n], key);
      if hash_head <= Limit() {
        NoCandidates(hist[..k], key, base + Limit());
      }
      forall i | k < i < |hist| && 0 <= i
        ensures NotBetter(window[..], base, strstart, hist[i], key, prev_length)
      {
        if i < n {
          OtherKey(window[..], base, strstart, hist[i], key, prev_length);
        } else {
          TooNew(window[..], base, strstart, hist[i], key, prev_length);
        }
      }
    }

    // j is the candidate after k, reached through the link m; -1 if out of reach.
    ghost predicate NextOk(k: nat, j: int, key: nat, m: nat)
      reads this`hist, this`base, this`strstart
    {
      && -1 <= j < k < |hist|
      && (m > Limit() ==>
            && 0 <= j && AtEntry(j, m, key) && NoneBetween(hist, j, k, key)
            && Candidates(hist[..k], key, base + Limit()) == 1 + Candidates(hist[..j], key, base + Limit()))
      && (m <= Limit() ==>
            forall i :: 0 <= i < k && hist[i].key == key ==> hist[i].pos <= base + Limit())
    }

    lemma NextEntry(k: nat, cur: nat, key: nat, m: nat) returns (j: int)
      requires Shape() && m == prev[Mask(cur)]
      requires DictOk() && AtEntry(k, cur, key)
      ensures m < cur && NextOk(k, j, key, m)
    {
      hide KeysAgree, Candidates, HeadAgrees, PrevAgrees, NoneBetween, Link, Newest;
      LinkOf(head[..], prev[..], hist, base, k);
      FollowLink(hist, base, k, key, Limit());
      j := Newest(hist[..k], key);
    }

    lemma BestIsMatch(best: nat, r: nat)
      requires DataOk() && Synced() && BestOk(best) && r == Min(best, lookahead)
      ensures MatchOk(r)
    {
      if r > prev_length {
        AgreeMono(window[..], match_start, strstart, r, best);
        AgreeRepeats(window[..], data, base, strstart + lookahead, match_start, strstart, r);
      }
    }

    // No string beyond the limit continues longer than r.
    ghost predicate NoneBeyond(limit: int, r: nat)
      reads this`hist, this`strstart, this`data, this`base
    {
      forall i :: 0 <= i < |hist| && hist[i].pos > limit && base < hist[i].pos < At() ==>
        !Repeats(data, At(), At() - hist[i].pos, r + 1)
    }

    lemma NoneLonger(limit: int, r: nat, key: nat)
      requires Shape() && DataOk() && Synced() && KeysAgree(hash_bits, data, hist)
      requires hist != [] && hist[|hist| - 1].pos == At() && hist[|hist| - 1].key == key
      requires NoneBetter(window[..], base, strstart, hist, limit, key, r)
      requires 2 <= r < MAX_MATCH && r < lookahead
      ensures NoneBeyond(limit, r)
    {
      hide Agree, NotBetter, Repeats;
      forall i | 0 <= i < |hist| && hist[i].pos > limit && base < hist[i].pos < At()
        ensures !Repeats(data, At(), At() - hist[i].pos, r + 1)
      {
        var d := At() - hist[i].pos;
        RepeatsSameKey(hash_bits, data, At(), d, r + 1);
        assert hist[i].key == KeyAt(hash_bits, data, hist[i].pos);
        assert hist[|hist| - 1].key == KeyAt(hash_bits, data, At());
        if hist[i].key == key {
          NotBetterRepeats(window[..], data, base, strstart + lookahead, strstart, hist[i], key, r);
        }
      }
    }

    lemma LongestHere(r: nat)
      requires NoneBeyond(base + Limit(), r)
      ensures Longest(r)
    {
      hide Repeats;
      forall q | q in Reach() ensures !Repeats(data, At(), At() - q, r + 1) {
        var i :| 0 <= i < |hist| && hist[i].pos == q;
      }
    }

    lemma NearestHere(before: nat, r: nat)
      requires match_start < strstart && NoneBeyond(base + match_start, before) && before < r
      ensures Nearest(r)
    {
      var qs := Closer(Reach(), At(), strstart - match_start);
      forall q | q in qs ensures !Repeats(data, At(), At() - q, r) {
        var i :| 0 <= i < |hist| && hist[i].pos == q;
        RepeatsShorter(data, At(), At() - q, r, before + 1);
      }
    }

    /** Where no search starts, because the chain is empty or begins out of reach, there is
        nothing to be found. */
    lemma NothingInReach(hash_head: nat)
      requires Shape() && DataOk() && Synced() && DictOk() && lookahead >= MIN_MATCH
      requires hist != [] && hist[|hist| - 1].pos == At()
      requires hash_head == Link(hist[..|hist| - 1], hist[|hist| - 1].key, base)
      requires hash_head == 0 || strstart - hash_head > MaxDist()
      ensures Longest(MIN_MATCH - 1)
    {
      hide HeadAgrees, PrevAgrees, KeysBelow, Repeats, Link, Newest, Candidates, NoneBetween, Key3;
      var n := |hist| - 1;
      FollowLink(hist, base, n, hist[n].key, Limit());
      forall q | q in Reach() ensures !Repeats(data, At(), At() - q, MIN_MATCH) {
        var i :| 0 <= i < |hist| && hist[i].pos == q;
        RepeatsSameKey(hash_bits, data, At(), At() - q, MIN_MATCH);
        assert hist[i].key == KeyAt(hash_bits, data, hist[i].pos);
        assert hist[n].key == KeyAt(hash_bits, data, At());
        assert i < n;
      }
    }
  }
}
