/**
 The dictionary of the match finder.

 The specification is an index: the strings inserted so far, oldest first, each
 with its absolute position in the input and its hash key.  `head` and `prev` are
 the circular tables of deflate.c; they hold window indices (absolute position
 minus `base`, the absolute position of window[0]) with 0 as NIL.
 */
module HashChain {
  import Bits

  datatype Entry = Entry(pos: nat, key: nat)

  // Positions strictly increase.
  ghost predicate Increasing(hist: seq<Entry>) {
    forall i, j :: 0 <= i < j < |hist| ==> hist[i].pos < hist[j].pos
  }

  ghost predicate KeysBelow(hist: seq<Entry>, n: nat) {
    forall i :: 0 <= i < |hist| ==> hist[i].key < n
  }

  // The newest entry with this key: its index in hist, or -1.
  function Newest(hist: seq<Entry>, key: nat): (r: int)
    ensures -1 <= r < |hist|
    ensures r >= 0 ==> hist[r].key == key
    ensures forall i :: r < i < |hist| ==> hist[i].key != key
  {
    if hist == [] then -1
    else if hist[|hist| - 1].key == key then |hist| - 1
    else Newest(hist[..|hist| - 1], key)
  }

  // Window index of an absolute position; positions at or before base are NIL.
  function WindowIndex(pos: int, base: nat): (r: nat)
  {
    if pos <= base then 0 else pos - base
  }

  function Link(hist: seq<Entry>, key: nat, base: nat): nat {
    var i := Newest(hist, key);
    if i < 0 then 0 else WindowIndex(hist[i].pos, base)
  }

  function Slot(pos: nat, base: nat, w: nat): (r: nat)
    requires w > 0
    ensures r < w
  {
    (pos - base) % w
  }

  // head[h] leads to the newest string with key h.
  ghost predicate HeadAgrees(head: seq<nat>, hist: seq<Entry>, base: nat) {
    forall h :: 0 <= h < |head| ==> head[h] == Link(hist, h, base)
  }

  // An entry younger than w positions still has its link to the next older
  // string with the same key.
  ghost predicate LinkKept(prev: seq<nat>, hist: seq<Entry>, base: nat, k: nat)
    requires k < |hist| && |prev| > 0
  {
    hist[k].pos + |prev| > hist[|hist| - 1].pos ==>
      prev[Slot(hist[k].pos, base, |prev|)] == Link(hist[..k], hist[k].key, base)
  }

  ghost predicate PrevAgrees(prev: seq<nat>, hist: seq<Entry>, base: nat) {
    |prev| > 0 && forall k :: 0 <= k < |hist| ==> LinkKept(prev, hist, base, k)
  }

  ghost predicate ChainsAgree(head: seq<nat>, prev: seq<nat>, hist: seq<Entry>, base: nat) {
    && Increasing(hist)
    && KeysBelow(hist, |head|)
    && HeadAgrees(head, hist, base)
    && PrevAgrees(prev, hist, base)
  }

  lemma NewestSnoc(hist: seq<Entry>, e: Entry, key: nat)
    ensures Newest(hist + [e], key) == if e.key == key then |hist| else Newest(hist, key)
  {
    assert (hist + [e])[..|hist|] == hist;
  }

  // Positions less than w apart have different slots.
  lemma SlotsDiffer(p: nat, q: nat, base: nat, w: nat)
    requires p < q < p + w
    ensures Slot(p, base, w) != Slot(q, base, w)
  {
    if Slot(p, base, w) == Slot(q, base, w) {
      var a, b := (p - base) / w, (q - base) / w;
      assert (b - a) * w == q - p;
      Bits.NoMultiple(b - a, w);
    }
  }

  /** INSERT_STRING: link the string at `pos` in front of its chain. */
  lemma InsertAgrees(head: seq<nat>, prev: seq<nat>, hist: seq<Entry>, base: nat, e: Entry)
    requires ChainsAgree(head, prev, hist, base)
    requires e.key < |head| && base <= e.pos
    requires hist != [] ==> hist[|hist| - 1].pos < e.pos
    ensures ChainsAgree(head[e.key := e.pos - base],
                        prev[Slot(e.pos, base, |prev|) := head[e.key]], hist + [e], base)
  {
    hide HeadAgrees, PrevAgrees;
    InsertHead(head, hist, base, e);
    InsertPrev(head, prev, hist, base, e);
  }

  lemma InsertHead(head: seq<nat>, hist: seq<Entry>, base: nat, e: Entry)
    requires HeadAgrees(head, hist, base)
    requires e.key < |head| && base <= e.pos
    ensures HeadAgrees(head[e.key := e.pos - base], hist + [e], base)
  {
    forall h | 0 <= h < |head|
      ensures head[e.key := e.pos - base][h] == Link(hist + [e], h, base)
    {
      NewestSnoc(hist, e, h);
    }
  }

  lemma InsertPrev(head: seq<nat>, prev: seq<nat>, hist: seq<Entry>, base: nat, e: Entry)
    requires HeadAgrees(head, hist, base) && PrevAgrees(prev, hist, base)
    requires e.key < |head|
    requires Increasing(hist + [e])
    ensures |prev| > 0
    ensures PrevAgrees(prev[Slot(e.pos, base, |prev|) := head[e.key]], hist + [e], base)
  {
    var hist' := hist + [e];
    var prev' := prev[Slot(e.pos, base, |prev|) := head[e.key]];
    assert hist'[..|hist|] == hist;
    forall k | 0 <= k < |hist| ensures LinkKept(prev', hist', base, k) {
      InsertLink(prev, hist, base, e, head[e.key], k);
    }
  }

  lemma InsertLink(prev: seq<nat>, hist: seq<Entry>, base: nat, e: Entry, m: nat, k: nat)
    requires k < |hist| && |prev| > 0
    requires LinkKept(prev, hist, base, k) && Increasing(hist + [e])
    ensures LinkKept(prev[Slot(e.pos, base, |prev|) := m], hist + [e], base, k)
  {
    hide Slot, Link;
    var n := |hist| - 1;
    assert (hist + [e])[..k] == hist[..k];
    assert (hist + [e])[k] == hist[k] && (hist + [e])[n] == hist[n] && (hist + [e])[n + 1] == e;
    if hist[k].pos + |prev| > e.pos {
      SlotsDiffer(hist[k].pos, e.pos, base, |prev|);
    }
  }

  lemma LinkBelow(hist: seq<Entry>, key: nat, base: nat, p: nat)
    requires Increasing(hist) && (hist != [] ==> hist[|hist| - 1].pos < p) && base <= p
    ensures Link(hist, key, base) < p - base || Link(hist, key, base) == 0
  {
    var i := Newest(hist, key);
    if i >= 0 && i < |hist| - 1 {
      assert hist[i].pos < hist[|hist| - 1].pos;
    }
  }

  function SlideEntry(m: nat, w: nat): nat {
    if m >= w then m - w else 0
  }

  function SlideTable(t: seq<nat>, w: nat): (r: seq<nat>)
    ensures |r| == |t|
    ensures forall i :: 0 <= i < |t| ==> r[i] == SlideEntry(t[i], w)
  {
    seq(|t|, i requires 0 <= i < |t| => SlideEntry(t[i], w))
  }

  lemma SlideLink(hist: seq<Entry>, key: nat, base: nat, w: nat)
    ensures SlideEntry(Link(hist, key, base), w) == Link(hist, key, base + w)
  {
  }

  /** Sliding the window by w shifts every link by w and cuts exactly the links
      that would fall to window index 0 or below. */
  lemma SlideAgrees(head: seq<nat>, prev: seq<nat>, hist: seq<Entry>, base: nat)
    requires ChainsAgree(head, prev, hist, base)
    ensures ChainsAgree(SlideTable(head, |prev|), SlideTable(prev, |prev|), hist, base + |prev|)
  {
    var w := |prev|;
    forall h | 0 <= h < |head| ensures SlideTable(head, w)[h] == Link(hist, h, base + w) {
      SlideLink(hist, h, base, w);
    }
    var prev', base' := SlideTable(prev, w), base + w;
    forall k | 0 <= k < |hist| ensures LinkKept(prev', hist, base', k) {
      assert LinkKept(prev, hist, base, k);
      SlideSlot(hist[k].pos, base, w);
      SlideLink(hist[..k], hist[k].key, base, w);
    }
  }

  lemma SlideSlot(pos: nat, base: nat, w: nat)
    requires w > 0
    ensures Slot(pos, base + w, w) == Slot(pos, base, w)
  {
    var a, b := (pos - base) / w, (pos - base - w) / w;
    var x, y := (pos - base) % w, (pos - base - w) % w;
    assert (a - b - 1) * w == y - x;
    Bits.NoMultiple(a - b - 1, w);
    Bits.NoMultiple(b + 1 - a, w);
    assert (b + 1 - a) * w == x - y;
  }

  /** One step of the walk: the link stored for entry k leads to the next older
      entry with the same key, if that one is still inside the window. */
  lemma Step(head: seq<nat>, prev: seq<nat>, hist: seq<Entry>, base: nat, k: nat)
    requires ChainsAgree(head, prev, hist, base)
    requires k < |hist| && hist[k].pos + |prev| > hist[|hist| - 1].pos
    ensures prev[Slot(hist[k].pos, base, |prev|)] == Link(hist[..k], hist[k].key, base)
    ensures hist[k].pos > base ==>
      prev[Slot(hist[k].pos, base, |prev|)] < WindowIndex(hist[k].pos, base)
  {
    assert LinkKept(prev, hist, base, k);
    var j := Newest(hist[..k], hist[k].key);
    if j >= 0 {
      assert hist[j].pos < hist[k].pos;
    }
  }

  // How many entries with this key lie beyond `limit`: the length of a full walk.
  function Candidates(hist: seq<Entry>, key: nat, limit: int): nat {
    if hist == [] then 0
    else
      var e := hist[|hist| - 1];
      Candidates(hist[..|hist| - 1], key, limit) + if e.key == key && e.pos > limit then 1 else 0
  }

  // Skipping to the newest entry with the key loses no candidate.
  lemma {:induction false} CandidatesNewest(hist: seq<Entry>, key: nat, limit: int)
    requires Increasing(hist)
    ensures var i := Newest(hist, key);
            Candidates(hist, key, limit) ==
            if i < 0 || hist[i].pos <= limit then 0 else 1 + Candidates(hist[..i], key, limit)
    decreases |hist|
  {
    if hist != [] {
      var n := |hist| - 1;
      if hist[n].key == key {
        if hist[n].pos <= limit {
          NoCandidates(hist[..n], key, limit);
        }
      } else {
        CandidatesNewest(hist[..n], key, limit);
        var i := Newest(hist[..n], key);
        if i >= 0 {
          assert hist[..n][..i] == hist[..i];
        }
      }
    }
  }

  lemma {:induction false} NoCandidates(hist: seq<Entry>, key: nat, limit: int)
    requires forall i :: 0 <= i < |hist| ==> hist[i].pos <= limit
    ensures Candidates(hist, key, limit) == 0
    decreases |hist|
  {
    if hist != [] {
      NoCandidates(hist[..|hist| - 1], key, limit);
    }
  }

  // There are no more candidates than positions they may have.
  lemma {:induction false} CandidatesAtMost(hist: seq<Entry>, key: nat, limit: int, ps: set<nat>)
    requires Increasing(hist) && forall i :: 0 <= i < |hist| && hist[i].pos > limit ==> hist[i].pos in ps
    ensures Candidates(hist, key, limit) <= |ps|
    decreases |hist|
  {
    if hist != [] {
      var n := |hist| - 1;
      if hist[n].pos > limit {
        CandidatesAtMost(hist[..n], key, limit, ps - {hist[n].pos});
      } else {
        CandidatesAtMost(hist[..n], key, limit, ps);
      }
    }
  }

  // No entry strictly between i and j has this key.
  ghost predicate NoneBetween(hist: seq<Entry>, i: int, j: int, key: nat) {
    forall m :: i < m < j && 0 <= m < |hist| ==> hist[m].key != key
  }

  /** Where a link above the limit leads, and what a link at or below it means:
      the walk visits exactly the candidates, newest first. */
  lemma FollowLink(hist: seq<Entry>, base: nat, k: nat, key: nat, limit: nat)
    requires Increasing(hist) && k <= |hist|
    ensures var m := Link(hist[..k], key, base);
            var j := Newest(hist[..k], key);
            if m > limit then
              && 0 <= j < k && hist[j] == Entry(base + m, key) && NoneBetween(hist, j, k, key)
              && Candidates(hist[..k], key, base + limit) == 1 + Candidates(hist[..j], key, base + limit)
            else
              && Candidates(hist[..k], key, base + limit) == 0
              && forall i :: 0 <= i < k && hist[i].key == key ==> hist[i].pos <= base + limit
  {
    var j := Newest(hist[..k], key);
    CandidatesNewest(hist[..k], key, base + limit);
    if j >= 0 {
      assert hist[..k][j] == hist[j];
      assert hist[..k][..j] == hist[..j];
    }
    forall i | 0 <= i < k ensures hist[..k][i] == hist[i] {
    }
  }
}
