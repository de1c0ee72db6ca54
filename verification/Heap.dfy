/**
 The d-ary heap of ev.c: upheap, downheap (4-ary and 2-ary), adjustheap, reheap.

 Slots are numbered from HEAP0 = DHEAP - 1; the slots below it exist but are never
 used.  Every entry caches its watcher's time and every watcher knows its slot.
 */
module Heaps {
  // The fields that all watchers have, that timers have, and that io watchers have.
  class Watcher {
    var active: nat
    var pending: nat
    var priority: int
    var at: real
    var repeat: real
    var fd: int
    var events: bv32

    // ev_init
    constructor (pri: int, after: real, again: real)
      ensures active == 0 && pending == 0 && priority == pri && at == after && repeat == again
    {
      active, pending, priority, at, repeat := 0, 0, pri, after, again;
      fd, events := -1, 0;
    }
  }

  // ANHE: the cached time and the watcher.
  datatype Anhe = Anhe(at: real, w: Watcher)

  // DHEAP
  type Arity = d: nat | d == 2 || d == 4 witness 4

  function Heap0(d: Arity): nat {
    d - 1
  }

  // C's division truncates towards zero.
  function TruncDiv(a: int, b: int): int
    requires b > 0
  {
    if a < 0 then -((-a) / b) else a / b
  }

  // HPARENT; the root is its own parent in the 4-heap, and has parent 0 in the 2-heap.
  function HParent(d: Arity, k: nat): (p: nat)
    requires Heap0(d) <= k
    ensures k == Heap0(d) ==> p == if d == 4 then k else 0
    ensures k > Heap0(d) ==> Heap0(d) <= p < k
  {
    if d == 4 then TruncDiv(k - Heap0(4) - 1, 4) + Heap0(4) else k / 2
  }

  function FirstChild(d: Arity, k: nat): nat
    requires Heap0(d) <= k
  {
    if d == 4 then 4 * (k - Heap0(4)) + Heap0(4) + 1 else 2 * k
  }

  lemma Children(d: Arity, k: nat, i: nat)
    requires Heap0(d) <= k && Heap0(d) < i
    ensures HParent(d, i) == k <==> FirstChild(d, k) <= i < FirstChild(d, k) + d
    ensures FirstChild(d, k) > k
  {
  }

  predicate Edge(d: Arity, h: seq<Anhe>, i: nat)
    requires Heap0(d) < i < |h|
  {
    h[HParent(d, i)].at <= h[i].at
  }

  // The first n slots are a heap.
  predicate Ordered(d: Arity, h: seq<Anhe>, n: nat)
    requires n <= |h|
  {
    forall i :: Heap0(d) < i < n ==> Edge(d, h, i)
  }

  // The children of k are not before the parent of k.
  predicate Bridged(d: Arity, h: seq<Anhe>, n: nat, k: nat)
    requires Heap0(d) <= k < n <= |h|
  {
    k > Heap0(d) ==>
      forall i :: Heap0(d) < i < n && HParent(d, i) == k ==> h[HParent(d, k)].at <= h[i].at
  }

  // A heap except that slot k may come before its parent.
  predicate UpBroken(d: Arity, h: seq<Anhe>, n: nat, k: nat) {
    && Heap0(d) <= k < n <= |h| && Bridged(d, h, n, k)
    && forall i :: Heap0(d) < i < n && i != k ==> Edge(d, h, i)
  }

  // A heap except that slot k may come after its children.
  predicate DownBroken(d: Arity, h: seq<Anhe>, n: nat, k: nat) {
    && Heap0(d) <= k < n <= |h| && Bridged(d, h, n, k)
    && forall i :: Heap0(d) < i < n && HParent(d, i) != k ==> Edge(d, h, i)
  }

  // A heap in which slot k has been given a new value.
  predicate Broken(d: Arity, h: seq<Anhe>, n: nat, k: nat) {
    && Heap0(d) <= k < n <= |h| && Bridged(d, h, n, k)
    && forall i :: Heap0(d) < i < n && i != k && HParent(d, i) != k ==> Edge(d, h, i)
  }

  function Swap(h: seq<Anhe>, i: nat, j: nat): seq<Anhe>
    requires i < |h| && j < |h|
  {
    h[i := h[j]][j := h[i]]
  }

  lemma UpStep(d: Arity, h: seq<Anhe>, n: nat, k: nat)
    requires UpBroken(d, h, n, k) && k > Heap0(d) && h[k].at < h[HParent(d, k)].at
    ensures UpBroken(d, Swap(h, k, HParent(d, k)), n, HParent(d, k))
  {
    hide HParent;
    var p := HParent(d, k);
    var t := Swap(h, k, p);
    forall i | Heap0(d) < i < n && i != p ensures Edge(d, t, i) {
      assert i != k ==> Edge(d, h, i);
    }
    if p > Heap0(d) {
      assert Edge(d, h, p);
      forall i | Heap0(d) < i < n && HParent(d, i) == p ensures t[HParent(d, p)].at <= t[i].at {
        assert i != k ==> Edge(d, h, i);
      }
    }
  }

  lemma UpDone(d: Arity, h: seq<Anhe>, n: nat, k: nat)
    requires UpBroken(d, h, n, k) && (k > Heap0(d) ==> h[HParent(d, k)].at <= h[k].at)
    ensures Ordered(d, h, n)
  {
    hide HParent;
    forall i | Heap0(d) < i < n ensures Edge(d, h, i) {
    }
  }

  lemma DownStep(d: Arity, h: seq<Anhe>, n: nat, k: nat, c: nat)
    requires DownBroken(d, h, n, k) && Heap0(d) < c < n && HParent(d, c) == k && h[c].at < h[k].at
    requires forall i :: Heap0(d) < i < n && HParent(d, i) == k ==> h[c].at <= h[i].at
    ensures DownBroken(d, Swap(h, k, c), n, c)
  {
    hide HParent;
    var t := Swap(h, k, c);
    forall i | Heap0(d) < i < n && HParent(d, i) != c ensures Edge(d, t, i) {
      assert HParent(d, i) != k ==> Edge(d, h, i);
    }
    forall i | Heap0(d) < i < n && HParent(d, i) == c ensures t[HParent(d, c)].at <= t[i].at {
      assert Edge(d, h, i);
    }
  }

  lemma DownDone(d: Arity, h: seq<Anhe>, n: nat, k: nat)
    requires DownBroken(d, h, n, k)
    requires forall i :: Heap0(d) < i < n && HParent(d, i) == k ==> h[k].at <= h[i].at
    ensures Ordered(d, h, n)
  {
    hide HParent;
    forall i | Heap0(d) < i < n ensures Edge(d, h, i) {
    }
  }

  // A slot in its place relative to its parent can only be too late, otherwise too early.
  lemma BrokenOneWay(d: Arity, h: seq<Anhe>, n: nat, k: nat)
    requires Broken(d, h, n, k)
    ensures k > Heap0(d) && h[k].at <= h[HParent(d, k)].at ==> UpBroken(d, h, n, k)
    ensures k == Heap0(d) || h[k].at > h[HParent(d, k)].at ==> DownBroken(d, h, n, k)
  {
    hide HParent;
    if k > Heap0(d) && h[k].at <= h[HParent(d, k)].at {
      forall i | Heap0(d) < i < n && i != k ensures Edge(d, h, i) {
      }
    } else {
      forall i | Heap0(d) < i < n && HParent(d, i) != k ensures Edge(d, h, i) {
      }
    }
  }

  /** The root is the earliest entry. */
  lemma {:induction false} RootIsLeast(d: Arity, h: seq<Anhe>, n: nat, i: nat)
    requires Heap0(d) <= i < n <= |h| && Ordered(d, h, n)
    ensures h[Heap0(d)].at <= h[i].at
    decreases i
  {
    if i > Heap0(d) {
      assert Edge(d, h, i);
      RootIsLeast(d, h, n, HParent(d, i));
    }
  }

  lemma AppendBroken(d: Arity, h: seq<Anhe>, e: Anhe)
    requires Heap0(d) <= |h| && Ordered(d, h, |h|)
    ensures UpBroken(d, h + [e], |h| + 1, |h|)
  {
    hide HParent;
    forall i | Heap0(d) < i < |h| ensures Edge(d, h + [e], i) {
      assert Edge(d, h, i);
    }
    assert Ordered(d, h + [e], |h|);
    OneMore(d, h + [e], |h|);
  }

  // A heap with a new value in slot k.
  lemma SetBroken(d: Arity, h: seq<Anhe>, k: nat, e: Anhe)
    requires Heap0(d) <= k < |h| && Ordered(d, h, |h|)
    ensures Broken(d, h[k := e], |h|, k)
  {
    hide HParent;
    var t := h[k := e];
    forall i | Heap0(d) < i < |h| && i != k && HParent(d, i) != k ensures Edge(d, t, i) {
      assert Edge(d, h, i);
    }
    if k > Heap0(d) {
      assert Edge(d, h, k);
      forall i | Heap0(d) < i < |h| && HParent(d, i) == k ensures t[HParent(d, k)].at <= t[i].at {
        assert Edge(d, h, i);
      }
    }
  }

  lemma DropLast(d: Arity, h: seq<Anhe>)
    requires Heap0(d) < |h| && Ordered(d, h, |h|)
    ensures Ordered(d, h[..|h| - 1], |h| - 1)
  {
    hide HParent;
    var t := h[..|h| - 1];
    forall i | Heap0(d) < i < |t| ensures Edge(d, t, i) {
      assert Edge(d, h, i);
    }
  }

  // Different slots hold different watchers.
  predicate Distinct(d: Arity, h: seq<Anhe>) {
    forall i, j :: Heap0(d) <= i < j < |h| ==> h[i].w != h[j].w
  }

  // The slots in use.
  function Live(d: Arity, h: seq<Anhe>): seq<Anhe> {
    if Heap0(d) <= |h| then h[Heap0(d)..] else []
  }

  lemma SwapKeeps(d: Arity, h: seq<Anhe>, i: nat, j: nat)
    requires Heap0(d) <= i < |h| && Heap0(d) <= j < |h|
    ensures multiset(Live(d, Swap(h, i, j))) == multiset(Live(d, h))
  {
    var n := Heap0(d);
    LiveUpdate(d, h, i, h[j]);
    LiveUpdate(d, h[i := h[j]], j, h[i]);
    SwapPermutes(Live(d, h), i - n, j - n);
  }

  lemma LiveUpdate(d: Arity, h: seq<Anhe>, i: nat, e: Anhe)
    requires Heap0(d) <= i < |h|
    ensures Live(d, h[i := e]) == Live(d, h)[i - Heap0(d) := e]
  {
  }

  lemma OthersDiffer(d: Arity, h: seq<Anhe>, k: nat)
    requires Heap0(d) <= k < |h| && Distinct(d, h)
    ensures forall i :: Heap0(d) <= i < |h| && i != k ==> h[i].w != h[k].w
  {
  }

  lemma SwapDistinct(d: Arity, h: seq<Anhe>, i: nat, j: nat)
    requires Heap0(d) <= i < |h| && Heap0(d) <= j < |h| && Distinct(d, h)
    ensures Distinct(d, Swap(h, i, j))
  {
  }

  lemma SwapPermutes(h: seq<Anhe>, i: nat, j: nat)
    requires i < |h| && j < |h|
    ensures multiset(Swap(h, i, j)) == multiset(h)
  {
  }

  function WatchersOf(d: Arity, h: seq<Anhe>): set<Watcher> {
    set i | Heap0(d) <= i < |h| :: h[i].w
  }

  lemma WatchersUpdate(d: Arity, h: seq<Anhe>, k: nat, e: Anhe)
    requires Heap0(d) <= k < |h| && e.w == h[k].w
    ensures WatchersOf(d, h[k := e]) == WatchersOf(d, h)
  {
    var t := h[k := e];
    forall w: Watcher ensures w in WatchersOf(d, t) <==> w in WatchersOf(d, h) {
      if i :| Heap0(d) <= i < |h| && t[i].w == w {
        assert h[i].w == w;
      }
      if i :| Heap0(d) <= i < |h| && h[i].w == w {
        assert t[i].w == w;
      }
    }
  }

  lemma WatchersAppend(d: Arity, h: seq<Anhe>, e: Anhe)
    requires Heap0(d) <= |h|
    ensures WatchersOf(d, h + [e]) == WatchersOf(d, h) + {e.w}
  {
    var t := h + [e];
    assert t[|h|] == e;
    forall w: Watcher ensures w in WatchersOf(d, t) <==> w in WatchersOf(d, h) + {e.w} {
      if i :| Heap0(d) <= i < |h| && h[i].w == w {
        assert t[i].w == w;
      }
    }
  }

  // The heap without slot k, its last entry moved there.
  function Vacated(h: seq<Anhe>, k: nat): seq<Anhe>
    requires k < |h|
  {
    if k == |h| - 1 then h[..|h| - 1] else h[..|h| - 1][k := h[|h| - 1]]
  }

  lemma WatchersVacated(d: Arity, h: seq<Anhe>, k: nat)
    requires Heap0(d) <= k < |h| && Distinct(d, h)
    ensures WatchersOf(d, Vacated(h, k)) == WatchersOf(d, h) - {h[k].w} && Distinct(d, Vacated(h, k))
  {
    var t, n := Vacated(h, k), |h| - 1;
    forall w: Watcher ensures w in WatchersOf(d, t) <==> w in WatchersOf(d, h) - {h[k].w} {
      if i :| Heap0(d) <= i < |t| && t[i].w == w {
        var j := if i == k then n else i;
        assert h[j].w == w;
      }
      if i :| Heap0(d) <= i < |h| && h[i].w == w && i != k {
        var j := if i == n then k else i;
        assert t[j].w == w;
      }
    }
  }

  lemma InLive(d: Arity, h: seq<Anhe>, w: Watcher)
    requires Heap0(d) <= |h|
    ensures (exists i :: Heap0(d) <= i < |h| && h[i].w == w) <==> (exists e :: e in Live(d, h) && e.w == w)
  {
    if i :| Heap0(d) <= i < |h| && h[i].w == w {
      assert Live(d, h)[i - Heap0(d)] == h[i];
    }
  }

  // Adding the next slot to the heap breaks at most its edge to its parent.
  lemma OneMore(d: Arity, h: seq<Anhe>, n: nat)
    requires Heap0(d) <= n < |h| && Ordered(d, h, n)
    ensures UpBroken(d, h, n + 1, n)
  {
    forall i | Heap0(d) < i < n + 1 ensures HParent(d, i) != n {
      Children(d, n, i);
    }
    forall i | Heap0(d) < i < n + 1 && i != n ensures Edge(d, h, i) {
    }
  }

  // ev_active of every watcher but the one at k is its slot.
  ghost predicate PlacedBut(d: Arity, h: seq<Anhe>, n: nat, k: int)
    requires n <= |h|
    reads set i | Heap0(d) <= i < n :: h[i].w`active
  {
    forall i :: Heap0(d) <= i < n && i != k ==> h[i].w.active == i
  }

  class Heap {
    const d: Arity
    var h: seq<Anhe>

    constructor (arity: Arity, unused: Watcher)
      ensures d == arity && |h| == Heap0(arity) && Valid()
    {
      d := arity;
      h := seq(Heap0(arity), _ => Anhe(0.0, unused));
    }

    // The watchers in the heap.
    ghost function Members(): set<Watcher>
      reads this`h
    {
      WatchersOf(d, h)
    }

    ghost predicate Placed()
      reads this`h, Members()`active
    {
      PlacedBut(d, h, |h|, -1)
    }

    // The cached time is the watcher's own.
    ghost predicate Cached()
      reads this`h, Members()`at
    {
      forall i :: Heap0(d) <= i < |h| ==> h[i].at == h[i].w.at
    }

    ghost predicate Shape()
      reads this`h
    {
      Heap0(d) <= |h| && Distinct(d, h)
    }

    ghost predicate Valid()
      reads this`h, Members()`active, Members()`at
    {
      Shape() && Ordered(d, h, |h|) && Placed() && Cached()
    }

    // The same entries, in some order.
    twostate predicate Permuted()
      reads this`h
    {
      |h| == |old(h)| && multiset(Live(d, h)) == multiset(Live(d, old(h)))
    }

    twostate lemma SameMembers()
      requires Heap0(d) <= |h| && Heap0(d) <= |old(h)| && Permuted()
      ensures Members() == old(Members())
    {
      forall w: Watcher ensures w in Members() <==> w in old(Members()) {
        InLive(d, h, w);
        InLive(d, old(h), w);
        var x, y := Live(d, h), Live(d, old(h));
        assert forall e :: e in x <==> e in multiset(x);
        assert forall e :: e in y <==> e in multiset(y);
      }
    }

    // During a walk `he` is held aside and slot k is free; the entries are still m.
    ghost predicate Hole(n: nat, k: nat, he: Anhe, m: multiset<Anhe>)
      reads this`h, Members()`active
    {
      && Heap0(d) <= k < n <= |h| && multiset(Live(d, h[k := he])) == m
      && Distinct(d, h[k := he]) && PlacedBut(d, h, n, k)
    }

    lemma StartWalk(n: nat, k: nat)
      requires Heap0(d) <= k < n <= |h| && Shape() && PlacedBut(d, h, n, k)
      ensures Hole(n, k, h[k], multiset(Live(d, h))) && h[k := h[k]] == h && h[k].w in Members()
    {
      assert h[k := h[k]] == h;
    }

    // The entry at `from` moves into the hole at k.
    method Move(ghost n: nat, k: nat, from: nat, ghost he: Anhe, ghost m: multiset<Anhe>)
      requires Heap0(d) <= from < n && k != from && Hole(n, k, he, m)
      modifies this`h, Members()`active
      ensures Hole(n, from, he, m) && |h| == |old(h)| && h[n..] == old(h)[n..]
      ensures h[from := he] == Swap(old(h)[k := he], k, from)
      ensures Members() <= old(Members())
    {
      hide Live, Distinct;
      ghost var t := h[k := he];
      SwapKeeps(d, t, k, from);
      SwapDistinct(d, t, k, from);
      OthersDiffer(d, t, from);
      h := h[k := h[from]];
      h[k].w.active := k;
      assert forall i :: Heap0(d) <= i < n && i != from && i != k ==> h[i] == t[i];
      assert h[from := he] == Swap(t, k, from);
    }

    // The end of a walk: `he` goes into the hole.
    method Settle(ghost n: nat, k: nat, he: Anhe, ghost m: multiset<Anhe>)
      requires Hole(n, k, he, m)
      modifies this`h, Members()`active, he.w`active
      ensures h == old(h)[k := he] && Shape() && PlacedBut(d, h, n, -1) && multiset(Live(d, h)) == m
    {
      h := h[k := he];
      h[k].w.active := k;
    }

    /** upheap: an entry that may be earlier than its ancestors finds its place.
        Slots from n on play no part. */
    method Upheap(k0: nat, ghost n: nat)
      requires Heap0(d) <= k0 < n <= |h| && Shape() && UpBroken(d, h, n, k0) && PlacedBut(d, h, n, k0)
      modifies this`h, Members()`active
      ensures Permuted() && h[n..] == old(h)[n..]
      ensures Shape() && Ordered(d, h, n) && PlacedBut(d, h, n, -1)
    {
      hide HParent, Shape, PlacedBut, UpBroken, Ordered, Hole, Members, Placed;
      var k, he := k0, h[k0];
      StartWalk(n, k);
      var done := false;
      while !done
        invariant Heap0(d) <= k < n <= |h| && |h| == |old(h)| && h[n..] == old(h)[n..]
        invariant Hole(n, k, he, multiset(Live(d, old(h)))) && UpBroken(d, h[k := he], n, k)
        invariant Members() <= old(Members()) && he.w in old(Members())
        invariant done ==> Ordered(d, h[k := he], n)
        decreases k, !done
      {
        var p := HParent(d, k);
        if Finished(p, k) || h[p].at <= he.at {
          UpDone(d, h[k := he], n, k);
          done := true;
        } else {
          UpStep(d, h[k := he], n, k);
          Move(n, k, p, he, multiset(Live(d, old(h))));
          k := p;
        }
      }
      Settle(n, k, he, multiset(Live(d, old(h))));
    }

    // Among the children of k, the first one with the least time.
    ghost predicate LeastChild(h: seq<Anhe>, k: nat, c: nat)
      requires Heap0(d) <= k
    {
      && Heap0(d) < c < |h| && HParent(d, c) == k
      && forall i :: Heap0(d) < i < |h| && HParent(d, i) == k ==> h[c].at <= h[i].at
    }

    // Find the minimum child in the 4-heap: all four are there, or some.
    method LeastOfFour(k: nat) returns (minpos: nat)
      requires d == 4 && Heap0(d) <= k && FirstChild(d, k) < |h|
      ensures LeastChild(h, k, minpos)
    {
      var pos := 4 * (k - Heap0(d)) + Heap0(d) + 1;
      var minat: real;
      minpos, minat := pos, h[pos].at;
      if pos + 4 - 1 < |h| {
        if h[pos + 1].at < minat { minpos, minat := pos + 1, h[pos + 1].at; }
        if h[pos + 2].at < minat { minpos, minat := pos + 2, h[pos + 2].at; }
        if h[pos + 3].at < minat { minpos, minat := pos + 3, h[pos + 3].at; }
      } else {
        if pos + 1 < |h| && h[pos + 1].at < minat { minpos, minat := pos + 1, h[pos + 1].at; }
        if pos + 2 < |h| && h[pos + 2].at < minat { minpos, minat := pos + 2, h[pos + 2].at; }
        // The slow path tests pos + 3 as well, which is never below E here.
        assert pos + 3 >= |h|;
      }
    }

    // Find the lesser child in the 2-heap.
    method LeastOfTwo(k: nat) returns (c: nat)
      requires d == 2 && Heap0(d) <= k && FirstChild(d, k) < |h|
      ensures LeastChild(h, k, c)
    {
      c := 2 * k;
      c := c + if c + 1 < |h| && h[c].at > h[c + 1].at then 1 else 0;
    }

    // The minimum child of the hole at k; what is held aside is not among them.
    method MinChild(k: nat, ghost he: Anhe) returns (c: nat)
      requires Heap0(d) <= k && FirstChild(d, k) < |h| && k < |h|
      ensures c < |h| && k < c && LeastChild(h[k := he], k, c)
    {
      if d == 4 {
        c := LeastOfFour(k);
      } else {
        c := LeastOfTwo(k);
      }
      forall i | Heap0(d) < i < |h| && HParent(d, i) == k ensures i > k {
        Children(d, k, i);
      }
    }

    /** downheap: an entry that may be later than its descendants finds its place. */
    method Downheap(k0: nat)
      requires Heap0(d) <= k0 < |h| && Shape() && DownBroken(d, h, |h|, k0) && PlacedBut(d, h, |h|, k0)
      modifies this`h, Members()`active
      ensures Shape() && Ordered(d, h, |h|) && Placed() && Permuted()
    {
      hide HParent, Shape, PlacedBut, DownBroken, Ordered, Hole;
      var k, he := k0, h[k0];
      StartWalk(|h|, k);
      var done := false;
      while !done
        invariant Heap0(d) <= k < |h| && |h| == |old(h)|
        invariant Hole(|h|, k, he, multiset(Live(d, old(h)))) && DownBroken(d, h[k := he], |h|, k)
        invariant Members() <= old(Members()) && he.w in old(Members())
        invariant done ==> Ordered(d, h[k := he], |h|)
        decreases |h| - k, !done
      {
        Children(d, k, FirstChild(d, k));
        if FirstChild(d, k) >= |h| {
          NoChildren(k, h[k := he]);
          done := true;
        } else {
          var c := MinChild(k, he);
          if he.at <= h[c].at {
            DownDone(d, h[k := he], |h|, k);
            done := true;
          } else {
            DownStep(d, h[k := he], |h|, k, c);
            Move(|h|, k, c, he, multiset(Live(d, old(h))));
            k := c;
          }
        }
      }
      Settle(|h|, k, he, multiset(Live(d, old(h))));
    }

    lemma NoChildren(k: nat, t: seq<Anhe>)
      requires DownBroken(d, t, |t|, k) && FirstChild(d, k) >= |t|
      ensures Ordered(d, t, |t|)
    {
      forall i | Heap0(d) < i < |t| ensures HParent(d, i) != k {
        Children(d, k, i);
      }
      DownDone(d, t, |t|, k);
    }

    /** adjustheap: an entry given a new time finds its place. */
    method Adjustheap(k: nat)
      requires Heap0(d) <= k < |h| && Shape() && Broken(d, h, |h|, k) && PlacedBut(d, h, |h|, k)
      modifies this`h, Members()`active
      ensures Shape() && Ordered(d, h, |h|) && Placed() && Permuted()
    {
      hide Ordered, UpBroken, DownBroken, Broken, PlacedBut, HParent;
      BrokenOneWay(d, h, |h|, k);
      if k > Heap0(d) && h[k].at <= h[HParent(d, k)].at {
        Upheap(k, |h|);
      } else {
        Downheap(k);
      }
    }

    /** reheap: whatever the order was and wherever the watchers thought they were. */
    method Reheap()
      requires Shape()
      modifies this`h, Members()`active
      ensures Shape() && Ordered(d, h, |h|) && Placed() && Permuted()
    {
      hide HParent, UpBroken, Ordered, PlacedBut, Distinct, Members, Live;
      NothingYet();
      var i := 0;
      while i + Heap0(d) < |h|
        invariant Heap0(d) <= i + Heap0(d) <= |h| && Permuted() && Members() == old(Members())
        invariant Shape() && Ordered(d, h, i + Heap0(d)) && PlacedBut(d, h, i + Heap0(d), -1)
      {
        AddNext(i + Heap0(d));
        i := i + 1;
      }
    }

    // The next slot joins the heap.
    method AddNext(n: nat)
      requires Heap0(d) <= n < |h| && Shape() && Ordered(d, h, n) && PlacedBut(d, h, n, -1)
      modifies this`h, Members()`active
      ensures Permuted() && Members() == old(Members())
      ensures Shape() && Ordered(d, h, n + 1) && PlacedBut(d, h, n + 1, -1)
    {
      hide HParent, UpBroken, Ordered, PlacedBut, Distinct;
      OneMore(d, h, n);
      NextPlaced(n);
      Upheap(n, n + 1);
      SameMembers();
    }

    lemma NothingYet()
      requires Shape()
      ensures Ordered(d, h, Heap0(d)) && PlacedBut(d, h, Heap0(d), -1)
    {
    }

    lemma NextPlaced(n: nat)
      requires n < |h| && PlacedBut(d, h, n, -1)
      ensures PlacedBut(d, h, n + 1, n)
    {
    }

    // Every watcher stays what it was and the entries are the same: so is the cache.
    twostate lemma CacheStays()
      requires Permuted() && forall e :: e in Live(d, old(h)) ==> e.at == e.w.at
      ensures Cached()
    {
      var x, y := Live(d, h), Live(d, old(h));
      forall i | Heap0(d) <= i < |h| ensures h[i].at == h[i].w.at {
        assert h[i] == x[i - Heap0(d)];
        assert h[i] in multiset(x);
        assert h[i] in multiset(y);
      }
    }

    lemma CacheEntries()
      requires Cached()
      ensures forall e :: e in Live(d, h) ==> e.at == e.w.at
    {
    }

    lemma MembersActive()
      requires Shape() && Placed()
      ensures forall w :: w in Members() ==> w.active >= Heap0(d) > 0
    {
    }

    // Slot k is where w says it is.
    lemma SlotOf(w: Watcher)
      requires Shape() && Placed() && w in Members()
      ensures Heap0(d) <= w.active < |h| && h[w.active].w == w
    {
    }

    /** Take w in: the heap part of ev_timer_start. */
    method Insert(w: Watcher)
      requires Valid() && w !in Members()
      modifies this`h, Members()`active, w`active
      ensures Valid() && Members() == old(Members()) + {w}
    {
      hide Ordered, HParent, UpBroken;
      AppendBroken(d, h, Anhe(w.at, w));
      WatchersAppend(d, h, Anhe(w.at, w));
      CacheEntries();
      w.active := |h|;
      h := h + [Anhe(w.at, w)];
      label L:
      CacheEntries();
      Upheap(|h| - 1, |h|);
      SameMembers@L();
      CacheStays@L();
    }

    /** Let w go: the heap part of ev_timer_stop.  The last entry fills the gap. */
    method Delete(w: Watcher)
      requires Valid() && w in Members()
      modifies this`h, (Members() - {w})`active
      ensures Valid() && Members() == old(Members()) - {w}
    {
      hide Ordered, HParent, Broken;
      SlotOf(w);
      var active := w.active;
      var last := h[|h| - 1];
      DropLast(d, h);
      WatchersVacated(d, h, active);
      h := h[..|h| - 1];
      if active < |h| {
        SetBroken(d, h, active, last);
        h := h[active := last];
        label L:
        CacheEntries();
        Adjustheap(active);
        SameMembers@L();
        CacheStays@L();
      }
    }

    /** w has a new time: ANHE_at_cache and adjustheap. */
    method Change(w: Watcher)
      requires Shape() && Ordered(d, h, |h|) && Placed() && w in Members()
      requires forall i :: Heap0(d) <= i < |h| && h[i].w != w ==> h[i].at == h[i].w.at
      modifies this`h, Members()`active
      ensures Valid() && Members() == old(Members())
    {
      hide Ordered, HParent, Broken;
      SlotOf(w);
      var k := w.active;
      SetBroken(d, h, k, Anhe(w.at, w));
      WatchersUpdate(d, h, k, Anhe(w.at, w));
      h := h[k := Anhe(w.at, w)];
      label L:
      CacheEntries();
      Adjustheap(k);
      SameMembers@L();
      CacheStays@L();
    }

    /** The same for the root, which can only have become later. */
    method ChangeRoot()
      requires Shape() && Heap0(d) < |h| && Ordered(d, h, |h|) && Placed()
      requires forall i :: Heap0(d) < i < |h| ==> h[i].at == h[i].w.at
      modifies this`h, Members()`active
      ensures Valid() && Members() == old(Members())
    {
      hide Ordered, HParent, Broken;
      var k := Heap0(d);
      SetBroken(d, h, k, Anhe(h[k].w.at, h[k].w));
      WatchersUpdate(d, h, k, Anhe(h[k].w.at, h[k].w));
      h := h[k := Anhe(h[k].w.at, h[k].w)];
      label L:
      CacheEntries();
      BrokenOneWay(d, h, |h|, k);
      Downheap(k);
      SameMembers@L();
      CacheStays@L();
    }

    // UPHEAP_DONE
    predicate Finished(p: nat, k: nat) {
      if d == 4 then p == k else p == 0
    }
  }
}
