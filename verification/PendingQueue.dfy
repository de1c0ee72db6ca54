/**
 The pending queues of ev.c: ev_feed_event, clear_pending, ev_clear_pending and
 ev_invoke_pending.

 One queue per priority.  A watcher that is waiting knows its place in its queue;
 clearing it leaves a dummy behind so that no other place changes.
 */
module PendingQueues {
  import opened Heaps

  const NUMPRI := 5
  const MINPRI := -2

  type Events = bv32

  function Or(a: Events, b: Events): Events { a | b }

  // An event is among the events of two masks if it is among those of either.
  lemma OrBits(a: Events, b: Events, m: Events)
    ensures Or(a, b) & m == (a & m) | (b & m)
  {
  }

  // ANPENDING
  datatype AnPending = AnPending(w: Watcher, events: Events)

  // Where w waits in q, or -1.
  function Place(q: seq<AnPending>, w: Watcher): (i: int)
    ensures -1 <= i < |q|
    ensures i >= 0 ==> q[i].w == w
    ensures i < 0 ==> forall j :: 0 <= j < |q| ==> q[j].w != w
  {
    if q == [] then -1
    else if q[|q| - 1].w == w then |q| - 1
    else Place(q[..|q| - 1], w)
  }

  // An event joins the events w is waiting with, or w joins the queue.
  function Fed(q: seq<AnPending>, w: Watcher, ev: Events): seq<AnPending> {
    var i := Place(q, w);
    if i >= 0 then q[i := AnPending(w, Or(q[i].events, ev))] else q + [AnPending(w, ev)]
  }

  // w leaves the queue; the others keep their places.
  function Cleared(q: seq<AnPending>, w: Watcher, dummy: Watcher): seq<AnPending> {
    var i := Place(q, w);
    if i >= 0 then q[i := AnPending(dummy, q[i].events)] else q
  }

  // Last in, first out, passing over the dummies.
  function Backwards(q: seq<AnPending>, dummy: Watcher): seq<AnPending> {
    if q == [] then []
    else
      var n := |q| - 1;
      (if q[n].w == dummy then [] else [q[n]]) + Backwards(q[..n], dummy)
  }

  // Priorities n - 1 down to 0.
  function Drained(ps: seq<seq<AnPending>>, n: nat, dummy: Watcher): seq<AnPending>
    requires n <= |ps|
  {
    if n == 0 then [] else Backwards(ps[n - 1], dummy) + Drained(ps, n - 1, dummy)
  }

  function Empties(): seq<seq<AnPending>> {
    [[], [], [], [], []]
  }

  function Count(s: seq<AnPending>, w: Watcher): nat {
    if s == [] then 0 else Count(s[..|s| - 1], w) + if s[|s| - 1].w == w then 1 else 0
  }

  lemma {:induction false} CountAppend(s: seq<AnPending>, t: seq<AnPending>, w: Watcher)
    ensures Count(s + t, w) == Count(s, w) + Count(t, w)
    decreases |t|
  {
    if t == [] {
      assert s + t == s;
    } else {
      var n := |t| - 1;
      assert (s + t)[..|s| + n] == s + t[..n];
      CountAppend(s, t[..n], w);
    }
  }

  lemma {:induction false} BackwardsCount(q: seq<AnPending>, w: Watcher, dummy: Watcher)
    requires w != dummy
    ensures Count(Backwards(q, dummy), w) == Count(q, w)
    decreases |q|
  {
    if q != [] {
      var n := |q| - 1;
      BackwardsCount(q[..n], w, dummy);
      var last := if q[n].w == dummy then [] else [q[n]];
      CountAppend(last, Backwards(q[..n], dummy), w);
      CountOne(last, w);
    }
  }

  lemma CountOne(s: seq<AnPending>, w: Watcher)
    requires |s| <= 1
    ensures Count(s, w) == if s != [] && s[0].w == w then 1 else 0
  {
    if s != [] {
      assert s[..0] == [];
    }
  }

  lemma {:induction false} CountZero(q: seq<AnPending>, w: Watcher)
    requires forall i :: 0 <= i < |q| ==> q[i].w != w
    ensures Count(q, w) == 0
    decreases |q|
  {
    if q != [] {
      CountZero(q[..|q| - 1], w);
    }
  }

  // One entry for w, at place i.
  lemma {:induction false} CountUnique(q: seq<AnPending>, w: Watcher, i: nat)
    requires i < |q| && q[i].w == w && forall j :: 0 <= j < |q| && q[j].w == w ==> j == i
    ensures Count(q, w) == 1
    decreases |q|
  {
    var n := |q| - 1;
    if i == n {
      CountZero(q[..n], w);
    } else {
      CountUnique(q[..n], w, i);
    }
  }

  function TotalCount(ps: seq<seq<AnPending>>, n: nat, w: Watcher): nat
    requires n <= |ps|
  {
    if n == 0 then 0 else Count(ps[n - 1], w) + TotalCount(ps, n - 1, w)
  }

  lemma {:induction false} DrainedCount(ps: seq<seq<AnPending>>, n: nat, w: Watcher, dummy: Watcher)
    requires n <= |ps| && w != dummy
    ensures Count(Drained(ps, n, dummy), w) == TotalCount(ps, n, w)
    decreases n
  {
    if n > 0 {
      DrainedCount(ps, n - 1, w, dummy);
      BackwardsCount(ps[n - 1], w, dummy);
      CountAppend(Backwards(ps[n - 1], dummy), Drained(ps, n - 1, dummy), w);
    }
  }

  // Every entry invoked comes from one of the queues.
  lemma {:induction false} BackwardsFrom(q: seq<AnPending>, dummy: Watcher)
    ensures forall i :: 0 <= i < |Backwards(q, dummy)| ==>
      Backwards(q, dummy)[i] in q && Backwards(q, dummy)[i].w != dummy
    decreases |q|
  {
    if q != [] {
      BackwardsFrom(q[..|q| - 1], dummy);
    }
  }

  lemma DrainStep(calls: seq<AnPending>, ps: seq<seq<AnPending>>, n: nat, dummy: Watcher)
    requires n < |ps|
    ensures calls + Drained(ps, n + 1, dummy) == (calls + Backwards(ps[n], dummy)) + Drained(ps, n, dummy)
  {
    var b, r := Backwards(ps[n], dummy), Drained(ps, n, dummy);
    assert calls + (b + r) == (calls + b) + r;
  }

  // Feed the watchers one after the other.
  function FedAll(q: seq<AnPending>, ws: seq<Watcher>, ev: Events): seq<AnPending>
    decreases |ws|
  {
    if ws == [] then q else FedAll(Fed(q, ws[0], ev), ws[1..], ev)
  }

  function Reverse(ws: seq<Watcher>): seq<Watcher> {
    if ws == [] then [] else Reverse(ws[1..]) + [ws[0]]
  }

  function WithEvents(ws: seq<Watcher>, ev: Events): (r: seq<AnPending>)
    ensures |r| == |ws|
  {
    seq(|ws|, i requires 0 <= i < |ws| => AnPending(ws[i], ev))
  }

  predicate NoDuplicates<T(==)>(s: seq<T>) {
    forall i, j :: 0 <= i < j < |s| ==> s[i] != s[j]
  }

  // w waits at most once in q.
  predicate OnceIn(q: seq<AnPending>, w: Watcher) {
    forall i, j :: 0 <= i < j < |q| && q[i].w == w ==> q[j].w != w
  }

  // The watchers of ws that do not wait in q, in order.
  function NewOnes(q: seq<AnPending>, ws: seq<Watcher>): seq<Watcher> {
    if ws == [] then [] else (if Place(q, ws[0]) < 0 then [ws[0]] else []) + NewOnes(q, ws[1..])
  }

  // The queue q, place for place, with event ev joining the events of every watcher in ws.
  function Merged(q: seq<AnPending>, ws: seq<Watcher>, ev: Events): (r: seq<AnPending>)
    ensures |r| == |q|
  {
    seq(|q|, i requires 0 <= i < |q| => if q[i].w in ws then AnPending(q[i].w, Or(q[i].events, ev)) else q[i])
  }

  lemma {:induction false} NewOnesIn(q: seq<AnPending>, ws: seq<Watcher>)
    ensures forall w :: w in NewOnes(q, ws) <==> w in ws && Place(q, w) < 0
    decreases |ws|
  {
    if ws != [] {
      NewOnesIn(q, ws[1..]);
      assert forall w :: w in ws <==> w == ws[0] || w in ws[1..];
    }
  }

  // Watchers are new in two queues alike if they wait in both or in neither.
  lemma {:induction false} NewOnesSame(q: seq<AnPending>, r: seq<AnPending>, ws: seq<Watcher>)
    requires forall w :: w in ws ==> (Place(q, w) < 0 <==> Place(r, w) < 0)
    ensures NewOnes(q, ws) == NewOnes(r, ws)
    decreases |ws|
  {
    hide Place;
    if ws != [] {
      NewOnesSame(q, r, ws[1..]);
    }
  }

  lemma {:induction false} NewOnesSnoc(q: seq<AnPending>, ws: seq<Watcher>, w: Watcher)
    ensures NewOnes(q, ws + [w]) == NewOnes(q, ws) + if Place(q, w) < 0 then [w] else []
    decreases |ws|
  {
    if ws == [] {
      assert ws + [w] == [w];
    } else {
      assert (ws + [w])[1..] == ws[1..] + [w];
      NewOnesSnoc(q, ws[1..], w);
    }
  }

  lemma {:induction false} NewOnesReverse(q: seq<AnPending>, ws: seq<Watcher>)
    ensures NewOnes(q, Reverse(ws)) == Reverse(NewOnes(q, ws))
    decreases |ws|
  {
    if ws != [] {
      var n := NewOnes(q, ws[1..]);
      NewOnesReverse(q, ws[1..]);
      NewOnesSnoc(q, Reverse(ws[1..]), ws[0]);
      assert ([ws[0]] + n)[1..] == n && [] + n == n;
    }
  }

  // Only the order of ws is lost when events are merged.
  lemma MergedSame(q: seq<AnPending>, ws: seq<Watcher>, vs: seq<Watcher>, ev: Events)
    requires forall w :: w in ws <==> w in vs
    ensures Merged(q, ws, ev) == Merged(q, vs, ev)
  {
  }

  // Where a watcher waits is determined by any one of its places.
  lemma PlaceAt(q: seq<AnPending>, w: Watcher, i: nat)
    requires i < |q| && q[i].w == w && OnceIn(q, w)
    ensures Place(q, w) == i
  {
    hide Place;
  }

  // Feeding one watcher leaves all other watchers as they were.
  lemma FedOther(q: seq<AnPending>, v: Watcher, ev: Events, w: Watcher)
    requires v != w && OnceIn(q, v) && OnceIn(q, w)
    ensures OnceIn(Fed(q, v, ev), w) && (Place(Fed(q, v, ev), w) < 0 <==> Place(q, w) < 0)
  {
    hide Place, Or;
    var r := Fed(q, v, ev);
    assert forall i :: 0 <= i < |q| ==> r[i].w == q[i].w;
    if Place(q, w) >= 0 {
      assert r[Place(q, w)].w == w;
    }
  }

  // A watcher fed first, and then others: merged into its entry, or first of the new ones.
  lemma MergeFirst(q: seq<AnPending>, ws: seq<Watcher>, ev: Events)
    requires ws != [] && NoDuplicates(ws) && OnceIn(q, ws[0])
    ensures Merged(Fed(q, ws[0], ev), ws[1..], ev)
         == Merged(q, ws, ev) + if Place(q, ws[0]) < 0 then [AnPending(ws[0], ev)] else []
  {
    hide Place, Or;
    var w, t, r := ws[0], ws[1..], Fed(q, ws[0], ev);
    var m, n := Merged(r, t, ev), Merged(q, ws, ev);
    assert w !in t;
    forall i | 0 <= i < |q| ensures m[i] == n[i] {
      if q[i].w == w {
        PlaceAt(q, w, i);
      } else {
        assert q[i].w in ws <==> q[i].w in t;
      }
    }
  }

  /** Feeding any watchers: those that wait have the event merged into their entries,
      place for place; the others join the queue in the order they are fed. */
  lemma {:induction false} FedSplits(q: seq<AnPending>, ws: seq<Watcher>, ev: Events)
    requires NoDuplicates(ws) && forall w :: w in ws ==> OnceIn(q, w)
    ensures FedAll(q, ws, ev) == Merged(q, ws, ev) + WithEvents(NewOnes(q, ws), ev)
    decreases |ws|
  {
    hide Place, Or, Fed, OnceIn, Merged;
    if ws == [] {
      MergedNone(q, ev);
    } else {
      var w, t, r := ws[0], ws[1..], Fed(q, ws[0], ev);
      forall v | v in t ensures OnceIn(r, v) && (Place(r, v) < 0 <==> Place(q, v) < 0) {
        FedOther(q, w, ev, v);
      }
      FedSplits(r, t, ev);
      NewOnesSame(q, r, t);
      MergeFirst(q, ws, ev);
      JoinFirst(Merged(q, ws, ev), w, NewOnes(q, t), ev);
    }
  }

  lemma MergedNone(q: seq<AnPending>, ev: Events)
    ensures Merged(q, [], ev) + WithEvents([], ev) == q
  {
  }

  lemma JoinFirst(m: seq<AnPending>, w: Watcher, n: seq<Watcher>, ev: Events)
    ensures (m + [AnPending(w, ev)]) + WithEvents(n, ev) == m + WithEvents([w] + n, ev)
    ensures (m + []) + WithEvents(n, ev) == m + WithEvents([] + n, ev)
  {
    assert [AnPending(w, ev)] + WithEvents(n, ev) == WithEvents([w] + n, ev);
    assert [] + n == n;
  }

  lemma {:induction false} BackwardsOfNew(q: seq<AnPending>, ws: seq<Watcher>, ev: Events, dummy: Watcher)
    requires dummy !in ws
    ensures Backwards(q + WithEvents(Reverse(ws), ev), dummy) == WithEvents(ws, ev) + Backwards(q, dummy)
    decreases |ws|
  {
    var r := WithEvents(Reverse(ws), ev);
    if ws == [] {
      assert q + r == q;
    } else {
      var n := |q + r| - 1;
      assert (q + r)[..n] == q + WithEvents(Reverse(ws[1..]), ev);
      assert (q + r)[n] == AnPending(ws[0], ev);
      BackwardsOfNew(q, ws[1..], ev, dummy);
      assert WithEvents(ws, ev) == [AnPending(ws[0], ev)] + WithEvents(ws[1..], ev);
    }
  }

  lemma {:induction false} ReverseKeeps(ws: seq<Watcher>)
    ensures |Reverse(ws)| == |ws|
    ensures forall i :: 0 <= i < |ws| ==> Reverse(ws)[i] == ws[|ws| - 1 - i]
    decreases |ws|
  {
    if ws != [] {
      ReverseKeeps(ws[1..]);
    }
  }

  lemma ReverseSame(ws: seq<Watcher>, r: seq<Watcher>)
    requires r == Reverse(ws)
    ensures NoDuplicates(ws) ==> NoDuplicates(r)
    ensures (forall w :: w in r <==> w in ws) && forall i :: 0 <= i < |r| ==> r[i] in ws
  {
    ReverseKeeps(ws);
    forall w | w in ws ensures w in r {
      var i :| 0 <= i < |ws| && ws[i] == w;
      assert r[|ws| - 1 - i] == w;
    }
  }

  /** Feeding in reverse and invoking the last first: the watchers that were not
      waiting run in the original order, ahead of everything that was waiting; that
      runs as it would have, with the event merged into the watchers that were fed. */
  lemma ReverseFeedRunsInOrder(q: seq<AnPending>, ws: seq<Watcher>, ev: Events, dummy: Watcher)
    requires NoDuplicates(ws) && dummy !in ws && forall w :: w in ws ==> OnceIn(q, w)
    ensures Backwards(FedAll(q, Reverse(ws), ev), dummy)
         == WithEvents(NewOnes(q, ws), ev) + Backwards(Merged(q, ws, ev), dummy)
  {
    hide Backwards, OnceIn, Place, FedAll, Merged;
    var r := Reverse(ws);
    ReverseSame(ws, r);
    forall w | w in r ensures OnceIn(q, w) {
      var i :| 0 <= i < |r| && r[i] == w;
    }
    FedSplits(q, r, ev);
    MergedSame(q, r, ws, ev);
    NewOnesReverse(q, ws);
    var n := NewOnes(q, ws);
    NewOnesIn(q, ws);
    assert dummy !in n;
    BackwardsOfNew(Merged(q, ws, ev), n, ev, dummy);
  }

  class EventQueue {
    const pending_w: Watcher
    var pendings: seq<seq<AnPending>>
    var calls: seq<AnPending>           // callbacks invoked so far
    ghost var all: set<Watcher>         // the watchers of the program

    // ABSPRI
    static function AbsPri(w: Watcher): int
      reads w`priority
    {
      w.priority - MINPRI
    }

    static predicate InRange(w: Watcher)
      reads w`priority
    {
      0 <= AbsPri(w) < NUMPRI
    }

    // The entry at place i of queue p.
    ghost predicate EntryOk(p: nat, i: nat)
      requires p < |pendings| && i < |pendings[p]|
      reads this`pendings, this`all, all`pending, all`priority
    {
      var w := pendings[p][i].w;
      w == pending_w || (w in all && w.pending == i + 1 && AbsPri(w) == p)
    }

    // A waiting watcher is where it says.
    ghost predicate PlaceOk(w: Watcher)
      requires |pendings| == NUMPRI
      reads this`pendings, w`pending, w`priority
    {
      w.pending > 0 ==>
        InRange(w) && w.pending <= |pendings[AbsPri(w)]| && pendings[AbsPri(w)][w.pending - 1].w == w
    }

    ghost predicate Valid()
      reads this`pendings, this`all, all`pending, all`priority
    {
      && |pendings| == NUMPRI && pending_w !in all
      && (forall p, i :: 0 <= p < NUMPRI && 0 <= i < |pendings[p]| ==> EntryOk(p, i))
      && (forall w :: w in all ==> PlaceOk(w))
    }

    constructor ()
      ensures Valid() && all == {} && calls == [] && pendings == Empties()
      ensures fresh(pending_w)
    {
      pending_w := new Watcher(0, 0.0, 0.0);
      pendings := Empties();
      calls := [];
      all := {};
    }

    // A watcher that has been through ev_init.
    ghost method Adopt(w: Watcher)
      requires Valid() && w != pending_w && w.pending == 0
      modifies this`all
      ensures Valid() && all == old(all) + {w}
    {
      all := all + {w};
      forall p, i | 0 <= p < NUMPRI && 0 <= i < |pendings[p]| ensures EntryOk(p, i) {
        assert old(EntryOk(p, i));
      }
    }

    // pri_adjust: clamp the priority.  A waiting watcher has a proper one already.
    method PriAdjust(w: Watcher)
      requires Valid() && w in all
      modifies w`priority
      ensures Valid() && -2 <= w.priority <= 2 && InRange(w)
      ensures w.priority == if old(w.priority) < -2 then -2 else if old(w.priority) > 2 then 2 else old(w.priority)
    {
      var pri := w.priority;
      pri := if pri < -2 then -2 else pri;
      pri := if pri > 2 then 2 else pri;
      if w.pending > 0 {
        assert PlaceOk(w);
      }
      w.priority := pri;
      forall p, i | 0 <= p < NUMPRI && 0 <= i < |pendings[p]| ensures EntryOk(p, i) {
        assert old(EntryOk(p, i));
      }
      forall v | v in all ensures PlaceOk(v) {
        assert old(PlaceOk(v));
      }
    }

    /** A watcher waits in at most one place, and its `pending` is that place. */
    lemma PendingIsPlace(w: Watcher)
      requires Valid() && w in all
      ensures InRange(w) ==> w.pending == Place(pendings[AbsPri(w)], w) + 1
      ensures forall p, i :: 0 <= p < NUMPRI && 0 <= i < |pendings[p]| && pendings[p][i].w == w ==>
                p == AbsPri(w) && i + 1 == w.pending
    {
      hide Place;
      assert PlaceOk(w);
      if InRange(w) && Place(pendings[AbsPri(w)], w) >= 0 {
        assert EntryOk(AbsPri(w), Place(pendings[AbsPri(w)], w));
      }
      forall p, i | 0 <= p < NUMPRI && 0 <= i < |pendings[p]| && pendings[p][i].w == w
        ensures p == AbsPri(w) && i + 1 == w.pending
      {
        assert EntryOk(p, i);
      }
    }

    /** ev_feed_event. */
    method FeedEvent(w: Watcher, revents: Events)
      requires Valid() && w in all && InRange(w)
      modifies this`pendings, w`pending
      ensures Valid() && w.pending > 0
      ensures pendings == old(pendings)[AbsPri(w) := Fed(old(pendings[AbsPri(w)]), w, revents)]
    {
      hide Place, Or;
      PendingIsPlace(w);
      var pri := AbsPri(w);
      var q := pendings[pri];
      if w.pending > 0 {
        var p := q[w.pending - 1];
        pendings := pendings[pri := q[w.pending - 1 := AnPending(p.w, Or(p.events, revents))]];
      } else {
        w.pending := |q| + 1;
        pendings := pendings[pri := q + [AnPending(w, revents)]];
      }
      forall p, i | 0 <= p < NUMPRI && 0 <= i < |pendings[p]| ensures EntryOk(p, i) {
        if i < |old(pendings[p])| {
          assert old(EntryOk(p, i));
        }
      }
      forall v | v in all ensures PlaceOk(v) {
        assert old(PlaceOk(v));
      }
    }

    // The queues after w has been cleared.
    ghost function WithoutWatcher(ps: seq<seq<AnPending>>, w: Watcher): seq<seq<AnPending>>
      requires |ps| == NUMPRI
      reads w`priority
    {
      if InRange(w) then ps[AbsPri(w) := Cleared(ps[AbsPri(w)], w, pending_w)] else ps
    }

    /** clear_pending, and ev_clear_pending, which also returns the events. */
    method ClearPending(w: Watcher) returns (events: Events)
      requires Valid() && w in all
      modifies this`pendings, w`pending
      ensures Valid() && w.pending == 0
      ensures pendings == WithoutWatcher(old(pendings), w)
      ensures events == if old(w.pending) > 0 then old(pendings[AbsPri(w)])[old(w.pending) - 1].events else 0
    {
      hide Place, Or;
      PendingIsPlace(w);
      assert PlaceOk(w);
      events := 0;
      if w.pending > 0 {
        var pri := AbsPri(w);
        var q := pendings[pri];
        events := q[w.pending - 1].events;
        pendings := pendings[pri := q[w.pending - 1 := AnPending(pending_w, events)]];
        w.pending := 0;
        forall p, i | 0 <= p < NUMPRI && 0 <= i < |pendings[p]| ensures EntryOk(p, i) {
          assert old(EntryOk(p, i));
        }
        forall v | v in all ensures PlaceOk(v) {
          assert old(PlaceOk(v));
        }
      }
    }
  
    /** ev_invoke_pending, with callbacks that do not feed events: every queue is
        emptied, the last fed first, and no watcher is called before one of a higher
        priority. */
    method InvokePending()
      requires Valid()
      modifies this`pendings, this`calls, all`pending, pending_w`pending
      ensures Valid() && pendings == Empties()
      ensures forall w :: w in all ==> w.pending == 0
      ensures calls == old(calls) + Drained(old(pendings), NUMPRI, pending_w)
      ensures Falling(calls[|old(calls)|..])
    {
      hide Valid, Backwards;
      ValidShape();
      CalledByPriority(NUMPRI);
      var pri := NUMPRI;
      ghost var ps := pendings;
      ghost var d := Drained(ps, NUMPRI, pending_w);
      while pri > 0
        invariant 0 <= pri <= NUMPRI == |pendings| && Valid()
        invariant pendings[..pri] == ps[..pri] && forall p :: pri <= p < NUMPRI ==> pendings[p] == []
        invariant calls + Drained(ps, pri, pending_w) == old(calls) + d
      {
        pri := pri - 1;
        ghost var c := calls;
        DrainOne(pri, ps);
        DrainStep(c, ps, pri, pending_w);
        assert pendings[..pri] == ps[..pri];
      }
      NoneWaits();
      assert pendings[0] == [] && pendings[1] == [] && pendings[2] == [] && pendings[3] == [] && pendings[4] == [];
      assert calls == old(calls) + d;
      assert calls[|old(calls)|..] == d;
    }

    lemma ValidShape()
      requires Valid()
      ensures |pendings| == NUMPRI
    {
    }

    lemma NoneWaits()
      requires Valid() && forall p :: 0 <= p < NUMPRI ==> pendings[p] == []
      ensures forall w :: w in all ==> w.pending == 0
    {
      forall w | w in all ensures w.pending == 0 {
        assert PlaceOk(w);
      }
    }

    /** Each waiting watcher that has not been cleared is called exactly once. */
    lemma CalledOnce(w: Watcher)
      requires Valid() && w in all
      ensures Count(Drained(pendings, NUMPRI, pending_w), w) == if w.pending > 0 then 1 else 0
    {
      DrainedCount(pendings, NUMPRI, w, pending_w);
      CountsUpTo(NUMPRI, w);
    }

    lemma {:induction false} CountsUpTo(n: nat, w: Watcher)
      requires Valid() && w in all && n <= NUMPRI
      ensures TotalCount(pendings, n, w) == if w.pending > 0 && AbsPri(w) < n then 1 else 0
      decreases n
    {
      if n > 0 {
        CountsUpTo(n - 1, w);
        PendingIsPlace(w);
        assert PlaceOk(w);
        if w.pending > 0 && AbsPri(w) == n - 1 {
          CountUnique(pendings[n - 1], w, w.pending - 1);
        } else {
          CountZero(pendings[n - 1], w);
        }
      }
    }

    // Entries of watchers with priorities from lo to below hi.
    ghost predicate Between(s: seq<AnPending>, lo: int, hi: int)
      reads this`all, all`priority
    {
      forall i :: 0 <= i < |s| ==> s[i].w in all && lo <= s[i].w.priority < hi
    }

    // No entry comes before one of a higher priority.
    static ghost predicate Falling(s: seq<AnPending>)
      reads set x | x in s :: x.w`priority
    {
      forall i, j :: 0 <= i <= j < |s| ==> s[i].w.priority >= s[j].w.priority
    }

    /** Callbacks run in non-increasing order of priority. */
    lemma {:induction false} CalledByPriority(n: nat)
      requires Valid() && n <= NUMPRI
      ensures Between(Drained(pendings, n, pending_w), MINPRI, MINPRI + n)
      ensures Falling(Drained(pendings, n, pending_w))
      decreases n
    {
      if n > 0 {
        CalledByPriority(n - 1);
        OnePriority(n - 1);
        FallingAppend(Backwards(pendings[n - 1], pending_w), Drained(pendings, n - 1, pending_w), n - 1);
      }
    }

    lemma FallingAppend(b: seq<AnPending>, r: seq<AnPending>, p: nat)
      requires Between(b, MINPRI + p, MINPRI + p + 1) && Between(r, MINPRI, MINPRI + p) && Falling(r)
      ensures Between(b + r, MINPRI, MINPRI + p + 1) && Falling(b + r)
    {
      var c := b + r;
      assert forall i :: 0 <= i < |c| ==> c[i] == if i < |b| then b[i] else r[i - |b|];
    }

    lemma OnePriority(p: nat)
      requires Valid() && p < NUMPRI
      ensures Between(Backwards(pendings[p], pending_w), MINPRI + p, MINPRI + p + 1)
    {
      BackwardsFrom(pendings[p], pending_w);
      var b := Backwards(pendings[p], pending_w);
      forall i | 0 <= i < |b| ensures b[i].w in all && b[i].w.priority == MINPRI + p {
        var j :| 0 <= j < |pendings[p]| && pendings[p][j] == b[i];
        assert EntryOk(p, j);
      }
    }

    // The inner loop: one priority.
    method DrainOne(pri: nat, ghost ps: seq<seq<AnPending>>)
      requires Valid() && pri < NUMPRI == |ps| && pendings[pri] == ps[pri]
      modifies this`pendings, this`calls, all`pending, pending_w`pending
      ensures Valid() && pendings == old(pendings)[pri := []]
      ensures calls == old(calls) + Backwards(ps[pri], pending_w)
    {
      hide Valid;
      ValidShape();
      while pendings[pri] != []
        invariant |pendings| == NUMPRI && Valid() && pendings == old(pendings)[pri := pendings[pri]]
        invariant pendings[pri] <= ps[pri]
        invariant calls + Backwards(pendings[pri], pending_w) == old(calls) + Backwards(ps[pri], pending_w)
        decreases |pendings[pri]|
      {
        var n := |pendings[pri]| - 1;
        var p := pendings[pri][n];
        TakeLast(pri);
        if p.w != pending_w {
          calls := calls + [p];
        }
      }
    }

    // The last entry leaves the queue and its watcher no longer waits.
    method TakeLast(pri: nat)
      requires Valid() && pri < NUMPRI && pendings[pri] != []
      modifies this`pendings, all`pending, pending_w`pending
      ensures Valid() && pendings == old(pendings)[pri := old(pendings[pri])[..|old(pendings[pri])| - 1]]
    {
      var n := |pendings[pri]| - 1;
      var w := pendings[pri][n].w;
      assert EntryOk(pri, n);
      pendings := pendings[pri := pendings[pri][..n]];
      w.pending := 0;
      forall p, i | 0 <= p < NUMPRI && 0 <= i < |pendings[p]| ensures EntryOk(p, i) {
        assert old(EntryOk(p, i));
      }
      forall v | v in all ensures PlaceOk(v) {
        assert old(PlaceOk(v));
      }
    }
  }
}
