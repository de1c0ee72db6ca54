/**
 Relative timers of ev.c: ev_timer_start, ev_timer_stop, ev_timer_again and
 timers_reify, and the order in which expired timers run.
 */
module Timers {
  import opened Heaps
  import opened PendingQueues

  const EV_TIMER: Events := 0x100

  // The watchers of one priority, in order.
  function OfPriority(ws: seq<Watcher>, pri: map<Watcher, int>, p: int): seq<Watcher> {
    if ws == [] then []
    else if ws[0] in pri && pri[ws[0]] == p then [ws[0]] + OfPriority(ws[1..], pri, p)
    else OfPriority(ws[1..], pri, p)
  }

  lemma {:induction false} OfPriorityIn(ws: seq<Watcher>, pri: map<Watcher, int>, p: int)
    ensures forall i :: 0 <= i < |OfPriority(ws, pri, p)| ==>
              OfPriority(ws, pri, p)[i] in ws && OfPriority(ws, pri, p)[i] in pri && pri[OfPriority(ws, pri, p)[i]] == p
    ensures forall w :: w in ws && w in pri && pri[w] == p ==> w in OfPriority(ws, pri, p)
    ensures NoDuplicates(ws) ==> NoDuplicates(OfPriority(ws, pri, p))
    decreases |ws|
  {
    if ws != [] {
      OfPriorityIn(ws[1..], pri, p);
      assert forall w :: w in ws <==> w == ws[0] || w in ws[1..];
    }
  }

  lemma {:induction false} OfPriorityReverse(ws: seq<Watcher>, pri: map<Watcher, int>, p: int)
    ensures OfPriority(Reverse(ws), pri, p) == Reverse(OfPriority(ws, pri, p))
    decreases |ws|
  {
    if ws != [] {
      OfPriorityReverse(ws[1..], pri, p);
      OfPrioritySnoc(Reverse(ws[1..]), ws[0], pri, p);
    }
  }

  lemma {:induction false} OfPrioritySnoc(ws: seq<Watcher>, w: Watcher, pri: map<Watcher, int>, p: int)
    ensures OfPriority(ws + [w], pri, p) == OfPriority(ws, pri, p) + if w in pri && pri[w] == p then [w] else []
    decreases |ws|
  {
    if ws == [] {
      assert ws + [w] == [w];
    } else {
      assert (ws + [w])[1..] == ws[1..] + [w];
      OfPrioritySnoc(ws[1..], w, pri, p);
    }
  }

  lemma {:induction false} ReverseSnoc(ws: seq<Watcher>)
    requires ws != []
    ensures Reverse(ws) == [ws[|ws| - 1]] + Reverse(ws[..|ws| - 1])
    decreases |ws|
  {
    var n := |ws| - 1;
    if n == 0 {
      assert ws[..0] == [] && ws[1..] == [];
    } else {
      ReverseSnoc(ws[1..]);
      assert ws[1..][..n - 1] == ws[..n][1..];
    }
  }

  class TimerLoop {
    const timers: Heap
    const queue: EventQueue
    var mn_now: real
    var activecnt: int
    ghost var ts: set<Watcher>      // the timers among the watchers

    // A timer in the heap has passed through ev_start.
    ghost predicate MemberOk(w: Watcher)
      reads w`priority, w`repeat
    {
      EventQueue.InRange(w) && w.repeat >= 0.0
    }

    ghost predicate Valid()
      reads this`ts, timers`h, timers.Members()`active, timers.Members()`at, timers.Members()`priority
      reads timers.Members()`repeat
      reads ts`active, queue`pendings, queue`all, queue.all`pending, queue.all`priority
    {
      && timers.Valid() && queue.Valid()
      && timers.Members() <= ts <= queue.all
      && (forall w :: w in ts ==> (w.active > 0 <==> w in timers.Members()))
      && (forall w :: w in timers.Members() ==> MemberOk(w))
    }

    constructor (arity: Arity, now: real)
      ensures Valid() && timers.Members() == {} && ts == {} && mn_now == now && queue.pendings == Empties()
      ensures queue.calls == []
      ensures fresh(timers) && fresh(queue) && fresh(queue.pending_w)
    {
      var unused := new Watcher(0, 0.0, 0.0);
      timers := new Heap(arity, unused);
      queue := new EventQueue();
      mn_now, activecnt, ts := now, 0, {};
    }

    // A timer that has been through ev_timer_init.
    ghost method Adopt(w: Watcher)
      requires Valid() && w !in queue.all && w != queue.pending_w && w.pending == 0 && w.active == 0
      modifies this`ts, queue`all
      ensures Valid() && ts == old(ts) + {w} && queue.all == old(queue.all) + {w}
    {
      queue.Adopt(w);
      ts := ts + {w};
    }

    /** ev_timer_start: nothing for an active timer; otherwise it enters the heap at
        its relative time from now. */
    method TimerStart(w: Watcher)
      requires Valid() && w in ts && w.repeat >= 0.0
      modifies this`activecnt, timers`h, timers.Members()`active, w`active, w`at, w`priority
      ensures Valid() && timers.Members() == old(timers.Members()) + {w}
      ensures if old(w.active) > 0 then w.at == old(w.at) && activecnt == old(activecnt)
              else w.at == old(w.at) + mn_now && activecnt == old(activecnt) + 1
    {
      hide Ordered, Distinct, EventQueue.Valid, Heap.Members, Heap.Placed, Heap.Cached;
      if w.active > 0 {
        return;
      }
      w.at := w.at + mn_now;
      queue.PriAdjust(w);
      activecnt := activecnt + 1;
      timers.Insert(w);
      timers.MembersActive();
    }

    /** ev_timer_stop: no event of w is left waiting, and an active timer leaves the
        heap; what is left of its time is kept. */
    method TimerStop(w: Watcher)
      requires Valid() && w in ts
      modifies this`activecnt, timers`h, timers.Members()`active, w`active, w`at, w`pending, queue`pendings
      ensures Valid() && timers.Members() == old(timers.Members()) - {w} && w.active == 0 && w.pending == 0
      ensures queue.pendings == queue.WithoutWatcher(old(queue.pendings), w)
      ensures if old(w.active) > 0 then w.at == old(w.at) - mn_now && activecnt == old(activecnt) - 1
              else w.at == old(w.at) && activecnt == old(activecnt)
    {
      hide Ordered, Distinct, EventQueue.Valid, Cleared, Heap.Members, Heap.Placed, Heap.Cached;
      var _ := queue.ClearPending(w);
      if w.active == 0 {
        return;
      }
      timers.Delete(w);
      timers.MembersActive();
      w.at := w.at - mn_now;
      activecnt := activecnt - 1;
      w.active := 0;
    }
  
    /** ev_timer_again: a repeating timer is (re)started a full period from now, any
        other is stopped. */
    method TimerAgain(w: Watcher)
      requires Valid() && w in ts && w.repeat >= 0.0
      modifies this`activecnt, timers`h, timers.Members()`active, w`active, w`at, w`pending, w`priority, queue`pendings
      ensures Valid() && w.pending == 0
      ensures if w.repeat > 0.0 then timers.Members() == old(timers.Members()) + {w} && w.at == mn_now + w.repeat
              else timers.Members() == old(timers.Members()) - {w}
      ensures w.repeat == 0.0 ==> w.at == old(w.at) - if old(w.active) > 0 then mn_now else 0.0
    {
      hide Ordered, Distinct, EventQueue.Valid, Cleared, Heap.Members, Heap.Cached, Heap.Placed;
      var _ := queue.ClearPending(w);
      if w.active > 0 {
        if w.repeat != 0.0 {
          Reschedule(w, mn_now + w.repeat);
        } else {
          TimerStop(w);
        }
      } else if w.repeat != 0.0 {
        w.at := w.repeat;
        TimerStart(w);
      }
    }

    // A timer in the heap gets a new time.
    method Reschedule(w: Watcher, at: real)
      requires Valid() && w in timers.Members()
      modifies timers`h, timers.Members()`active, w`at
      ensures Valid() && timers.Members() == old(timers.Members()) && w.at == at
    {
      hide Ordered, Distinct, EventQueue.Valid;
      w.at := at;
      timers.Change(w);
      timers.MembersActive();
    }

    // The same for the root, moving it down only.
    method RescheduleRoot(w: Watcher, at: real)
      requires Valid() && Heap0(timers.d) < |timers.h| && w == timers.h[Heap0(timers.d)].w
      modifies timers`h, timers.Members()`active, w`at
      ensures Valid() && timers.Members() == old(timers.Members()) && w.at == at
    {
      hide Ordered, EventQueue.Valid;
      w.at := at;
      timers.ChangeRoot();
      timers.MembersActive();
    }

    // The root of the heap expires first.
    lemma RootExpiresFirst(v: Watcher)
      requires Valid() && v in timers.Members()
      ensures Heap0(timers.d) < |timers.h|
      ensures timers.h[Heap0(timers.d)].w.at <= v.at
    {
      var d, h := timers.d, timers.h;
      var i :| Heap0(d) <= i < |h| && h[i].w == v;
      RootIsLeast(d, h, |h|, i);
    }

    // The timers that do not repeat.
    ghost function OneShots(at0: map<Watcher, real>): set<Watcher>
      reads at0.Keys`repeat
    {
      set w | w in at0 && w.repeat == 0.0
    }

    // An entry of one queue becomes a dummy exactly if its watcher is in ws and does not repeat.
    ghost predicate QueueCleared(was: seq<AnPending>, now: seq<AnPending>, ws: seq<Watcher>, once: set<Watcher>) {
      |now| == |was| && forall i :: 0 <= i < |now| ==>
        now[i] == if was[i].w in ws && was[i].w in once then AnPending(queue.pending_w, was[i].events) else was[i]
    }

    ghost predicate ClearedOnce(was: seq<seq<AnPending>>, now: seq<seq<AnPending>>, ws: seq<Watcher>,
                                once: set<Watcher>) {
      |was| == NUMPRI == |now| && forall p :: 0 <= p < NUMPRI ==> QueueCleared(was[p], now[p], ws, once)
    }

    lemma ClearedMore(a: seq<seq<AnPending>>, b: seq<seq<AnPending>>, c: seq<seq<AnPending>>, ws: seq<Watcher>,
                      w: Watcher,
                      once: set<Watcher>)
      requires ClearedOnce(a, b, ws, once) && ClearedOnce(b, c, [w], once) && queue.pending_w != w
      ensures ClearedOnce(a, c, ws + [w], once)
    {
      forall p | 0 <= p < NUMPRI ensures QueueCleared(a[p], c[p], ws + [w], once) {
        assert QueueCleared(a[p], b[p], ws, once) && QueueCleared(b[p], c[p], [w], once);
      }
    }

    // What a member's time was when the round began.
    ghost predicate Snapshot(at0: map<Watcher, real>)
      reads timers`h, timers.Members()`at
    {
      at0.Keys == timers.Members() && forall w :: w in at0 ==> at0[w] == w.at
    }

    // `fed` lists expired timers, earliest first, and nothing that is not in it
    // expired before.
    ghost predicate EarliestFirst(fed: seq<Watcher>, at0: map<Watcher, real>)
      reads this`mn_now
    {
      && NoDuplicates(fed)
      && (forall w :: w in fed ==> w in at0 && at0[w] < mn_now)
      && (forall i, j :: 0 <= i <= j < |fed| ==> at0[fed[i]] <= at0[fed[j]])
      && (forall w, i :: w in at0 && w !in fed && 0 <= i < |fed| ==> at0[fed[i]] <= at0[w])
    }

    // Only the timers in `fed` have a new time, or have been stopped.
    ghost predicate Collected(fed: seq<Watcher>, at0: map<Watcher, real>)
      reads this`mn_now, timers`h, at0.Keys`at, at0.Keys`repeat
    {
      && EarliestFirst(fed, at0)
      && timers.Members() == (set w | w in at0 && !(w in fed && w.repeat == 0.0))
      && (forall w :: w in at0 ==> w.at == if w in fed then After(w, at0[w]) else at0[w])
    }

    /** The loop of timers_reify up to the feeding: reschedule or stop the root as
        long as it has expired.  `fed` is the list in rfeeds. */
    method Collect(ghost at0: map<Watcher, real>) returns (fed: seq<Watcher>)
      requires Valid() && Snapshot(at0)
      modifies this`activecnt, timers`h, timers.Members()`active, timers.Members()`at, timers.Members()`pending
      modifies queue`pendings
      ensures Valid() && Collected(fed, at0)
      ensures forall w :: w in timers.Members() ==> w.at >= mn_now
      ensures ClearedOnce(old(queue.pendings), queue.pendings, fed, OneShots(at0))
    {
      hide Ordered, Distinct, EventQueue.Valid, Heap.Cached, Heap.Placed, Heap.Members, Collected, ClearedOnce, After,
        OneShots;
      fed := [];
      NothingCollected(at0);
      while Heap0(timers.d) < |timers.h| && timers.h[Heap0(timers.d)].at < mn_now
        invariant Valid() && Collected(fed, at0) && timers.Members() <= at0.Keys
        invariant timers.Members() <= old(timers.Members())
        invariant ClearedOnce(old(queue.pendings), queue.pendings, fed, OneShots(at0))
        decreases at0.Keys - set w | w in fed
      {
        var w := CollectOne(fed, at0, old(queue.pendings));
        assert w in at0.Keys - (set v | v in fed) && w !in at0.Keys - (set v | v in fed + [w]);
        fed := fed + [w];
      }
      NoneExpired();
    }

    // One round of that loop.
    method CollectOne(ghost fed: seq<Watcher>, ghost at0: map<Watcher, real>, ghost q0: seq<seq<AnPending>>)
        returns (w: Watcher)
      requires Valid() && Collected(fed, at0) && ClearedOnce(q0, queue.pendings, fed, OneShots(at0))
      requires Heap0(timers.d) < |timers.h| && timers.h[Heap0(timers.d)].at < mn_now
      modifies this`activecnt, timers`h, timers.Members()`active, timers.Members()`at, timers.Members()`pending
      modifies queue`pendings
      ensures Valid() && Collected(fed + [w], at0) && ClearedOnce(q0, queue.pendings, fed + [w], OneShots(at0))
      ensures w in at0 && w !in fed && timers.Members() <= old(timers.Members())
    {
      hide Ordered, Distinct, EventQueue.Valid, Heap.Cached, Heap.Placed, Heap.Members, EarliestFirst, ClearedOnce,
        After, OneShots;
      w := timers.h[Heap0(timers.d)].w;
      CollectNext(fed, at0, w);
      ghost var mid := queue.pendings;
      ReifyOne(w, OneShots(at0));
      EarliestNext(fed, at0, w);
      ClearedMore(q0, mid, queue.pendings, fed, w, OneShots(at0));
    }

    lemma NothingCollected(at0: map<Watcher, real>)
      requires Valid() && Snapshot(at0)
      ensures Collected([], at0) && ClearedOnce(queue.pendings, queue.pendings, [], OneShots(at0))
    {
    }

    // The expired root is new, and no remaining timer is earlier.
    lemma CollectNext(fed: seq<Watcher>, at0: map<Watcher, real>, w: Watcher)
      requires Valid() && Collected(fed, at0) && Heap0(timers.d) < |timers.h|
      requires w == timers.h[Heap0(timers.d)].w && timers.h[Heap0(timers.d)].at < mn_now
      ensures w in at0 && w !in fed && w in timers.Members() && w.at < mn_now && at0[w] == w.at
      ensures forall v :: v in at0 && v !in fed ==> at0[w] <= at0[v]
      ensures w in queue.all && (w in OneShots(at0) <==> w.repeat == 0.0)
    {
      hide Ordered, EventQueue.Valid;
      forall v | v in at0 && v !in fed ensures at0[w] <= at0[v] {
        RootExpiresFirst(v);
      }
    }

    lemma EarliestNext(fed: seq<Watcher>, at0: map<Watcher, real>, w: Watcher)
      requires EarliestFirst(fed, at0) && w in at0 && w !in fed && at0[w] < mn_now
      requires forall v :: v in at0 && v !in fed ==> at0[w] <= at0[v]
      ensures EarliestFirst(fed + [w], at0)
    {
    }

    lemma NoneExpired()
      requires Valid() && (Heap0(timers.d) < |timers.h| ==> timers.h[Heap0(timers.d)].at >= mn_now)
      ensures forall w :: w in timers.Members() ==> w.at >= mn_now
    {
      forall w | w in timers.Members() ensures w.at >= mn_now {
        RootExpiresFirst(w);
      }
    }

    /** The new time of an expired timer that repeats: a period after the time it was due,
        or now if that has passed too, so never in the past. */
    lemma NextTime(w: Watcher, at: real)
      requires at < mn_now && w.repeat > 0.0
      ensures After(w, at) >= mn_now && After(w, at) >= at + w.repeat
      ensures After(w, at) == mn_now || After(w, at) == at + w.repeat
    {
    }

    // The time of a timer after the round.
    function After(w: Watcher, at: real): real
      reads w`repeat, this`mn_now
    {
      if at >= mn_now then at
      else if w.repeat == 0.0 then at - mn_now
      else if at + w.repeat < mn_now then mn_now
      else at + w.repeat
    }

    // Reschedule or stop one expired timer.
    method ReifyOne(w: Watcher, ghost once: set<Watcher>)
      requires Valid() && Heap0(timers.d) < |timers.h| && w == timers.h[Heap0(timers.d)].w
      requires w in timers.Members() && w.at < mn_now && (w in once <==> w.repeat == 0.0)
      modifies this`activecnt, timers`h, timers.Members()`active, w`at, w`pending, queue`pendings
      ensures Valid() && w.at == After(w, old(w.at)) && w != queue.pending_w
      ensures timers.Members() == if w.repeat == 0.0 then old(timers.Members()) - {w} else old(timers.Members())
      ensures ClearedOnce(old(queue.pendings), queue.pendings, [w], once)
    {
      hide Ordered, Distinct, EventQueue.Valid, Heap.Cached, Heap.Placed, ClearedOnce, EventQueue.WithoutWatcher;
      StopClears(w, once);
      if w.repeat != 0.0 {
        RescheduleRoot(w, if w.at + w.repeat < mn_now then mn_now else w.at + w.repeat);
      } else {
        TimerStop(w);
      }
    }

    // Clearing w turns its own entry into a dummy, if it has one.
    lemma StopClears(w: Watcher, once: set<Watcher>)
      requires Valid() && w in queue.all
      ensures w != queue.pending_w
      ensures var ps := queue.pendings;
              if w in once then ClearedOnce(ps, queue.WithoutWatcher(ps, w), [w], once)
              else ClearedOnce(ps, ps, [w], once)
    {
      hide Ordered, Distinct, Heap.Cached, Heap.Placed, Place;
      queue.PendingIsPlace(w);
      assert queue.PlaceOk(w);
    }

    // The priorities, which nothing here changes.
    ghost predicate Priorities(pri: map<Watcher, int>, ws: seq<Watcher>)
      reads set w | w in ws :: w`priority
    {
      forall w :: w in ws ==> w in pri && pri[w] == EventQueue.AbsPri(w)
    }

    /** feed_reverse_done: the last collected is fed first. */
    method FeedReverseDone(ws: seq<Watcher>, ghost pri: map<Watcher, int>)
      requires Valid() && Priorities(pri, ws) && forall w :: w in ws ==> w in queue.all && EventQueue.InRange(w)
      modifies queue`pendings, queue.all`pending
      ensures Valid() && |queue.pendings| == |old(queue.pendings)| == NUMPRI
      ensures forall p :: 0 <= p < NUMPRI ==>
        queue.pendings[p] == FedAll(old(queue.pendings)[p], OfPriority(Reverse(ws), pri, p), EV_TIMER)
    {
      hide Ordered, Distinct, Heap.Cached, Heap.Placed, Heap.Members, Fed, SameOutcome, EventQueue.Valid;
      var rfeeds := ws;
      queue.ValidShape();
      SameAsBefore(queue.pendings, ws, pri);
      while rfeeds != []
        invariant Valid() && rfeeds <= ws && |queue.pendings| == NUMPRI
        invariant SameOutcome(queue.pendings, rfeeds, old(queue.pendings), ws, pri)
      {
        var w := rfeeds[|rfeeds| - 1];
        FeedLast(queue.pendings, rfeeds, old(queue.pendings), ws, pri);
        queue.FeedEvent(w, EV_TIMER);
        rfeeds := rfeeds[..|rfeeds| - 1];
      }
      AllFed(queue.pendings, old(queue.pendings), ws, pri);
    }

    // Feeding ws in reverse into ps gives what feeding ws0 in reverse into ps0 gives.
    ghost predicate SameOutcome(ps: seq<seq<AnPending>>, ws: seq<Watcher>, ps0: seq<seq<AnPending>>, ws0: seq<Watcher>,
                                pri: map<Watcher, int>)
    {
      |ps| == NUMPRI == |ps0| && forall p :: 0 <= p < NUMPRI ==>
        && FedAll(ps[p], OfPriority(Reverse(ws), pri, p), EV_TIMER)
        == FedAll(ps0[p], OfPriority(Reverse(ws0), pri, p), EV_TIMER)
    }

    lemma SameAsBefore(ps: seq<seq<AnPending>>, ws: seq<Watcher>, pri: map<Watcher, int>)
      requires |ps| == NUMPRI
      ensures SameOutcome(ps, ws, ps, ws, pri)
    {
    }

    lemma AllFed(ps: seq<seq<AnPending>>, ps0: seq<seq<AnPending>>, ws0: seq<Watcher>, pri: map<Watcher, int>)
      requires SameOutcome(ps, [], ps0, ws0, pri)
      ensures |ps| == |ps0| == NUMPRI
      ensures forall p :: 0 <= p < NUMPRI ==> ps[p] == FedAll(ps0[p], OfPriority(Reverse(ws0), pri, p), EV_TIMER)
    {
    }

    lemma FeedLast(ps: seq<seq<AnPending>>, ws: seq<Watcher>, ps0: seq<seq<AnPending>>, ws0: seq<Watcher>,
                   pri: map<Watcher, int>)
      requires ws != [] && Priorities(pri, ws) && EventQueue.InRange(ws[|ws| - 1])
      requires SameOutcome(ps, ws, ps0, ws0, pri)
      ensures var w, n := ws[|ws| - 1], |ws| - 1;
              var p := EventQueue.AbsPri(w);
              SameOutcome(ps[p := Fed(ps[p], w, EV_TIMER)], ws[..n], ps0, ws0, pri)
    {
      hide Fed;
      ReverseSnoc(ws);
    }
  
    /** timers_reify: afterwards no timer is expired; those that were, and only
        those, have been fed once each, in the reverse of the order of expiry. */
    method TimersReify(ghost at0: map<Watcher, real>, ghost pri: map<Watcher, int>)
        returns (fed: seq<Watcher>, ghost mid: seq<seq<AnPending>>)
      requires Valid() && Snapshot(at0)
      requires forall w :: w in timers.Members() ==> w in pri && pri[w] == EventQueue.AbsPri(w)
      modifies this`activecnt, timers`h, timers.Members()`active, timers.Members()`at, queue`pendings, queue.all`pending
      ensures Valid() && Collected(fed, at0)
      ensures forall w :: w in timers.Members() ==> w.at >= mn_now
      ensures forall w :: w in at0 ==> (w in fed <==> at0[w] < mn_now)
      ensures ClearedOnce(old(queue.pendings), mid, fed, OneShots(at0)) && |queue.pendings| == NUMPRI
      ensures forall p :: 0 <= p < NUMPRI ==>
        queue.pendings[p] == FedAll(mid[p], OfPriority(Reverse(fed), pri, p), EV_TIMER)
    {
      hide Ordered, Distinct, EventQueue.Valid, Heap.Cached, Heap.Placed, Heap.Members, EarliestFirst, QueueCleared,
        Fed, After;
      fed := Collect(at0);
      mid := queue.pendings;
      FedAreKnown(fed, at0);
      assert Priorities(pri, fed);
      FeedReverseDone(fed, pri);
    }

    lemma FedAreKnown(fed: seq<Watcher>, at0: map<Watcher, real>)
      requires EarliestFirst(fed, at0)
      ensures forall w :: w in fed ==> w in at0.Keys && at0[w] < mn_now
    {
    }
  
    // What runs, by priority: the expired timers that do not wait in `mid`, in the order
    // of expiry, and then what waits there, with the event merged into expired timers.
    ghost function RunOrder(fed: seq<Watcher>, mid: seq<seq<AnPending>>, pri: map<Watcher, int>, n: nat): seq<AnPending>
      requires n <= |mid|
    {
      if n == 0 then []
      else
        var q, ws := mid[n - 1], OfPriority(fed, pri, n - 1);
        WithEvents(NewOnes(q, ws), EV_TIMER) + Backwards(Merged(q, ws, EV_TIMER), queue.pending_w)
        + RunOrder(fed, mid, pri, n - 1)
    }

    /** The timers at the front of each priority: exactly the expired ones of that
        priority that do not wait already, in non-decreasing order of expiry. */
    lemma NewRunAsExpired(fed: seq<Watcher>, at0: map<Watcher, real>, q: seq<AnPending>, pri: map<Watcher, int>, p: int)
      requires EarliestFirst(fed, at0)
      ensures var n := NewOnes(q, OfPriority(fed, pri, p));
              && (forall w :: w in n <==> w in fed && w in pri && pri[w] == p && Place(q, w) < 0)
              && NoDuplicates(n)
              && (forall i, j :: 0 <= i <= j < |n| ==> n[i] in at0 && n[j] in at0 && at0[n[i]] <= at0[n[j]])
    {
      hide Place;
      var ws := OfPriority(fed, pri, p);
      OfPriorityIn(fed, pri, p);
      OfPrioritySorted(fed, at0, pri, p);
      assert forall w :: w in ws <==> w in fed && w in pri && pri[w] == p;
      NewOnesIn(q, ws);
      NewOnesSorted(q, ws, at0);
    }

    // Timers in the order of their times, none twice.
    ghost predicate Sorted(ws: seq<Watcher>, at0: map<Watcher, real>) {
      && NoDuplicates(ws)
      && forall i, j :: 0 <= i <= j < |ws| ==> ws[i] in at0 && ws[j] in at0 && at0[ws[i]] <= at0[ws[j]]
    }

    lemma {:induction false} OfPrioritySorted(ws: seq<Watcher>, at0: map<Watcher, real>, pri: map<Watcher, int>, p: int)
      requires Sorted(ws, at0)
      ensures Sorted(OfPriority(ws, pri, p), at0)
      decreases |ws|
    {
      if ws != [] {
        OfPriorityIn(ws[1..], pri, p);
        OfPrioritySorted(ws[1..], at0, pri, p);
        SortedCons(ws, OfPriority(ws[1..], pri, p), at0);
      }
    }

    lemma {:induction false} NewOnesSorted(q: seq<AnPending>, ws: seq<Watcher>, at0: map<Watcher, real>)
      requires Sorted(ws, at0)
      ensures Sorted(NewOnes(q, ws), at0)
      decreases |ws|
    {
      hide Place;
      if ws != [] {
        NewOnesIn(q, ws[1..]);
        NewOnesSorted(q, ws[1..], at0);
        SortedCons(ws, NewOnes(q, ws[1..]), at0);
      }
    }

    lemma SortedCons(ws: seq<Watcher>, t: seq<Watcher>, at0: map<Watcher, real>)
      requires ws != [] && Sorted(ws, at0) && Sorted(t, at0) && forall i :: 0 <= i < |t| ==> t[i] in ws[1..]
      ensures Sorted([ws[0]] + t, at0) && Sorted([] + t, at0)
    {
      assert [] + t == t;
      hide Sorted;
      forall i | 0 <= i < |t| ensures t[i] != ws[0] && ws[0] in at0 && t[i] in at0 && at0[ws[0]] <= at0[t[i]] {
        FirstIsLeast(ws, at0, t[i]);
      }
      ConsSorted(ws[0], t, at0);
    }

    lemma FirstIsLeast(ws: seq<Watcher>, at0: map<Watcher, real>, w: Watcher)
      requires ws != [] && Sorted(ws, at0) && w in ws[1..]
      ensures w != ws[0] && ws[0] in at0 && w in at0 && at0[ws[0]] <= at0[w]
    {
      var i :| 0 <= i < |ws[1..]| && ws[1..][i] == w;
      assert ws[i + 1] == w;
    }

    lemma ConsSorted(w: Watcher, t: seq<Watcher>, at0: map<Watcher, real>)
      requires Sorted(t, at0) && w in at0
      requires forall i :: 0 <= i < |t| ==> t[i] != w && t[i] in at0 && at0[w] <= at0[t[i]]
      ensures Sorted([w] + t, at0)
    {
    }

    /** timers_reify followed by EV_INVOKE_PENDING, whatever was waiting before: no watcher
        runs before one of a higher priority (Falling); within a priority, timers that were
        not waiting run in non-decreasing order of expiry
        (NewRunAsExpired), ahead of everything that was, and a timer that was waiting runs
        where it waited, unless it has been stopped (ClearedOnce). */
    method RunExpired(ghost at0: map<Watcher, real>, ghost pri: map<Watcher, int>)
        returns (fed: seq<Watcher>, ghost mid: seq<seq<AnPending>>)
      requires Valid() && Snapshot(at0)
      requires forall w :: w in timers.Members() ==> w in pri && pri[w] == EventQueue.AbsPri(w)
      modifies this`activecnt, timers`h, timers.Members()`active, timers.Members()`at
      modifies queue`pendings, queue`calls, queue.all`pending, queue.pending_w`pending
      ensures Valid() && EarliestFirst(fed, at0) && queue.pendings == Empties()
      ensures forall w :: w in at0 ==> (w in fed <==> at0[w] < mn_now)
      ensures ClearedOnce(old(queue.pendings), mid, fed, OneShots(at0))
      ensures queue.calls == old(queue.calls) + RunOrder(fed, mid, pri, NUMPRI)
      ensures EventQueue.Falling(queue.calls[|old(queue.calls)|..])
      ensures |mid| == NUMPRI && forall w :: w in fed ==> w in pri && 0 <= pri[w] < NUMPRI
      ensures forall w :: w in fed ==> (Place(mid[pri[w]], w) < 0 <==> old(w.pending) == 0 || w.repeat == 0.0)
    {
      hide Ordered, Distinct, EventQueue.Valid, Heap.Cached, Heap.Placed, Heap.Members, EarliestFirst, ClearedOnce,
        Fed, After,
        Drained, RunOrder, OneShots, AllOnce, Place, WaitAt, EventQueue.Falling;
      ghost var ps := queue.pendings;
      WaitOnce(at0);
      WaitWhere(at0, pri);
      fed, mid := TimersReify(at0, pri);
      NewInMid(at0, pri, old(WaitingOf(at0)), ps, mid, fed);
      RunsAsExpired(fed, at0, ps, mid, queue.pendings, pri);
      queue.InvokePending();
    }

    // No watcher of ws waits twice in ps, and none is the dummy.
    ghost predicate AllOnce(ws: set<Watcher>, ps: seq<seq<AnPending>>) {
      forall w :: w in ws ==> w != queue.pending_w && forall p :: 0 <= p < |ps| ==> OnceIn(ps[p], w)
    }

    lemma WaitOnce(at0: map<Watcher, real>)
      requires Valid() && Snapshot(at0)
      ensures AllOnce(at0.Keys, queue.pendings)
    {
      hide Ordered, Distinct, EventQueue.Valid, Heap.Members, Heap.Placed, Heap.Cached, OnceIn;
      forall w | w in at0
        ensures w != queue.pending_w && forall p :: 0 <= p < |queue.pendings| ==> OnceIn(queue.pendings[p], w)
      {
        WaitsOnce(w);
      }
    }

    // The members that wait.
    ghost function WaitingOf(at0: map<Watcher, real>): set<Watcher>
      reads at0.Keys`pending
    {
      set w | w in at0 && w.pending > 0
    }

    // The members that wait do so in the queue of their priority.
    ghost predicate WaitAt(at0: map<Watcher, real>, pri: map<Watcher, int>, waiting: set<Watcher>,
                           ps: seq<seq<AnPending>>) {
      && (forall w :: w in at0 ==> w != queue.pending_w && w in pri && 0 <= pri[w] < |ps|)
      && (forall w :: w in at0 ==> (Place(ps[pri[w]], w) < 0 <==> w !in waiting))
    }

    lemma WaitWhere(at0: map<Watcher, real>, pri: map<Watcher, int>)
      requires Valid() && Snapshot(at0)
      requires forall w :: w in timers.Members() ==> w in pri && pri[w] == EventQueue.AbsPri(w)
      ensures WaitAt(at0, pri, WaitingOf(at0), queue.pendings)
    {
      hide Ordered, Distinct, EventQueue.Valid, Heap.Members, Heap.Placed, Heap.Cached, Place;
      queue.ValidShape();
      forall w | w in at0
        ensures w != queue.pending_w && (Place(queue.pendings[pri[w]], w) < 0 <==> w !in WaitingOf(at0))
      {
        WaitsOnce(w);
        queue.PendingIsPlace(w);
      }
    }

    // A fed timer does not wait in mid exactly if it did not wait or has been stopped.
    lemma NewInMid(at0: map<Watcher, real>, pri: map<Watcher, int>, waiting: set<Watcher>, ps: seq<seq<AnPending>>,
                   mid: seq<seq<AnPending>>, fed: seq<Watcher>)
      requires WaitAt(at0, pri, waiting, ps) && EarliestFirst(fed, at0) && ClearedOnce(ps, mid, fed, OneShots(at0))
      ensures |mid| == NUMPRI && forall w :: w in fed ==> w in at0 && w in pri && 0 <= pri[w] < NUMPRI
      ensures forall w :: w in fed ==> (Place(mid[pri[w]], w) < 0 <==> w !in waiting || w.repeat == 0.0)
    {
      hide Place;
      forall w | w in fed
        ensures w in at0 && w in pri && 0 <= pri[w] < NUMPRI
        ensures (Place(mid[pri[w]], w) < 0 <==> w !in waiting || w.repeat == 0.0)
      {
        assert QueueCleared(ps[pri[w]], mid[pri[w]], fed, OneShots(at0));
      }
    }

    lemma WaitsOnce(w: Watcher)
      requires Valid() && w in timers.Members()
      ensures w != queue.pending_w && forall p :: 0 <= p < |queue.pendings| ==> OnceIn(queue.pendings[p], w)
    {
      hide Ordered, Distinct, Heap.Members, Heap.Placed, Heap.Cached, Place;
      queue.PendingIsPlace(w);
    }

    // Dummies aside, nobody waits where he did not before.
    lemma StillOnce(ws: set<Watcher>, ps: seq<seq<AnPending>>, mid: seq<seq<AnPending>>, fed: seq<Watcher>,
                    once: set<Watcher>)
      requires AllOnce(ws, ps) && ClearedOnce(ps, mid, fed, once)
      ensures AllOnce(ws, mid)
    {
      forall w, p | w in ws && 0 <= p < |mid| ensures OnceIn(mid[p], w) {
        assert QueueCleared(ps[p], mid[p], fed, once) && OnceIn(ps[p], w);
      }
    }

    lemma RunsAsExpired(fed: seq<Watcher>, at0: map<Watcher, real>, ps: seq<seq<AnPending>>, mid: seq<seq<AnPending>>,
                        qs: seq<seq<AnPending>>, pri: map<Watcher, int>)
      requires EarliestFirst(fed, at0) && AllOnce(at0.Keys, ps) && ClearedOnce(ps, mid, fed, OneShots(at0))
      requires |qs| == NUMPRI
      requires forall p :: 0 <= p < NUMPRI ==> qs[p] == FedAll(mid[p], OfPriority(Reverse(fed), pri, p), EV_TIMER)
      ensures Drained(qs, NUMPRI, queue.pending_w) == RunOrder(fed, mid, pri, NUMPRI)
    {
      hide Drained, RunOrder, AllOnce;
      StillOnce(at0.Keys, ps, mid, fed, OneShots(at0));
      RunsInOrder(fed, at0.Keys, mid, qs, pri, NUMPRI);
    }

    lemma {:induction false} RunsInOrder(fed: seq<Watcher>, ws: set<Watcher>, mid: seq<seq<AnPending>>,
                                         qs: seq<seq<AnPending>>,
                                         pri: map<Watcher, int>, n: nat)
      requires n <= NUMPRI == |mid| == |qs| && NoDuplicates(fed) && AllOnce(ws, mid) && forall w :: w in fed ==> w in ws
      requires forall p :: 0 <= p < NUMPRI ==> qs[p] == FedAll(mid[p], OfPriority(Reverse(fed), pri, p), EV_TIMER)
      ensures Drained(qs, n, queue.pending_w) == RunOrder(fed, mid, pri, n)
      decreases n
    {
      hide OnceIn;
      if n > 0 {
        RunsInOrder(fed, ws, mid, qs, pri, n - 1);
        var now := OfPriority(fed, pri, n - 1);
        OfPriorityIn(fed, pri, n - 1);
        OfPriorityReverse(fed, pri, n - 1);
        forall w | w in now ensures OnceIn(mid[n - 1], w) && w != queue.pending_w {
          assert w in fed;
        }
        ReverseFeedRunsInOrder(mid[n - 1], now, EV_TIMER, queue.pending_w);
      }
    }
  }
}
