/**
 Interest in file descriptors: ev_io_start, ev_io_stop, fd_change, fd_reify and
 fd_kill of ev.c over the poll backend of ev_poll.c.

 Changes are noted in fdchanges and only told to the backend by fd_reify.  The
 watchers of a descriptor are kept as a sequence, head first.
 */
module FdChanges {
  import opened Heaps
  import opened PendingQueues

  const EV_READ: Events := 0x01
  const EV_WRITE: Events := 0x02
  const EV_IOFDSET: Events := 0x80
  const EV_ANFD_REIFY: Events := 0x01
  const EV_ERROR: Events := 0x8000_0000
  const POLLIN: Events := 0x01
  const POLLOUT: Events := 0x04

  function And(a: Events, b: Events): Events { a & b }
  function Without(a: Events, b: Events): Events { a & (b ^ 0xffff_ffff) }

  // ANFD: the watchers of a descriptor, the mask the backend has, and the change flags.
  datatype Anfd = Anfd(head: seq<Watcher>, events: Events, reify: Events)

  // struct pollfd
  datatype PollFd = PollFd(fd: nat, events: Events)

  // Reading and writing only.
  predicate Legal(m: Events) {
    Without(m, Or(EV_READ, EV_WRITE)) == 0
  }

  function PollMask(m: Events): Events {
    Or(if And(m, EV_READ) != 0 then POLLIN else 0, if And(m, EV_WRITE) != 0 then POLLOUT else 0)
  }

  /** The poll mask asks for input exactly if reading is wanted, for output exactly if
      writing is, and for nothing else. */
  lemma PollMaskBits(m: Events)
    ensures And(PollMask(m), POLLIN) == POLLIN <==> And(m, EV_READ) == EV_READ
    ensures And(PollMask(m), POLLOUT) == POLLOUT <==> And(m, EV_WRITE) == EV_WRITE
    ensures Without(Without(PollMask(m), POLLIN), POLLOUT) == 0
  {
  }

  lemma OrLaws(a: Events, b: Events, c: Events)
    ensures Or(Or(a, b), c) == Or(a, Or(b, c)) && Or(0, a) == a && Or(a, 0) == a
    ensures Or(a, b) == 0 <==> a == 0 && b == 0
  {
  }

  lemma LegalStart(m: Events)
    requires Without(m, Or(EV_IOFDSET, Or(EV_READ, EV_WRITE))) == 0
    ensures Legal(Without(m, EV_IOFDSET)) && Or(And(m, EV_IOFDSET), EV_ANFD_REIFY) != 0
  {
  }

  // The mask all watchers of a list want together.
  function Wanted(ws: seq<Watcher>): Events
    reads set i | 0 <= i < |ws| :: ws[i]`events
    decreases |ws|
  {
    if ws == [] then 0
    else
      assert forall i :: 0 <= i < |ws[1..]| ==> ws[1..][i] == ws[i + 1];
      Or(ws[0].events, Wanted(ws[1..]))
  }

  // ----- the poll backend

  // pollidxs [fd], -1 beyond its end.
  function Slot(pollidxs: seq<int>, fd: nat): int {
    if fd < |pollidxs| then pollidxs[fd] else -1
  }

  // polls and pollidxs are inverse to each other.
  predicate Inverse(polls: seq<PollFd>, pollidxs: seq<int>) {
    && (forall fd :: 0 <= fd < |pollidxs| ==> -1 <= pollidxs[fd] < |polls|)
    && (forall fd :: 0 <= fd < |pollidxs| && pollidxs[fd] >= 0 ==> polls[pollidxs[fd]].fd == fd)
    && (forall i :: 0 <= i < |polls| ==> Slot(pollidxs, polls[i].fd) == i)
  }

  // The backend has exactly the descriptors with interest, with the right masks.
  ghost predicate Holds(polls: seq<PollFd>, pollidxs: seq<int>, want: seq<Events>) {
    && Inverse(polls, pollidxs)
    && (forall fd: nat :: Slot(pollidxs, fd) >= 0 <==> fd < |want| && want[fd] != 0)
    && (forall fd :: 0 <= fd < |want| && want[fd] != 0 ==> polls[Slot(pollidxs, fd)].events == PollMask(want[fd]))
  }

  // p and x are polls and pollidxs without fd, the last entry having moved to its slot.
  ghost predicate Vacates(polls: seq<PollFd>, pollidxs: seq<int>, fd: nat, p: seq<PollFd>, x: seq<int>)
    requires polls != [] && 0 <= Slot(pollidxs, fd) < |polls|
  {
    var idx, n := Slot(pollidxs, fd), |polls| - 1;
    && |p| == n && |x| == |pollidxs|
    && (forall i :: 0 <= i < n ==> p[i] == polls[if i == idx then n else i])
    && (forall f: nat :: Slot(x, f) ==
          if f == fd then -1 else if Slot(pollidxs, f) == n then idx else Slot(pollidxs, f))
  }

  lemma VacatesHolds(polls: seq<PollFd>, pollidxs: seq<int>, want: seq<Events>, fd: nat, p: seq<PollFd>, x: seq<int>)
    requires Holds(polls, pollidxs, want) && fd < |want| && Slot(pollidxs, fd) >= 0
    requires polls != [] && Vacates(polls, pollidxs, fd, p, x)
    ensures Holds(p, x, want[fd := 0])
  {
    hide PollMask;
    var idx, n := Slot(pollidxs, fd), |polls| - 1;
    forall i | 0 <= i < |p| ensures Slot(x, p[i].fd) == i {
      assert Slot(pollidxs, p[i].fd) == if i == idx then n else i;
    }
    forall f | 0 <= f < |x| ensures -1 <= x[f] < |p| && (x[f] >= 0 ==> p[x[f]].fd == f) {
      assert x[f] == Slot(x, f) && pollidxs[f] == Slot(pollidxs, f);
    }
    forall f: nat ensures Slot(x, f) >= 0 <==> f < |want| && want[fd := 0][f] != 0 {
      assert Slot(pollidxs, f) >= 0 <==> f < |want| && want[f] != 0;
    }
    forall f | 0 <= f < |want| && want[fd := 0][f] != 0 ensures p[Slot(x, f)].events == PollMask(want[f]) {
      assert Slot(pollidxs, f) >= 0 && Slot(x, f) >= 0;
      assert p[Slot(x, f)] == polls[Slot(pollidxs, f)];
    }
  }

  // A slot is vacated and the last entry moves there.
  lemma RemoveHolds(polls: seq<PollFd>, pollidxs: seq<int>, want: seq<Events>, fd: nat)
    requires Holds(polls, pollidxs, want) && fd < |want| && Slot(pollidxs, fd) >= 0
    ensures var idx, n := pollidxs[fd], |polls| - 1;
            0 <= idx <= n && polls[n].fd < |pollidxs| &&
            if idx < n then Holds(polls[idx := polls[n]][..n], pollidxs[fd := -1][polls[n].fd := idx], want[fd := 0])
            else Holds(polls[..n], pollidxs[fd := -1], want[fd := 0])
  {
    var idx, n := pollidxs[fd], |polls| - 1;
    assert Slot(pollidxs, polls[n].fd) == n;
    RemoveVacates(polls, pollidxs, fd);
    hide Holds, Vacates;
    if idx < n {
      VacatesHolds(polls, pollidxs, want, fd, polls[idx := polls[n]][..n], pollidxs[fd := -1][polls[n].fd := idx]);
    } else {
      VacatesHolds(polls, pollidxs, want, fd, polls[..n], pollidxs[fd := -1]);
    }
  }

  lemma RemoveVacates(polls: seq<PollFd>, pollidxs: seq<int>, fd: nat)
    requires Inverse(polls, pollidxs) && Slot(pollidxs, fd) >= 0
    requires polls != [] && polls[|polls| - 1].fd < |pollidxs|
    ensures var idx, n := pollidxs[fd], |polls| - 1;
            if idx < n
            then Vacates(polls, pollidxs, fd, polls[idx := polls[n]][..n], pollidxs[fd := -1][polls[n].fd := idx])
            else Vacates(polls, pollidxs, fd, polls[..n], pollidxs[fd := -1])
  {
    var idx, n := pollidxs[fd], |polls| - 1;
    assert Slot(pollidxs, polls[n].fd) == n;
    forall f: nat | f < |pollidxs| && pollidxs[f] == n ensures f == polls[n].fd {
      assert polls[pollidxs[f]].fd == f;
    }
  }

  lemma SetHolds(polls: seq<PollFd>, pollidxs: seq<int>, want: seq<Events>, fd: nat, nev: Events)
    requires Holds(polls, pollidxs, want) && fd < |want| && nev != 0 && Slot(pollidxs, fd) >= 0
    ensures Holds(polls[pollidxs[fd] := PollFd(fd, PollMask(nev))], pollidxs, want[fd := nev])
  {
    var p := polls[pollidxs[fd] := PollFd(fd, PollMask(nev))];
    forall i | 0 <= i < |p| ensures Slot(pollidxs, p[i].fd) == i {
      assert Slot(pollidxs, polls[i].fd) == i;
    }
    forall f: nat ensures Slot(pollidxs, f) >= 0 <==> f < |want| && want[fd := nev][f] != 0 {
      assert Slot(pollidxs, f) >= 0 <==> f < |want| && want[f] != 0;
    }
  }

  lemma AddHolds(polls: seq<PollFd>, pollidxs: seq<int>, want: seq<Events>, fd: nat, nev: Events)
    requires Holds(polls, pollidxs, want) && fd < |want| && nev != 0 && fd < |pollidxs| && pollidxs[fd] < 0
    ensures Holds(polls + [PollFd(fd, PollMask(nev))], pollidxs[fd := |polls|], want[fd := nev])
  {
    var p, x := polls + [PollFd(fd, PollMask(nev))], pollidxs[fd := |polls|];
    forall i | 0 <= i < |p| ensures Slot(x, p[i].fd) == i {
      if i < |polls| {
        assert Slot(pollidxs, polls[i].fd) == i;
      }
    }
    forall f: nat ensures Slot(x, f) >= 0 <==> f < |want| && want[fd := nev][f] != 0 {
      assert Slot(pollidxs, f) >= 0 <==> f < |want| && want[f] != 0;
    }
  }

  lemma ExtendHolds(polls: seq<PollFd>, pollidxs: seq<int>, more: seq<int>, want: seq<Events>)
    requires Holds(polls, pollidxs, want) && pollidxs <= more
    requires forall fd: nat :: Slot(more, fd) == Slot(pollidxs, fd)
    ensures Holds(polls, more, want)
  {
    forall fd | 0 <= fd < |more| ensures -1 <= more[fd] < |polls| && (more[fd] >= 0 ==> polls[more[fd]].fd == fd) {
      assert Slot(more, fd) == Slot(pollidxs, fd);
    }
  }

  class PollBackend {
    var polls: seq<PollFd>
    var pollidxs: seq<int>

    constructor ()
      ensures polls == [] && pollidxs == []
    {
      polls, pollidxs := [], [];
    }

    // array_needsize with pollidx_init
    method Extend(n: nat)
      modifies this`pollidxs
      ensures |pollidxs| >= n && old(pollidxs) <= pollidxs
      ensures forall fd: nat :: Slot(pollidxs, fd) == Slot(old(pollidxs), fd)
    {
      while |pollidxs| < n
        invariant old(pollidxs) <= pollidxs
        invariant forall fd: nat :: Slot(pollidxs, fd) == Slot(old(pollidxs), fd)
        decreases n - |pollidxs|
      {
        pollidxs := pollidxs + [-1];
      }
    }

    /** poll_modify: change the interest in one descriptor. */
    method PollModify(fd: nat, oev: Events, nev: Events, ghost want: seq<Events>)
      requires Holds(polls, pollidxs, want) && fd < |want| && want[fd] == oev
      modifies this
      ensures Holds(polls, pollidxs, want[fd := nev])
    {
      if oev == nev {
        assert want[fd := nev] == want;
        return;
      }
      hide PollMask;
      Extend(fd + 1);
      ExtendHolds(polls, old(pollidxs), pollidxs, want);
      hide Holds;
      var idx := pollidxs[fd];
      ghost var p, x := polls, pollidxs;
      SlotUsed(want, fd);
      hide Slot;
      if idx < 0 {
        idx := |polls|;
        pollidxs := pollidxs[fd := idx];
        polls := polls + [PollFd(fd, 0)];
      }
      if nev != 0 {
        polls := polls[idx := PollFd(fd, PollMask(nev))];
        if x[fd] < 0 {
          AddHolds(p, x, want, fd, nev);
        } else {
          SetHolds(p, x, want, fd, nev);
        }
      } else {
        Remove(fd, idx, want);
      }
    }

    // remove pollfd
    method Remove(fd: nat, idx: nat, ghost want: seq<Events>)
      requires Holds(polls, pollidxs, want) && fd < |want| && fd < |pollidxs| && pollidxs[fd] == idx
      modifies this
      ensures Holds(polls, pollidxs, want[fd := 0])
    {
      RemoveHolds(polls, pollidxs, want, fd);
      hide Holds;
      pollidxs := pollidxs[fd := -1];
      var pollcnt := |polls| - 1;
      if idx < pollcnt {
        polls := polls[idx := polls[pollcnt]];
        pollidxs := pollidxs[polls[idx].fd := idx];
      }
      polls := polls[..pollcnt];
    }

    lemma SlotUsed(want: seq<Events>, fd: nat)
      requires Holds(polls, pollidxs, want) && fd < |want| && fd < |pollidxs|
      ensures pollidxs[fd] >= 0 <==> want[fd] != 0
      ensures -1 <= pollidxs[fd] < |polls| && (pollidxs[fd] >= 0 ==> polls[pollidxs[fd]].fd == fd)
    {
      assert Slot(pollidxs, fd) == pollidxs[fd];
    }
  }

  // The masks the backend has been told.
  function Told(anfds: seq<Anfd>): (m: seq<Events>)
    ensures |m| == |anfds| && forall fd :: 0 <= fd < |anfds| ==> m[fd] == anfds[fd].events
  {
    seq(|anfds|, i requires 0 <= i < |anfds| => anfds[i].events)
  }

  lemma ToldMore(polls: seq<PollFd>, pollidxs: seq<int>, anfds: seq<Anfd>)
    requires Holds(polls, pollidxs, Told(anfds))
    ensures Holds(polls, pollidxs, Told(anfds + [Anfd([], 0, 0)]))
  {
    var w, w' := Told(anfds), Told(anfds + [Anfd([], 0, 0)]);
    forall fd: nat ensures Slot(pollidxs, fd) >= 0 <==> fd < |w'| && w'[fd] != 0 {
      assert Slot(pollidxs, fd) >= 0 <==> fd < |w| && w[fd] != 0;
    }
  }

  lemma NothingTold()
    ensures Holds([], [], Told([])) && Changes([], [], 0)
  {
    var none: seq<nat> := [];
    assert none[0..] == [];
  }

  // From place `from` on, fdchanges holds each changed descriptor once, and no other.
  ghost predicate Changes(anfds: seq<Anfd>, fdchanges: seq<nat>, from: nat) {
    && from <= |fdchanges| && NoDuplicates(fdchanges[from..])
    && (forall fd: nat :: fd in fdchanges[from..] <==> fd < |anfds| && anfds[fd].reify != 0)
  }

  lemma NewHead(anfds: seq<Anfd>, fd: nat, head: seq<Watcher>, fdchanges: seq<nat>, from: nat)
    requires Changes(anfds, fdchanges, from) && fd < |anfds|
    ensures Changes(anfds[fd := anfds[fd].(head := head)], fdchanges, from)
    ensures Told(anfds[fd := anfds[fd].(head := head)]) == Told(anfds)
  {
  }

  lemma ChangesAdd(anfds: seq<Anfd>, fdchanges: seq<nat>, from: nat, fd: nat, flags: Events)
    requires Changes(anfds, fdchanges, from) && fd < |anfds| && flags != 0
    ensures var a := anfds[fd := anfds[fd].(reify := Or(anfds[fd].reify, flags))];
            Changes(a, if anfds[fd].reify == 0 then fdchanges + [fd] else fdchanges, from)
  {
    OrLaws(anfds[fd].reify, flags, 0);
    hide Or;
    if anfds[fd].reify == 0 {
      assert (fdchanges + [fd])[from..] == fdchanges[from..] + [fd];
    }
  }

  // wlist_del
  function Unlinked(ws: seq<Watcher>, w: Watcher): (r: seq<Watcher>)
    decreases |ws|
  {
    if ws == [] then [] else if ws[0] == w then ws[1..] else [ws[0]] + Unlinked(ws[1..], w)
  }

  lemma {:induction false} UnlinkedKeeps(ws: seq<Watcher>, w: Watcher)
    requires NoDuplicates(ws)
    ensures NoDuplicates(Unlinked(ws, w)) && forall v :: v in Unlinked(ws, w) <==> v in ws && v != w
    ensures |Unlinked(ws, w)| == |ws| - if w in ws then 1 else 0
    decreases |ws|
  {
    if ws != [] {
      var u := ws[1..];
      UnlinkedKeeps(u, w);
      assert forall v :: v in ws <==> v == ws[0] || v in u;
      var r := Unlinked(ws, w);
      if ws[0] != w {
        forall i, j | 0 <= i < j < |r| ensures r[i] != r[j] {
          assert r[j] == Unlinked(u, w)[j - 1] && r[j] in Unlinked(u, w);
        }
      }
    }
  }

  lemma ChangesTake(anfds: seq<Anfd>, fdchanges: seq<nat>, i: nat, events: Events)
    requires Changes(anfds, fdchanges, i) && i < |fdchanges|
    ensures fdchanges[i] < |anfds|
    ensures Changes(anfds[fdchanges[i] := Anfd(anfds[fdchanges[i]].head, events, 0)], fdchanges, i + 1)
  {
    var t := fdchanges[i..];
    assert t[0] == fdchanges[i] && t[1..] == fdchanges[i + 1..];
    assert t[0] in t;
    TailOf(t);
  }

  lemma TailOf<T>(t: seq<T>)
    requires t != [] && NoDuplicates(t)
    ensures NoDuplicates(t[1..]) && forall x :: x in t[1..] <==> x in t && x != t[0]
  {
    var u := t[1..];
    forall j, k | 0 <= j < k < |u| ensures u[j] != u[k] {
      assert u[j] == t[j + 1] && u[k] == t[k + 1];
    }
    forall x ensures x in u <==> x in t && x != t[0] {
      if x in u {
        var j :| 0 <= j < |u| && u[j] == x;
        assert t[j + 1] == x;
      }
      if x in t && x != t[0] {
        var j :| 0 <= j < |t| && t[j] == x;
        assert u[j - 1] == x;
      }
    }
  }

  class IoLoop {
    const queue: EventQueue
    const backend: PollBackend
    var anfds: seq<Anfd>
    var fdchanges: seq<nat>
    var activecnt: int
    ghost var ios: set<Watcher>     // the io watchers

    constructor ()
      ensures ValidFrom(0) && anfds == [] && fdchanges == [] && ios == {} && fresh(queue) && fresh(queue.pending_w)
      ensures fresh(backend)
    {
      hide Holds, Changes, FdOk, EventQueue.Valid;
      NothingTold();
      queue := new EventQueue();
      backend := new PollBackend();
      anfds, fdchanges, activecnt, ios := [], [], 0, {};
    }

    // A watcher that has been through ev_io_init.
    ghost method Adopt(w: Watcher)
      requires ValidFrom(0) && w !in queue.all && w != queue.pending_w && w.pending == 0 && w.active == 0
      modifies this`ios, queue`all
      ensures ValidFrom(0) && ios == old(ios) + {w} && queue.all == old(queue.all) + {w}
    {
      hide Holds, Changes, EventQueue.Valid;
      queue.Adopt(w);
      ios := ios + {w};
      forall fd | 0 <= fd < |anfds| ensures FdOk(anfds[fd], fd) {
        assert old(FdOk(anfds[fd], fd));
      }
    }

    // The list of fd is in order: its watchers are active, watch fd and are on it
    // once; unless fd has changed, the backend has the mask they want together.
    ghost predicate FdOk(a: Anfd, fd: nat)
      reads this`ios, (set w | w in a.head)`active, (set w | w in a.head)`fd, (set w | w in a.head)`events
      reads (set w | w in a.head)`priority
    {
      && (forall w :: w in a.head ==> w in ios && w.active > 0 && w.fd == fd)
      && (forall w :: w in a.head ==> Legal(w.events) && EventQueue.InRange(w))
      && NoDuplicates(a.head)
      && (a.reify == 0 ==> a.events == Wanted(a.head))
    }

    // An active watcher is on the list of its descriptor.
    ghost predicate Home(w: Watcher)
      reads this`anfds, w`active, w`fd
    {
      w.active > 0 ==> 0 <= w.fd < |anfds| && w in anfds[w.fd].head
    }

    ghost predicate Lists()
      reads this`anfds, this`ios, ios`active, ios`fd, ios`events, ios`priority
    {
      && (forall fd, i :: 0 <= fd < |anfds| && 0 <= i < |anfds[fd].head| ==> anfds[fd].head[i] in ios)
      && (forall fd :: 0 <= fd < |anfds| ==> FdOk(anfds[fd], fd))
      && (forall w :: w in ios ==> Home(w))
    }

    ghost predicate ValidFrom(from: nat)
      reads this, ios`active, ios`fd, ios`events, ios`priority, backend, queue`pendings, queue`all, queue.all`pending
      reads queue.all`priority
    {
      && Lists() && Changes(anfds, fdchanges, from) && Holds(backend.polls, backend.pollidxs, Told(anfds))
      && queue.Valid() && ios <= queue.all
    }

    /** fd_change: note the change, once. */
    method FdChange(fd: nat, flags: Events, ghost from: nat)
      requires Changes(anfds, fdchanges, from) && fd < |anfds| && flags != 0
      modifies this`anfds, this`fdchanges
      ensures Changes(anfds, fdchanges, from) && old(fdchanges) <= fdchanges
      ensures anfds == old(anfds)[fd := old(anfds)[fd].(reify := Or(old(anfds)[fd].reify, flags))]
      ensures anfds[fd].reify != 0
    {
      ChangesAdd(anfds, fdchanges, from, fd, flags);
      OrLaws(anfds[fd].reify, flags, 0);
      hide Or, Changes;
      var reify := anfds[fd].reify;
      anfds := anfds[fd := anfds[fd].(reify := Or(anfds[fd].reify, flags))];
      if reify == 0 {
        fdchanges := fdchanges + [fd];
      }
    }

    // array_needsize with array_init_zero
    method Extend(n: nat, ghost from: nat)
      requires ValidFrom(from)
      modifies this`anfds
      ensures ValidFrom(from) && |anfds| >= n && old(anfds) <= anfds
      ensures forall fd :: |old(anfds)| <= fd < |anfds| ==> anfds[fd] == Anfd([], 0, 0)
    {
      hide Holds, FdOk, EventQueue.Valid;
      while |anfds| < n
        invariant ValidFrom(from) && old(anfds) <= anfds
        invariant forall fd :: |old(anfds)| <= fd < |anfds| ==> anfds[fd] == Anfd([], 0, 0)
        decreases n - |anfds|
      {
        ToldMore(backend.polls, backend.pollidxs, anfds);
        NothingListed(|anfds|);
        anfds := anfds + [Anfd([], 0, 0)];
      }
    }

    lemma NothingListed(fd: nat)
      ensures FdOk(Anfd([], 0, 0), fd)
    {
    }
  
    lemma NotListed(w: Watcher)
      requires Lists() && w in ios && w.active == 0
      ensures forall fd :: 0 <= fd < |anfds| ==> w !in anfds[fd].head
    {
      forall fd | 0 <= fd < |anfds| ensures w !in anfds[fd].head {
        assert FdOk(anfds[fd], fd);
      }
    }

    // The lists of other descriptors do not have w.
    lemma NotElsewhere(w: Watcher)
      requires Lists() && w in ios
      ensures forall fd :: 0 <= fd < |anfds| && fd != w.fd ==> w !in anfds[fd].head
    {
      forall fd | 0 <= fd < |anfds| && fd != w.fd ensures w !in anfds[fd].head {
        assert FdOk(anfds[fd], fd);
      }
    }

    /** ev_io_start. */
    method IoStart(w: Watcher, ghost from: nat)
      requires ValidFrom(from) && w in ios && w.fd >= 0
      requires Without(w.events, Or(EV_IOFDSET, Or(EV_READ, EV_WRITE))) == 0
      modifies this`anfds, this`fdchanges, this`activecnt, w`active, w`events, w`priority
      ensures ValidFrom(from) && w.active > 0
      ensures old(w.active) > 0 ==> anfds == old(anfds) && fdchanges == old(fdchanges) && w.events == old(w.events)
      ensures old(w.active) == 0 ==>
        && w.fd < |anfds| && anfds[w.fd].head == [w] + (if w.fd < |old(anfds)| then old(anfds)[w.fd].head else [])
        && w.events == Without(old(w.events), EV_IOFDSET) && anfds[w.fd].reify != 0
      ensures activecnt == old(activecnt) + if old(w.active) == 0 then 1 else 0
    {
      hide Holds, Changes, FdOk, EventQueue.Valid, Legal, Without, Or, And;
      if w.active > 0 {
        return;
      }
      Extend(w.fd + 1, from);
      LegalStart(w.events);
      var flags := Or(And(w.events, EV_IOFDSET), EV_ANFD_REIFY);
      Activate(w);
      Enlist(w, flags, from);
    }

    // ev_start; the one-shot IOFDSET flag leaves the mask.
    method Activate(w: Watcher)
      requires Lists() && queue.Valid() && ios <= queue.all && w in ios && w.active == 0
      modifies this`activecnt, w`active, w`events, w`priority
      ensures ListsBut(w) && queue.Valid() && w.active > 0 && EventQueue.InRange(w)
      ensures w.events == Without(old(w.events), EV_IOFDSET) && activecnt == old(activecnt) + 1
    {
      hide FdOk, EventQueue.Valid, Without;
      NotListed(w);
      hide Home;
      queue.PriAdjust(w);
      w.active := 1;
      activecnt := activecnt + 1;
      w.events := Without(w.events, EV_IOFDSET);
    }

    // The lists are in order and w is on none of them.
    ghost predicate ListsBut(w: Watcher)
      reads this`anfds, this`ios, ios`active, ios`fd, ios`events, ios`priority
    {
      && (forall fd, i :: 0 <= fd < |anfds| && 0 <= i < |anfds[fd].head| ==>
            anfds[fd].head[i] in ios && anfds[fd].head[i] != w)
      && (forall fd :: 0 <= fd < |anfds| ==> FdOk(anfds[fd], fd))
      && (forall v :: v in ios && v != w ==> Home(v))
    }

    // wlist_add and fd_change.
    method Enlist(w: Watcher, flags: Events, ghost from: nat)
      requires ListsBut(w) && Changes(anfds, fdchanges, from) && Holds(backend.polls, backend.pollidxs, Told(anfds))
      requires w in ios && w.active > 0 && 0 <= w.fd < |anfds| && Legal(w.events) && EventQueue.InRange(w) && flags != 0
      modifies this`anfds, this`fdchanges
      ensures Lists() && Changes(anfds, fdchanges, from) && Holds(backend.polls, backend.pollidxs, Told(anfds))
      ensures |anfds| == |old(anfds)| && old(fdchanges) <= fdchanges
      ensures anfds[w.fd].head == [w] + old(anfds)[w.fd].head && anfds[w.fd].reify != 0
    {
      hide Holds, Changes, FdOk, Legal;
      var fd := w.fd;
      ghost var a := anfds[fd];
      Relist(fd, [w] + anfds[fd].head, flags, from);
      Prepended(a, fd, w);
      forall v | v in ios ensures Home(v) {
        assert v != w ==> old(Home(v));
      }
    }

    // A descriptor has a new list of watchers and has changed.
    method Relist(fd: nat, head: seq<Watcher>, flags: Events, ghost from: nat)
      requires Changes(anfds, fdchanges, from) && Holds(backend.polls, backend.pollidxs, Told(anfds))
      requires fd < |anfds| && flags != 0
      modifies this`anfds, this`fdchanges
      ensures Changes(anfds, fdchanges, from) && Holds(backend.polls, backend.pollidxs, Told(anfds))
      ensures |anfds| == |old(anfds)| && old(fdchanges) <= fdchanges
      ensures forall f :: 0 <= f < |anfds| && f != fd ==> anfds[f] == old(anfds)[f]
      ensures anfds[fd].head == head && anfds[fd].reify != 0
    {
      NewHead(anfds, fd, head, fdchanges, from);
      hide Holds, Changes;
      ghost var told := Told(anfds);
      anfds := anfds[fd := anfds[fd].(head := head)];
      FdChange(fd, flags, from);
      assert Told(anfds) == told;
    }

    // The list with w in front.
    lemma Prepended(a: Anfd, fd: nat, w: Watcher)
      requires FdOk(a, fd) && w !in a.head && fd < |anfds| && anfds[fd].head == [w] + a.head && anfds[fd].reify != 0
      requires w in ios && w.active > 0 && w.fd == fd && Legal(w.events) && EventQueue.InRange(w)
      ensures FdOk(anfds[fd], fd)
    {
      hide Legal;
    }
  
    // The list without w.
    lemma Removed(a: Anfd, fd: nat, w: Watcher)
      requires FdOk(a, fd) && fd < |anfds| && anfds[fd].head == Unlinked(a.head, w) && anfds[fd].reify != 0
      ensures FdOk(anfds[fd], fd) && w !in anfds[fd].head && forall v :: v in a.head && v != w ==> v in anfds[fd].head
      ensures w in a.head ==> |anfds[fd].head| < |a.head|
    {
      hide Legal;
      UnlinkedKeeps(a.head, w);
    }

    /** ev_io_stop. */
    method IoStop(w: Watcher, ghost from: nat)
      requires ValidFrom(from) && w in ios
      modifies this`anfds, this`fdchanges, this`activecnt, w`active, w`pending, queue`pendings
      ensures ValidFrom(from) && w.active == 0 && w.pending == 0 && old(fdchanges) <= fdchanges
      ensures |anfds| == |old(anfds)|
      ensures forall fd :: 0 <= fd < |anfds| && fd != w.fd ==> anfds[fd] == old(anfds)[fd]
      ensures old(w.active) == 0 ==> anfds == old(anfds) && fdchanges == old(fdchanges)
      ensures old(w.active) > 0 ==>
        0 <= w.fd < |anfds| && anfds[w.fd].head == Unlinked(old(anfds)[w.fd].head, w) && anfds[w.fd].reify != 0
      ensures activecnt == old(activecnt) - if old(w.active) > 0 then 1 else 0
    {
      hide Holds, Changes, Lists, ListsBut, EventQueue.Valid, Cleared;
      var _ := queue.ClearPending(w);
      if w.active == 0 {
        return;
      }
      HomeOf(w);
      Delist(w, from);
      Deactivate(w);
    }

    // ev_stop
    method Deactivate(w: Watcher)
      requires ListsBut(w) && w in ios
      modifies this`activecnt, w`active
      ensures Lists() && w.active == 0 && activecnt == old(activecnt) - 1
    {
      hide FdOk;
      w.active := 0;
      activecnt := activecnt - 1;
    }

    lemma HomeOf(w: Watcher)
      requires Lists() && w in ios
      ensures Home(w)
    {
    }

    // wlist_del and fd_change.
    method Delist(w: Watcher, ghost from: nat)
      requires Lists() && Changes(anfds, fdchanges, from) && Holds(backend.polls, backend.pollidxs, Told(anfds))
      requires w in ios && w.active > 0 && 0 <= w.fd < |anfds|
      modifies this`anfds, this`fdchanges
      ensures ListsBut(w) && Changes(anfds, fdchanges, from) && Holds(backend.polls, backend.pollidxs, Told(anfds))
      ensures |anfds| == |old(anfds)| && old(fdchanges) <= fdchanges
      ensures forall fd :: 0 <= fd < |anfds| && fd != w.fd ==> anfds[fd] == old(anfds)[fd]
      ensures anfds[w.fd].head == Unlinked(old(anfds)[w.fd].head, w) && anfds[w.fd].reify != 0
    {
      hide Holds, Changes, FdOk;
      var fd := w.fd;
      ghost var a := anfds[fd];
      NotElsewhere(w);
      Relist(fd, Unlinked(anfds[fd].head, w), EV_ANFD_REIFY, from);
      Removed(a, fd, w);
      forall v | v in ios && v != w ensures Home(v) {
        assert old(Home(v));
      }
      assert forall i :: 0 <= i < |anfds[fd].head| ==> anfds[fd].head[i] in anfds[fd].head;
      InIos(fd);
    }

    lemma InIos(fd: nat)
      requires fd < |anfds| && FdOk(anfds[fd], fd)
      ensures forall v :: v in anfds[fd].head ==> v in ios
    {
    }
  
    ghost function ActiveIos(): set<Watcher>
      reads this`ios, ios`active
    {
      set w | w in ios && w.active > 0
    }

    /** fd_kill: stop every watcher of fd and tell it so. */
    method FdKill(fd: nat, ghost from: nat)
      requires ValidFrom(from) && fd < |anfds|
      modifies this`anfds, this`fdchanges, this`activecnt, ios`active, queue.all`pending, queue`pendings
      ensures ValidFrom(from) && |anfds| == |old(anfds)| && anfds[fd].head == [] && old(fdchanges) <= fdchanges
      ensures forall f :: 0 <= f < |anfds| && f != fd ==> anfds[f] == old(anfds)[f]
      ensures forall w :: w in old(anfds)[fd].head ==> w.active == 0 && w.pending > 0
      ensures activecnt == old(activecnt) - |old(anfds)[fd].head|
      ensures ActiveIos() <= old(ActiveIos()) && (ActiveIos() == old(ActiveIos()) ==> fdchanges == old(fdchanges))
    {
      hide Holds, Changes, FdOk, EventQueue.Valid, Lists;
      while anfds[fd].head != []
        invariant ValidFrom(from) && |anfds| == |old(anfds)| && old(fdchanges) <= fdchanges
        invariant forall f :: 0 <= f < |anfds| && f != fd ==> anfds[f] == old(anfds)[f]
        invariant forall w :: w in old(anfds)[fd].head ==> w in anfds[fd].head || (w.active == 0 && w.pending > 0)
        invariant activecnt == old(activecnt) - |old(anfds)[fd].head| + |anfds[fd].head|
        invariant ActiveIos() <= old(ActiveIos()) && (ActiveIos() == old(ActiveIos()) ==> fdchanges == old(fdchanges))
        decreases |anfds[fd].head|
      {
        FirstOf(fd);
        KillFirst(anfds[fd].head[0], fd, from);
      }
    }

    // Stop the first watcher of fd and tell it.
    method KillFirst(w: Watcher, fd: nat, ghost from: nat)
      requires ValidFrom(from) && fd < |anfds| && anfds[fd].head != [] && w == anfds[fd].head[0]
      modifies this`anfds, this`fdchanges, this`activecnt, w`active, w`pending, queue`pendings
      ensures ValidFrom(from) && |anfds| == |old(anfds)| && old(fdchanges) <= fdchanges
      ensures forall f :: 0 <= f < |anfds| && f != fd ==> anfds[f] == old(anfds)[f]
      ensures anfds[fd].head == old(anfds)[fd].head[1..]
      ensures w in ios && w.active == 0 && w.pending > 0 && ActiveIos() == old(ActiveIos()) - {w}
      ensures w in old(ActiveIos()) && activecnt == old(activecnt) - 1
    {
      hide Holds, Changes, FdOk, EventQueue.Valid, Lists, Cleared, Fed, Unlinked, Or;
      FirstOf(fd);
      IoStop(w, from);
      queue.FeedEvent(w, Or(EV_ERROR, Or(EV_READ, EV_WRITE)));
    }

    lemma FirstOf(fd: nat)
      requires Lists() && fd < |anfds| && anfds[fd].head != []
      ensures var w := anfds[fd].head[0];
              && w in ios && w.active > 0 && w.fd == fd && EventQueue.InRange(w)
              && Unlinked(anfds[fd].head, w) == anfds[fd].head[1..]
    {
      assert FdOk(anfds[fd], fd);
    }

    // The loop over the watchers of one descriptor.
    method OrOfMasks(head: seq<Watcher>) returns (events: Events)
      ensures events == Wanted(head)
    {
      hide Or;
      events := 0;
      var i := 0;
      assert head[0..] == head;
      OrLaws(Wanted(head), 0, 0);
      while i < |head|
        invariant 0 <= i <= |head| && Or(events, Wanted(head[i..])) == Wanted(head)
      {
        assert head[i..][1..] == head[i + 1..];
        OrLaws(events, head[i].events, Wanted(head[i + 1..]));
        events := Or(events, head[i].events);
        i := i + 1;
      }
      assert head[i..] == [];
      OrLaws(events, 0, 0);
    }

    // What becomes of descriptor f: its list stays, unless the backend finds it unusable when
    // told about a change.
    static predicate KilledOrSame(was: seq<Anfd>, now: seq<Anfd>, bad: set<nat>, f: nat) {
      f < |was| == |now| ==>
        || (now[f].head == was[f].head && (f in bad ==> now[f].events == was[f].events))
        || (f in bad && now[f].head == [])
    }

    /** fd_reify: tell the backend about every change.  The backend may find a
        descriptor unusable and kill it, which changes it again. */
    method FdReify(bad: set<nat>)
      requires ValidFrom(0)
      modifies this`anfds, this`fdchanges, this`activecnt, ios`active, queue.all`pending, queue`pendings, backend
      ensures ValidFrom(0) && fdchanges == []
      ensures forall fd :: 0 <= fd < |anfds| ==> anfds[fd].reify == 0 && anfds[fd].events == Wanted(anfds[fd].head)
      ensures |anfds| == |old(anfds)| && forall f: nat :: KilledOrSame(old(anfds), anfds, bad, f)
    {
      hide Holds, Changes, FdOk, EventQueue.Valid, Lists;
      var i := 0;
      while i < |fdchanges|
        invariant ValidFrom(i) && i <= |fdchanges|
        invariant |anfds| == |old(anfds)| && forall f: nat :: KilledOrSame(old(anfds), anfds, bad, f)
        decreases ActiveIos(), |fdchanges| - i
      {
        ghost var before := anfds;
        ReifyOne(i, bad);
        forall f: nat ensures KilledOrSame(old(anfds), anfds, bad, f) {
          assert KilledOrSame(old(anfds), before, bad, f) && KilledOrSame(before, anfds, bad, f);
        }
        i := i + 1;
      }
      NoneLeft();
      fdchanges := [];
    }

    method ReifyOne(i: nat, bad: set<nat>)
      requires ValidFrom(i) && i < |fdchanges|
      modifies this`anfds, this`fdchanges, this`activecnt, ios`active, queue.all`pending, queue`pendings, backend
      ensures ValidFrom(i + 1) && old(fdchanges) <= fdchanges
      ensures ActiveIos() <= old(ActiveIos()) && (ActiveIos() == old(ActiveIos()) ==> fdchanges == old(fdchanges))
      ensures |anfds| == |old(anfds)| && forall f: nat :: KilledOrSame(old(anfds), anfds, bad, f)
      ensures forall f :: 0 <= f < |anfds| && f != fdchanges[i] ==> anfds[f] == old(anfds)[f]
    {
      hide Holds, Changes, FdOk, EventQueue.Valid, Lists, And, Or;
      ChangesTake(anfds, fdchanges, i, 0);
      var fd := fdchanges[i];
      var o_events, o_reify := anfds[fd].events, anfds[fd].reify;
      ghost var told := Told(anfds);
      var events := SetMask(i);
      FlagSet();
      if o_events != events {
        o_reify := EV_IOFDSET;
      }
      if And(o_reify, EV_IOFDSET) != 0 {
        backend.PollModify(fd, o_events, events, told);
        if fd in bad {
          FdKill(fd, i + 1);
        }
      } else {
        assert told[fd := events] == told;
      }
    }

    lemma FlagSet()
      ensures And(EV_IOFDSET, EV_IOFDSET) != 0
    {
    }

    // anfd->reify = 0, and the mask becomes what the watchers want.
    method SetMask(i: nat) returns (events: Events)
      requires Lists() && Changes(anfds, fdchanges, i) && i < |fdchanges| && fdchanges[i] < |anfds|
      modifies this`anfds
      ensures Lists() && Changes(anfds, fdchanges, i + 1) && |anfds| == |old(anfds)|
      ensures Told(anfds) == Told(old(anfds))[fdchanges[i] := events]
      ensures anfds == old(anfds)[fdchanges[i] := Anfd(old(anfds)[fdchanges[i]].head, events, 0)]
    {
      hide Changes, FdOk;
      var fd := fdchanges[i];
      ListReified(fd);
      events := OrOfMasks(anfds[fd].head);
      ChangesTake(anfds, fdchanges, i, events);
      ghost var told := Told(anfds);
      anfds := anfds[fd := Anfd(anfds[fd].head, events, 0)];
      assert Told(anfds) == told[fd := events];
      forall w | w in ios ensures Home(w) {
        assert old(Home(w));
      }
    }

    // The list of fd once its mask is what its watchers want.
    lemma ListReified(fd: nat)
      requires Lists() && fd < |anfds|
      ensures FdOk(Anfd(anfds[fd].head, Wanted(anfds[fd].head), 0), fd)
    {
      assert FdOk(anfds[fd], fd);
    }

    lemma NoneLeft()
      requires ValidFrom(|fdchanges|)
      ensures Changes(anfds, [], 0)
      ensures forall fd :: 0 <= fd < |anfds| ==> anfds[fd].reify == 0 && anfds[fd].events == Wanted(anfds[fd].head)
    {
      forall fd | 0 <= fd < |anfds| ensures anfds[fd].reify == 0 && anfds[fd].events == Wanted(anfds[fd].head) {
        assert FdOk(anfds[fd], fd) && fd !in fdchanges[|fdchanges|..];
      }
      assert fdchanges[|fdchanges|..] == [];
    }
  }
}
