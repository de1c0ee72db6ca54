/**
 The wake-up handshake of libev: any number of threads and signal handlers run
 ev_async_send or ev_feed_signal against one event loop.

 Every read or write of a shared variable is one atomic step, and the steps of all
 parties interleave freely (sequential consistency, which is what the fences in
 evpipe_write and ev_run are there for).
 */
module Wakeup {
  datatype Kind = Sig | Asy

  // What a send is aimed at: a signal number or an async watcher.
  datatype Target = Signal(num: nat) | Async(id: nat)

  function KindOf(t: Target): Kind {
    if t.Signal? then Sig else Asy
  }

  // Where a sender stands: the step it takes next.
  datatype SenderPc =
    | Mark           // w->sent = 1, or signals [n].pending = 1
    | TestFlag       // if (*flag) return
    | SetFlag        // *flag = 1
    | SetSkipped     // pipe_write_skipped = 1
    | TestWanted     // if (pipe_write_wanted)
    | ClearSkipped   // pipe_write_skipped = 0
    | WritePipe      // write (evpipe [1], ...)

  datatype Sender = Sender(target: Target, pc: SenderPc)

  type Senders = map<nat, Sender>

  // Where the loop stands: the step it takes next.
  datatype LoopPc =
    | Running        // callbacks; watchers come and go
    | Announce       // pipe_write_wanted = 1
    | TestSkipped    // may the loop block?
    | Blocked        // in backend_poll, with a timeout
    | Polling        // in backend_poll, without blocking
    | Unwant         // pipe_write_wanted = 0
    | Retest         // if (pipe_write_skipped) feed pipe_w
    | Drain(readable: bool)      // pipecb: read the pipe
    | ClearSkip                  // pipecb: pipe_write_skipped = 0
    | LookAt(k: Kind)            // if (sig_pending), if (async_pending)
    | Clear(k: Kind)             // sig_pending = 0, async_pending = 0
    | Scan(k: Kind, i: nat)      // entries below i are still to be looked at
    | Unmark(k: Kind, i: nat)    // entry i was found marked
    | Feed(k: Kind, i: nat)

  datatype State = State(
    wanted: bool,
    skipped: bool,
    flags: set<Kind>,            // sig_pending, async_pending
    pipe: nat,                   // bytes in the pipe, or the eventfd counter
    eventfd: bool,
    fed: bool,                   // pipe_w is pending
    fedRead: bool,               // ... with EV_READ
    marked: set<Target>,         // sent / pending
    asyncs: seq<nat>,            // active async watchers
    slot: map<nat, nat>,         // ev_active of each of them, minus one
    attached: set<nat>,          // signals with a watcher on this loop
    nsig: nat,
    senders: Senders,            // calls in progress, by thread
    pc: LoopPc,
    owed: set<Target>)           // sent to while active, and not fed since

  predicate Active(s: State, w: Target) {
    match w
    case Signal(n) => n in s.attached
    case Async(id) => id in s.slot
  }

  // The list pipecb scans, from the last entry down to the first.
  function Entries(s: State, k: Kind): nat {
    if k == Sig then s.nsig else |s.asyncs|
  }

  function Entry(asyncs: seq<nat>, k: Kind, i: nat): Target
    requires k == Asy ==> i < |asyncs|
  {
    if k == Sig then Signal(i) else Async(asyncs[i])
  }

  // After the scan for signals comes the test for asyncs; after that pipecb returns.
  function AfterScan(k: Kind): LoopPc {
    if k == Sig then LookAt(Asy) else Running
  }

  datatype Event =
    | Call(tid: nat, target: Target)
    | Send(tid: nat, full: bool)     // the next step of a sender; `full`: write() fails
    | Start(id: nat)
    | Stop(id: nat)
    | Attach(num: nat)
    | Detach(num: nat)
    | Loop(choice: bool)             // the next step of the loop

  predicate Enabled(s: State, e: Event) {
    match e
    case Call(tid, target) =>
      tid !in s.senders && (target.Signal? ==> target.num in s.attached)
    case Send(tid, full) =>
      tid in s.senders && (full ==> s.pipe > 0)
    case Start(id) => s.pc == Running
    case Stop(id) => s.pc == Running
    case Attach(num) => s.pc == Running && num < s.nsig
    case Detach(num) => s.pc == Running
    case Loop(choice) =>
      match s.pc {
        // EV_INVOKE_PENDING has run pipecb before the loop goes to poll again.
        case Running => choice == s.fed
        case Scan(k, i) => i <= Entries(s, k)
        case Unmark(k, i) => i < Entries(s, k)
        case Feed(k, i) => i < Entries(s, k)
        // The backend reports only what is there; it may be too early to see it.
        case Blocked => choice ==> s.pipe > 0
        case Polling => choice ==> s.pipe > 0
        case _ => true
      }
  }

  function Next(s: State, e: Event): State
    requires Enabled(s, e)
  {
    match e
    case Call(tid, target) => s.(senders := s.senders[tid := Sender(target, Mark)])
    case Send(tid, full) => SenderStep(s, tid, full)
    case Start(id) => AsyncStart(s, id)
    case Stop(id) => AsyncStop(s, id)
    case Attach(num) => s.(attached := s.attached + {num})
    case Detach(num) => s.(attached := s.attached - {num}, owed := s.owed - {Signal(num)})
    case Loop(choice) => LoopStep(s, choice)
  }

  // ev_async_send and ev_feed_signal, then evpipe_write, variable by variable.
  function SenderStep(s: State, tid: nat, full: bool): (r: State)
    requires tid in s.senders
    ensures r.pc == s.pc && r.attached == s.attached && s.marked <= r.marked
  {
    var w, pc := s.senders[tid].target, s.senders[tid].pc;
    s.(marked := if pc == Mark then s.marked + {w} else s.marked,
       owed := if pc == Mark && Active(s, w) then s.owed + {w} else s.owed,
       flags := if pc == SetFlag then s.flags + {KindOf(w)} else s.flags,
       skipped := if pc == SetSkipped then true else if pc == ClearSkipped then false else s.skipped,
       pipe := if pc == WritePipe && !full then s.pipe + 1 else s.pipe,
       senders := AfterSend(s, tid))
  }

  // Where the sender stands after its step, or that it has returned.
  function AfterSend(s: State, tid: nat): Senders
    requires tid in s.senders
  {
    var w := s.senders[tid].target;
    match s.senders[tid].pc
    case Mark => At(s.senders, tid, TestFlag)
    case TestFlag => if KindOf(w) in s.flags then s.senders - {tid} else At(s.senders, tid, SetFlag)
    case SetFlag => At(s.senders, tid, SetSkipped)
    case SetSkipped => At(s.senders, tid, TestWanted)
    case TestWanted => if s.wanted then At(s.senders, tid, ClearSkipped) else s.senders - {tid}
    case ClearSkipped => At(s.senders, tid, WritePipe)
    case WritePipe => s.senders - {tid}
  }

  function At(m: Senders, tid: nat, pc: SenderPc): Senders
    requires tid in m
  {
    m[tid := m[tid].(pc := pc)]
  }

  predicate InPipecb(pc: LoopPc) {
    pc.Drain? || pc.ClearSkip? || pc.LookAt? || pc.Clear?
  }

  predicate InScan(pc: LoopPc) {
    pc.Scan? || pc.Unmark? || pc.Feed?
  }

  function LoopStep(s: State, choice: bool): (r: State)
    requires Enabled(s, Loop(choice))
    ensures r.senders == s.senders
  {
    if InScan(s.pc) then ScanStep(s) else if InPipecb(s.pc) then PipecbStep(s) else PollStep(s, choice)
  }

  // One step of ev_run around backend_poll.  In Running, `choice` is to invoke
  // pipecb; in poll, that the pipe is reported readable; before it, not to block.
  function PollStep(s: State, choice: bool): (r: State)
    requires !InScan(s.pc) && !InPipecb(s.pc)
    ensures r.senders == s.senders
  {
    s.(wanted := if s.pc == Announce then true else if s.pc == Unwant then false else s.wanted,
       fed := if s.pc == Running && choice then false
              else s.fed || (InPoll(s.pc) && choice) || (s.pc == Retest && s.skipped),
       fedRead := if s.pc == Running && choice then false else s.fedRead || (InPoll(s.pc) && choice),
       pc := AfterPoll(s, choice))
  }

  predicate InPoll(pc: LoopPc) {
    pc == Blocked || pc == Polling
  }

  function AfterPoll(s: State, choice: bool): LoopPc
    requires !InScan(s.pc) && !InPipecb(s.pc)
  {
    match s.pc
    case Running => if choice then Drain(s.fedRead) else Announce
    case Announce => TestSkipped
    case TestSkipped => if s.skipped || choice then Polling else Blocked
    case Blocked => Unwant
    case Polling => Unwant
    case Unwant => Retest
    case Retest => Running
  }

  // One step of pipecb outside the scans, variable by variable.
  function PipecbStep(s: State): (r: State)
    requires InPipecb(s.pc)
    ensures r.senders == s.senders
  {
    s.(pipe := if s.pc.Drain? && s.pc.readable then Drained(s.pipe, s.eventfd) else s.pipe,
       skipped := if s.pc.ClearSkip? then false else s.skipped,
       flags := if s.pc.Clear? then s.flags - {s.pc.k} else s.flags,
       pc := AfterPipecb(s))
  }

  function AfterPipecb(s: State): LoopPc
    requires InPipecb(s.pc)
  {
    match s.pc
    case Drain(_) => ClearSkip
    case ClearSkip => LookAt(Sig)
    case LookAt(k) => if k in s.flags then Clear(k) else AfterScan(k)
    case Clear(k) => Scan(k, Entries(s, k))
  }

  // Reading an eventfd resets it; reading the pipe takes one byte.
  function Drained(pipe: nat, eventfd: bool): nat {
    if pipe == 0 || eventfd then 0 else pipe - 1
  }

  // One step of the scan for marked signals, or async watchers.
  function ScanStep(s: State): (r: State)
    requires InScan(s.pc) && Enabled(s, Loop(false))
    ensures r.senders == s.senders
  {
    s.(marked := if s.pc.Unmark? then s.marked - {Entry(s.asyncs, s.pc.k, s.pc.i)} else s.marked,
       owed := if s.pc.Feed? then s.owed - {Entry(s.asyncs, s.pc.k, s.pc.i)} else s.owed,
       pc := match s.pc {
               case Scan(k, i) => AfterLook(s, k, i)
               case Unmark(k, i) => Feed(k, i)
               case Feed(k, i) => Scan(k, i)
             })
  }

  // A signal without a watcher on this loop is passed over and stays marked.
  function AfterLook(s: State, k: Kind, i: nat): LoopPc
    requires i <= Entries(s, k)
  {
    if i == 0 then AfterScan(k)
    else if Entry(s.asyncs, k, i - 1) in s.marked && (k == Asy || i - 1 in s.attached) then Unmark(k, i - 1)
    else Scan(k, i - 1)
  }

  // ev_async_start: an earlier mark is forgotten.
  function AsyncStart(s: State, id: nat): State {
    if id in s.slot then s
    else s.(marked := s.marked - {Async(id)}, slot := s.slot[id := |s.asyncs|], asyncs := s.asyncs + [id])
  }

  // ev_async_stop: the last watcher moves into the vacated slot.
  function AsyncStop(s: State, id: nat): State {
    if id !in s.slot || s.slot[id] >= |s.asyncs| then s
    else
      var n := |s.asyncs| - 1;
      var last := s.asyncs[n];
      s.(asyncs := s.asyncs[s.slot[id] := last][..n],
         slot := s.slot[last := s.slot[id]] - {id},
         owed := s.owed - {Async(id)})
  }

  // A loop with its pipe set up, nothing started and nobody sending.
  predicate Init(s: State) {
    && !s.wanted && !s.skipped && s.flags == {} && s.pipe == 0
    && !s.fed && !s.fedRead && s.marked == {} && s.asyncs == [] && s.slot == map[] && s.attached == {}
    && s.senders == map[] && s.pc == Running && s.owed == {}
  }

  // ----- the invariant

  // pipecb has yet to look at flag k.
  predicate WillLook(pc: LoopPc, k: Kind) {
    match pc
    case Drain(_) => true
    case ClearSkip => true
    case LookAt(j) => j == Sig || k == Asy
    case Clear(j) => j == k || (j == Sig && k == Asy)
    case Scan(j, _) => j == Sig && k == Asy
    case Unmark(j, _) => j == Sig && k == Asy
    case Feed(j, _) => j == Sig && k == Asy
    case _ => false
  }

  // A sender that has set its flag and will still set skipped, or write.
  predicate Rousing(pc: SenderPc) {
    pc == SetSkipped || pc == ClearSkipped || pc == WritePipe
  }

  predicate SomeoneRousing(m: Senders) {
    exists t :: t in m && Rousing(m[t].pc)
  }

  predicate Testing(pc: SenderPc) {
    pc == TestWanted || pc == ClearSkipped
  }

  predicate SomeoneTesting(m: Senders) {
    exists t :: t in m && Testing(m[t].pc)
  }

  // A sender of w that has marked it and will still see to the flag.
  predicate Flagging(snd: Sender, w: Target) {
    snd.target == w && (snd.pc == TestFlag || snd.pc == SetFlag)
  }

  predicate SomeoneFlagging(m: Senders, w: Target) {
    exists t :: t in m && Flagging(m[t], w)
  }

  // The loop will look at flag k before it blocks.
  predicate Heeded(s: State, k: Kind) {
    s.pipe > 0 || s.skipped || s.fed || WillLook(s.pc, k) || SomeoneRousing(s.senders)
  }

  // The scan for w's kind has not come to w yet.
  predicate ToBeScanned(pc: LoopPc, asyncs: seq<nat>, w: Target) {
    (pc.Scan? || pc.Unmark? || pc.Feed?) && pc.k == KindOf(w) &&
    match w
    case Signal(n) => n < pc.i
    case Async(id) => exists j :: 0 <= j < pc.i && j < |asyncs| && asyncs[j] == id
  }

  predicate AboutToFeed(pc: LoopPc, asyncs: seq<nat>, w: Target) {
    && (pc.Unmark? || pc.Feed?)
    && (pc.k == Asy ==> pc.i < |asyncs|)
    && Entry(asyncs, pc.k, pc.i) == w
  }

  // A send to w is not lost: w is about to be fed, or it is marked and someone
  // will see to it.
  predicate Kept(s: State, w: Target) {
    || AboutToFeed(s.pc, s.asyncs, w)
    || (w in s.marked && (KindOf(w) in s.flags || SomeoneFlagging(s.senders, w) || ToBeScanned(s.pc, s.asyncs, w)))
  }

  // Every active async watcher knows its slot.
  predicate ListOk(s: State) {
    && (forall i :: 0 <= i < |s.asyncs| ==> s.asyncs[i] in s.slot && s.slot[s.asyncs[i]] == i)
    && (forall id :: id in s.slot ==> s.slot[id] < |s.asyncs| && s.asyncs[s.slot[id]] == id)
  }

  predicate LoopOk(s: State) {
    && (s.wanted <==> s.pc == TestSkipped || s.pc == Blocked || s.pc == Polling || s.pc == Unwant)
    && (s.fed ==> s.pc == Running || s.pc == Unwant || s.pc == Retest)
    && (s.fedRead ==> s.fed)
    && (s.pc == Blocked && s.skipped ==> SomeoneTesting(s.senders))
    && (forall n :: n in s.attached ==> n < s.nsig)
    && match s.pc {
         case Scan(k, i) => i <= Entries(s, k)
         case Unmark(k, i) => i < Entries(s, k)
         case Feed(k, i) => i < Entries(s, k)
         case _ => true
       }
  }

  predicate Flags(s: State) {
    forall k :: k in s.flags ==> Heeded(s, k)
  }

  ghost predicate Owed(s: State) {
    forall w :: w in s.owed ==> Active(s, w) && Kept(s, w)
  }

  ghost predicate Inv(s: State) {
    ListOk(s) && LoopOk(s) && Flags(s) && Owed(s)
  }

  // ----- every step keeps the invariant

  // One sender's step leaves the others where they are.
  predicate OthersStay(m: Senders, m': Senders, tid: nat) {
    && (forall t :: t in m && t != tid ==> t in m' && m'[t] == m[t])
  }

  lemma RousingStays(m: Senders, m': Senders, tid: nat)
    requires OthersStay(m, m', tid)
    ensures SomeoneRousing(m) ==> SomeoneRousing(m') || (tid in m && Rousing(m[tid].pc))
    ensures tid in m' && Rousing(m'[tid].pc) ==> SomeoneRousing(m')
    ensures SomeoneTesting(m) ==> SomeoneTesting(m') || (tid in m && Testing(m[tid].pc))
    ensures tid in m' && Testing(m'[tid].pc) ==> SomeoneTesting(m')
  {
  }

  lemma FlaggingStays(m: Senders, m': Senders, tid: nat, w: Target)
    requires OthersStay(m, m', tid)
    ensures SomeoneFlagging(m, w) ==> SomeoneFlagging(m', w) || (tid in m && Flagging(m[tid], w))
    ensures tid in m' && Flagging(m'[tid], w) ==> SomeoneFlagging(m', w)
  {
  }

  // Nothing the owed targets rely on has been taken away.
  lemma OwedStays(s: State, s': State, t: Target)
    requires Owed(s)
    requires s'.pc == s.pc && s'.asyncs == s.asyncs && s'.slot == s.slot && s'.attached == s.attached
    requires s.marked <= s'.marked
    requires forall w :: w in s'.owed && w !in s.owed ==> Active(s', w) && Kept(s', w)
    requires forall w :: w != t && SomeoneFlagging(s.senders, w) ==> SomeoneFlagging(s'.senders, w)
    requires SomeoneFlagging(s.senders, t) ==> SomeoneFlagging(s'.senders, t) || KindOf(t) in s'.flags
    requires s.flags <= s'.flags
    ensures Owed(s')
  {
    hide SomeoneFlagging, ToBeScanned, AboutToFeed;
    forall w | w in s'.owed && w in s.owed ensures Active(s', w) && Kept(s', w) {
      assert Kept(s, w);
    }
  }

  predicate Signalled(s: State) {
    s.pipe > 0 || s.skipped || SomeoneRousing(s.senders)
  }

  // A step of a sender: the loop and its lists stay, a flag once set stays set.
  predicate LoopStays(s: State, s': State) {
    && s'.pc == s.pc && s'.wanted == s.wanted && s'.fed == s.fed && s'.fedRead == s.fedRead
    && s'.attached == s.attached && s'.asyncs == s.asyncs && s'.slot == s.slot && s'.nsig == s.nsig
    && s.marked <= s'.marked
    && s.flags <= s'.flags
  }

  lemma StepKeeps(s: State, s': State)
    requires Inv(s) && LoopStays(s, s')
    requires s'.pc == Blocked && s'.skipped ==> SomeoneTesting(s'.senders)
    requires Signalled(s) || FlagsSet(s, s') ==> Signalled(s')
    requires Owed(s')
    ensures Inv(s')
  {
    hide SomeoneFlagging, SomeoneRousing, SomeoneTesting, Owed;
  }

  lemma BlockedFacts(s: State)
    requires Inv(s)
    ensures s.pc == Blocked ==> s.wanted && (s.skipped ==> SomeoneTesting(s.senders))
  {
  }

  // The step has set a flag.
  predicate FlagsSet(s: State, s': State) {
    s.flags != s'.flags
  }

  // The sender tid takes its step and nothing else happens to the senders.
  lemma SendersMove(s: State, s': State, tid: nat)
    requires OthersStay(s.senders, s'.senders, tid) && tid in s.senders
    ensures SomeoneRousing(s.senders) ==> SomeoneRousing(s'.senders) || Rousing(s.senders[tid].pc)
    ensures tid in s'.senders && Rousing(s'.senders[tid].pc) ==> SomeoneRousing(s'.senders)
    ensures SomeoneTesting(s.senders) ==> SomeoneTesting(s'.senders) || Testing(s.senders[tid].pc)
    ensures tid in s'.senders && Testing(s'.senders[tid].pc) ==> SomeoneTesting(s'.senders)
    ensures forall w :: w != s.senders[tid].target && SomeoneFlagging(s.senders, w) ==> SomeoneFlagging(s'.senders, w)
    ensures var t := s.senders[tid].target;
            && (SomeoneFlagging(s.senders, t) ==> SomeoneFlagging(s'.senders, t) || Flagging(s.senders[tid], t))
            && (tid in s'.senders && Flagging(s'.senders[tid], t) ==> SomeoneFlagging(s'.senders, t))
  {
    hide SomeoneFlagging, SomeoneRousing, SomeoneTesting;
    RousingStays(s.senders, s'.senders, tid);
    FlaggingStays(s.senders, s'.senders, tid, s.senders[tid].target);
    forall w | w != s.senders[tid].target && SomeoneFlagging(s.senders, w) ensures SomeoneFlagging(s'.senders, w) {
      FlaggingStays(s.senders, s'.senders, tid, w);
    }
  }

  lemma SameList(s: State, s': State)
    requires ListOk(s) && s'.asyncs == s.asyncs && s'.slot == s.slot
    ensures ListOk(s')
  {
  }

  lemma CallKeeps(s: State, tid: nat, target: Target)
    requires Inv(s) && Enabled(s, Call(tid, target))
    ensures Inv(Next(s, Call(tid, target)))
  {
    hide SomeoneFlagging, SomeoneRousing, SomeoneTesting, Owed, ListOk;
    var s' := Next(s, Call(tid, target));
    RousingStays(s.senders, s'.senders, tid);
    forall w | SomeoneFlagging(s.senders, w) ensures SomeoneFlagging(s'.senders, w) {
      FlaggingStays(s.senders, s'.senders, tid, w);
    }
    OwedStays(s, s', target);
    SameList(s, s');
  }

  // A step of a sender takes nothing away from what is owed.
  lemma SenderKeepsOwed(s: State, tid: nat, full: bool)
    requires Inv(s) && Enabled(s, Send(tid, full))
    ensures Owed(SenderStep(s, tid, full))
  {
    hide SomeoneFlagging, SomeoneRousing, SomeoneTesting, Owed, ListOk, LoopOk, Flags, ToBeScanned, AboutToFeed;
    var s' := SenderStep(s, tid, full);
    SendersMove(s, s', tid);
    OwedStays(s, s', s.senders[tid].target);
  }

  lemma SendKeeps(s: State, tid: nat, full: bool)
    requires Inv(s) && Enabled(s, Send(tid, full))
    ensures Inv(Next(s, Send(tid, full)))
  {
    hide SomeoneFlagging, SomeoneRousing, SomeoneTesting, Owed, ListOk, LoopOk, Flags, Kept, Active;
    var s' := SenderStep(s, tid, full);
    SenderKeepsOwed(s, tid, full);
    SendersMove(s, s', tid);
    BlockedFacts(s);
    StepKeeps(s, s');
  }

  // Outside the scans only marks, flags and senders matter to what is owed.
  lemma OwedOutsideScans(s: State, s': State)
    requires Owed(s) && !InScan(s.pc) && !InScan(s'.pc)
    requires s'.slot == s.slot && s'.attached == s.attached && s'.marked == s.marked && s'.flags == s.flags
    requires s'.senders == s.senders && s'.owed <= s.owed
    ensures Owed(s')
  {
    hide SomeoneFlagging;
    forall w | w in s'.owed ensures Active(s', w) && Kept(s', w) {
      assert Kept(s, w);
    }
  }

  lemma PollKeepsLoop(s: State, choice: bool)
    requires LoopOk(s) && !InPipecb(s.pc) && !InScan(s.pc) && (s.pc == Running ==> choice == s.fed)
    ensures LoopOk(PollStep(s, choice))
  {
    hide SomeoneTesting;
  }

  lemma PollKeepsFlags(s: State, choice: bool)
    requires LoopOk(s) && Flags(s) && !InPipecb(s.pc) && !InScan(s.pc) && (s.pc == Running ==> choice == s.fed)
    ensures Flags(PollStep(s, choice))
  {
    hide SomeoneRousing, SomeoneTesting;
    var s' := PollStep(s, choice);
    forall k | k in s'.flags ensures Heeded(s', k) {
      assert Heeded(s, k);
    }
  }

  lemma PollKeeps(s: State, choice: bool)
    requires Inv(s) && Enabled(s, Loop(choice)) && !InPipecb(s.pc) && !InScan(s.pc)
    ensures Inv(PollStep(s, choice))
  {
    hide ListOk, LoopOk, Flags, Owed;
    PollKeepsLoop(s, choice);
    PollKeepsFlags(s, choice);
    SameList(s, PollStep(s, choice));
    OwedOutsideScans(s, PollStep(s, choice));
  }

  lemma PipecbKeeps(s: State)
    requires Inv(s) && InPipecb(s.pc)
    ensures Inv(PipecbStep(s))
  {
    hide SomeoneFlagging, SomeoneRousing, SomeoneTesting;
  }

  // Passing over an entry loses nothing: it was not marked.
  lemma ScanKeepsOne(s: State, w: Target)
    requires ListOk(s) && LoopOk(s) && s.pc.Scan?
    requires Active(s, w) && Kept(s, w)
    ensures Kept(ScanStep(s), w)
  {
    hide SomeoneFlagging, SomeoneTesting;
  }

  lemma ScanKeeps(s: State)
    requires Inv(s) && s.pc.Scan?
    ensures Inv(ScanStep(s))
  {
    hide SomeoneFlagging, SomeoneRousing, SomeoneTesting, Kept, ListOk;
    var s' := ScanStep(s);
    SameList(s, s');
    forall w | w in s.owed ensures Active(s', w) && Kept(s', w) {
      ScanKeepsOne(s, w);
    }
  }

  lemma UnmarkKeeps(s: State)
    requires Inv(s) && s.pc.Unmark?
    ensures Inv(ScanStep(s))
  {
    hide SomeoneFlagging, SomeoneRousing, SomeoneTesting;
  }

  lemma FeedKeeps(s: State)
    requires Inv(s) && s.pc.Feed?
    ensures Inv(ScanStep(s))
  {
    hide SomeoneFlagging, SomeoneRousing, SomeoneTesting;
  }

  lemma LoopKeeps(s: State, choice: bool)
    requires Inv(s) && Enabled(s, Loop(choice))
    ensures Inv(LoopStep(s, choice))
  {
    hide Inv, PollStep, PipecbStep, ScanStep;
    if s.pc.Scan? {
      ScanKeeps(s);
    } else if s.pc.Unmark? {
      UnmarkKeeps(s);
    } else if s.pc.Feed? {
      FeedKeeps(s);
    } else if InPipecb(s.pc) {
      PipecbKeeps(s);
    } else {
      PollKeeps(s, choice);
    }
  }

  lemma StartKeeps(s: State, id: nat)
    requires Inv(s) && Enabled(s, Start(id))
    ensures Inv(AsyncStart(s, id))
  {
    hide SomeoneFlagging, SomeoneRousing, SomeoneTesting;
  }

  lemma StopKeeps(s: State, id: nat)
    requires Inv(s) && Enabled(s, Stop(id))
    ensures Inv(AsyncStop(s, id))
  {
    hide SomeoneFlagging, SomeoneRousing, SomeoneTesting;
  }

  lemma AttachKeeps(s: State, num: nat)
    requires Inv(s) && Enabled(s, Attach(num))
    ensures Inv(Next(s, Attach(num)))
  {
    hide SomeoneFlagging, SomeoneRousing, SomeoneTesting, ListOk;
    SameList(s, Next(s, Attach(num)));
  }

  lemma DetachKeeps(s: State, num: nat)
    requires Inv(s) && Enabled(s, Detach(num))
    ensures Inv(Next(s, Detach(num)))
  {
    hide SomeoneFlagging, SomeoneRousing, SomeoneTesting, ListOk;
    SameList(s, Next(s, Detach(num)));
  }

  // ----- whole executions

  predicate Possible(s: State, es: seq<Event>)
    decreases |es|
  {
    es == [] || (Enabled(s, es[0]) && Possible(Next(s, es[0]), es[1..]))
  }

  function After(s: State, es: seq<Event>): State
    requires Possible(s, es)
    decreases |es|
  {
    if es == [] then s else After(Next(s, es[0]), es[1..])
  }

  lemma StepKeepsInv(s: State, e: Event)
    requires Inv(s) && Enabled(s, e)
    ensures Inv(Next(s, e))
  {
    hide Inv;
    match e
    case Call(tid, target) => CallKeeps(s, tid, target);
    case Send(tid, full) => SendKeeps(s, tid, full);
    case Start(id) => StartKeeps(s, id);
    case Stop(id) => StopKeeps(s, id);
    case Attach(num) => AttachKeeps(s, num);
    case Detach(num) => DetachKeeps(s, num);
    case Loop(choice) => LoopKeeps(s, choice);
  }

  lemma {:induction false} RunKeepsInv(s: State, es: seq<Event>)
    requires Inv(s) && Possible(s, es)
    ensures Inv(After(s, es))
    decreases |es|
  {
    hide Inv, Next, Enabled;
    if es != [] {
      StepKeepsInv(s, es[0]);
      RunKeepsInv(Next(s, es[0]), es[1..]);
    }
  }

  lemma InitInv(s: State)
    requires Init(s)
    ensures Inv(s)
  {
  }

  // evpipe_write has set its flag and not returned yet.
  predicate MidWrite(pc: SenderPc) {
    pc == SetSkipped || pc == TestWanted || pc == ClearSkipped || pc == WritePipe
  }

  /** No lost wake-up: in no execution is the loop asleep with an empty pipe, nobody
      in the middle of evpipe_write, and a flag set. */
  lemma NoLostWakeup(s: State, es: seq<Event>)
    requires Init(s) && Possible(s, es)
    requires var z := After(s, es);
             z.pc == Blocked && z.pipe == 0 && forall t :: t in z.senders ==> !MidWrite(z.senders[t].pc)
    ensures After(s, es).flags == {}
  {
    hide ListOk, Owed, Init;
    InitInv(s);
    RunKeepsInv(s, es);
    var z := After(s, es);
    forall k ensures k !in z.flags {
      Unheeded(z, k);
    }
  }

  lemma Unheeded(s: State, k: Kind)
    requires LoopOk(s) && s.pc == Blocked && s.pipe == 0
    requires forall t :: t in s.senders ==> !MidWrite(s.senders[t].pc)
    ensures !Heeded(s, k)
  {
  }

  /** Whatever has been sent to an active watcher is about to be fed, or still marked
      with its flag set, or still marked with the scan yet to reach it, or the send
      has not got past its flag. */
  lemma EverySendIsKept(s: State, es: seq<Event>, w: Target)
    requires Init(s) && Possible(s, es) && w in After(s, es).owed
    ensures Active(After(s, es), w) && Kept(After(s, es), w)
  {
    hide Init;
    InitInv(s);
    RunKeepsInv(s, es);
  }

  /** So the loop never goes to sleep owing an event to anyone. */
  lemma NobodyIsOwedAtRest(s: State, es: seq<Event>)
    requires Init(s) && Possible(s, es)
    requires var z := After(s, es); z.pc == Blocked && z.pipe == 0 && z.senders == map[]
    ensures After(s, es).owed == {}
  {
    NoLostWakeup(s, es);
    hide Init;
    forall w ensures w !in After(s, es).owed {
      if w in After(s, es).owed {
        EverySendIsKept(s, es, w);
      }
    }
  }

  // ----- no event without a send

  // Event e is a sender marking w.
  predicate Marking(s: State, e: Event, w: Target) {
    e.Send? && e.tid in s.senders && s.senders[e.tid] == Sender(w, Mark)
  }

  // The loop is about to feed w, its mark cleared.
  predicate Feeding(s: State, w: Target) {
    s.pc.Feed? && AboutToFeed(s.pc, s.asyncs, w)
  }

  function Times(b: bool): nat {
    if b then 1 else 0
  }

  // How often w is marked in the run es.
  function Marks(s: State, es: seq<Event>, w: Target): nat
    requires Possible(s, es)
    decreases |es|
  {
    if es == [] then 0 else Times(Marking(s, es[0], w)) + Marks(Next(s, es[0]), es[1..], w)
  }

  // How often w is fed in the run es.
  function Feeds(s: State, es: seq<Event>, w: Target): nat
    requires Possible(s, es)
    decreases |es|
  {
    if es == [] then 0 else Times(es[0].Loop? && Feeding(s, w)) + Feeds(Next(s, es[0]), es[1..], w)
  }

  // Marks of w that have not led to a feed yet.
  function Unspent(s: State, w: Target): nat {
    Times(w in s.marked) + Times(Feeding(s, w))
  }

  // What the loop is about to unmark is marked.
  predicate MarkedFirst(s: State) {
    s.pc.Unmark? ==> s.pc.i < Entries(s, s.pc.k) && Entry(s.asyncs, s.pc.k, s.pc.i) in s.marked
  }

  // Whoever is about to be fed is active.
  predicate FeedsActive(s: State) {
    s.pc.Unmark? || s.pc.Feed? ==>
      s.pc.i < Entries(s, s.pc.k) && Active(s, Entry(s.asyncs, s.pc.k, s.pc.i))
  }

  lemma SendSpends(s: State, tid: nat, full: bool, w: Target)
    requires MarkedFirst(s) && FeedsActive(s) && Enabled(s, Send(tid, full))
    ensures var s' := SenderStep(s, tid, full);
            && MarkedFirst(s') && FeedsActive(s')
            && Unspent(s', w) <= Unspent(s, w) + Times(Marking(s, Send(tid, full), w))
  {
    hide AfterSend;
  }

  lemma ScanSpends(s: State, w: Target)
    requires InScan(s.pc) && Enabled(s, Loop(false)) && MarkedFirst(s) && FeedsActive(s) && ListOk(s)
    ensures var s' := ScanStep(s);
            MarkedFirst(s') && FeedsActive(s') && Unspent(s', w) + Times(Feeding(s, w)) <= Unspent(s, w)
  {
  }

  lemma PipecbSpends(s: State, w: Target)
    requires InPipecb(s.pc)
    ensures !Feeding(s, w)
    ensures var s' := PipecbStep(s); MarkedFirst(s') && FeedsActive(s') && Unspent(s', w) <= Unspent(s, w)
  {
  }

  lemma PollSpends(s: State, choice: bool, w: Target)
    requires !InPipecb(s.pc) && !InScan(s.pc)
    ensures !Feeding(s, w)
    ensures var s' := PollStep(s, choice); MarkedFirst(s') && FeedsActive(s') && Unspent(s', w) <= Unspent(s, w)
  {
  }

  lemma LoopSpends(s: State, choice: bool, w: Target)
    requires Enabled(s, Loop(choice)) && MarkedFirst(s) && FeedsActive(s) && ListOk(s)
    ensures var s' := LoopStep(s, choice);
            MarkedFirst(s') && FeedsActive(s') && Unspent(s', w) + Times(Feeding(s, w)) <= Unspent(s, w)
  {
    hide ListOk, MarkedFirst, FeedsActive, ScanStep, PipecbStep, PollStep, Unspent, Feeding;
    if InScan(s.pc) {
      ScanSpends(s, w);
    } else if InPipecb(s.pc) {
      PipecbSpends(s, w);
    } else {
      PollSpends(s, choice, w);
    }
  }

  // A step marks at most as it says, and a feed uses up a mark.
  lemma StepSpends(s: State, e: Event, w: Target)
    requires Enabled(s, e) && MarkedFirst(s) && FeedsActive(s) && ListOk(s)
    ensures MarkedFirst(Next(s, e)) && FeedsActive(Next(s, e))
    ensures Unspent(Next(s, e), w) + Times(e.Loop? && Feeding(s, w)) <= Unspent(s, w) + Times(Marking(s, e, w))
  {
    hide SenderStep, LoopStep;
    match e
    case Send(tid, full) =>
      hide MarkedFirst, FeedsActive, Unspent, ListOk, Enabled;
      SendSpends(s, tid, full, w);
    case Loop(choice) =>
      hide MarkedFirst, FeedsActive, Unspent, ListOk, Enabled, Feeding;
      LoopSpends(s, choice, w);
    case _ =>
      hide ListOk;
  }

  /** Over any run, every feed of w uses up one mark of w. */
  lemma {:induction false} FeedsAreDeserved(s: State, es: seq<Event>, w: Target)
    requires Possible(s, es) && Inv(s) && MarkedFirst(s) && FeedsActive(s)
    ensures MarkedFirst(After(s, es)) && FeedsActive(After(s, es))
    ensures Feeds(s, es, w) + Unspent(After(s, es), w) <= Marks(s, es, w) + Unspent(s, w)
    decreases |es|
  {
    hide Next, Enabled, MarkedFirst, FeedsActive, Unspent, Marking, Feeding, Inv;
    if es != [] {
      InvParts(s);
      StepSpends(s, es[0], w);
      StepKeepsInv(s, es[0]);
      FeedsAreDeserved(Next(s, es[0]), es[1..], w);
    }
  }

  lemma InvParts(s: State)
    requires Inv(s)
    ensures ListOk(s) && LoopOk(s)
  {
    hide ListOk, LoopOk, Flags, Owed;
  }

  /** No watcher is called for nothing: from the start, the feeds of w, the one the loop is
      about to make included, are never more than the sends that have marked it; and the
      one about to be made is of an active watcher. */
  lemma NoFeedWithoutSend(s: State, es: seq<Event>, w: Target)
    requires Init(s) && Possible(s, es)
    ensures var z := After(s, es);
            && Feeds(s, es, w) + Times(AboutToFeed(z.pc, z.asyncs, w)) <= Marks(s, es, w)
            && (AboutToFeed(z.pc, z.asyncs, w) ==> Active(z, w))
  {
    hide Inv, Marks, Feeds, After, Possible;
    InitInv(s);
    FeedsAreDeserved(s, es, w);
  }

  /** And not twice for one send: once the mark is cleared and the feed made, the next one
      needs a send that marked w in between. */
  lemma NoFeedTwice(s: State, es: seq<Event>, w: Target)
    requires Inv(s) && MarkedFirst(s) && FeedsActive(s) && w !in s.marked && !Feeding(s, w) && Possible(s, es)
    requires Feeds(s, es, w) > 0 || AboutToFeed(After(s, es).pc, After(s, es).asyncs, w)
    ensures Marks(s, es, w) > 0
  {
    hide Inv, Marks, Feeds, After, Possible;
    FeedsAreDeserved(s, es, w);
  }

  // Event e begins to watch w.
  predicate Joining(e: Event, w: Target) {
    match w
    case Signal(n) => e == Attach(n)
    case Async(id) => e == Start(id)
  }

  // Event e ends that.
  predicate Leaving(e: Event, w: Target) {
    match w
    case Signal(n) => e == Detach(n)
    case Async(id) => e == Stop(id)
  }

  /** Who is watched changes only as the program says. */
  lemma WhoIsActive(s: State, e: Event, w: Target)
    requires Inv(s) && Enabled(s, e)
    ensures Active(Next(s, e), w) <==> (Active(s, w) || Joining(e, w)) && !Leaving(e, w)
  {
    hide SenderStep, LoopStep, LoopOk, Flags, Owed;
    match e
    case Send(tid, full) => SendChangesNobody(s, tid, full, w);
    case Loop(choice) => LoopChangesNobody(s, choice, w);
    case _ =>
  }

  lemma SendChangesNobody(s: State, tid: nat, full: bool, w: Target)
    requires tid in s.senders
    ensures Active(SenderStep(s, tid, full), w) == Active(s, w)
  {
    hide AfterSend;
  }

  lemma LoopChangesNobody(s: State, choice: bool, w: Target)
    requires Enabled(s, Loop(choice))
    ensures Active(LoopStep(s, choice), w) == Active(s, w)
  {
    hide PollStep, PipecbStep, ScanStep;
    if InScan(s.pc) {
      ScanMovesNobody(s);
    } else if InPipecb(s.pc) {
      PipecbMovesNobody(s);
    } else {
      PollMovesNobody(s, choice);
    }
  }

  lemma ScanMovesNobody(s: State)
    requires InScan(s.pc) && Enabled(s, Loop(false))
    ensures ScanStep(s).slot == s.slot && ScanStep(s).attached == s.attached
  {
    hide AfterLook;
  }

  lemma PipecbMovesNobody(s: State)
    requires InPipecb(s.pc)
    ensures PipecbStep(s).slot == s.slot && PipecbStep(s).attached == s.attached
  {
    hide AfterPipecb;
  }

  lemma PollMovesNobody(s: State, choice: bool)
    requires !InScan(s.pc) && !InPipecb(s.pc)
    ensures PollStep(s, choice).slot == s.slot && PollStep(s, choice).attached == s.attached
  {
    hide AfterPoll;
  }

  /** A watcher that is started is not fed for what was sent before: every feed of it needs a
      send that has marked it since. */
  lemma FreshWatcherNeedsSend(s: State, id: nat, es: seq<Event>)
    requires Inv(s) && MarkedFirst(s) && FeedsActive(s) && Enabled(s, Start(id)) && id !in s.slot
    requires Possible(Next(s, Start(id)), es)
    ensures Feeds(Next(s, Start(id)), es, Async(id)) <= Marks(Next(s, Start(id)), es, Async(id))
  {
    hide Marks, Feeds, After, Possible;
    StartKeeps(s, id);
    hide Inv;
    FeedsAreDeserved(Next(s, Start(id)), es, Async(id));
  }

  // ----- the loop on its own

  // What the loop does when nothing else happens: poll reports a readable pipe.
  function Pick(s: State): bool {
    match s.pc
    case Running => s.fed
    case Blocked => s.pipe > 0
    case Polling => s.pipe > 0
    case _ => false
  }

  // A loop step that does not overlook a readable pipe; it may still choose not to block.
  predicate Prompt(s: State, choice: bool) {
    (s.pc == Blocked || s.pc == Polling) ==> choice == (s.pipe > 0)
  }

  lemma PickIsPrompt(s: State)
    ensures Prompt(s, Pick(s))
  {
  }

  /** The loop can always take its next step. */
  lemma NeverStuck(s: State)
    requires Inv(s)
    ensures Enabled(s, Loop(Pick(s)))
  {
  }

  ghost function Alone(s: State, n: nat): State
    requires Inv(s)
    decreases n
  {
    if n == 0 then s
    else
      NeverStuck(s);
      LoopKeeps(s, Pick(s));
      Alone(LoopStep(s, Pick(s)), n - 1)
  }

  // At most this many steps are left until pipecb has returned.
  function Left(s: State): nat {
    var n, m := 3 * s.nsig, 3 * |s.asyncs|;
    match s.pc
    case Running => n + m + if s.fed then 8 else 14
    case Announce => n + m + 13
    case TestSkipped => n + m + 12
    case Blocked => n + m + 11
    case Polling => n + m + 11
    case Unwant => n + m + 10
    case Retest => n + m + 9
    case Drain(_) => n + m + 7
    case ClearSkip => n + m + 6
    case LookAt(k) => if k == Sig then n + m + 5 else m + 2
    case Clear(k) => if k == Sig then n + m + 4 else m + 1
    case Scan(k, i) => 3 * i + if k == Sig then m + 3 else 0
    case Unmark(k, i) => 3 * i + 2 + if k == Sig then m + 3 else 0
    case Feed(k, i) => 3 * i + 1 + if k == Sig then m + 3 else 0
  }

  // w is served before pipecb returns.
  predicate ThisTime(s: State, w: Target) {
    || AboutToFeed(s.pc, s.asyncs, w) || ToBeScanned(s.pc, s.asyncs, w) || WillLook(s.pc, KindOf(w))
    || s.pc == Running || s.pc == Announce || s.pc == TestSkipped || s.pc == Blocked || s.pc == Polling
    || ((s.pc == Unwant || s.pc == Retest) && (s.fed || s.skipped))
  }

  function Rank(s: State, w: Target): nat {
    Left(s) + if ThisTime(s, w) then 0 else 3 * s.nsig + 3 * |s.asyncs| + 15
  }

  lemma PollRankFalls(s: State, w: Target, choice: bool)
    requires Inv(s) && s.senders == map[] && w in s.owed && !InPipecb(s.pc) && !InScan(s.pc)
    requires Prompt(s, choice) && Enabled(s, Loop(choice))
    ensures Rank(PollStep(s, choice), w) < Rank(s, w)
  {
    hide ListOk;
    assert Kept(s, w);
    assert Heeded(s, KindOf(w));
  }

  // In pipecb the count goes down until pipecb returns.
  lemma PipecbCount(s: State)
    requires LoopOk(s) && InPipecb(s.pc)
    ensures var s' := PipecbStep(s);
            && ((s'.pc == Running && Left(s') == 3 * s.nsig + 3 * |s.asyncs| + 14) || Left(s') < Left(s))
            && s'.nsig == s.nsig && s'.asyncs == s.asyncs
  {
    hide SomeoneTesting;
  }

  lemma ScanCount(s: State)
    requires LoopOk(s) && InScan(s.pc)
    ensures var s' := ScanStep(s);
            && ((s'.pc == Running && Left(s') == 3 * s.nsig + 3 * |s.asyncs| + 14) || Left(s') < Left(s))
            && s'.nsig == s.nsig && s'.asyncs == s.asyncs
  {
    hide SomeoneTesting;
  }

  // What is to be served before pipecb returns is not put off.
  lemma PipecbServes(s: State, w: Target)
    requires ListOk(s) && LoopOk(s) && s.senders == map[] && InPipecb(s.pc)
    requires Active(s, w) && Kept(s, w) && ThisTime(s, w)
    ensures var pc := PipecbStep(s).pc; pc != Running && (ToBeScanned(pc, s.asyncs, w) || WillLook(pc, KindOf(w)))
  {
    hide SomeoneTesting;
    if s.pc.Clear? && s.pc.k == KindOf(w) {
      assert ToBeScanned(PipecbStep(s).pc, s.asyncs, w);
    }
  }

  lemma ScanServes(s: State, w: Target)
    requires ListOk(s) && LoopOk(s) && s.senders == map[] && s.pc.Scan?
    requires Active(s, w) && Kept(s, w) && ThisTime(s, w)
    ensures var pc := ScanStep(s).pc;
            pc != Running && (AboutToFeed(pc, s.asyncs, w) || ToBeScanned(pc, s.asyncs, w) || WillLook(pc, KindOf(w)))
  {
    hide SomeoneTesting, SomeoneFlagging;
  }

  lemma FeedServes(s: State, w: Target)
    requires ListOk(s) && LoopOk(s) && (s.pc.Unmark? || s.pc.Feed?)
    requires Active(s, w) && ThisTime(s, w) && w in ScanStep(s).owed
    ensures var pc := ScanStep(s).pc;
            pc != Running && (AboutToFeed(pc, s.asyncs, w) || ToBeScanned(pc, s.asyncs, w) || WillLook(pc, KindOf(w)))
  {
    hide SomeoneTesting;
  }

  lemma RankFalls(s: State, w: Target, choice: bool)
    requires Inv(s) && s.senders == map[] && w in s.owed && Prompt(s, choice)
    requires Enabled(s, Loop(choice)) && w in LoopStep(s, choice).owed
    ensures Rank(LoopStep(s, choice), w) < Rank(s, w)
  {
    hide ListOk, LoopOk, Flags, Kept, Active, Left, Entries, Entry, AfterLook, AfterScan, PipecbStep, ScanStep,
      PollStep;
    if InPipecb(s.pc) {
      PipecbCount(s);
      if ThisTime(s, w) {
        PipecbServes(s, w);
      }
    } else if InScan(s.pc) {
      ScanCount(s);
      if ThisTime(s, w) {
        if s.pc.Scan? {
          ScanServes(s, w);
        } else {
          FeedServes(s, w);
        }
      }
    } else {
      PollRankFalls(s, w, choice);
    }
  }

  /** Once nobody sends any more, the loop by itself feeds every target it owes an
      event to. */
  lemma {:induction false} LoopDelivers(s: State, w: Target)
    requires Inv(s) && s.senders == map[]
    ensures exists n: nat :: w !in Alone(s, n).owed
    decreases Rank(s, w)
  {
    hide Inv, Rank, LoopStep, Pick, Enabled;
    if w !in s.owed {
      assert w !in Alone(s, 0).owed;
    } else {
      NeverStuck(s);
      LoopKeeps(s, Pick(s));
      var s' := LoopStep(s, Pick(s));
      if w !in s'.owed {
        assert Alone(s', 0) == s';
        assert w !in Alone(s, 1).owed;
      } else {
        PickIsPrompt(s);
        RankFalls(s, w, Pick(s));
        LoopDelivers(s', w);
        var n: nat :| w !in Alone(s', n).owed;
        assert Alone(s, n + 1) == Alone(s', n);
      }
    }
  }

  // ----- the loop goes to sleep

  // Bytes in the pipe that no pipecb is about to read.
  function Unread(s: State): nat {
    if s.pipe > 0 && (s.fedRead || s.pc == Drain(true)) then s.pipe - 1 else s.pipe
  }

  // Another round is called for, and pipecb has yet to run.
  predicate Unheard(s: State) {
    s.skipped && !(s.pc == Unwant || s.pc == Retest || (s.pc == Running && s.fed) || s.pc.Drain? || s.pc == ClearSkip)
  }

  // Steps to the next decision to block, or until pipecb has returned.
  function ToRest(s: State): nat {
    if s.pc == Polling && !s.skipped && s.pipe == 0 then 8
    else if s.pc == Unwant && !s.fed && !s.skipped then 7
    else if s.pc == Retest && !s.fed && !s.skipped then 6
    else if s.pc == Running && !s.fed then 5
    else if s.pc == Announce then 4
    else if s.pc == TestSkipped then 3
    else if s.pc == Blocked || s.pc == Polling then 2
    else 6 + Left(s)
  }

  predicate Asleep(s: State) {
    s.pc == Blocked && s.pipe == 0
  }

  // The loop alone comes closer to sleep with every step.
  predicate Nearer(s: State, s': State) {
    || Unread(s') < Unread(s)
    || (Unread(s') == Unread(s) && Unheard(s) && !Unheard(s'))
    || (Unread(s') == Unread(s) && (Unheard(s') ==> Unheard(s)) && ToRest(s') < ToRest(s))
  }

  lemma PollNearer(s: State)
    requires LoopOk(s) && !InPipecb(s.pc) && !InScan(s.pc) && !Asleep(s)
    ensures Nearer(s, PollStep(s, Pick(s)))
  {
    hide SomeoneTesting;
  }

  lemma PipecbNearer(s: State)
    requires LoopOk(s) && InPipecb(s.pc)
    ensures Nearer(s, PipecbStep(s))
  {
    hide SomeoneTesting;
    PipecbCount(s);
    hide Left;
  }

  lemma ScanNearer(s: State)
    requires LoopOk(s) && InScan(s.pc)
    ensures Nearer(s, ScanStep(s))
  {
    hide SomeoneTesting;
    ScanCount(s);
    hide Left;
  }

  /** No busy loop: once nobody sends any more, the loop by itself empties the pipe and goes
      to sleep. */
  lemma {:induction false} LoopFallsAsleep(s: State)
    requires Inv(s)
    ensures exists n: nat :: Asleep(Alone(s, n))
    decreases Unread(s), Unheard(s), ToRest(s)
  {
    hide Inv, Unread, Unheard, ToRest, LoopStep, Pick, Enabled, Asleep, Nearer;
    if Asleep(s) {
      assert Asleep(Alone(s, 0));
    } else {
      NeverStuck(s);
      LoopKeeps(s, Pick(s));
      StepNearer(s);
      NearerIsLess(s, LoopStep(s, Pick(s)));
      LoopFallsAsleep(LoopStep(s, Pick(s)));
      var n: nat :| Asleep(Alone(LoopStep(s, Pick(s)), n));
      assert Alone(s, n + 1) == Alone(LoopStep(s, Pick(s)), n);
    }
  }

  /** And when it does, with no call in progress, no flag is left and nobody is owed. */
  lemma AsleepOwesNobody(s: State)
    requires Inv(s) && Asleep(s) && s.senders == map[]
    ensures s.flags == {} && s.owed == {}
  {
    hide ListOk;
    forall k ensures k !in s.flags {
      Unheeded(s, k);
    }
    forall w ensures w !in s.owed {
      NotKeptAsleep(s, w);
    }
  }

  lemma NotKeptAsleep(s: State, w: Target)
    requires s.flags == {} && s.pc == Blocked && s.senders == map[]
    ensures !Kept(s, w)
  {
  }

  lemma NearerIsLess(s: State, s': State)
    requires Nearer(s, s')
    ensures Unread(s') < Unread(s)
         || (Unread(s') == Unread(s) && Unheard(s) && !Unheard(s'))
         || (Unread(s') == Unread(s) && (Unheard(s') ==> Unheard(s)) && ToRest(s') < ToRest(s))
  {
  }

  lemma StepNearer(s: State)
    requires Inv(s) && !Asleep(s)
    ensures Enabled(s, Loop(Pick(s))) && Nearer(s, LoopStep(s, Pick(s)))
  {
    NeverStuck(s);
    InvParts(s);
    hide Inv, LoopOk, Nearer, PollStep, PipecbStep, ScanStep, Pick;
    if InScan(s.pc) {
      ScanNearer(s);
    } else if InPipecb(s.pc) {
      PipecbNearer(s);
    } else {
      PollNearer(s);
    }
  }

  // ----- sends in flight

  // How many steps a call has left at most.
  function StepsLeft(pc: SenderPc): nat {
    match pc
    case Mark => 7
    case TestFlag => 6
    case SetFlag => 5
    case SetSkipped => 4
    case TestWanted => 3
    case ClearSkipped => 2
    case WritePipe => 1
  }

  ghost function SendsLeft(m: Senders): nat {
    if m == map[] then 0
    else
      var t :| t in m;
      StepsLeft(m[t].pc) + SendsLeft(m - {t})
  }

  // The sum does not depend on the order in which the calls are counted.
  lemma {:induction false} CountSends(m: Senders, t: nat)
    requires t in m
    ensures SendsLeft(m) == StepsLeft(m[t].pc) + SendsLeft(m - {t})
    decreases |m|
  {
    var u :| u in m && SendsLeft(m) == StepsLeft(m[u].pc) + SendsLeft(m - {u});
    if u != t {
      CountSends(m - {u}, t);
      CountSends(m - {t}, u);
      assert m - {u} - {t} == m - {t} - {u};
    }
  }

  /** A step of a sender uses up some of what is left, and is always possible. */
  lemma SendGoesOn(s: State, tid: nat, full: bool)
    requires tid in s.senders
    ensures Enabled(s, Send(tid, false)) && SendsLeft(AfterSend(s, tid)) < SendsLeft(s.senders)
  {
    CountSends(s.senders, tid);
    var m := AfterSend(s, tid);
    assert m - {tid} == s.senders - {tid};
    if tid in m {
      CountSends(m, tid);
    }
  }

  // Only calls in progress and the loop take steps, and the loop does not overlook the pipe.
  predicate Draining(s: State, es: seq<Event>)
    decreases |es|
  {
    es == [] ||
    (&& (es[0].Send? || (es[0].Loop? && Prompt(s, es[0].choice)))
     && Enabled(s, es[0]) && Draining(Next(s, es[0]), es[1..]))
  }

  /** The loop can go on for as long as one likes. */
  lemma {:induction false} LoopGoesOn(s: State, n: nat)
    requires Inv(s)
    ensures exists es: seq<Event> :: |es| == n && Draining(s, es)
    decreases n
  {
    hide Inv, LoopStep, Pick, Prompt, Enabled;
    if n == 0 {
      assert Draining(s, []);
    } else {
      NeverStuck(s);
      LoopKeeps(s, Pick(s));
      PickIsPrompt(s);
      LoopGoesOn(LoopStep(s, Pick(s)), n - 1);
      var es: seq<Event> :| |es| == n - 1 && Draining(LoopStep(s, Pick(s)), es);
      var fs := [Loop(Pick(s))] + es;
      assert fs[1..] == es;
      assert Draining(s, fs);
    }
  }

  function CountOf(es: seq<Event>): (n: nat) {
    if es == [] then 0 else (if es[0].Send? then 1 else 0) + CountOf(es[1..])
  }

  /** However their steps interleave with the loop's, the calls in progress take no more
      than SendsLeft steps between them, at most seven each. */
  lemma {:induction false} SendsEnd(s: State, es: seq<Event>)
    requires Draining(s, es)
    ensures Possible(s, es) && CountOf(es) + SendsLeft(After(s, es).senders) <= SendsLeft(s.senders)
    decreases |es|
  {
    hide SendsLeft, SenderStep, LoopStep, Prompt;
    if es != [] {
      SendsEnd(Next(s, es[0]), es[1..]);
      if es[0].Send? {
        SendGoesOn(s, es[0].tid, es[0].full);
        SenderMoves(s, es[0].tid, es[0].full);
      }
    }
  }

  lemma SenderMoves(s: State, tid: nat, full: bool)
    requires tid in s.senders
    ensures SenderStep(s, tid, full).senders == AfterSend(s, tid)
  {
  }

  // After the first m events of es, w is not owed an event.
  predicate ServedAt(s: State, es: seq<Event>, m: nat, w: Target) {
    m <= |es| && Possible(s, es[..m]) && w !in After(s, es[..m]).owed
  }

  lemma ServedNow(s: State, es: seq<Event>, w: Target)
    requires w !in s.owed
    ensures ServedAt(s, es, 0, w)
  {
    assert es[..0] == [];
  }

  lemma ServedLater(s: State, es: seq<Event>, m: nat, w: Target)
    requires es != [] && Enabled(s, es[0]) && ServedAt(Next(s, es[0]), es[1..], m, w)
    ensures ServedAt(s, es, m + 1, w)
  {
    hide Next, Enabled;
    assert es[..m + 1][0] == es[0] && es[..m + 1][1..] == es[1..][..m];
  }

  // The loop alone delivers within Rank steps.
  lemma {:induction false} LoopRunDelivers(s: State, es: seq<Event>, w: Target)
    requires Inv(s) && s.senders == map[] && Draining(s, es) && |es| > Rank(s, w)
    ensures exists m: nat :: ServedAt(s, es, m, w)
    decreases |es|
  {
    hide Inv, Rank, LoopStep, Prompt, ServedAt;
    if w !in s.owed {
      ServedNow(s, es, w);
    } else {
      var choice := es[0].choice;
      LoopKeeps(s, choice);
      var s' := LoopStep(s, choice);
      if w in s'.owed {
        RankFalls(s, w, choice);
        LoopRunDelivers(s', es[1..], w);
      } else {
        ServedNow(s', es[1..], w);
      }
      var m: nat :| ServedAt(s', es[1..], m, w);
      ServedLater(s, es, m, w);
    }
  }

  /** Delivery with sends in flight.  From any reachable state, let whatever happens in any
      interleaving end with all calls finished (SendsEnd), and the loop then go on for more
      than Rank steps: every target that is owed an event by then is fed on the way. */
  lemma SendsInFlightAreDelivered(s: State, es: seq<Event>, more: seq<Event>, w: Target)
    requires Inv(s) && Possible(s, es) && After(s, es).senders == map[]
    requires Draining(After(s, es), more) && |more| > Rank(After(s, es), w)
    ensures exists m: nat :: m <= |more| && Possible(s, es + more[..m]) && w !in After(s, es + more[..m]).owed
  {
    hide Inv, Rank, Draining;
    RunKeepsInv(s, es);
    LoopRunDelivers(After(s, es), more, w);
    var m: nat :| ServedAt(After(s, es), more, m, w);
    AfterBoth(s, es, more[..m]);
  }

  lemma {:induction false} AfterBoth(s: State, es: seq<Event>, fs: seq<Event>)
    requires Possible(s, es) && Possible(After(s, es), fs)
    ensures Possible(s, es + fs) && After(s, es + fs) == After(After(s, es), fs)
    decreases |es|
  {
    hide Next, Enabled;
    if es == [] {
      assert es + fs == fs;
    } else {
      AfterBoth(Next(s, es[0]), es[1..], fs);
      assert (es + fs)[1..] == es[1..] + fs;
    }
  }

  // ----- owed means sent and not fed

  /** A send that marks an active target makes the loop owe it an event, and only feeding it
      settles that, or that nobody watches it any more. */
  lemma OwedUntilFed(s: State, e: Event, w: Target)
    requires Enabled(s, e) && LoopOk(s) && !Leaving(e, w)
    ensures Marking(s, e, w) && Active(s, w) ==> w in Next(s, e).owed
    ensures w in s.owed && w !in Next(s, e).owed ==> e.Loop? && Feeding(s, w)
  {
    match e
    case Send(tid, full) =>
    case Loop(choice) =>
      hide SenderStep, PollStep, PipecbStep, ScanStep, LoopOk, Enabled;
      LoopOwes(s, choice);
    case _ =>
      hide SenderStep, LoopStep, SomeoneTesting;
  }

  // Nothing is struck off but what is fed.
  lemma LoopOwes(s: State, choice: bool)
    requires Enabled(s, Loop(choice)) && LoopOk(s)
    ensures forall w :: w in s.owed && w !in LoopStep(s, choice).owed ==> Feeding(s, w)
  {
    hide AfterLook, AfterScan, SomeoneTesting, AfterPoll, AfterPipecb;
  }

  // So over a run in which w goes on being watched.
  lemma {:induction false} SettledByFeeds(s: State, es: seq<Event>, w: Target)
    requires Inv(s) && Possible(s, es) && (forall e :: e in es ==> !Leaving(e, w))
    requires w in s.owed && w !in After(s, es).owed
    ensures Feeds(s, es, w) > 0
    decreases |es|
  {
    hide Inv, Next, Enabled, Feeding, Marking, Leaving, LoopOk;
    if es != [] {
      assert es[0] in es && forall e :: e in es[1..] ==> e in es;
      InvParts(s);
      OwedUntilFed(s, es[0], w);
      if w in Next(s, es[0]).owed {
        StepKeepsInv(s, es[0]);
        SettledByFeeds(Next(s, es[0]), es[1..], w);
      }
    }
  }

  lemma {:induction false} DrainingStays(s: State, es: seq<Event>, w: Target)
    requires Draining(s, es)
    ensures forall e :: e in es ==> !Leaving(e, w)
    decreases |es|
  {
    if es != [] {
      DrainingStays(Next(s, es[0]), es[1..], w);
      assert forall e :: e in es ==> e == es[0] || e in es[1..];
    }
  }

  /** Every send is delivered: what is owed once the calls in flight have finished is fed by
      the loop within Rank steps more. */
  lemma OwedIsFed(s: State, es: seq<Event>, w: Target)
    requires Inv(s) && s.senders == map[] && Draining(s, es) && |es| > Rank(s, w) && w in s.owed
    ensures exists m: nat :: m <= |es| && Possible(s, es[..m]) && Feeds(s, es[..m], w) > 0
  {
    hide Inv, Rank, Feeds, Draining, Leaving;
    LoopRunDelivers(s, es, w);
    var m: nat :| ServedAt(s, es, m, w);
    DrainingStays(s, es, w);
    assert forall e :: e in es[..m] ==> e in es;
    SettledByFeeds(s, es[..m], w);
  }

  // ----- signals whose watcher has gone

  // Signal n is marked, nobody watches it, and the loop is not about to serve it.
  predicate Orphaned(s: State, n: nat) {
    Signal(n) in s.marked && n !in s.attached && s.pc != Unmark(Sig, n)
  }

  lemma OrphanStays(s: State, e: Event, n: nat)
    requires Enabled(s, e) && Orphaned(s, n) && e != Attach(n)
    ensures Orphaned(Next(s, e), n)
  {
    match e
    case Send(tid, full) =>
      hide SenderStep;
    case Loop(choice) =>
      hide Orphaned, ScanStep, PipecbStep, PollStep, SenderStep;
      if InScan(s.pc) {
        ScanOrphan(s, n);
      } else if InPipecb(s.pc) {
        PipecbOrphan(s, n);
      } else {
        PollOrphan(s, choice, n);
      }
    case _ =>
      hide SenderStep, LoopStep;
  }

  lemma ScanOrphan(s: State, n: nat)
    requires InScan(s.pc) && Enabled(s, Loop(false)) && Orphaned(s, n)
    ensures Orphaned(ScanStep(s), n)
  {
  }

  lemma PipecbOrphan(s: State, n: nat)
    requires InPipecb(s.pc) && Orphaned(s, n)
    ensures Orphaned(PipecbStep(s), n)
  {
  }

  lemma PollOrphan(s: State, choice: bool, n: nat)
    requires !InScan(s.pc) && !InPipecb(s.pc) && Orphaned(s, n)
    ensures Orphaned(PollStep(s, choice), n)
  {
  }

  /** A signal noted when nobody watches it stays marked, however often the loop scans
      in the meantime, until someone watches it again. */
  lemma {:induction false} MarkOutlivesWatcher(s: State, es: seq<Event>, n: nat)
    requires Possible(s, es) && Orphaned(s, n) && Attach(n) !in es
    ensures Orphaned(After(s, es), n)
    decreases |es|
  {
    hide Orphaned, Next, Enabled;
    if es != [] {
      OrphanStays(s, es[0], n);
      MarkOutlivesWatcher(Next(s, es[0]), es[1..], n);
    }
  }

  // The scan for signals has yet to come to n, which is marked and watched.
  predicate Coming(s: State, n: nat) {
    && n in s.attached
    && (s.pc == Unmark(Sig, n) || (Signal(n) in s.marked && ToBeScanned(s.pc, s.asyncs, Signal(n))))
  }

  lemma ScanComesCloser(s: State, n: nat)
    requires LoopOk(s) && Coming(s, n)
    ensures var s' := LoopStep(s, Pick(s));
            n in s'.attached && (s'.pc == Feed(Sig, n) || (Coming(s', n) && Left(s') < Left(s)))
  {
    hide SomeoneTesting;
  }

  /** The next scan then delivers it to whoever watches it by then. */
  lemma {:induction false} LaterWatcherIsCalled(s: State, n: nat)
    requires Inv(s) && Coming(s, n)
    ensures exists m: nat :: Alone(s, m).pc == Feed(Sig, n) && n in Alone(s, m).attached
    decreases Left(s)
  {
    hide Inv, Left, LoopStep, Pick, Enabled, Coming;
    NeverStuck(s);
    LoopKeeps(s, Pick(s));
    var s' := LoopStep(s, Pick(s));
    ComingLoop(s, n);
    ScanComesCloser(s, n);
    if s'.pc == Feed(Sig, n) {
      assert Alone(s', 0) == s';
      assert Alone(s, 1) == s';
    } else {
      LaterWatcherIsCalled(s', n);
      var m: nat :| Alone(s', m).pc == Feed(Sig, n) && n in Alone(s', m).attached;
      assert Alone(s, m + 1) == Alone(s', m);
    }
  }

  lemma ComingLoop(s: State, n: nat)
    requires Inv(s)
    ensures LoopOk(s)
  {
  }
}
