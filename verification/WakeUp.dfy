/**
The cross-thread wake-up protocol of libev as a state machine.

Any number of sender threads run `ev_async_send` or `ev_feed_signal`, which end
in `evpipe_write`; one loop thread runs the blocking section of `ev_run` and the
pipe callback `pipecb`.  Every step is one access to a shared variable, under
sequential consistency (the memory fences of the source stand for that).
*/
module WakeUp {

  /** The two flags `sig_pending` and `async_pending`, each guarding an array of slots. */
  datatype Channel = Sig | Async

  /** One entry of `signals` (its `pending` field) or of `asyncs` (its `sent` field). */
  datatype Slot = Slot(c: Channel, i: nat)

  /** Where a sender thread stands: the name says which access comes next. */
  datatype SenderPc =
    | Idle
    | TestFlag(x: Slot)
    | SetFlag(x: Slot)
    | SetSkipped(c: Channel)
    | TestWanted
    | ClearSkipped
    | WritePipe

  /** Where the loop thread stands. */
  datatype LoopPc =
    | Outside
    | AboutToCheck
    | Polling(blocking: bool)
    | ClearWanted
    | CheckSkipped
    | PipeStart(readable: bool)
    | PipeClearSkipped
    | PipeTest(c: Channel)
    | PipeClearFlag(c: Channel)
    | Scan(c: Channel, i: nat)
    | ClearSent(c: Channel, i: nat)
    | Feed(c: Channel, i: nat)

  /** `owed` and `due` are history: `owed` holds the slots that were sent and not fed since,
      `due` those of them that waited behind their flag when the running `pipecb` began. */
  datatype State = State(
    senders: seq<SenderPc>,
    loop: LoopPc,
    flags: set<Channel>,
    sent: set<Slot>,
    wanted: bool,
    skipped: bool,
    pipe: nat,
    readPending: bool,
    customPending: bool,
    eventfd: bool,
    nsigs: nat,
    nasyncs: nat,
    owed: set<Slot>,
    due: set<Slot>)

  /** The number of slots guarded by the flag of `c`. */
  function Count(s: State, c: Channel): nat {
    if c.Sig? then s.nsigs else s.nasyncs
  }

  predicate Init(s: State) {
    && (forall t :: 0 <= t < |s.senders| ==> s.senders[t].Idle?)
    && s.loop == Outside
    && s.flags == {} && s.sent == {} && s.owed == {} && s.due == {}
    && !s.wanted && !s.skipped && s.pipe == 0
    && !s.readPending && !s.customPending
  }

  predicate InRange(s: State, x: Slot) {
    x.i < Count(s, x.c)
  }

  /** One access by sender `t`, which moves from `pc` to `pc'`.  A write to a full pipe fails
      but leaves it non-empty. */
  predicate SenderAccess(s: State, s': State, pc: SenderPc, pc': SenderPc) {
    match pc
    case Idle =>
      && pc'.TestFlag? && InRange(s, pc'.x)
      && s'.sent == s.sent + {pc'.x} && s'.owed == s.owed + {pc'.x}
      && s'.flags == s.flags && s'.skipped == s.skipped && s'.pipe == s.pipe
    case TestFlag(x) =>
      && pc' == (if x.c in s.flags then Idle else SetFlag(x))
      && s'.sent == s.sent && s'.owed == s.owed
      && s'.flags == s.flags && s'.skipped == s.skipped && s'.pipe == s.pipe
    case SetFlag(x) =>
      && pc' == SetSkipped(x.c)
      && s'.flags == s.flags + {x.c}
      && s'.sent == s.sent && s'.owed == s.owed && s'.skipped == s.skipped && s'.pipe == s.pipe
    case SetSkipped(c) =>
      && pc' == TestWanted
      && s'.skipped
      && s'.sent == s.sent && s'.owed == s.owed && s'.flags == s.flags && s'.pipe == s.pipe
    case TestWanted =>
      && pc' == (if s.wanted then ClearSkipped else Idle)
      && s'.sent == s.sent && s'.owed == s.owed
      && s'.flags == s.flags && s'.skipped == s.skipped && s'.pipe == s.pipe
    case ClearSkipped =>
      && pc' == WritePipe
      && !s'.skipped
      && s'.sent == s.sent && s'.owed == s.owed && s'.flags == s.flags && s'.pipe == s.pipe
    case WritePipe =>
      && pc' == Idle
      && (s'.pipe == s.pipe + 1 || (s.pipe > 0 && s'.pipe == s.pipe))
      && s'.sent == s.sent && s'.owed == s.owed && s'.flags == s.flags && s'.skipped == s.skipped
  }

  predicate SenderNext(s: State, s': State, t: nat) {
    && t < |s.senders| == |s'.senders|
    && (forall u :: 0 <= u < |s.senders| && u != t ==> s'.senders[u] == s.senders[u])
    && s'.loop == s.loop && s'.wanted == s.wanted
    && s'.readPending == s.readPending && s'.customPending == s.customPending
    && s'.eventfd == s.eventfd && s'.nsigs == s.nsigs && s'.nasyncs == s.nasyncs && s'.due == s.due
    && SenderAccess(s, s', s.senders[t], s'.senders[t])
  }

  /** After the slots of `c` were handled, `pipecb` goes on with the other channel or returns. */
  function After(c: Channel): LoopPc {
    match c
    case Sig => PipeTest(Async)
    case Async => Outside
  }

  /** The slots that wait behind their flag. */
  function Ready(s: State): set<Slot> {
    set x | x in s.owed && x in s.sent && x.c in s.flags
  }

  /** Reading an eventfd takes the whole counter, reading the pipe takes one byte. */
  function ReadPipe(s: State): nat {
    if s.eventfd || s.pipe == 0 then 0 else s.pipe - 1
  }

  /** The loop's accesses leave the senders alone. */
  predicate LoopFrame(s: State, s': State) {
    && s'.senders == s.senders
    && s'.eventfd == s.eventfd && s'.nsigs == s.nsigs && s'.nasyncs == s.nasyncs
  }

  /** One access by the loop thread around the poll.  A poll may end for reasons other than
      the pipe, and it reports the pipe exactly when the pipe holds something. */
  predicate PollNext(s: State, s': State) {
    && LoopFrame(s, s')
    && s'.flags == s.flags && s'.sent == s.sent && s'.owed == s.owed
    && s'.skipped == s.skipped && s'.pipe == s.pipe
    && match s.loop {
         case Outside =>
           || (s'.loop == AboutToCheck && s'.wanted && s'.due == s.due
               && s'.readPending == s.readPending && s'.customPending == s.customPending)
           || ((s.readPending || s.customPending) && s'.loop == PipeStart(s.readPending)
               && !s'.readPending && !s'.customPending
               && s'.wanted == s.wanted && s'.due == Ready(s))
         case AboutToCheck =>
           && (s'.loop == Polling(false) || (!s.skipped && s'.loop == Polling(true)))
           && s'.wanted == s.wanted && s'.due == s.due
           && s'.readPending == s.readPending && s'.customPending == s.customPending
         case Polling(_) =>
           && s'.loop == ClearWanted
           && s'.readPending == (s.readPending || s.pipe > 0)
           && s'.wanted == s.wanted && s'.due == s.due && s'.customPending == s.customPending
         case ClearWanted =>
           && s'.loop == CheckSkipped && !s'.wanted
           && s'.due == s.due && s'.readPending == s.readPending && s'.customPending == s.customPending
         case CheckSkipped =>
           && s'.loop == Outside
           && s'.customPending == (s.customPending || s.skipped)
           && s'.wanted == s.wanted && s'.due == s.due && s'.readPending == s.readPending
         case _ =>
           false
       }
  }

  /** Where `pipecb` goes from a position that only tests something. */
  function PipeGoto(s: State): LoopPc {
    match s.loop
    case PipeTest(c) => if c in s.flags then PipeClearFlag(c) else After(c)
    case Scan(c, i) =>
      if i == 0 then After(c)
      else if Slot(c, i - 1) in s.sent then ClearSent(c, i - 1)
      else Scan(c, i - 1)
    case _ => s.loop
  }

  /** One access by the loop thread inside `pipecb`. */
  predicate PipeNext(s: State, s': State) {
    && LoopFrame(s, s')
    && s'.wanted == s.wanted && s'.readPending == s.readPending && s'.customPending == s.customPending
    && (s'.pipe == if s.loop == PipeStart(true) then ReadPipe(s) else s.pipe)
    && (s'.skipped == (s.skipped && s.loop != PipeClearSkipped))
    && (s'.flags == if s.loop.PipeClearFlag? then s.flags - {s.loop.c} else s.flags)
    && (s'.sent == if s.loop.ClearSent? then s.sent - {Slot(s.loop.c, s.loop.i)} else s.sent)
    && (s'.owed == if s.loop.Feed? then s.owed - {Slot(s.loop.c, s.loop.i)} else s.owed)
    && (s'.due == if s.loop.Feed? then s.due - {Slot(s.loop.c, s.loop.i)} else s.due)
    && match s.loop {
         case PipeStart(_) => s'.loop == PipeClearSkipped
         case PipeClearSkipped => s'.loop == PipeTest(Sig)
         case PipeClearFlag(c) => s'.loop == Scan(c, Count(s, c))
         case ClearSent(c, i) => s'.loop == Feed(c, i)
         case Feed(c, i) => s'.loop == Scan(c, i)
         case PipeTest(_) => s'.loop == PipeGoto(s)
         case Scan(_, _) => s'.loop == PipeGoto(s)
         case _ => false
       }
  }

  ghost predicate Next(s: State, s': State) {
    PollNext(s, s') || PipeNext(s, s') || exists t :: SenderNext(s, s', t)
  }

  ghost predicate StepAt(run: seq<State>, k: nat)
    requires k + 1 < |run|
  {
    Next(run[k], run[k + 1])
  }

  /** A run: any interleaving of the loop with any number of senders. */
  ghost predicate IsRun(run: seq<State>) {
    && |run| > 0
    && Init(run[0])
    && forall k: nat :: k + 1 < |run| ==> StepAt(run, k)
  }

  // ---------------------------------------------------------------- invariants

  /** `evpipe_write` has set its flag and has not finished. */
  predicate Busy(pc: SenderPc) {
    pc.SetSkipped? || pc.TestWanted? || pc.ClearSkipped? || pc.WritePipe?
  }

  /** The loop is inside `pipecb` and has yet to test the flag of `c`. */
  predicate WillTest(loop: LoopPc, c: Channel) {
    match loop
    case PipeClearSkipped => true
    case PipeTest(d) => c == d || c == Async
    case PipeClearFlag(d) => c == Async && d == Sig
    case Scan(d, _) => c == Async && d == Sig
    case ClearSent(d, _) => c == Async && d == Sig
    case Feed(d, _) => c == Async && d == Sig
    case _ => false
  }

  /** The scan in progress will still look at slot `x`. */
  predicate WillScan(loop: LoopPc, x: Slot) {
    match loop
    case Scan(c, i) => x.c == c && x.i < i
    case ClearSent(c, i) => x.c == c && x.i <= i
    case Feed(c, i) => x.c == c && x.i < i
    case _ => false
  }

  predicate SentInRange(s: State) {
    forall x :: x in s.sent ==> InRange(s, x)
  }

  /** The sender is about to set the skip mark for flag `c`, or about to write the pipe. */
  predicate Announces(pc: SenderPc, c: Channel) {
    pc == SetSkipped(c) || pc.ClearSkipped? || pc.WritePipe?
  }

  /** The sender read or will read `pipe_write_wanted` after it set the skip mark. */
  predicate Marked(pc: SenderPc) {
    pc.TestWanted? || pc.ClearSkipped?
  }

  /** The sender has stored into slot `x` and has not dealt with the flag yet. */
  predicate Storing(pc: SenderPc, x: Slot) {
    pc == TestFlag(x) || pc == SetFlag(x)
  }

  /** Somebody is bound to look at flag `c` again. */
  ghost predicate Covered(s: State, c: Channel) {
    || s.skipped
    || s.pipe > 0
    || WillTest(s.loop, c)
    || s.loop == PipeClearFlag(c)
    || exists t :: 0 <= t < |s.senders| && Announces(s.senders[t], c)
  }

  ghost predicate FlagsCovered(s: State) {
    forall c :: c in s.flags ==> Covered(s, c)
  }

  /** While the loop may block, a skip mark is being turned into a write by its sender. */
  ghost predicate BlockedSound(s: State) {
    && (s.loop.AboutToCheck? || s.loop.Polling? || s.loop.ClearWanted? ==> s.wanted)
    && (s.loop == Polling(true) && s.skipped ==> exists t :: 0 <= t < |s.senders| && Marked(s.senders[t]))
  }

  /** Slot `x` will be found by a scan. */
  ghost predicate Noticed(s: State, x: Slot) {
    || x.c in s.flags
    || WillScan(s.loop, x)
    || exists t :: 0 <= t < |s.senders| && Storing(s.senders[t], x)
  }

  ghost predicate SentFlagged(s: State) {
    forall x :: x in s.sent ==> Noticed(s, x)
  }

  predicate OwedSent(s: State) {
    forall x :: x in s.owed ==> x in s.sent || s.loop == Feed(x.c, x.i)
  }

  /** `pipecb` will still come to slot `x`, which was ready when it began. */
  predicate Served(s: State, x: Slot) {
    || (x in s.sent && x.c in s.flags && (s.loop.PipeStart? || WillTest(s.loop, x.c) || s.loop == PipeClearFlag(x.c)))
    || (x in s.sent && WillScan(s.loop, x))
    || s.loop == Feed(x.c, x.i)
  }

  predicate DueServed(s: State) {
    && s.due <= s.owed
    && forall x :: x in s.due ==> Served(s, x)
  }

  ghost predicate Inv(s: State) {
    && SentInRange(s)
    && FlagsCovered(s)
    && BlockedSound(s)
    && SentFlagged(s)
    && OwedSent(s)
    && DueServed(s)
  }

  lemma InitInv(s: State)
    requires Init(s)
    ensures Inv(s)
  {
  }

  /** Every access of the loop in its blocking section keeps the invariant. */
  lemma PollKeepsInv(s: State, s': State)
    requires Inv(s) && PollNext(s, s')
    ensures Inv(s')
  {
  }

  lemma PipeKeepsServed(s: State, s': State, x: Slot)
    requires SentInRange(s) && Served(s, x) && PipeNext(s, s') && s.loop != Feed(x.c, x.i)
    ensures Served(s', x)
  {
  }

  lemma PipeKeepsDueServed(s: State, s': State)
    requires SentInRange(s) && DueServed(s) && PipeNext(s, s')
    ensures DueServed(s')
  {
    forall x | x in s'.due
      ensures Served(s', x)
    {
      PipeKeepsServed(s, s', x);
    }
  }

  lemma PipeKeepsFlags(s: State, s': State)
    requires SentInRange(s) && FlagsCovered(s) && SentFlagged(s) && PipeNext(s, s')
    ensures FlagsCovered(s') && SentFlagged(s')
  {
  }

  /** So does every access in `pipecb`. */
  lemma PipeKeepsInv(s: State, s': State)
    requires Inv(s) && PipeNext(s, s')
    ensures Inv(s')
  {
    PipeKeepsFlags(s, s');
    PipeKeepsDueServed(s, s');
  }

  /** So does every access of a sender. */
  lemma SenderKeepsInv(s: State, s': State, t: nat)
    requires Inv(s) && SenderNext(s, s', t)
    ensures Inv(s')
  {
  }

  lemma NextKeepsInv(s: State, s': State)
    requires Inv(s) && Next(s, s')
    ensures Inv(s')
  {
    if PollNext(s, s') {
      PollKeepsInv(s, s');
    } else if PipeNext(s, s') {
      PipeKeepsInv(s, s');
    } else {
      var t :| SenderNext(s, s', t);
      SenderKeepsInv(s, s', t);
    }
  }

  /** The invariant holds in every state of every run. */
  lemma {:induction false} RunKeepsInv(run: seq<State>, k: nat)
    requires IsRun(run) && k < |run|
    ensures Inv(run[k])
  {
    if k == 0 {
      InitInv(run[0]);
    } else {
      RunKeepsInv(run, k - 1);
      assert StepAt(run, k - 1);
      NextKeepsInv(run[k - 1], run[k]);
    }
  }

  // ---------------------------------------------------------------- main results

  /** No lost wake-up: whenever the loop is blocked in the poll with an empty pipe while a flag
      is set, some sender is still between setting its flag and finishing `evpipe_write`. */
  lemma NoLostWakeUp(run: seq<State>, k: nat)
    requires IsRun(run) && k < |run|
    requires run[k].loop == Polling(true) && run[k].pipe == 0 && run[k].flags != {}
    ensures exists t :: 0 <= t < |run[k].senders| && Busy(run[k].senders[t])
  {
    RunKeepsInv(run, k);
    var s := run[k];
    var c :| c in s.flags;
    assert Covered(s, c);
    if s.skipped {
      var t :| 0 <= t < |s.senders| && Marked(s.senders[t]);
      assert Busy(s.senders[t]);
    } else {
      var t :| 0 <= t < |s.senders| && Announces(s.senders[t], c);
      assert Busy(s.senders[t]);
    }
  }

  /** Once every send has returned, a loop blocked on an empty pipe has nothing left to do:
      no flag is set and every send so far has been followed by a feed. */
  lemma BlockedLoopOwesNothing(run: seq<State>, k: nat)
    requires IsRun(run) && k < |run|
    requires run[k].loop == Polling(true) && run[k].pipe == 0
    requires forall t :: 0 <= t < |run[k].senders| ==> run[k].senders[t].Idle?
    ensures run[k].flags == {} && run[k].owed == {}
  {
    RunKeepsInv(run, k);
    if run[k].flags != {} {
      NoLostWakeUp(run, k);
    }
    assert forall x :: x in run[k].owed ==> Noticed(run[k], x);
  }

  /** The number of its own accesses a busy sender needs until the pipe is written. */
  function Distance(pc: SenderPc): nat
    requires Busy(pc)
  {
    match pc
    case SetSkipped(_) => 4
    case TestWanted => 3
    case ClearSkipped => 2
    case WritePipe => 1
  }

  /** `run` consists of sender accesses only; `who[k]` made the step after `run[k]`. */
  predicate SenderRun(run: seq<State>, who: seq<nat>) {
    && |run| == |who| + 1
    && forall k :: 0 <= k < |who| ==> SenderNext(run[k], run[k + 1], who[k])
  }

  lemma {:induction false} PipeOnlyFills(run: seq<State>, who: seq<nat>)
    requires SenderRun(run, who)
    ensures run[0].pipe <= run[|who|].pipe
  {
    if who != [] {
      assert SenderNext(run[0], run[1], who[0]);
      PipeOnlyFills(run[1..], who[1..]);
    }
  }

  /** A blocked loop is woken by any busy sender: however the senders interleave, once that
      sender has made its (at most four) accesses the pipe is non-empty. */
  lemma {:induction false} BusySenderWakesLoop(run: seq<State>, who: seq<nat>, t: nat)
    requires SenderRun(run, who)
    requires t < |run[0].senders| && Busy(run[0].senders[t])
    requires run[0].wanted
    requires multiset(who)[t] >= Distance(run[0].senders[t])
    ensures run[|who|].pipe > 0
  {
    assert who != [];
    assert who == [who[0]] + who[1..];
    var s, s' := run[0], run[1];
    assert SenderNext(s, s', who[0]);
    if who[0] == t && s.senders[t].WritePipe? {
      PipeOnlyFills(run[1..], who[1..]);
    } else {
      BusySenderWakesLoop(run[1..], who[1..], t);
    }
  }

  /** The pipe watcher waits for its callback. */
  predicate Pends(s: State) {
    s.readPending || s.customPending
  }

  /** The step after `run[k]` begins a `pipecb`. */
  predicate BeginsAt(run: seq<State>, k: nat) {
    k + 1 < |run| && run[k].loop == Outside && run[k + 1].loop.PipeStart?
  }

  predicate NoneBegins(run: seq<State>, a: nat, b: nat) {
    forall k: nat :: a <= k < b ==> !BeginsAt(run, k)
  }

  /** A skipped write is made good: when the loop has looked at the skip mark with a flag set, the pipe empty
      and no sender under way, the pipe watcher is pending. */
  lemma SkippedWritePends(run: seq<State>, k: nat)
    requires IsRun(run) && k + 1 < |run| && run[k].loop == CheckSkipped && run[k + 1].loop == Outside
    requires run[k].flags != {} && run[k].pipe == 0
    requires forall t :: 0 <= t < |run[k].senders| ==> !Busy(run[k].senders[t])
    ensures Pends(run[k + 1])
  {
    RunKeepsInv(run, k);
    assert StepAt(run, k);
    var c :| c in run[k].flags;
    assert Covered(run[k], c);
  }

  /** What is in the pipe, or pending, stays so until a `pipecb` begins. */
  lemma {:induction false} StaysUntilPipecb(run: seq<State>, a: nat, b: nat)
    requires IsRun(run) && a <= b < |run| && NoneBegins(run, a, b)
    ensures Pends(run[a]) ==> Pends(run[b])
    ensures run[a].pipe > 0 && !InPipecb(run[a].loop) ==> run[b].pipe > 0
    ensures !InPipecb(run[a].loop) ==> !InPipecb(run[b].loop)
    decreases b
  {
    if a < b {
      StaysUntilPipecb(run, a, b - 1);
      assert StepAt(run, b - 1) && !BeginsAt(run, b - 1);
    }
  }

  predicate InPipecb(loop: LoopPc) {
    !(loop.Outside? || loop.AboutToCheck? || loop.Polling? || loop.ClearWanted? || loop.CheckSkipped?)
  }

  /** How many accesses `pipecb` has yet to make at most. */
  function Rank(s: State): nat {
    var test := 3 * s.nasyncs + 3;
    match s.loop
    case PipeStart(_) => test + 3 * s.nsigs + 5
    case PipeClearSkipped => test + 3 * s.nsigs + 4
    case PipeTest(c) => (if c.Sig? then test else 0) + 3 * Count(s, c) + 3
    case PipeClearFlag(c) => (if c.Sig? then test else 0) + 3 * Count(s, c) + 2
    case Scan(c, i) => (if c.Sig? then test else 0) + 3 * i + 1
    case ClearSent(c, i) => (if c.Sig? then test else 0) + 3 * i + 3
    case Feed(c, i) => (if c.Sig? then test else 0) + 3 * i + 2
    case _ => 0
  }

  /** The state after the next access in `pipecb`. */
  function PipeStep(s: State): State {
    var loop :=
      match s.loop
      case PipeStart(_) => PipeClearSkipped
      case PipeClearSkipped => PipeTest(Sig)
      case PipeClearFlag(c) => Scan(c, Count(s, c))
      case ClearSent(c, i) => Feed(c, i)
      case Feed(c, i) => Scan(c, i)
      case _ => PipeGoto(s);
    var s1 := s.(loop := loop);
    match s.loop
    case PipeStart(readable) => s1.(pipe := if readable then ReadPipe(s) else s.pipe)
    case PipeClearSkipped => s1.(skipped := false)
    case PipeClearFlag(c) => s1.(flags := s.flags - {c})
    case ClearSent(c, i) => s1.(sent := s.sent - {Slot(c, i)})
    case Feed(c, i) => s1.(owed := s.owed - {Slot(c, i)}, due := s.due - {Slot(c, i)})
    case _ => s1
  }

  /** A pending `pipecb` can begin. */
  lemma PipecbBegins(s: State)
    requires s.loop == Outside && Pends(s)
    ensures PollNext(s, Begun(s))
  {
  }

  /** One that has begun can always go on. */
  lemma PipecbGoesOn(s: State)
    requires InPipecb(s.loop)
    ensures PipeNext(s, PipeStep(s))
  {
  }

  lemma RankFalls(s: State, s': State)
    requires PipeNext(s, s')
    ensures Rank(s') < Rank(s)
  {
  }

  lemma RankInRun(s: State, s': State)
    requires Next(s, s') && InPipecb(s.loop)
    ensures if s'.loop == s.loop then Rank(s') == Rank(s) else Rank(s') < Rank(s)
  {
    if PipeNext(s, s') {
      RankFalls(s, s');
    }
  }

  /** How often the loop moves on between `run[a]` and `run[b]`. */
  ghost function Moves(run: seq<State>, a: nat, b: nat): nat
    requires a <= b < |run|
  {
    if a == b then 0 else Moves(run, a, b - 1) + if run[b].loop == run[b - 1].loop then 0 else 1
  }

  /** A `pipecb` ends within a bounded number of its own accesses, whatever the senders do. */
  lemma {:induction false} PipecbEnds(run: seq<State>, a: nat, b: nat)
    requires IsRun(run) && a <= b < |run| && forall k :: a <= k < b ==> InPipecb(run[k].loop)
    ensures Moves(run, a, b) + Rank(run[b]) <= Rank(run[a]) <= 3 * (run[a].nsigs + run[a].nasyncs) + 8
    ensures InPipecb(run[b].loop) ==> Rank(run[b]) > 0
    decreases b
  {
    if a < b {
      PipecbEnds(run, a, b - 1);
      assert StepAt(run, b - 1);
      RankInRun(run[b - 1], run[b]);
    } else {
      ScanInRange(run, a);
    }
  }

  predicate PcInRange(s: State) {
    match s.loop
    case Scan(c, i) => i <= Count(s, c)
    case ClearSent(c, i) => i < Count(s, c)
    case Feed(c, i) => i < Count(s, c)
    case _ => true
  }

  lemma {:induction false} ScanInRange(run: seq<State>, k: nat)
    requires IsRun(run) && k < |run|
    ensures PcInRange(run[k])
  {
    if k > 0 {
      ScanInRange(run, k - 1);
      assert StepAt(run, k - 1);
    }
  }

  /** The state in which a pending `pipecb` has begun. */
  function Begun(s: State): State {
    s.(loop := PipeStart(s.readPending), readPending := false, customPending := false, due := Ready(s))
  }

  predicate Quiet(s: State) {
    forall t :: 0 <= t < |s.senders| ==> s.senders[t].Idle?
  }

  /** What `pipecb` has done so far: the skip mark is cleared, and so are the flags that it has come past. */
  predicate Tidied(s: State) {
    s.loop.PipeStart? || s.loop.PipeClearSkipped?
    || (!s.skipped && forall c :: WillTest(s.loop, c) || s.loop == PipeClearFlag(c) || c !in s.flags)
  }

  lemma TidiedMore(s: State, s': State)
    requires Next(s, s') && Tidied(s) && InPipecb(s.loop) && Quiet(s) && Quiet(s')
    ensures Tidied(s')
  {
  }

  lemma {:induction false} StaysTidied(run: seq<State>, a: nat, b: nat)
    requires IsRun(run) && a <= b < |run| && run[a].loop.PipeStart?
    requires forall k: nat :: a <= k <= b ==> Quiet(run[k])
    requires forall k: nat :: a <= k < b ==> InPipecb(run[k].loop)
    ensures Tidied(run[b]) && run[b].eventfd == run[a].eventfd
    ensures if a == b then true else !run[b].loop.PipeStart? && run[b].pipe == PipeStep(run[a]).pipe
    decreases b
  {
    if a < b {
      StaysTidied(run, a, b - 1);
      assert StepAt(run, b - 1) && Quiet(run[b - 1]) && Quiet(run[b]);
      TidiedMore(run[b - 1], run[b]);
    }
  }

  /** A `pipecb` that no send interferes with leaves nothing behind: no flag, no slot, no skip mark, so that the
      loop may block in its next poll; an eventfd is empty, a pipe has a byte less. */
  lemma PipecbSettles(run: seq<State>, a: nat, b: nat)
    requires IsRun(run) && a < b < |run| && run[a].loop.PipeStart? && run[b].loop == Outside
    requires forall k: nat :: a <= k <= b ==> Quiet(run[k])
    requires forall k: nat :: a <= k < b ==> InPipecb(run[k].loop)
    ensures var s := run[b]; s.flags == {} && s.sent == {} && s.owed == {} && !s.skipped
    ensures run[a].loop.readable && run[a].pipe > 0 ==>
              run[b].pipe < run[a].pipe && (run[a].eventfd ==> run[b].pipe == 0)
    ensures var s := run[b].(loop := AboutToCheck, wanted := true);
            PollNext(run[b], s) && PollNext(s, s.(loop := Polling(true)))
  {
    StaysTidied(run, a, b);
    RunKeepsInv(run, b);
    var s := run[b];
    assert Quiet(s);
    forall c
      ensures c !in s.flags
    {
      assert !WillTest(s.loop, c);
    }
    assert forall x :: x in s.sent ==> Noticed(s, x);
  }

  /** No flag is forgotten: when the loop comes past the skip mark with a flag set and no sender under way, then
      by the end of the next poll a `pipecb` has begun or is pending, whatever the senders do meanwhile. */
  lemma FlagReachesPipecb(run: seq<State>, k: nat, p: nat)
    requires IsRun(run) && k < p && p + 1 < |run|
    requires run[k].loop == CheckSkipped && run[k + 1].loop == Outside && run[k].flags != {}
    requires forall t :: 0 <= t < |run[k].senders| ==> !Busy(run[k].senders[t])
    requires run[p].loop.Polling? && run[p + 1].loop == ClearWanted
    ensures Pends(run[p + 1]) || exists i: nat :: k < i < p && BeginsAt(run, i)
  {
    assert StepAt(run, k) && StepAt(run, p);
    if run[k].pipe == 0 {
      SkippedWritePends(run, k);
    }
    if NoneBegins(run, k + 1, p) {
      StaysUntilPipecb(run, k + 1, p);
    }
  }

  /** At one step of the loop: slot `x` leaves `due` only by being fed. */
  lemma DueLeavesByFeed(s: State, s': State, x: Slot)
    requires Inv(s) && Next(s, s') && x in s.due && x !in s'.due
    ensures s.loop == Feed(x.c, x.i) && s'.loop == Scan(x.c, x.i)
  {
  }

  lemma {:induction false} FindFeed(run: seq<State>, a: nat, b: nat, x: Slot) returns (k: nat)
    requires IsRun(run) && a <= b < |run|
    requires x in run[a].due && x !in run[b].due
    ensures a <= k < b && FeedsAt(run, k, x)
    decreases b
  {
    if x in run[b - 1].due {
      RunKeepsInv(run, b - 1);
      assert StepAt(run, b - 1);
      DueLeavesByFeed(run[b - 1], run[b], x);
      k := b - 1;
    } else {
      k := FindFeed(run, a, b - 1, x);
    }
  }

  /** Every slot that is ready when a `pipecb` begins is fed before it returns. */
  lemma PipecbFeedsReady(run: seq<State>, a: nat, b: nat, x: Slot) returns (k: nat)
    requires IsRun(run) && a + 1 < b < |run|
    requires run[a].loop.Outside? && run[a + 1].loop.PipeStart? && run[b].loop.Outside?
    requires x in Ready(run[a])
    ensures a < k < b && FeedsAt(run, k, x)
  {
    assert StepAt(run, a);
    assert x in run[a + 1].due;
    RunKeepsInv(run, b);
    assert !Served(run[b], x);
    k := FindFeed(run, a + 1, b, x);
  }

  /** The step after `run[k]` feeds slot `x`. */
  predicate FeedsAt(run: seq<State>, k: nat, x: Slot) {
    k + 1 < |run| && run[k].loop == Feed(x.c, x.i) && run[k + 1].loop == Scan(x.c, x.i)
  }

  /** The step after `run[j]` is the store with which sender `t` begins a send of slot `x`. */
  predicate StoresAt(run: seq<State>, j: nat, t: nat, x: Slot) {
    && j + 1 < |run| && t < |run[j].senders| && t < |run[j + 1].senders|
    && run[j].senders[t] == Idle && run[j + 1].senders[t] == TestFlag(x)
  }

  /** Slot `x` has not been fed since it was sent, and the loop is bound to find it. */
  predicate HandedOver(s: State, x: Slot) {
    && x in s.owed
    && ((x in s.sent && (x.c in s.flags || WillScan(s.loop, x))) || s.loop == Feed(x.c, x.i))
  }

  /** What is handed over stays so until it is fed, whatever the senders do. */
  lemma StaysHandedOver(s: State, s': State, x: Slot)
    requires Inv(s) && Next(s, s') && HandedOver(s, x)
    ensures HandedOver(s', x) || (s.loop == Feed(x.c, x.i) && s'.loop == Scan(x.c, x.i))
  {
  }

  /** A sender that is done with the flag has handed its slot over, or the slot has been fed since. */
  lemma LeavesHandedOver(s: State, s': State, t: nat, x: Slot)
    requires Inv(s) && Next(s, s') && x in s.owed && t < |s.senders| == |s'.senders| && Storing(s.senders[t], x)
    ensures || (x in s'.owed && (Storing(s'.senders[t], x) || HandedOver(s', x)))
            || (s.loop == Feed(x.c, x.i) && s'.loop == Scan(x.c, x.i))
  {
  }

  /** A send, from its store to the first feed: it is being stored, or handed over. */
  lemma {:induction false} SendUntilFed(run: seq<State>, j: nat, t: nat, x: Slot, i: nat)
    requires IsRun(run) && StoresAt(run, j, t, x) && j < i < |run| && forall k :: j < k < i ==> !FeedsAt(run, k, x)
    ensures |run[i].senders| == |run[j].senders| && x in run[i].owed
    ensures HandedOver(run[i], x) || forall m :: j < m <= i ==> t < |run[m].senders| && Storing(run[m].senders[t], x)
    decreases i
  {
    assert StepAt(run, i - 1);
    RunKeepsInv(run, i - 1);
    if i > j + 1 {
      SendUntilFed(run, j, t, x, i - 1);
      assert !FeedsAt(run, i - 1, x);
      if HandedOver(run[i - 1], x) {
        StaysHandedOver(run[i - 1], run[i], x);
      } else {
        LeavesHandedOver(run[i - 1], run[i], t, x);
      }
    }
  }

  /** Every completed send is followed by a feed: a send of slot `x` that sender `t` began after `run[j]`
      and that was past the flag by `run[m]` is fed after `run[j]` and before the end of the next `pipecb`,
      whatever other senders of the same slot are doing. */
  lemma PipecbFeedsCompletedSends(run: seq<State>, j: nat, t: nat, x: Slot, m: nat, a: nat, b: nat)
    requires IsRun(run) && StoresAt(run, j, t, x) && j < m <= a && a + 1 < b < |run|
    requires t < |run[m].senders| && !Storing(run[m].senders[t], x)
    requires run[a].loop.Outside? && run[a + 1].loop.PipeStart? && run[b].loop.Outside?
    ensures exists k :: j < k < b && FeedsAt(run, k, x)
  {
    if forall k :: j < k < a ==> !FeedsAt(run, k, x) {
      SendUntilFed(run, j, t, x, a);
      assert HandedOver(run[a], x);
      var k := PipecbFeedsReady(run, a, b, x);
    }
  }

  /** Every completed send reaches a `pipecb`: a send of slot `x` that sender `t` began after `run[j]` and that was
      past the flag by `run[k]`, where the loop comes past the skip mark and no sender is under way, has by the end
      of the next poll been fed, or a `pipecb` has begun since or is pending. */
  lemma CompletedSendReachesPipecb(run: seq<State>, j: nat, t: nat, x: Slot, k: nat, p: nat)
    requires IsRun(run) && StoresAt(run, j, t, x) && j < k < p && p + 1 < |run|
    requires t < |run[k].senders| && !Storing(run[k].senders[t], x)
    requires run[k].loop == CheckSkipped && run[k + 1].loop == Outside
    requires forall u :: 0 <= u < |run[k].senders| ==> !Busy(run[k].senders[u])
    requires run[p].loop.Polling? && run[p + 1].loop == ClearWanted
    ensures || (exists i: nat :: j < i < k && FeedsAt(run, i, x))
            || (exists i: nat :: k < i < p && BeginsAt(run, i))
            || Pends(run[p + 1])
  {
    if forall i: nat :: j < i < k ==> !FeedsAt(run, i, x) {
      SendUntilFed(run, j, t, x, k);
      assert HandedOver(run[k], x);
      FlagReachesPipecb(run, k, p);
    }
  }
}
