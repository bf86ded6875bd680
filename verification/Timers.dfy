/** Relative timers: start, stop, again, expiry and rescheduling. */
module Timers {
  import opened Watchers
  import opened Heap4
  import opened Pending

  const EV_TIMER: Events := 0x100

  class TimerLoop {
    const timers: Heap
    const queue: PendingQueue
    var mnNow: real

    constructor (now: real, dummy: Watcher)
      ensures Valid() && fresh(timers) && fresh(queue)
      ensures mnNow == now && timers.live == {} && queue.all == {} && queue.dummy == dummy
    {
      mnNow := now;
      timers := new Heap();
      queue := new PendingQueue(dummy);
    }

    /** The active timers are those in the heap. */
    ghost predicate TimersOk()
      reads timers`live, queue`all, queue.all`active, queue.all`repeat
    {
      && timers.live <= queue.all
      && forall w :: w in queue.all ==> (w.active > 0 <==> w in timers.live) && w.repeat >= 0.0
    }

    ghost predicate Valid()
      reads this, timers, queue, queue.all, timers.live
    {
      timers.Valid() && queue.Valid() && TimersOk()
    }

    /** A watcher initialised by `ev_timer_init` becomes known to the loop. */
    method Adopt(w: Watcher)
      requires Valid() && w !in queue.all && w != queue.dummy
      requires w.active == 0 && w.pending == 0 && w.priority < NUMPRI && w.repeat >= 0.0
      modifies queue`all
      ensures Valid() && queue.all == old(queue.all) + {w}
    {
      queue.all := queue.all + {w};
      forall p: nat, j: nat | p < NUMPRI && j < |queue.pendings[p]|
        ensures queue.SlotOk(p, j)
      {
        assert old(queue.SlotOk(p, j));
      }
      assert forall v :: v in old(queue.all) ==> old(queue.Owns(v));
      assert queue.Owns(w);
    }

    method TimerStart(w: Watcher)
      requires Valid() && w in queue.all
      modifies timers, timers.live`active, w`active, w`at
      ensures Valid()
      ensures old(w.active) > 0 ==> timers.live == old(timers.live) && w.at == old(w.at)
      ensures old(w.active) == 0 ==> timers.live == old(timers.live) + {w} && w.at == old(w.at) + mnNow
    {
      if w.active > 0 {
        return;
      }
      w.at := w.at + mnNow;
      timers.Insert(w);
    }

    /** `timers_reschedule`. */
    method TimersReschedule(adjust: real)
      requires Valid()
      modifies timers`a, timers.live`at
      ensures Valid() && forall w :: w in timers.live ==> w.at == old(w.at) + adjust
    {
      timers.ShiftAll(adjust);
    }

    /** `w` is the only watcher whose time or pending state changed since the method began. */
    twostate predicate OthersSame(w: Watcher)
      requires old(queue.Valid()) && queue.Valid() && queue.all == old(queue.all)
      reads this, queue, queue.all
    {
      forall v :: v in queue.all && v != w ==>
        && v.at == old(v.at) && v.pending == old(v.pending)
        && old(queue.Owns(v)) && queue.Owns(v) && queue.Waiting(v) == old(queue.Waiting(v))
    }

    method TimerStop(w: Watcher)
      requires Valid() && w in queue.all
      modifies timers, timers.live`active, queue`pendings, w`active, w`at, w`pending
      ensures Valid() && OthersSame(w)
      ensures timers.live == old(timers.live) - {w}
      ensures w.active == 0 && w.pending == 0
      ensures w.at == if old(w.active) > 0 then old(w.at) - mnNow else old(w.at)
    {
      var _ := queue.Clear(w);
      assert queue.Owns(w);
      if w.active == 0 {
        return;
      }
      timers.Remove(w);
      w.at := w.at - mnNow;
      w.active := 0;
    }

    method TimerAgain(w: Watcher)
      requires Valid() && w in queue.all
      modifies timers, timers.live`active, queue`pendings, w`active, w`at, w`pending
      ensures Valid() && OthersSame(w)
      ensures w.pending == 0
      ensures w.repeat != 0.0 ==> timers.live == old(timers.live) + {w} && w.at == mnNow + w.repeat
      ensures w.repeat == 0.0 ==> timers.live == old(timers.live) - {w}
    {
      var _ := queue.Clear(w);
      if w.active > 0 {
        if w.repeat != 0.0 {
          timers.SetAt(w, mnNow + w.repeat);
        } else {
          TimerStop(w);
        }
      } else if w.repeat != 0.0 {
        w.at := w.repeat;
        TimerStart(w);
      }
    }

    /** One round of `timers_reify`: the earliest timer is put off or stopped. */
    method ExpireRoot() returns (w: Watcher)
      requires Valid() && |timers.a| > 0 && timers.a[0].at < mnNow
      modifies timers, timers.live`active, queue`pendings, timers.live`at, timers.live`pending
      ensures Valid() && w == old(timers.a[0].w) && w in old(timers.live) && OthersSame(w)
      ensures w.repeat != 0.0 ==>
                && timers.live == old(timers.live) && w.pending == old(w.pending)
                && w.at == Later(old(w.at) + w.repeat, mnNow)
                && old(queue.Owns(w)) && queue.Owns(w) && queue.Waiting(w) == old(queue.Waiting(w))
      ensures w.repeat == 0.0 ==>
                timers.live == old(timers.live) - {w} && w.pending == 0 && w.at == old(w.at) - mnNow
    {
      w := timers.a[0].w;
      assert timers.SlotOk(0);
      if w.repeat != 0.0 {
        timers.PostponeRoot(Later(w.at + w.repeat, mnNow));
      } else {
        TimerStop(w);
      }
    }

    /** What the watchers look like now. */
    ghost function Snapshot(): (z: Snap)
      requires queue.Valid()
      reads this, timers, queue, queue.all
    {
      Snap(timers.live,
           map w | w in queue.all :: w.at,
           map w | w in queue.all :: w.repeat,
           map w | w in queue.all :: w.pending,
           map w | w in queue.all :: assert queue.Owns(w); queue.Waiting(w))
    }

    /** How `w` stands after expiry from `z`, depending on whether it is among the expired `rf`. */
    ghost predicate Rescheduled(w: Watcher, z: Snap, rf: seq<Watcher>)
      requires |queue.pendings| == NUMPRI
      requires w in z.at && w in z.repeat && w in z.pending && w in z.waiting
      reads this, timers, queue, w
    {
      && queue.Owns(w) && w.repeat == z.repeat[w]
      && (w in timers.live <==> w in z.live && (w !in rf || w.repeat != 0.0))
      && (w !in rf ==> w.at == z.at[w])
      && (w in rf && w.repeat != 0.0 ==> w.at == Later(z.at[w] + w.repeat, mnNow))
      && (w in rf && w.repeat == 0.0 ==> w.at == z.at[w] - mnNow && w.pending == 0)
      && (w !in rf || w.repeat != 0.0 ==> w.pending == z.pending[w] && queue.Waiting(w) == z.waiting[w])
    }

    ghost predicate AllRescheduled(z: Snap, rf: seq<Watcher>)
      reads this, timers, queue, queue.all
    {
      && |queue.pendings| == NUMPRI
      && z.at.Keys == z.repeat.Keys == z.pending.Keys == z.waiting.Keys == queue.all
      && forall w :: w in queue.all ==> Rescheduled(w, z, rf)
    }

    /** Expiry from `z` has got as far as the timers in `rf`. */
    ghost predicate Expiring(z: Snap, rf: seq<Watcher>)
      reads this, timers, queue, queue.all, timers.live
    {
      && Valid() && AllRescheduled(z, rf)
      && timers.live <= z.live <= queue.all
      && ByTime(rf, z, mnNow) && Earliest(rf, z)
    }

    /** The root of the heap is the next to expire. */
    lemma RootIsNext(z: Snap, rf: seq<Watcher>)
      requires Expiring(z, rf) && |timers.a| > 0 && timers.a[0].at < mnNow
      ensures timers.a[0].w !in rf
      ensures ByTime(rf + [timers.a[0].w], z, mnNow) && Earliest(rf + [timers.a[0].w], z)
    {
      var w := timers.a[0].w;
      assert timers.SlotOk(0) && Rescheduled(w, z, rf);
      forall v | v in z.live && v !in rf
        ensures z.at[w] <= z.at[v]
      {
        assert Rescheduled(v, z, rf);
        timers.RootIsEarliest(v);
      }
      ByTimeExtends(rf, z, mnNow, w);
    }

    /** After a round that expires `w` alone, the watchers stand as the expiry of `rf` and `w` leaves them. */
    twostate lemma OneMore(new z: Snap, new rf: seq<Watcher>, new w: Watcher)
      requires old(allocated(z)) && old(allocated(rf)) && old(allocated(w))
      requires old(queue.Valid()) && old(AllRescheduled(z, rf)) && mnNow == old(mnNow)
      requires queue.Valid() && queue.all == old(queue.all) && OthersSame(w) && w in queue.all
      requires timers.live == old(timers.live) || timers.live == old(timers.live) - {w}
      requires unchanged(queue.all`repeat) && Rescheduled(w, z, rf + [w])
      ensures AllRescheduled(z, rf + [w])
    {
      forall v | v in queue.all && v != w
        ensures Rescheduled(v, z, rf + [w])
      {
        assert old(Rescheduled(v, z, rf));
      }
    }

    /** A round of the loop of `timers_reify`, in the middle of an expiry. */
    method ExpireNext(ghost z: Snap, ghost rf: seq<Watcher>) returns (w: Watcher)
      requires Expiring(z, rf) && |timers.a| > 0 && timers.a[0].at < mnNow
      modifies timers, timers.live`active, queue`pendings, timers.live`at, timers.live`pending
      ensures Expiring(z, rf + [w]) && w !in rf
    {
      RootIsNext(z, rf);
      w := ExpireRoot();
      assert old(Rescheduled(w, z, rf));
      OneMore(z, rf, w);
    }

    /** No live timer is due. */
    ghost predicate NoneDue()
      reads this, timers, timers.live`at
    {
      forall w :: w in timers.live ==> mnNow <= w.at
    }

    lemma ExpiringStarts()
      requires Valid()
      ensures Expiring(Snapshot(), [])
    {
    }

    lemma ExpiringEnds(z: Snap, rf: seq<Watcher>)
      requires Expiring(z, rf) && (|timers.a| == 0 || mnNow <= timers.a[0].at)
      ensures ExactlyDue(z, rf, mnNow) && NoneDue()
    {
      forall w | w in timers.live
        ensures mnNow <= w.at
      {
        timers.RootIsEarliest(w);
      }
      assert forall w :: w in queue.all ==> Rescheduled(w, z, rf);
    }

    /** The loop of `timers_reify`, which collects the expired timers in `rfeeds`. */
    method ExpireTimers(ghost z: Snap) returns (rfeeds: seq<Watcher>)
      requires Valid() && z == Snapshot()
      modifies timers, timers.live`active, queue`pendings, timers.live`at, timers.live`pending
      ensures Valid() && AllRescheduled(z, rfeeds)
      ensures forall w :: w in rfeeds ==> w in old(timers.live) && w in queue.all
      ensures ByTime(rfeeds, z, mnNow) && ExactlyDue(z, rfeeds, mnNow) && NoneDue()
    {
      rfeeds := [];
      ghost var left := timers.live;
      ExpiringStarts();
      while |timers.a| > 0 && timers.a[0].at < mnNow
        invariant Expiring(z, rfeeds)
        invariant forall w :: w in z.live && w !in rfeeds ==> w in left
        decreases left
      {
        var w := ExpireNext(z, rfeeds);
        rfeeds := rfeeds + [w];
        assert w in rfeeds;
        left := left - {w};
      }
      ExpiringEnds(z, rfeeds);
    }

    /** What is to be fed anew is not pending. */
    lemma FreshAreIdle(z: Snap, fired: seq<Watcher>)
      requires AllRescheduled(z, fired) && forall w :: w in fired ==> w in queue.all
      ensures forall w :: w in fired && w in FreshSet(z) ==> w.pending == 0
    {
      assert forall w :: w in fired ==> Rescheduled(w, z, fired);
    }

    /** The watchers in `fired`, and no others, have been fed since the method began. */
    twostate predicate Fed(fired: seq<Watcher>)
      requires old(queue.Valid()) && queue.Valid() && queue.all == old(queue.all)
      reads this, queue, queue.all
    {
      && (forall w :: w in queue.all && w in fired ==>
            old(queue.Owns(w)) && queue.Waiting(w) == Some(Joined(old(queue.Waiting(w)), EV_TIMER)))
      && (forall w :: w in queue.all && w !in fired ==>
            w.pending == old(w.pending) && old(queue.Owns(w)) && queue.Waiting(w) == old(queue.Waiting(w)))
    }

    /** Feeding what has been rescheduled completes `timers_reify`. */
    twostate lemma FedIsReified(new z: Snap, new fired: seq<Watcher>)
      requires old(allocated(z)) && old(allocated(fired))
      requires old(queue.Valid()) && old(AllRescheduled(z, fired)) && queue.Valid() && queue.all == old(queue.all)
      requires unchanged(this, timers) && unchanged(queue.all`at, queue.all`repeat)
      requires Fed(fired)
      ensures AllReified(z, fired)
    {
      forall w | w in queue.all
        ensures Reified(w, z, fired)
      {
        assert old(Rescheduled(w, z, fired));
      }
    }

    /** Feeding leaves the heap alone. */
    method FeedAll(fired: seq<Watcher>, ghost anew: set<Watcher>)
      requires Valid() && NoneDue() && Distinct(fired) && forall w :: w in fired ==> w in queue.all
      requires forall w :: w in fired && w in anew ==> w.pending == 0
      modifies queue`pendings, fired`pending
      ensures Valid() && NoneDue() && OnTop(fired, anew, 0) && Fed(fired)
    {
      queue.FeedReverseDone(fired, EV_TIMER, anew);
    }

    /** The end of `timers_reify`: feeds the timers that `ExpireTimers` collected. */
    method FeedFired(ghost z: Snap, fired: seq<Watcher>)
      requires Valid() && NoneDue() && AllRescheduled(z, fired)
      requires Distinct(fired) && forall w :: w in fired ==> w in queue.all
      modifies queue`pendings, fired`pending
      ensures Valid() && NoneDue() && OnTop(fired, FreshSet(z), 0) && AllReified(z, fired)
    {
      FreshAreIdle(z, fired);
      FeedAll(fired, FreshSet(z));
      FedIsReified(z, fired);
    }

    ghost predicate AllReified(z: Snap, fired: seq<Watcher>)
      reads this, timers, queue, queue.all
    {
      && |queue.pendings| == NUMPRI
      && z.at.Keys == z.repeat.Keys == z.pending.Keys == z.waiting.Keys == queue.all
      && forall w :: w in queue.all ==> Reified(w, z, fired)
    }

    /** `timers_reify`: every timer that was due is fed exactly once and no other, one-shot
        timers are stopped, repeating ones put off, and nothing due is left. */
    method TimersReify(ghost z: Snap) returns (fired: seq<Watcher>)
      requires Valid() && z == Snapshot()
      modifies timers, timers.live`active, queue`pendings, timers.live`at, timers.live`pending
      ensures Valid() && ByTime(fired, z, mnNow) && OnTop(fired, FreshSet(z), 0) && AllReified(z, fired)
      ensures ExactlyDue(z, fired, mnNow) && NoneDue()
    {
      fired := ExpireTimers(z);
      FeedFired(z, fired);
    }

    lemma CalledOnceEach(z: Snap, fired: seq<Watcher>, w: Watcher)
      requires queue.Valid() && AllReified(z, fired) && w in fired && w in queue.all
      ensures CalledOnceWith(w, Calls(queue.pendings, |queue.pendings|), FiredEvents(w, z))
    {
      assert Reified(w, z, fired);
      queue.CalledOnce(w);
    }

    /** The calls about to be made go in the order of `fired`, as far as that is promised. */
    lemma CallsSorted(z: Snap, fired: seq<Watcher>)
      requires queue.Valid() && OnTop(fired, FreshSet(z), 0) && AllReified(z, fired)
      requires forall w :: w in fired ==> w in queue.all
      ensures FiredCalls(fired, z, Calls(queue.pendings, |queue.pendings|))
    {
      forall w | w in fired
        ensures w in z.waiting && w in z.repeat
        ensures CalledOnceWith(w, Calls(queue.pendings, |queue.pendings|), FiredEvents(w, z))
      {
        CalledOnceEach(z, fired, w);
      }
      var calls := Calls(queue.pendings, |queue.pendings|);
      forall i: nat, j: nat | i < |fired| && j < |fired| && Before(fired, z, i, j)
        ensures CalledBefore(calls, fired[i], fired[j])
      {
        assert Reified(fired[i], z, fired) && Reified(fired[j], z, fired);
        assert i < j ==> PairOnTop(fired, FreshSet(z), i, j);
        queue.CallsByRank(fired[i], fired[j]);
      }
    }

    /** `ev_invoke_pending` with callbacks that do not touch the loop. */
    method Invoke() returns (calls: seq<Item>)
      requires Valid()
      modifies queue`pendings, queue.all`pending, queue.dummy`pending
      ensures Valid() && calls == Calls(old(queue.pendings), |old(queue.pendings)|)
      ensures forall w :: w in queue.all ==> w.pending == 0
    {
      calls := queue.InvokePending();
    }

    /** Expiry followed by `ev_invoke_pending`, with callbacks that do not touch the loop: every
        timer that was due is called once, and those that were not pending before are called by
        descending priority and, within a priority, in the order of their expiry times. */
    method RunTimers(ghost z: Snap) returns (fired: seq<Watcher>, calls: seq<Item>)
      requires Valid() && z == Snapshot()
      modifies timers, timers.live`active, timers.live`at, queue`pendings, queue.all`pending, queue.dummy`pending
      ensures Valid() && ByTime(fired, z, mnNow) && ExactlyDue(z, fired, mnNow)
      ensures forall w :: w in queue.all ==> w.pending == 0
      ensures FiredCalls(fired, z, calls)
    {
      fired := TimersReify(z);
      CallsSorted(z, fired);
      calls := Invoke();
    }

    /** How `w` stands after `timers_reify` from `z`, depending on whether it is among the `fired`. */
    ghost predicate Reified(w: Watcher, z: Snap, fired: seq<Watcher>)
      requires |queue.pendings| == NUMPRI
      requires w in z.at && w in z.repeat && w in z.pending && w in z.waiting
      reads this, timers, queue, w
    {
      && queue.Owns(w) && w.repeat == z.repeat[w]
      && (w in timers.live <==> w in z.live && (w !in fired || w.repeat != 0.0))
      && (w !in fired ==> w.at == z.at[w] && w.pending == z.pending[w] && queue.Waiting(w) == z.waiting[w])
      && (w in fired && w.repeat != 0.0 ==>
            w.at == Later(z.at[w] + w.repeat, mnNow) && queue.Waiting(w) == Some(Joined(z.waiting[w], EV_TIMER)))
      && (w in fired && w.repeat == 0.0 ==>
            w.at == z.at[w] - mnNow && queue.Waiting(w) == Some(EV_TIMER))
    }
  }

  /** The watchers that were not pending, or whose expiry stops them and so drops what was pending. */
  ghost function FreshSet(z: Snap): set<Watcher> {
    set w | w in z.pending && w in z.repeat && (z.pending[w] == 0 || z.repeat[w] == 0.0)
  }

  /** What the callback of a fired timer receives. */
  ghost function FiredEvents(w: Watcher, z: Snap): Events
    requires w in z.waiting && w in z.repeat
  {
    if z.repeat[w] == 0.0 then EV_TIMER else Joined(z.waiting[w], EV_TIMER)
  }

  /** A fired timer sees EV_TIMER and, if it repeats, what waited for it, and nothing else. */
  lemma FiredBits(w: Watcher, z: Snap)
    requires w in z.waiting && w in z.repeat
    ensures Gained(if z.repeat[w] == 0.0 then None else z.waiting[w], Some(FiredEvents(w, z)), EV_TIMER)
  {
    JoinedBits(if z.repeat[w] == 0.0 then None else z.waiting[w], EV_TIMER);
  }

  ghost predicate CalledOnceWith(w: Watcher, calls: seq<Item>, events: Events) {
    exists k: nat :: OnlyAt(calls, w, k) && calls[k].events == events
  }

  /** Both fired fresh, `i` is to be called before `j`: by priority, then by expiry. */
  ghost predicate Before(fired: seq<Watcher>, z: Snap, i: nat, j: nat)
    requires i < |fired| && j < |fired|
  {
    && fired[i] in FreshSet(z) && fired[j] in FreshSet(z)
    && (fired[i].priority > fired[j].priority || (fired[i].priority == fired[j].priority && i < j))
  }

  /** Each fired watcher is called once with its events, in the promised order. */
  ghost predicate FiredCalls(fired: seq<Watcher>, z: Snap, calls: seq<Item>) {
    && (forall w :: w in fired ==>
          w in z.waiting && w in z.repeat && CalledOnceWith(w, calls, FiredEvents(w, z)))
    && (forall i: nat, j: nat :: i < |fired| && j < |fired| && Before(fired, z, i, j) ==>
          CalledBefore(calls, fired[i], fired[j]))
  }

  /** `rf` holds exactly the timers that were live and due. */
  ghost predicate ExactlyDue(z: Snap, rf: seq<Watcher>, now: real) {
    forall w :: w in z.at ==> (w in rf <==> w in z.live && z.at[w] < now)
  }

  datatype Snap = Snap(live: set<Watcher>, at: map<Watcher, real>, repeat: map<Watcher, real>,
                       pending: map<Watcher, nat>, waiting: map<Watcher, Option<Events>>)

  ghost predicate PairByTime(rf: seq<Watcher>, z: Snap, i: nat, j: nat)
    requires i < |rf| && j < |rf|
  {
    rf[i] in z.at && rf[j] in z.at && z.at[rf[i]] <= z.at[rf[j]]
  }

  /** `rf` lists timers that were live and due at `now`, each once, by their times in `z`. */
  ghost predicate ByTime(rf: seq<Watcher>, z: Snap, now: real) {
    && (forall w :: w in rf ==> w in z.live && w in z.at && z.at[w] < now)
    && Distinct(rf)
    && (forall i: nat, j: nat :: i < j < |rf| ==> PairByTime(rf, z, i, j))
  }

  /** Every live timer outside `rf` is at least as late as the last in `rf`. */
  ghost predicate Earliest(rf: seq<Watcher>, z: Snap)
    requires z.live <= z.at.Keys && forall w :: w in rf ==> w in z.at
  {
    rf == [] || forall w :: w in z.live && w !in rf ==> z.at[rf[|rf| - 1]] <= z.at[w]
  }

  lemma ByTimeExtends(rf: seq<Watcher>, z: Snap, now: real, w: Watcher)
    requires z.live <= z.at.Keys && ByTime(rf, z, now) && Earliest(rf, z)
    requires w in z.live && w !in rf && z.at[w] < now
    requires forall v :: v in z.live && v !in rf ==> z.at[w] <= z.at[v]
    ensures ByTime(rf + [w], z, now) && Earliest(rf + [w], z)
  {
    var rf', last := rf + [w], |rf| - 1;
    assert forall v :: v in rf' <==> v in rf || v == w;
    forall i: nat, j: nat | i < j < |rf'|
      ensures PairDistinct(rf', i, j) && PairByTime(rf', z, i, j)
    {
      assert rf'[i] in rf;
      if j < |rf| {
        assert PairDistinct(rf, i, j) && PairByTime(rf, z, i, j);
      } else {
        assert i < last ==> PairByTime(rf, z, i, last);
      }
    }
  }

  function Later(x: real, y: real): (r: real)
    ensures r >= x && r >= y && (r == x || r == y)
  {
    if x < y then y else x
  }
}
