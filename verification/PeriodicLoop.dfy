/** Absolute timers in the loop: start, stop and expiry. */
module PeriodicLoop {
  import opened Watchers
  import opened Heap4
  import opened Pending
  import opened Timers
  import Periodics

  const EV_PERIODIC: Events := 0x200

  class Loop {
    const periodics: Heap
    const queue: PendingQueue
    var rtNow: real

    constructor (now: real, dummy: Watcher)
      ensures Valid() && fresh(periodics) && fresh(queue)
      ensures rtNow == now && periodics.live == {} && queue.all == {} && queue.dummy == dummy
    {
      rtNow := now;
      periodics := new Heap();
      queue := new PendingQueue(dummy);
    }

    /** The active periodics are those in the heap. */
    ghost predicate PeriodicsOk()
      reads periodics`live, queue`all, queue.all`active, queue.all`interval
    {
      && periodics.live <= queue.all
      && forall w :: w in queue.all ==> (w.active > 0 <==> w in periodics.live) && w.interval >= 0.0
    }

    ghost predicate Valid()
      reads this, periodics, queue, queue.all, periodics.live
    {
      periodics.Valid() && queue.Valid() && PeriodicsOk()
    }

    /** A watcher initialised by `ev_periodic_init` becomes known to the loop. */
    method Adopt(w: Watcher)
      requires Valid() && w !in queue.all && w != queue.dummy
      requires w.active == 0 && w.pending == 0 && w.priority < NUMPRI && w.interval >= 0.0
      modifies queue`all
      ensures Valid() && queue.all == old(queue.all) + {w}
    {
      queue.all := queue.all + {w};
      forall p: nat, j: nat | p < NUMPRI && j < |queue.pendings[p]|
        ensures queue.SlotOk(p, j)
      {
        assert old(queue.SlotOk(p, j));
      }
      assert forall v :: v in old(queue.all) ==> old(queue.Owns(v));
      assert queue.Owns(w);
    }

    /** `ev_periodic_start`. */
    method Start(w: Watcher)
      requires Valid() && w in queue.all
      modifies periodics, periodics.live`active, w`active, w`at
      ensures Valid()
      ensures old(w.active) > 0 ==> periodics.live == old(periodics.live) && w.at == old(w.at)
      ensures old(w.active) == 0 ==> periodics.live == old(periodics.live) + {w} && (w.custom ==> w.at == w.reply)
      ensures old(w.active) == 0 && !w.custom ==> Periodics.Recalculated(w.at, w.offset, w.offset, w.interval, rtNow)
    {
      if w.active > 0 {
        return;
      }
      if w.custom {
        w.at := w.reply;
      } else if w.interval != 0.0 {
        w.at := Periodics.Recalc(w.offset, w.interval, rtNow);
      } else {
        w.at := w.offset;
      }
      periodics.Insert(w);
    }

    /** `w` is the only watcher whose time or pending state changed since the method began. */
    twostate predicate OthersSame(w: Watcher)
      requires old(queue.Valid()) && queue.Valid() && queue.all == old(queue.all)
      reads this, queue, queue.all
    {
      forall v :: v in queue.all && v != w ==>
        && v.at == old(v.at) && v.pending == old(v.pending)
        && old(queue.Owns(v)) && queue.Owns(v) && queue.Waiting(v) == old(queue.Waiting(v))
    }

    /** `ev_periodic_stop`. */
    method Stop(w: Watcher)
      requires Valid() && w in queue.all
      modifies periodics, periodics.live`active, queue`pendings, w`active, w`pending
      ensures Valid() && OthersSame(w)
      ensures periodics.live == old(periodics.live) - {w}
      ensures w.active == 0 && w.pending == 0 && w.at == old(w.at)
    {
      var _ := queue.Clear(w);
      assert queue.Owns(w);
      if w.active == 0 {
        return;
      }
      periodics.Remove(w);
      w.active := 0;
    }

    /** `periodics_reschedule` after a time jump: every time is worked out anew, and the loop stands as before. */
    method Reschedule()
      requires Valid()
      modifies periodics`a, periodics.live`active, periodics.live`at
      ensures Valid()
      ensures forall w :: w in periodics.live && !w.custom ==>
                Periodics.Recalculated(w.at, old(w.at), w.offset, w.interval, rtNow)
      ensures forall w :: w in periodics.live && w.custom ==> w.at == w.reply
    {
      Periodics.PeriodicsReschedule(periodics, rtNow);
      assert forall w :: w in periodics.live ==> periodics.Placed(w);
    }

    /** Zero exactly for a periodic that fires once. */
    function Repeats(w: Watcher): real
      reads w`custom, w`interval
    {
      if w.custom then 1.0 else w.interval
    }

    /** The time of `w` is what expiry makes of the time `was`. */
    ghost predicate PutOff(w: Watcher, was: real)
      reads this`rtNow, w`at, w`custom, w`reply, w`offset, w`interval
    {
      if w.custom then w.at == w.reply else Periodics.Recalculated(w.at, was, w.offset, w.interval, rtNow)
    }

    /** What `ev_periodic` demands of its callbacks: none returns a time in the past. */
    ghost predicate Replies()
      reads this`rtNow, queue`all, queue.all`custom, queue.all`reply
    {
      forall w :: w in queue.all && w.custom ==> rtNow <= w.reply
    }

    /** The next time of a repeating periodic. */
    method NextTime(w: Watcher) returns (at: real)
      requires Repeats(w) != 0.0 && w.interval >= 0.0 && (w.custom ==> rtNow <= w.reply)
      ensures rtNow <= at && (w.custom ==> at == w.reply)
      ensures !w.custom ==> Periodics.Recalculated(at, w.at, w.offset, w.interval, rtNow)
    {
      if w.custom {
        at := w.reply;
      } else {
        at := Periodics.Recalc(w.offset, w.interval, rtNow);
      }
    }

    /** One round of `periodics_reify`: the earliest periodic is put off or stopped. */
    method ExpireRoot() returns (w: Watcher)
      requires Valid() && Replies() && |periodics.a| > 0 && periodics.a[0].at < rtNow
      modifies periodics, periodics.live`active, queue`pendings, periodics.live`at, periodics.live`pending
      ensures Valid() && w == old(periodics.a[0].w) && w in old(periodics.live) && OthersSame(w)
      ensures PutOff(w, old(w.at))
      ensures Repeats(w) != 0.0 ==>
                && periodics.live == old(periodics.live) && w.pending == old(w.pending)
                && old(queue.Owns(w)) && queue.Owns(w) && queue.Waiting(w) == old(queue.Waiting(w))
      ensures Repeats(w) == 0.0 ==> periodics.live == old(periodics.live) - {w} && w.pending == 0
    {
      w := periodics.a[0].w;
      assert periodics.SlotOk(0);
      if Repeats(w) != 0.0 {
        var at := NextTime(w);
        periodics.PostponeRoot(at);
      } else {
        Stop(w);
      }
    }

    /** What the watchers look like now; `Repeats` takes the place of the repeat value of a timer. */
    ghost function Snapshot(): (z: Snap)
      requires queue.Valid()
      reads this, periodics, queue, queue.all
    {
      Snap(periodics.live,
           map w | w in queue.all :: w.at,
           map w | w in queue.all :: Repeats(w),
           map w | w in queue.all :: w.pending,
           map w | w in queue.all :: assert queue.Owns(w); queue.Waiting(w))
    }

    /** Where `w` stands in time after expiry from `z`, depending on whether it is among the expired `rf`. */
    ghost predicate Moved(w: Watcher, z: Snap, rf: seq<Watcher>)
      requires w in z.at && w in z.repeat
      reads this`rtNow, periodics`live, w`at, w`custom, w`reply, w`offset, w`interval
    {
      && Repeats(w) == z.repeat[w]
      && (w in periodics.live <==> w in z.live && (w !in rf || Repeats(w) != 0.0))
      && (if w in rf then PutOff(w, z.at[w]) else w.at == z.at[w])
    }

    /** How `w` stands after expiry from `z`, before anything is fed. */
    ghost predicate Rescheduled(w: Watcher, z: Snap, rf: seq<Watcher>)
      requires |queue.pendings| == NUMPRI
      requires w in z.at && w in z.repeat && w in z.pending && w in z.waiting
      reads this, periodics, queue, w
    {
      && queue.Owns(w) && Moved(w, z, rf)
      && (w in rf && Repeats(w) == 0.0 ==> w.pending == 0)
      && (w !in rf || Repeats(w) != 0.0 ==> w.pending == z.pending[w] && queue.Waiting(w) == z.waiting[w])
    }

    ghost predicate AllRescheduled(z: Snap, rf: seq<Watcher>)
      reads this, periodics, queue, queue.all
    {
      && |queue.pendings| == NUMPRI
      && z.at.Keys == z.repeat.Keys == z.pending.Keys == z.waiting.Keys == queue.all
      && forall w :: w in queue.all ==> Rescheduled(w, z, rf)
    }

    /** Expiry from `z` has got as far as the periodics in `rf`. */
    ghost predicate Expiring(z: Snap, rf: seq<Watcher>)
      reads this, periodics, queue, queue.all, periodics.live
    {
      && Valid() && AllRescheduled(z, rf)
      && periodics.live <= z.live <= queue.all && Replies()
      && ByTime(rf, z, rtNow) && Earliest(rf, z)
    }

    /** The root of the heap is the next to expire. */
    lemma RootIsNext(z: Snap, rf: seq<Watcher>)
      requires Expiring(z, rf) && |periodics.a| > 0 && periodics.a[0].at < rtNow
      ensures periodics.a[0].w !in rf
      ensures ByTime(rf + [periodics.a[0].w], z, rtNow) && Earliest(rf + [periodics.a[0].w], z)
    {
      var w := periodics.a[0].w;
      assert periodics.SlotOk(0) && Rescheduled(w, z, rf);
      forall v | v in z.live && v !in rf
        ensures z.at[w] <= z.at[v]
      {
        assert Rescheduled(v, z, rf);
        periodics.RootIsEarliest(v);
      }
      ByTimeExtends(rf, z, rtNow, w);
    }

    /** After a round that expires `w` alone, the watchers stand as the expiry of `rf` and `w` leaves them. */
    twostate lemma OneMore(new z: Snap, new rf: seq<Watcher>, new w: Watcher)
      requires old(allocated(z)) && old(allocated(rf)) && old(allocated(w))
      requires old(queue.Valid()) && old(AllRescheduled(z, rf)) && rtNow == old(rtNow)
      requires queue.Valid() && queue.all == old(queue.all) && OthersSame(w) && w in queue.all
      requires periodics.live == old(periodics.live) || periodics.live == old(periodics.live) - {w}
      requires unchanged(queue.all`custom, queue.all`reply, queue.all`offset, queue.all`interval)
      requires Rescheduled(w, z, rf + [w])
      ensures AllRescheduled(z, rf + [w])
    {
      forall v | v in queue.all && v != w
        ensures Rescheduled(v, z, rf + [w])
      {
        assert old(Rescheduled(v, z, rf));
      }
    }

    /** A round of the inner loop of `periodics_reify`, in the middle of an expiry. */
    method ExpireNext(ghost z: Snap, ghost rf: seq<Watcher>) returns (w: Watcher)
      requires Expiring(z, rf) && |periodics.a| > 0 && periodics.a[0].at < rtNow
      modifies periodics, periodics.live`active, queue`pendings, periodics.live`at, periodics.live`pending
      ensures Expiring(z, rf + [w]) && w !in rf
    {
      RootIsNext(z, rf);
      w := ExpireRoot();
      assert old(Rescheduled(w, z, rf));
      OneMore(z, rf, w);
    }

    /** No live periodic is due. */
    ghost predicate NoneDue()
      reads this, periodics, periodics.live`at
    {
      forall w :: w in periodics.live ==> rtNow <= w.at
    }

    lemma ExpiringStarts()
      requires Valid() && Replies()
      ensures Expiring(Snapshot(), [])
    {
    }

    lemma ExpiringEnds(z: Snap, rf: seq<Watcher>)
      requires Expiring(z, rf) && (|periodics.a| == 0 || rtNow <= periodics.a[0].at)
      ensures ExactlyDue(z, rf, rtNow) && NoneDue()
    {
      forall w | w in periodics.live
        ensures rtNow <= w.at
      {
        periodics.RootIsEarliest(w);
      }
      assert forall w :: w in queue.all ==> Rescheduled(w, z, rf);
    }

    /** The inner loop of `periodics_reify`, which collects the expired periodics in `rfeeds`. */
    method ExpirePeriodics(ghost z: Snap) returns (rfeeds: seq<Watcher>)
      requires Valid() && Replies() && z == Snapshot()
      modifies periodics, periodics.live`active, queue`pendings, periodics.live`at, periodics.live`pending
      ensures Valid() && AllRescheduled(z, rfeeds)
      ensures forall w :: w in rfeeds ==> w in old(periodics.live) && w in queue.all
      ensures ByTime(rfeeds, z, rtNow) && ExactlyDue(z, rfeeds, rtNow) && NoneDue()
    {
      rfeeds := [];
      ghost var left := periodics.live;
      ExpiringStarts();
      while |periodics.a| > 0 && periodics.a[0].at < rtNow
        invariant Expiring(z, rfeeds)
        invariant forall w :: w in z.live && w !in rfeeds ==> w in left
        decreases left
      {
        var w := ExpireNext(z, rfeeds);
        rfeeds := rfeeds + [w];
        assert w in rfeeds;
        left := left - {w};
      }
      ExpiringEnds(z, rfeeds);
    }

    /** How `w` stands after `periodics_reify` from `z`, depending on whether it is among the `fired`. */
    ghost predicate Reified(w: Watcher, z: Snap, fired: seq<Watcher>)
      requires |queue.pendings| == NUMPRI
      requires w in z.at && w in z.repeat && w in z.pending && w in z.waiting
      reads this, periodics, queue, w
    {
      && queue.Owns(w) && Moved(w, z, fired)
      && (w !in fired ==> w.pending == z.pending[w] && queue.Waiting(w) == z.waiting[w])
      && (w in fired && Repeats(w) != 0.0 ==> queue.Waiting(w) == Some(Joined(z.waiting[w], EV_PERIODIC)))
      && (w in fired && Repeats(w) == 0.0 ==> queue.Waiting(w) == Some(EV_PERIODIC))
    }

    ghost predicate AllReified(z: Snap, fired: seq<Watcher>)
      reads this, periodics, queue, queue.all
    {
      && |queue.pendings| == NUMPRI
      && z.at.Keys == z.repeat.Keys == z.pending.Keys == z.waiting.Keys == queue.all
      && forall w :: w in queue.all ==> Reified(w, z, fired)
    }

    /** What is to be fed anew is not pending. */
    lemma FreshAreIdle(z: Snap, fired: seq<Watcher>)
      requires AllRescheduled(z, fired) && forall w :: w in fired ==> w in queue.all
      ensures forall w :: w in fired && w in FreshSet(z) ==> w.pending == 0
    {
      assert forall w :: w in fired ==> Rescheduled(w, z, fired);
    }

    /** The watchers in `fired`, and no others, have been fed since the method began. */
    twostate predicate Fed(fired: seq<Watcher>)
      requires old(queue.Valid()) && queue.Valid() && queue.all == old(queue.all)
      reads this, queue, queue.all
    {
      && (forall w :: w in queue.all && w in fired ==>
            old(queue.Owns(w)) && queue.Waiting(w) == Some(Joined(old(queue.Waiting(w)), EV_PERIODIC)))
      && (forall w :: w in queue.all && w !in fired ==>
            w.pending == old(w.pending) && old(queue.Owns(w)) && queue.Waiting(w) == old(queue.Waiting(w)))
    }

    /** Feeding what has been rescheduled completes `periodics_reify`. */
    twostate lemma FedIsReified(new z: Snap, new fired: seq<Watcher>)
      requires old(allocated(z)) && old(allocated(fired))
      requires old(queue.Valid()) && old(AllRescheduled(z, fired)) && queue.Valid() && queue.all == old(queue.all)
      requires unchanged(this, periodics)
      requires unchanged(queue.all`at, queue.all`custom, queue.all`reply, queue.all`offset, queue.all`interval)
      requires Fed(fired)
      ensures AllReified(z, fired)
    {
      forall w | w in queue.all
        ensures Reified(w, z, fired)
      {
        assert old(Rescheduled(w, z, fired));
      }
    }

    /** Feeding leaves the heap alone. */
    method FeedAll(fired: seq<Watcher>, ghost anew: set<Watcher>)
      requires Valid() && NoneDue() && Distinct(fired) && forall w :: w in fired ==> w in queue.all
      requires forall w :: w in fired && w in anew ==> w.pending == 0
      modifies queue`pendings, fired`pending
      ensures Valid() && NoneDue() && OnTop(fired, anew, 0) && Fed(fired)
    {
      queue.FeedReverseDone(fired, EV_PERIODIC, anew);
    }

    /** The end of `periodics_reify`: feeds the periodics that were collected. */
    method FeedFired(ghost z: Snap, fired: seq<Watcher>)
      requires Valid() && NoneDue() && AllRescheduled(z, fired)
      requires Distinct(fired) && forall w :: w in fired ==> w in queue.all
      modifies queue`pendings, fired`pending
      ensures Valid() && NoneDue() && OnTop(fired, FreshSet(z), 0) && AllReified(z, fired)
    {
      FreshAreIdle(z, fired);
      FeedAll(fired, FreshSet(z));
      FedIsReified(z, fired);
    }

    /** `periodics_reify`: every periodic that was due is fed exactly once and no other, those without an
        interval are stopped, the others put off into `(now, now + interval]`, and nothing due is left, so that
        the outer loop ends after one round. */
    method PeriodicsReify(ghost z: Snap) returns (fired: seq<Watcher>)
      requires Valid() && Replies() && z == Snapshot()
      modifies periodics, periodics.live`active, queue`pendings, periodics.live`at, periodics.live`pending
      ensures Valid() && ByTime(fired, z, rtNow) && OnTop(fired, FreshSet(z), 0) && AllReified(z, fired)
      ensures ExactlyDue(z, fired, rtNow) && NoneDue()
    {
      fired := ExpirePeriodics(z);
      FeedFired(z, fired);
    }
  }
}
