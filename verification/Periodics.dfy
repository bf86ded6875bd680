/** Absolute timers: the next time of an `ev_periodic`, and rescheduling all of them. */
module Periodics {
  import opened Watchers
  import opened Heap4

  const MIN_INTERVAL: real := 0.0001220703125

  function Max(x: real, y: real): real {
    if x > y then x else y
  }

  function Times(n: int, x: real): real {
    n as real * x
  }

  /** The last multiple of `step` after `offset` that is not after `now`. */
  function Base(offset: real, step: real, now: real): real
    requires step > 0.0
  {
    Times(((now - offset) / step).Floor, step)
  }

  /** `x` is a whole number of `interval`s. */
  ghost predicate Multiple(x: real, interval: real) {
    exists n: int :: x == Times(n, interval)
  }

  lemma TimesAdd(n: int, j: int, x: real)
    ensures Times(n + j, x) == Times(n, x) + Times(j, x)
  {
  }

  lemma TimesLess(x: real, y: real, z: real)
    requires z > 0.0 && x <= y
    ensures x * z <= y * z
  {
  }

  lemma Distribute(f: real, q: real, x: real)
    ensures (f + 1.0 - q) * x == f * x + x - q * x
  {
  }

  lemma Quotient(x: real, y: real, z: real)
    requires z > 0.0 && x * z == y
    ensures y / z == x
  {
  }

  lemma Apart(m: int, n: int, x: real)
    requires x > 0.0 && m < n
    ensures Times(m, x) + x <= Times(n, x)
  {
    TimesLess(m as real + 1.0, n as real, x);
    Distribute(m as real, 0.0, x);
  }

  lemma FloorBelow(q: real, step: real, d: real)
    requires step > 0.0 && q * step == d
    ensures Times(q.Floor, step) <= d
  {
  }

  lemma FloorAbove(q: real, step: real, d: real)
    requires step > 0.0 && q * step == d
    ensures d - step < Times(q.Floor, step)
  {
    var f := q.Floor as real;
    var g := f + 1.0 - q;
    assert g * step > 0.0;
    Distribute(f, q, step);
  }

  lemma BaseBounds(offset: real, step: real, now: real)
    requires step > 0.0
    ensures now - step < offset + Base(offset, step, now) <= now
  {
    FloorBelow((now - offset) / step, step, now - offset);
    FloorAbove((now - offset) / step, step, now - offset);
  }

  lemma MultipleAdd(x: real, interval: real, j: int)
    requires Multiple(x, interval)
    ensures Multiple(x + Times(j, interval), interval)
  {
    var n: int :| x == Times(n, interval);
    TimesAdd(n, j, interval);
  }

  /** `periodic_recalc`: the next time lies in `(now, now + interval]`, a whole number of
      intervals after the base the source starts from. */
  method Recalc(offset: real, interval: real, now: real) returns (at: real)
    requires interval > 0.0
    ensures now < at <= now + interval
    ensures Multiple(at - offset - Base(offset, Max(interval, MIN_INTERVAL), now), interval)
  {
    var step := if interval > MIN_INTERVAL then interval else MIN_INTERVAL;
    at := offset + Base(offset, step, now);
    BaseBounds(offset, step, now);
    ghost var n := 0;
    assert at - offset - Base(offset, step, now) == Times(n, interval);
    while at <= now
      invariant at <= now + interval
      invariant at - offset - Base(offset, step, now) == Times(n, interval)
      decreases ((now - at) / interval).Floor + 1
    {
      ghost var q := (now - at) / interval;
      assert q >= 0.0;
      assert q * interval == now - at;
      Quotient(q - 1.0, now - (at + interval), interval);
      TimesAdd(n, 1, interval);
      at := at + interval;
      n := n + 1;
    }
  }

  /** The times of a periodic are the grid `offset + n * interval`: the next time falls on it
      exactly when the base does, which is always so for intervals of at least the minimum. */
  lemma OnGridIff(offset: real, interval: real, now: real, at: real)
    requires interval > 0.0
    requires Multiple(at - offset - Base(offset, Max(interval, MIN_INTERVAL), now), interval)
    ensures Multiple(at - offset, interval) <==> Multiple(Base(offset, Max(interval, MIN_INTERVAL), now), interval)
    ensures interval >= MIN_INTERVAL ==> Multiple(at - offset, interval)
  {
    var base := Base(offset, Max(interval, MIN_INTERVAL), now);
    var j: int :| at - offset - base == Times(j, interval);
    TimesAdd(j, -j, interval);
    if Multiple(base, interval) {
      MultipleAdd(base, interval, j);
    }
    if Multiple(at - offset, interval) {
      MultipleAdd(at - offset, interval, -j);
    }
    if interval >= MIN_INTERVAL {
      assert base == Times(((now - offset) / interval).Floor, interval);
    }
  }

  /** On the grid there is only one time in `(now, now + interval]`: the next one. */
  lemma NextOnGrid(offset: real, interval: real, now: real, at: real, t: real)
    requires interval > 0.0 && now < at <= now + interval && now < t
    requires Multiple(at - offset, interval) && Multiple(t - offset, interval)
    ensures at <= t
  {
    var n: int :| at - offset == Times(n, interval);
    var m: int :| t - offset == Times(m, interval);
    if m < n {
      Apart(m, n, interval);
    }
  }

  /** Below the minimum interval the grid is missed. */
  lemma SmallIntervalMissesGrid()
    ensures !Multiple(Base(0.0, Max(0.0001, MIN_INTERVAL), 0.00013), 0.0001)
  {
  }

  /** What `periodics_reschedule` makes of the time of one watcher. */
  ghost predicate Recalculated(at: real, old_at: real, offset: real, interval: real, now: real) {
    if interval == 0.0 then at == old_at
    else
      && interval > 0.0 && now < at <= now + interval
      && Multiple(at - offset - Base(offset, Max(interval, MIN_INTERVAL), now), interval)
  }

  /** `periodics_reschedule`: recalculates every time, in any direction, then rebuilds the heap. A reschedule
      callback may return any time. */
  method PeriodicsReschedule(heap: Heap, now: real)
    requires heap.Valid()
    requires forall w :: w in heap.live ==> w.interval >= 0.0
    modifies heap`a, heap.live`active, heap.live`at
    ensures heap.Valid()
    ensures forall w :: w in heap.live && !w.custom ==> Recalculated(w.at, old(w.at), w.offset, w.interval, now)
    ensures forall w :: w in heap.live && w.custom ==> w.at == w.reply
  {
    var i := 0;
    while i < |heap.a|
      invariant 0 <= i <= |heap.a| && heap.Indexed()
      invariant forall w :: w in heap.live && w.active >= HEAP0 + i ==> w.at == old(w.at)
      invariant forall w :: w in heap.live && w.active < HEAP0 + i && w.custom ==> w.at == w.reply
      invariant forall w :: w in heap.live && w.active < HEAP0 + i && !w.custom ==>
                  Recalculated(w.at, old(w.at), w.offset, w.interval, now)
    {
      assert heap.SlotOk(i);
      var w := heap.a[i].w;
      var at := w.at;
      if w.custom {
        at := w.reply;
      } else if w.interval != 0.0 {
        at := Recalc(w.offset, w.interval, now);
      }
      heap.Recache(i, at);
      heap.HoleIsIndexed(i);
      assert forall v :: v in heap.live ==> heap.Placed(v);
      i := i + 1;
    }
    assert forall v :: v in heap.live ==> heap.Placed(v);
    heap.ReHeap();
  }
}
