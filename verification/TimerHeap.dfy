/** The watcher fields that the loop keeps up to date. */
module Watchers {

  class Watcher {
    var active: nat      // 0 when stopped, otherwise the heap index
    var pending: nat     // 0 when not pending, otherwise slot + 1
    const priority: nat  // shifted to 0 .. NUMPRI - 1
    var at: real
    var repeat: real     // of an ev_timer
    var offset: real     // of an ev_periodic
    var interval: real   // of an ev_periodic
    var custom: bool     // an ev_periodic with a reschedule callback
    var reply: real      // what that callback will return

    constructor (priority: nat)
      ensures active == 0 && pending == 0
      ensures this.priority == priority
    {
      active, pending := 0, 0;
      this.priority := priority;
      at, repeat, offset, interval, custom, reply := 0.0, 0.0, 0.0, 0.0, false, 0.0;
    }
  }
}

/** The 4-ary heap with back-indices. */
module Heap4 {
  import opened Watchers

  const DHEAP: nat := 4
  const HEAP0: nat := 3

  /** A watcher and the cached copy of its time. */
  datatype Entry = Entry(w: Watcher, at: real)

  /** Positions count from the root: position `i` is array index `HEAP0 + i` of the source, so
      the parent of the root is the root (C truncates -1/4 to 0). */
  function Parent(i: nat): (p: nat)
    ensures if i == 0 then p == 0 else p < i && DHEAP * p < i <= DHEAP * p + DHEAP
  {
    if i == 0 then 0 else (i - 1) / DHEAP
  }

  /** Heap order between position `i` and its parent. */
  predicate Edge(s: seq<Entry>, i: nat)
    requires i < |s|
  {
    s[Parent(i)].at <= s[i].at
  }

  /** Heap order among the first `m` entries. */
  predicate Ordered(s: seq<Entry>, m: nat)
    requires m <= |s|
  {
    forall i: nat :: i < m ==> Edge(s, i)
  }

  /** Heap order among the first `m` entries, where position `k` is to receive time `x`,
      except possibly between `k` and its parent. */
  predicate UpOk(s: seq<Entry>, m: nat, k: nat, x: real)
    requires k < m <= |s|
  {
    && (forall i: nat :: i < m && i != k && Parent(i) != k ==> Edge(s, i))
    && (forall i: nat :: 0 < i < m && Parent(i) == k ==> x <= s[i].at && s[Parent(k)].at <= s[i].at)
  }

  /** As `UpOk`, except possibly between `k` and its children. */
  predicate DownOk(s: seq<Entry>, m: nat, k: nat, x: real)
    requires k < m <= |s|
  {
    && (forall i: nat :: i < m && i != k && Parent(i) != k ==> Edge(s, i))
    && (k > 0 ==> s[Parent(k)].at <= x)
    && (forall i: nat :: 0 < i < m && k > 0 && Parent(i) == k ==> s[Parent(k)].at <= s[i].at)
  }

  lemma UpStep(s: seq<Entry>, m: nat, k: nat, x: real)
    requires 0 < k < m <= |s| && UpOk(s, m, k, x) && x <= s[Parent(k)].at
    ensures UpOk(s[k := s[Parent(k)]], m, Parent(k), x)
  {
  }

  lemma UpDone(s: seq<Entry>, m: nat, k: nat, e: Entry)
    requires k < m <= |s| && UpOk(s, m, k, e.at) && (k == 0 || s[Parent(k)].at <= e.at)
    ensures Ordered(s[k := e], m)
  {
  }

  /** `c` is a least child of `k`. */
  predicate LeastChild(s: seq<Entry>, m: nat, k: nat, c: nat)
    requires m <= |s|
  {
    && 0 < c < m && Parent(c) == k
    && forall i: nat :: 0 < i < m && Parent(i) == k ==> s[c].at <= s[i].at
  }

  lemma DownStep(s: seq<Entry>, m: nat, k: nat, c: nat, x: real)
    requires k < m <= |s| && DownOk(s, m, k, x) && LeastChild(s, m, k, c) && s[c].at <= x
    ensures DownOk(s[k := s[c]], m, c, x)
  {
  }

  lemma DownDone(s: seq<Entry>, m: nat, k: nat, e: Entry)
    requires k < m <= |s| && DownOk(s, m, k, e.at)
    requires forall i: nat :: 0 < i < m && Parent(i) == k ==> e.at <= s[i].at
    ensures Ordered(s[k := e], m)
  {
  }

  /** Heap order everywhere except around position `k`. */
  predicate OrderedAround(s: seq<Entry>, k: nat)
    requires k < |s|
  {
    && (forall i: nat :: i < |s| && i != k && Parent(i) != k ==> Edge(s, i))
    && (forall i: nat :: 0 < i < |s| && k > 0 && Parent(i) == k ==> s[Parent(k)].at <= s[i].at)
  }

  /** An ordered heap, possibly cut short, stays ordered around the one position that changed. */
  lemma ChangedAt(b: seq<Entry>, s: seq<Entry>, k: nat)
    requires Ordered(b, |b|) && k < |s| <= |b|
    requires forall i: nat :: i < |s| && i != k ==> s[i] == b[i]
    ensures OrderedAround(s, k)
  {
    assert Edge(b, k);
    forall i: nat | i < |s|
      ensures i != k && Parent(i) != k ==> Edge(s, i)
      ensures 0 < i && k > 0 && Parent(i) == k ==> s[Parent(k)].at <= s[i].at
    {
      assert Edge(b, i);
    }
  }

  /** `b` with its last entry in the place of the one at `k`. */
  function LastMoved(b: seq<Entry>, k: nat): (s: seq<Entry>)
    requires k + 1 < |b|
    ensures |s| == |b| - 1 && s[k] == b[|b| - 1]
    ensures forall i: nat :: i < |s| && i != k ==> s[i] == b[i]
  {
    b[..|b| - 1][k := b[|b| - 1]]
  }

  lemma LastMovedIsOrdered(b: seq<Entry>, k: nat)
    requires Ordered(b, |b|) && k + 1 < |b|
    ensures OrderedAround(LastMoved(b, k), k)
  {
    ChangedAt(b, LastMoved(b, k), k);
  }

  lemma OrderedPrefix(b: seq<Entry>, s: seq<Entry>)
    requires Ordered(b, |b|) && s <= b
    ensures Ordered(s, |s|)
  {
    forall i: nat | i < |s|
      ensures Edge(s, i)
    {
      assert Edge(b, i);
    }
  }

  /** The root of an ordered heap is a minimum. */
  lemma {:induction false} RootIsLeast(s: seq<Entry>, m: nat, i: nat)
    requires i < m <= |s| && Ordered(s, m)
    ensures s[0].at <= s[i].at
  {
    if i > 0 {
      assert Edge(s, i);
      RootIsLeast(s, m, Parent(i));
    }
  }

  class Heap {
    var a: seq<Entry>
    ghost var live: set<Watcher>

    constructor ()
      ensures a == [] && live == {}
      ensures Valid()
    {
      a, live := [], {};
    }

    /** What the source's `verify_heap` checks of the index and the cached time at position `i`. */
    ghost predicate SlotOk(i: nat)
      requires i < |a|
      reads this, live`active, live`at
    {
      a[i].w in live && a[i].w.active == HEAP0 + i && a[i].at == a[i].w.at
    }

    /** The back-index of `w` leads to `w`. */
    ghost predicate Placed(w: Watcher)
      reads this, w`active
    {
      HEAP0 <= w.active < HEAP0 + |a| && a[w.active - HEAP0].w == w
    }

    /** The heap holds exactly the watchers in `live`, each once. */
    ghost predicate Indexed()
      reads this, live`active, live`at
    {
      && (forall i: nat :: i < |a| ==> SlotOk(i))
      && (forall w :: w in live ==> Placed(w))
    }

    ghost predicate Valid()
      reads this, live`active, live`at
    {
      Indexed() && Ordered(a, |a|)
    }

    /** As `Indexed`, while entry `e` is held outside and position `k` is free. */
    ghost predicate Hole(e: Entry, k: nat)
      reads this, live`active, live`at
    {
      && k < |a| && e.w in live && e.at == e.w.at
      && (forall i: nat :: i < |a| && i != k ==> SlotOk(i) && a[i].w != e.w)
      && (forall w :: w in live && w != e.w ==> Placed(w) && w.active != HEAP0 + k)
    }

    lemma IndexedIsHole(k: nat)
      requires Indexed() && k < |a|
      ensures Hole(a[k], k)
    {
      assert SlotOk(k);
      forall i: nat | i < |a| && i != k
        ensures a[i].w != a[k].w
      {
        assert SlotOk(i);
      }
      forall w | w in live && w != a[k].w
        ensures w.active != HEAP0 + k
      {
        assert Placed(w);
      }
    }

    lemma HoleIsIndexed(k: nat)
      requires k < |a| && Hole(a[k], k) && a[k].w.active == HEAP0 + k
      ensures Indexed()
    {
    }

    /** Moves the entry at `from` into the free position `k`. */
    method Shift(k: nat, from: nat, ghost e: Entry)
      requires Hole(e, k) && from < |a| && from != k
      modifies this`a, live`active
      ensures Hole(e, from)
      ensures a == old(a)[k := old(a)[from]]
    {
      assert SlotOk(from);
      var w := a[from].w;
      a := a[k := a[from]];
      w.active := HEAP0 + k;
      forall i: nat | i < |a| && i != from
        ensures SlotOk(i) && a[i].w != e.w
      {
        assert i != k ==> old(SlotOk(i));
      }
      forall v | v in live && v != e.w
        ensures Placed(v) && v.active != HEAP0 + from
      {
        assert old(Placed(v));
      }
    }

    method Fill(k: nat, e: Entry)
      requires Hole(e, k)
      modifies this`a, live`active
      ensures Indexed()
      ensures a == old(a)[k := e]
    {
      a := a[k := e];
      e.w.active := HEAP0 + k;
      forall i: nat | i < |a|
        ensures SlotOk(i)
      {
        assert i != k ==> old(SlotOk(i));
      }
      forall v | v in live
        ensures Placed(v)
      {
        assert v != e.w ==> old(Placed(v));
      }
    }

    /** Towards the root. */
    method UpHeap(k0: nat, ghost m: nat)
      requires k0 < m <= |a|
      requires Hole(a[k0], k0)
      requires UpOk(a, m, k0, a[k0].at)
      modifies this`a, live`active
      ensures Indexed() && |a| == old(|a|) && Ordered(a, m)
      ensures forall i :: k0 < i < |a| ==> a[i] == old(a)[i]
    {
      var k := k0;
      var e := a[k];
      while true
        invariant k <= k0 && |a| == old(|a|)
        invariant Hole(e, k)
        invariant UpOk(a, m, k, e.at)
        invariant forall i :: k0 < i < |a| ==> a[i] == old(a)[i]
        decreases k
      {
        var p := Parent(k);
        if p == k || a[p].at <= e.at {
          break;
        }
        UpStep(a, m, k, e.at);
        Shift(k, p, e);
        k := p;
      }
      UpDone(a, m, k, e);
      Fill(k, e);
    }

    /** The position of a least child, found as the source does: its fast path when all four
        children exist, its slow path otherwise. */
    method FindLeastChild(k: nat) returns (c: nat)
      requires DHEAP * k + 1 < |a|
      ensures LeastChild(a, |a|, k, c)
    {
      var pos := DHEAP * k + 1;
      c := pos;
      if pos + DHEAP - 1 < |a| {
        if a[pos + 1].at < a[c].at { c := pos + 1; }
        if a[pos + 2].at < a[c].at { c := pos + 2; }
        if a[pos + 3].at < a[c].at { c := pos + 3; }
      } else {
        if pos + 1 < |a| && a[pos + 1].at < a[c].at { c := pos + 1; }
        if pos + 2 < |a| && a[pos + 2].at < a[c].at { c := pos + 2; }
        // the source's test of pos + 3 < |a| here contradicts the failed fast-path test
      }
      assert forall i: nat :: 0 < i < |a| && Parent(i) == k ==>
          i == pos || i == pos + 1 || i == pos + 2 || i == pos + 3;
    }

    /** Away from the root. */
    method DownHeap(k0: nat)
      requires k0 < |a|
      requires Hole(a[k0], k0)
      requires DownOk(a, |a|, k0, a[k0].at)
      modifies this`a, live`active
      ensures Valid()
      ensures |a| == old(|a|)
    {
      var k := k0;
      var e := a[k];
      while true
        invariant k < |a| == old(|a|)
        invariant Hole(e, k)
        invariant DownOk(a, |a|, k, e.at)
        decreases |a| - k
      {
        if DHEAP * k + 1 >= |a| {
          break;
        }
        var c := FindLeastChild(k);
        if e.at <= a[c].at {
          break;
        }
        DownStep(a, |a|, k, c, e.at);
        Shift(k, c, e);
        k := c;
      }
      DownDone(a, |a|, k, e);
      Fill(k, e);
    }

    /** Position `k` received an arbitrary time: move its entry to a correct place. */
    method AdjustHeap(k: nat)
      requires k < |a|
      requires Hole(a[k], k)
      requires OrderedAround(a, k)
      modifies this`a, live`active
      ensures Valid()
      ensures |a| == old(|a|)
    {
      if k > 0 && a[k].at <= a[Parent(k)].at {
        assert UpOk(a, |a|, k, a[k].at);
        UpHeap(k, |a|);
      } else {
        DownHeap(k);
      }
    }

    /** Rebuilds the order after arbitrary changes of the times. */
    method ReHeap()
      requires Indexed()
      modifies this`a, live`active
      ensures Valid()
      ensures |a| == old(|a|)
    {
      var i := 0;
      while i < |a|
        invariant 0 <= i <= |a| == old(|a|)
        invariant Indexed()
        invariant Ordered(a, i)
      {
        assert forall j: nat :: j < i ==> Edge(a, j);
        IndexedIsHole(i);
        UpHeap(i, i + 1);
        i := i + 1;
      }
    }

    lemma LiveSlot(w: Watcher)
      requires Indexed() && w in live
      ensures HEAP0 <= w.active < HEAP0 + |a| && a[w.active - HEAP0] == Entry(w, w.at)
    {
      assert Placed(w);
      assert SlotOk(w.active - HEAP0);
    }

    /** The root holds the earliest time of all live watchers. */
    lemma RootIsEarliest(w: Watcher)
      requires Valid() && w in live
      ensures |a| > 0 && a[0].at <= w.at
    {
      LiveSlot(w);
      RootIsLeast(a, |a|, w.active - HEAP0);
    }

    method Insert(w: Watcher)
      requires Valid() && w !in live
      modifies this, live`active, w`active
      ensures Valid() && live == old(live) + {w}
    {
      ghost var b := a;
      assert forall i: nat :: i < |a| ==> SlotOk(i);
      w.active := HEAP0 + |a|;
      a := a + [Entry(w, w.at)];
      live := live + {w};
      forall i: nat | i < |a|
        ensures SlotOk(i)
      {
        assert i < |b| ==> old(SlotOk(i));
      }
      forall v | v in live
        ensures Placed(v)
      {
        assert v != w ==> old(Placed(v));
      }
      IndexedIsHole(|b|);
      forall i: nat | i < |b|
        ensures Edge(a, i)
      {
        assert Edge(b, i);
      }
      UpHeap(|a| - 1, |a|);
    }

    /** Takes out the watcher at `k` and puts the last entry in its place. */
    method MoveLastTo(k: nat)
      requires Indexed() && k + 1 < |a|
      modifies this
      ensures a == LastMoved(old(a), k) && live == old(live) - {old(a)[k].w} && Hole(a[k], k)
    {
      var last := a[|a| - 1];
      assert SlotOk(k) && SlotOk(|a| - 1);
      live := live - {a[k].w};
      a := LastMoved(a, k);
      forall i: nat | i < |a| && i != k
        ensures SlotOk(i) && a[i].w != last.w
      {
        assert old(SlotOk(i));
      }
      forall v | v in live && v != last.w
        ensures Placed(v) && v.active != HEAP0 + k
      {
        assert old(Placed(v));
      }
    }

    /** Takes out the watcher at `k`, which is not the last. */
    method RemoveAt(k: nat)
      requires Valid() && k + 1 < |a|
      modifies this, live`active
      ensures Valid() && live == old(live) - {old(a)[k].w}
    {
      LastMovedIsOrdered(a, k);
      MoveLastTo(k);
      AdjustHeap(k);
    }

    /** Takes out the last watcher. */
    method DropLast()
      requires Valid() && |a| > 0
      modifies this
      ensures Valid() && live == old(live) - {old(a)[|old(a)| - 1].w}
    {
      assert SlotOk(|a| - 1);
      live := live - {a[|a| - 1].w};
      a := a[..|a| - 1];
      OrderedPrefix(old(a), a);
      forall i: nat | i < |a|
        ensures SlotOk(i)
      {
        assert old(SlotOk(i));
      }
      assert forall v :: v in live ==> old(Placed(v));
    }

    method Remove(w: Watcher)
      requires Valid() && w in live
      modifies this, live`active
      ensures Valid() && live == old(live) - {w}
    {
      LiveSlot(w);
      var k := w.active - HEAP0;
      if k < |a| - 1 {
        RemoveAt(k);
      } else {
        DropLast();
      }
    }

    /** Gives the watcher at `k` the time `t`, in the watcher and in the cache. */
    method Recache(k: nat, t: real)
      requires Indexed() && k < |a|
      modifies this`a, a[k].w`at
      ensures a == old(a)[k := Entry(old(a)[k].w, t)] && a[k].w.at == t && Hole(a[k], k)
    {
      IndexedIsHole(k);
      var w := a[k].w;
      w.at := t;
      a := a[k := Entry(w, t)];
      forall i: nat | i < |a| && i != k
        ensures SlotOk(i)
      {
        assert old(SlotOk(i));
      }
      forall v | v in live && v != w
        ensures Placed(v) && v.active != HEAP0 + k
      {
        assert old(Placed(v));
      }
    }

    /** Gives `w` the time `t` and moves it into place. */
    method SetAt(w: Watcher, t: real)
      requires Valid() && w in live
      modifies this`a, live`active, w`at
      ensures Valid() && w.at == t && |a| == old(|a|)
    {
      LiveSlot(w);
      var k := w.active - HEAP0;
      Recache(k, t);
      ChangedAt(old(a), a, k);
      AdjustHeap(k);
    }

    /** As `SetAt` for the root and a later time, which need only go down. */
    method PostponeRoot(t: real)
      requires Valid() && |a| > 0 && a[0].at <= t
      modifies this`a, live`active, a[0].w`at
      ensures Valid() && old(a[0].w).at == t && |a| == old(|a|)
    {
      Recache(0, t);
      ChangedAt(old(a), a, 0);
      DownHeap(0);
    }

    /** Adds the same offset to every time: the order cannot change, so none is restored. */
    method ShiftAll(adjust: real)
      requires Valid()
      modifies this`a, live`at
      ensures Valid() && |a| == old(|a|)
      ensures forall w :: w in live ==> w.at == old(w.at) + adjust
    {
      var i := 0;
      while i < |a|
        invariant 0 <= i <= |a| == old(|a|)
        invariant Indexed()
        invariant forall j: nat :: j < |a| ==>
                    a[j] == if j < i then old(a)[j].(at := old(a)[j].at + adjust) else old(a)[j]
        invariant forall w :: w in live ==> w.active == old(w.active)
        invariant forall w :: w in live && w.active >= HEAP0 + i ==> w.at == old(w.at)
        invariant forall w :: w in live && w.active < HEAP0 + i ==> w.at == old(w.at) + adjust
      {
        assert SlotOk(i);
        ghost var v := a[i].w;
        Recache(i, a[i].w.at + adjust);
        HoleIsIndexed(i);
        i := i + 1;
      }
      forall j: nat | j < |a|
        ensures Edge(a, j)
      {
        assert Edge(old(a), j);
      }
      assert forall w :: w in live ==> Placed(w);
    }
  }
}
