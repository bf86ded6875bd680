/** The per-priority stacks of pending watchers. */
module Pending {
  import opened Watchers

  const NUMPRI: nat := 5

  type Events = bv32

  datatype Option<+T> = None | Some(value: T)

  datatype Item = Item(w: Watcher, events: Events)

  /** The events that wait after `revents` were fed. */
  function Joined(o: Option<Events>, revents: Events): Events {
    match o
    case None => revents
    case Some(e) => e | revents
  }

  predicate Shares(events: Events, mask: Events) {
    events & mask != 0
  }

  /** The events `now` have a bit of the mask exactly if `revents` or the events `was` have. */
  predicate GainedAt(was: Option<Events>, now: Events, revents: Events, mask: Events) {
    Shares(now, mask) <==> Shares(revents, mask) || (was.Some? && Shares(was.value, mask))
  }

  /** No event is lost and none made up. */
  ghost predicate Gained(was: Option<Events>, now: Option<Events>, revents: Events) {
    now.Some? && forall mask :: GainedAt(was, now.value, revents, mask)
  }

  lemma OrMasked(a: Events, b: Events, m: Events)
    ensures (a | b) & m == (a & m) | (b & m)
  {
  }

  lemma OrIsZero(a: Events, b: Events)
    ensures a | b == 0 <==> a == 0 && b == 0
  {
  }

  lemma MaskedIsZero(a: Events, b: Events, m: Events, x: Events, y: Events, z: Events)
    requires x == a & m && y == b & m && z == (a | b) & m
    ensures z != 0 <==> x != 0 || y != 0
  {
    OrMasked(a, b, m);
    OrIsZero(x, y);
  }

  lemma OrShares(a: Events, b: Events, m: Events)
    ensures Shares(a | b, m) <==> Shares(a, m) || Shares(b, m)
  {
    MaskedIsZero(a, b, m, a & m, b & m, (a | b) & m);
  }

  lemma OrGains(e: Events, revents: Events, m: Events)
    ensures GainedAt(Some(e), e | revents, revents, m)
  {
    OrShares(e, revents, m);
  }

  lemma JoinedGains(o: Option<Events>, revents: Events, m: Events)
    ensures GainedAt(o, Joined(o, revents), revents, m)
  {
    if o.Some? {
      OrGains(o.value, revents, m);
    }
  }

  /** Feeding loses no event and makes up none. */
  lemma JoinedBits(o: Option<Events>, revents: Events)
    ensures Gained(o, Some(Joined(o, revents)), revents)
  {
    forall m
      ensures GainedAt(o, Joined(o, revents), revents, m)
    {
      JoinedGains(o, revents, m);
    }
  }

  predicate PairDistinct(rf: seq<Watcher>, i: nat, j: nat)
    requires i < |rf| && j < |rf|
  {
    rf[i] != rf[j]
  }

  ghost predicate Distinct(rf: seq<Watcher>) {
    forall i: nat, j: nat :: i < j < |rf| ==> PairDistinct(rf, i, j)
  }

  /** If `rf[i]` and `rf[j]` are both in `anew` and share a stack, `rf[i]` is above `rf[j]`. */
  ghost predicate PairOnTop(rf: seq<Watcher>, anew: set<Watcher>, i: nat, j: nat)
    requires i < |rf| && j < |rf|
    reads rf`pending
  {
    rf[i].priority == rf[j].priority && rf[i] in anew && rf[j] in anew ==> rf[i].pending > rf[j].pending
  }

  /** From index `n` on, the new watchers of each stack stand in the order of `rf`, first on top. */
  ghost predicate OnTop(rf: seq<Watcher>, anew: set<Watcher>, n: nat)
    reads rf`pending
  {
    forall i: nat, j: nat :: n <= i < j < |rf| ==> PairOnTop(rf, anew, i, j)
  }

  /** The callbacks made when the stacks `ps`, the lowest `n` of them, are emptied from the
      highest priority down, each from the top. */
  function Calls(ps: seq<seq<Item>>, n: nat): (r: seq<Item>)
    requires n <= |ps|
  {
    if n == 0 then [] else Reversed(ps[n - 1]) + Calls(ps, n - 1)
  }

  function Reversed(s: seq<Item>): (r: seq<Item>)
    ensures |r| == |s|
    ensures forall i :: 0 <= i < |s| ==> r[i] == s[|s| - 1 - i]
  {
    if s == [] then [] else [s[|s| - 1]] + Reversed(s[..|s| - 1])
  }

  /** When slot `j` of priority `p` is called, as an index into `Calls(ps, n)`. */
  function CallIndex(ps: seq<seq<Item>>, n: nat, p: nat, j: nat): nat
    requires p < n <= |ps| && j < |ps[p]|
  {
    if p == n - 1 then |ps[p]| - 1 - j else |ps[n - 1]| + CallIndex(ps, n - 1, p, j)
  }

  lemma {:induction false} CallAt(ps: seq<seq<Item>>, n: nat, p: nat, j: nat)
    requires p < n <= |ps| && j < |ps[p]|
    ensures CallIndex(ps, n, p, j) < |Calls(ps, n)|
    ensures Calls(ps, n)[CallIndex(ps, n, p, j)] == ps[p][j]
  {
    var top, rest := Reversed(ps[n - 1]), Calls(ps, n - 1);
    assert Calls(ps, n) == top + rest;
    if p < n - 1 {
      CallAt(ps, n - 1, p, j);
    }
  }

  /** Every call comes from a slot. */
  lemma {:induction false} CallFrom(ps: seq<seq<Item>>, n: nat, i: nat) returns (p: nat, j: nat)
    requires n <= |ps| && i < |Calls(ps, n)|
    ensures p < n && j < |ps[p]| && i == CallIndex(ps, n, p, j)
  {
    if i < |ps[n - 1]| {
      p, j := n - 1, |ps[n - 1]| - 1 - i;
    } else {
      p, j := CallFrom(ps, n - 1, i - |ps[n - 1]|);
    }
  }

  /** Higher priorities are called first, and within a priority the slot on top. */
  lemma {:induction false} CallOrder(ps: seq<seq<Item>>, n: nat, p: nat, j: nat, q: nat, k: nat)
    requires p < n <= |ps| && j < |ps[p]|
    requires q < n && k < |ps[q]|
    ensures CallIndex(ps, n, p, j) < CallIndex(ps, n, q, k) <==> p > q || (p == q && j > k)
  {
    if p < n - 1 && q < n - 1 {
      CallOrder(ps, n - 1, p, j, q, k);
    }
  }

  /** `w` is called once, at `i`. */
  predicate OnlyAt(calls: seq<Item>, w: Watcher, i: nat) {
    && i < |calls| && calls[i].w == w
    && forall k :: 0 <= k < |calls| && calls[k].w == w ==> k == i
  }

  /** Every call of `w` precedes every call of `v`. */
  predicate CalledBefore(calls: seq<Item>, w: Watcher, v: Watcher) {
    forall k, l :: 0 <= k < |calls| && 0 <= l < |calls| && calls[k].w == w && calls[l].w == v ==> k < l
  }

  /** `w` stands in slot `j` of priority `p` and nowhere else. */
  ghost predicate OnlySlot(ps: seq<seq<Item>>, w: Watcher, p: nat, j: nat) {
    && p < |ps| && j < |ps[p]| && ps[p][j].w == w
    && forall q: nat, k: nat :: q < |ps| && k < |ps[q]| && ps[q][k].w == w ==> q == p && k == j
  }

  lemma CalledOnceFromSlot(ps: seq<seq<Item>>, w: Watcher, p: nat, j: nat)
    requires OnlySlot(ps, w, p, j)
    ensures OnlyAt(Calls(ps, |ps|), w, CallIndex(ps, |ps|, p, j))
    ensures Calls(ps, |ps|)[CallIndex(ps, |ps|, p, j)] == ps[p][j]
  {
    CallAt(ps, |ps|, p, j);
    var calls := Calls(ps, |ps|);
    forall i | 0 <= i < |calls| && calls[i].w == w
      ensures i == CallIndex(ps, |ps|, p, j)
    {
      var q, k := CallFrom(ps, |ps|, i);
      CallAt(ps, |ps|, q, k);
    }
  }

  lemma CalledBeforeFromSlots(ps: seq<seq<Item>>, w: Watcher, p: nat, j: nat, v: Watcher, q: nat, k: nat)
    requires OnlySlot(ps, w, p, j) && OnlySlot(ps, v, q, k) && (p > q || (p == q && j > k))
    ensures CalledBefore(Calls(ps, |ps|), w, v)
  {
    CalledOnceFromSlot(ps, w, p, j);
    CalledOnceFromSlot(ps, v, q, k);
    CallOrder(ps, |ps|, p, j, q, k);
  }

  /** The stacks from `n` up have been emptied, the others not touched. */
  ghost predicate Drained(ps: seq<seq<Item>>, was: seq<seq<Item>>, n: nat) {
    && n <= |ps| == |was|
    && forall p: nat :: p < |ps| ==> ps[p] == if p < n then was[p] else []
  }

  lemma CallsStep(ps: seq<seq<Item>>, n: nat, before: seq<Item>, more: seq<Item>)
    requires n < |ps| && more == Reversed(ps[n])
    ensures before + Calls(ps, n + 1) == before + more + Calls(ps, n)
  {
  }

  class PendingQueue {
    var pendings: seq<seq<Item>>
    const dummy: Watcher
    ghost var all: set<Watcher>

    constructor (dummy: Watcher)
      ensures Valid() && all == {} && this.dummy == dummy
      ensures forall p :: 0 <= p < NUMPRI ==> pendings[p] == []
    {
      this.dummy := dummy;
      all := {};
      pendings := seq(NUMPRI, _ => []);
    }

    /** A slot holds the dummy, or a watcher that knows the slot. */
    ghost predicate SlotOk(p: nat, j: nat)
      requires p < |pendings| && j < |pendings[p]|
      reads this, all`pending
    {
      var w := pendings[p][j].w;
      w == dummy || (w in all && w.priority == p && w.pending == j + 1)
    }

    /** A watcher marked pending owns the slot it names (the source's `verify_watcher`). */
    ghost predicate Owns(w: Watcher)
      requires |pendings| == NUMPRI
      reads this, w`pending
    {
      && w.priority < NUMPRI
      && (w.pending > 0 ==>
            w.pending <= |pendings[w.priority]| && pendings[w.priority][w.pending - 1].w == w)
    }

    ghost predicate Valid()
      reads this, all`pending
    {
      && |pendings| == NUMPRI
      && dummy !in all
      && (forall p: nat, j: nat :: p < NUMPRI && j < |pendings[p]| ==> SlotOk(p, j))
      && (forall w :: w in all ==> Owns(w))
    }

    /** The events that wait for `w`, or `None` when it is not pending. */
    ghost function Waiting(w: Watcher): Option<Events>
      requires |pendings| == NUMPRI && Owns(w)
      reads this, w`pending
    {
      if w.pending == 0 then None else Some(pendings[w.priority][w.pending - 1].events)
    }

    /** `w` is the only watcher whose pending state changed since the method began. */
    twostate predicate OthersWait(w: Watcher)
      requires old(Valid()) && Valid() && all == old(all)
      reads this, all`pending
    {
      forall v :: v in all && v != w ==>
        v.pending == old(v.pending) && old(Owns(v)) && Owns(v) && Waiting(v) == old(Waiting(v))
    }

    /** `ev_feed_event` for a watcher that is pending. */
    method Merge(w: Watcher, revents: Events)
      requires Valid() && w in all && w.pending > 0
      modifies this`pendings
      ensures Valid() && OthersWait(w)
      ensures old(Owns(w)) && Owns(w) && Waiting(w) == Some(Joined(old(Waiting(w)), revents))
      ensures forall p: nat :: p < NUMPRI ==> |pendings[p]| == old(|pendings[p]|)
    {
      assert Owns(w);
      var pri := w.priority;
      var item := pendings[pri][w.pending - 1];
      pendings := pendings[pri := pendings[pri][w.pending - 1 := item.(events := item.events | revents)]];
      forall p: nat, j: nat | p < NUMPRI && j < |pendings[p]|
        ensures SlotOk(p, j)
      {
        assert old(SlotOk(p, j));
      }
      assert forall v :: v in all ==> old(Owns(v));
    }

    /** `ev_feed_event` for a watcher that is not pending. */
    method Push(w: Watcher, revents: Events)
      requires Valid() && w in all && w.pending == 0
      modifies this`pendings, w`pending
      ensures Valid() && OthersWait(w)
      ensures Owns(w) && Waiting(w) == Some(revents) && w.pending == old(|pendings[w.priority]|) + 1
      ensures |pendings[w.priority]| == w.pending
      ensures forall p: nat :: p < NUMPRI && p != w.priority ==> |pendings[p]| == old(|pendings[p]|)
    {
      assert Owns(w);
      var pri := w.priority;
      w.pending := |pendings[pri]| + 1;
      pendings := pendings[pri := pendings[pri] + [Item(w, revents)]];
      forall p: nat, j: nat | p < NUMPRI && j < |pendings[p]|
        ensures SlotOk(p, j)
      {
        assert j < old(|pendings[p]|) ==> old(SlotOk(p, j));
      }
      assert forall v :: v in all ==> old(Owns(v));
    }

    /** `ev_feed_event`. */
    method Feed(w: Watcher, revents: Events)
      requires Valid() && w in all
      modifies this`pendings, w`pending
      ensures Valid() && OthersWait(w)
      ensures old(Owns(w)) && Owns(w) && Waiting(w) == Some(Joined(old(Waiting(w)), revents))
      ensures Gained(old(Waiting(w)), Waiting(w), revents)
      ensures old(w.pending) > 0 ==> w.pending == old(w.pending)
      ensures old(w.pending) == 0 ==> w.pending == old(|pendings[w.priority]|) + 1
      ensures forall p: nat :: p < NUMPRI ==> |pendings[p]| >= old(|pendings[p]|)
      ensures |pendings[w.priority]| >= w.pending
    {
      assert Owns(w);
      JoinedBits(Waiting(w), revents);
      if w.pending > 0 {
        Merge(w, revents);
      } else {
        Push(w, revents);
      }
    }

    /** `feed_reverse_done`: feeds the watchers in `rf` from the last to the first, so that of
        those that were not pending the first ends up on top. */
    method FeedReverseDone(rf: seq<Watcher>, revents: Events, ghost anew: set<Watcher>)
      requires Valid() && Distinct(rf)
      requires forall w :: w in rf ==> w in all
      requires forall w :: w in rf && w in anew ==> w.pending == 0
      modifies this`pendings, rf`pending
      ensures Valid()
      ensures forall w :: w in all && w in rf ==> old(Owns(w)) && Waiting(w) == Some(Joined(old(Waiting(w)), revents))
      ensures forall w :: w in all && w in rf ==> Gained(old(Waiting(w)), Waiting(w), revents)
      ensures forall w :: w in all && w !in rf ==>
                w.pending == old(w.pending) && old(Owns(w)) && Waiting(w) == old(Waiting(w))
      ensures OnTop(rf, anew, 0)
    {
      var n := |rf|;
      assert forall w :: w in all ==> Owns(w);
      while n > 0
        invariant 0 <= n <= |rf| && Valid()
        invariant forall w :: w in all && w in rf[n..] ==>
                    old(Owns(w)) && Waiting(w) == Some(Joined(old(Waiting(w)), revents))
        invariant forall w :: w in all && w !in rf[n..] ==>
                    w.pending == old(w.pending) && old(Owns(w)) && Waiting(w) == old(Waiting(w))
        invariant OnTop(rf, anew, n)
      {
        n := n - 1;
        assert rf[n..] == [rf[n]] + rf[n + 1..];
        forall j: nat | n < j < |rf|
          ensures rf[j] != rf[n] && Owns(rf[j])
        {
          assert PairDistinct(rf, n, j);
        }
        label before:
        Feed(rf[n], revents);
        forall i: nat, j: nat | n <= i < j < |rf|
          ensures PairOnTop(rf, anew, i, j)
        {
          assert i > n ==> old@before(PairOnTop(rf, anew, i, j));
        }
      }
      forall w | w in all && w in rf
        ensures old(Owns(w)) && Gained(old(Waiting(w)), Waiting(w), revents)
      {
        assert rf[0..] == rf;
        JoinedBits(old(Waiting(w)), revents);
      }
    }

    /** `clear_pending` and `ev_clear_pending`: the slot is left to the dummy. */
    method Clear(w: Watcher) returns (events: Option<Events>)
      requires Valid() && w in all
      modifies this`pendings, w`pending
      ensures Valid()
      ensures w.pending == 0 && events == old(Waiting(w))
      ensures forall v :: v in all && v != w ==> old(Owns(v)) && Waiting(v) == old(Waiting(v))
      ensures forall p: nat :: p < NUMPRI ==> |pendings[p]| == old(|pendings[p]|)
    {
      assert Owns(w);
      var pri := w.priority;
      events := None;
      if w.pending > 0 {
        var item := pendings[pri][w.pending - 1];
        pendings := pendings[pri := pendings[pri][w.pending - 1 := item.(w := dummy)]];
        w.pending := 0;
        events := Some(item.events);
      }
      forall p: nat, j: nat | p < NUMPRI && j < |pendings[p]|
        ensures SlotOk(p, j)
      {
        assert old(SlotOk(p, j));
      }
      assert forall v :: v in all ==> old(Owns(v));
    }

    /** One step of `ev_invoke_pending`: takes the top of a stack, whose callback runs next. */
    method Pop(pri: nat) returns (item: Item)
      requires Valid() && pri < NUMPRI && pendings[pri] != []
      modifies this`pendings, all`pending, dummy`pending
      ensures Valid()
      ensures item == old(pendings[pri][|pendings[pri]| - 1])
      ensures pendings == old(pendings)[pri := old(pendings[pri][..|pendings[pri]| - 1])]
      ensures item.w.pending == 0
      ensures forall w :: w in all && w != item.w ==> w.pending == old(w.pending)
    {
      var top := |pendings[pri]| - 1;
      assert SlotOk(pri, top);
      item := pendings[pri][top];
      pendings := pendings[pri := pendings[pri][..top]];
      item.w.pending := 0;
      forall p: nat, j: nat | p < NUMPRI && j < |pendings[p]|
        ensures SlotOk(p, j)
      {
        assert old(SlotOk(p, j));
      }
      assert forall v :: v in all ==> old(Owns(v));
    }

    method InvokePriority(pri: nat) returns (calls: seq<Item>)
      requires Valid() && pri < NUMPRI
      modifies this`pendings, all`pending, dummy`pending
      ensures Valid()
      ensures pendings == old(pendings)[pri := []]
      ensures calls == Reversed(old(pendings)[pri])
    {
      calls := [];
      while |pendings[pri]| > 0
        invariant Valid()
        invariant pendings == old(pendings)[pri := pendings[pri]]
        invariant calls + Reversed(pendings[pri]) == Reversed(old(pendings)[pri])
        decreases |pendings[pri]|
      {
        ghost var before := pendings[pri];
        var item := Pop(pri);
        calls := calls + [item];
        assert Reversed(before) == [item] + Reversed(pendings[pri]);
      }
    }

    /** `ev_invoke_pending` with callbacks that do not touch the loop. */
    method InvokePending() returns (calls: seq<Item>)
      requires Valid()
      modifies this`pendings, all`pending, dummy`pending
      ensures Valid()
      ensures forall p: nat :: p < NUMPRI ==> pendings[p] == []
      ensures forall w :: w in all ==> w.pending == 0
      ensures calls == Calls(old(pendings), |old(pendings)|)
    {
      calls := [];
      var pri := |pendings|;
      while pri > 0
        invariant 0 <= pri <= |pendings| && Valid()
        invariant Drained(pendings, old(pendings), pri)
        invariant calls + Calls(old(pendings), pri) == Calls(old(pendings), |old(pendings)|)
      {
        pri := pri - 1;
        ghost var before := calls;
        var more := InvokePriority(pri);
        calls := calls + more;
        CallsStep(old(pendings), pri, before, more);
      }
      EmptyMeansIdle();
    }

    lemma EmptyMeansIdle()
      requires Valid() && forall p: nat :: p < NUMPRI ==> pendings[p] == []
      ensures forall w :: w in all ==> w.pending == 0
    {
    }

    lemma PendingInOneSlot(w: Watcher)
      requires Valid() && w in all && w.pending > 0
      ensures OnlySlot(pendings, w, w.priority, w.pending - 1)
    {
      assert Owns(w);
      forall q: nat, k: nat | q < |pendings| && k < |pendings[q]| && pendings[q][k].w == w
        ensures q == w.priority && k == w.pending - 1
      {
        assert SlotOk(q, k);
      }
    }

    /** Each pending watcher stands in the calls at one place only, with its own events. */
    lemma CalledOnce(w: Watcher)
      requires Valid() && w in all && w.pending > 0
      ensures var calls := Calls(pendings, |pendings|);
              exists i: nat :: OnlyAt(calls, w, i) && Waiting(w) == Some(calls[i].events)
    {
      PendingInOneSlot(w);
      CalledOnceFromSlot(pendings, w, w.priority, w.pending - 1);
    }

    /** Of two pending watchers the one of higher priority, or higher in the same stack, is called first. */
    lemma CallsByRank(w: Watcher, v: Watcher)
      requires Valid() && w in all && v in all && w.pending > 0 && v.pending > 0
      requires w.priority > v.priority || (w.priority == v.priority && w.pending > v.pending)
      ensures CalledBefore(Calls(pendings, |pendings|), w, v)
    {
      PendingInOneSlot(w);
      PendingInOneSlot(v);
      CalledBeforeFromSlots(pendings, w, w.priority, w.pending - 1, v, v.priority, v.pending - 1);
    }

    /** Nobody else is called, apart from the dummy. */
    lemma OnlyPendingCalled(k: nat)
      requires Valid() && k < |Calls(pendings, |pendings|)|
      ensures var w := Calls(pendings, |pendings|)[k].w; w == dummy || (w in all && w.pending > 0)
    {
      var p, j := CallFrom(pendings, |pendings|, k);
      CallAt(pendings, |pendings|, p, j);
      assert SlotOk(p, j);
    }
  }
}
