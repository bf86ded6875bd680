/** The timeouts of libevent: a time heap, and queues of events that share one duration and are
    driven by one event each in the heap. */
module CommonTimeout {

  const MAX_COMMON_TIMEOUTS: nat := 256
  const USEC_RANGE: nat := 0x10_0000

  // ---------- Times with an index in their microseconds ----------

  datatype Timeval = Timeval(sec: int, usec: nat)

  /** The magic number of a common timeout is in the top bits. */
  predicate Tagged(tv: Timeval) {
    tv.usec / 0x1000_0000 == 5
  }

  function Index(tv: Timeval): nat {
    tv.usec / USEC_RANGE % 256
  }

  function Micros(tv: Timeval): nat {
    tv.usec % USEC_RANGE
  }

  /** The microseconds `usec` with the tag of queue `q`. */
  function Tag(usec: nat, q: nat): nat {
    usec + 0x5000_0000 + q * USEC_RANGE
  }

  lemma TagRoundTrip(sec: int, usec: nat, q: nat)
    requires usec < USEC_RANGE && q < MAX_COMMON_TIMEOUTS
    ensures var tv := Timeval(sec, Tag(usec, q)); Tagged(tv) && Index(tv) == q && Micros(tv) == usec
    ensures !Tagged(Timeval(sec, usec)) && Micros(Timeval(sec, usec)) == usec
  {
  }

  /** The tag that `tv` carries, as its top bits. */
  function TagBits(tv: Timeval): nat {
    tv.usec - Micros(tv)
  }

  /** The moment that `tv` stands for, whatever its tag. */
  function Time(tv: Timeval): int {
    tv.sec * 1000000 + Micros(tv)
  }

  /** `tv` with its tag masked off. */
  function Untag(tv: Timeval): (r: Timeval)
    ensures Time(r) == Time(tv) && !Tagged(r) && (Micros(tv) < 1000000 ==> r.usec < 1000000)
  {
    Timeval(tv.sec, Micros(tv))
  }

  /** Less than a second of microseconds, and the tag of one of the `n` queues or none. */
  predicate Proper(tv: Timeval, n: nat) {
    Micros(tv) < 1000000 && if Tagged(tv) then Index(tv) < n else tv.usec < 1000000
  }

  /** `evutil_timercmp` for `<=`: on the fields as they are. */
  predicate AtMost(a: Timeval, b: Timeval) {
    if a.sec == b.sec then a.usec <= b.usec else a.sec <= b.sec
  }

  /** Comparing two times with the same tag compares the times. */
  lemma AtMostIsTime(a: Timeval, b: Timeval)
    requires Micros(a) < 1000000 && Micros(b) < 1000000 && TagBits(a) == TagBits(b)
    ensures AtMost(a, b) <==> Time(a) <= Time(b)
  {
  }

  /** The comparison of `common_timeout_callback`, which masks the tag. */
  predicate Later(tv: Timeval, now: Timeval) {
    tv.sec > now.sec || (tv.sec == now.sec && Micros(tv) > now.usec)
  }

  lemma LaterIsTime(tv: Timeval, now: Timeval)
    requires Micros(tv) < 1000000 && now.usec < 1000000
    ensures Later(tv, now) <==> Time(tv) > Time(now)
  {
  }

  /** `evutil_timeradd`. */
  function TimerAdd(a: Timeval, b: Timeval): (r: Timeval)
    requires a.usec < 1000000 && b.usec < 1000000
    ensures r.usec < 1000000 && Time(r) == Time(a) + Time(b)
  {
    var usec := a.usec + b.usec;
    if usec >= 1000000 then Timeval(a.sec + b.sec + 1, usec - 1000000) else Timeval(a.sec + b.sec, usec)
  }

  lemma TopBits(k: nat, usec: nat)
    requires usec < USEC_RANGE
    ensures var x := k * USEC_RANGE + usec; x / USEC_RANGE == k && x % USEC_RANGE == usec && x / 0x1000_0000 == k / 256
  {
  }

  /** `sum` with the tag of `tv`. */
  function Retag(sum: Timeval, tv: Timeval): (r: Timeval)
    requires sum.usec < 1000000
    ensures Time(r) == Time(sum) && Index(r) == Index(tv) && Tagged(r) == Tagged(tv) && Micros(r) < 1000000
  {
    TopBits(tv.usec / USEC_RANGE, Micros(tv));
    TopBits(tv.usec / USEC_RANGE, sum.usec);
    Timeval(sum.sec, sum.usec + TagBits(tv))
  }

  /** The deadline that `event_add` computes for the interval `tv`. */
  function Deadline(now: Timeval, tv: Timeval, n: nat): (r: Timeval)
    requires now.usec < 1000000 && Proper(tv, n) && n <= MAX_COMMON_TIMEOUTS
    ensures Proper(r, n) && Time(r) == Time(now) + Time(tv)
    ensures Tagged(r) == Tagged(tv) && (Tagged(tv) ==> Index(r) == Index(tv))
  {
    if Tagged(tv) then Retag(TimerAdd(now, Untag(tv)), tv) else TimerAdd(now, tv)
  }

  /** The duration as `event_base_init_common_timeout` looks for it when there are `n` queues. */
  function Normal(tv: Timeval, n: nat): (r: Timeval)
    ensures Time(r) == Length(tv, n) && r.usec <= 1000000 && (r.usec < 1000000 <==> tv.usec != 1000000)
  {
    if tv.usec > 1000000 then
      var usec := if Tagged(tv) && Index(tv) < n then Micros(tv) else tv.usec;
      Timeval(tv.sec + usec / 1000000, usec % 1000000)
    else
      tv
  }

  /** The length of a duration, which may be that of one of `n` queues. */
  function Length(tv: Timeval, n: nat): int {
    tv.sec * 1000000 + if Tagged(tv) && Index(tv) < n then Micros(tv) else tv.usec
  }

  function UntaggedAll(tvs: seq<Timeval>): seq<Timeval> {
    seq(|tvs|, i requires 0 <= i < |tvs| => Untag(tvs[i]))
  }

  /** So the duration of a queue leads back to the queue exactly when it was not given with 1000000
      microseconds, which are not carried into the seconds. */
  lemma NormalTagged(tv: Timeval, n: nat)
    requires Tagged(tv) && Index(tv) < n && Micros(tv) <= 1000000
    ensures Normal(tv, n) == Untag(tv) <==> Micros(tv) < 1000000
  {
  }

  // ---------- Where events wait ----------

  /** An event of the user, or the one that drives queue `q`. */
  datatype Id = User(n: nat) | Driver(q: nat)

  /** `timeout` holds `ev_timeout` of the events that are on EVLIST_TIMEOUT, `active` those on
      EVLIST_ACTIVE with whether EV_TIMEOUT is among the reasons. `running` are the queues whose driver
      has been taken off for its callback, `starved` those whose driver could not get memory. */
  datatype State = State(timeout: map<Id, Timeval>, active: map<Id, bool>, heap: set<Id>, queues: seq<seq<Id>>,
                         running: set<nat>, starved: set<nat>)

  /** Event `e` is where its timeout says. */
  ghost predicate Stored(s: State, e: Id)
    requires e in s.timeout
  {
    var tv := s.timeout[e];
    && Proper(tv, |s.queues|) && (e.Driver? ==> !Tagged(tv) && e.q < |s.queues|)
    && if Tagged(tv) then Index(tv) < |s.queues| && e in s.queues[Index(tv)] else e in s.heap
  }

  ghost predicate AllStored(s: State) {
    forall e :: e in s.timeout ==> Stored(s, e)
  }

  ghost predicate HeapOk(s: State) {
    forall e :: e in s.heap ==> e in s.timeout && !Tagged(s.timeout[e])
  }

  /** Place `i` of a queue holds an event of queue `q`. */
  ghost predicate Member(t: map<Id, Timeval>, queue: seq<Id>, q: nat, i: nat)
    requires i < |queue|
  {
    queue[i] in t && Tagged(t[queue[i]]) && Index(t[queue[i]]) == q
  }

  /** Places `i` and `j` are in order of time. */
  ghost predicate InOrder(t: map<Id, Timeval>, queue: seq<Id>, i: nat, j: nat)
    requires i < |queue| && j < |queue|
  {
    && queue[i] != queue[j]
    && (queue[i] in t && queue[j] in t ==> Time(t[queue[i]]) <= Time(t[queue[j]]))
  }

  ghost predicate QueueOk(t: map<Id, Timeval>, queue: seq<Id>, q: nat) {
    && (forall i: nat :: i < |queue| ==> Member(t, queue, q, i))
    && (forall i: nat, j: nat :: i < j < |queue| ==> InOrder(t, queue, i, j))
  }

  /** The driver of queue `q` will see to its first event in time. */
  ghost predicate Covered(s: State, q: nat)
    requires q < |s.queues|
  {
    var queue := s.queues[q];
    || queue == [] || Driver(q) in s.active || q in s.running || q in s.starved
    || (Driver(q) in s.heap && Driver(q) in s.timeout && queue[0] in s.timeout
        && Time(s.timeout[Driver(q)]) <= Time(s.timeout[queue[0]]))
  }

  /** Everything is in its place. */
  ghost predicate Placed(s: State) {
    && |s.queues| <= MAX_COMMON_TIMEOUTS && AllStored(s) && HeapOk(s)
    && forall q: nat :: q < |s.queues| ==> QueueOk(s.timeout, s.queues[q], q)
  }

  ghost predicate AllCovered(s: State) {
    forall q: nat :: q < |s.queues| ==> Covered(s, q)
  }

  ghost predicate OthersCovered(s: State, q: nat) {
    forall p: nat :: p < |s.queues| && p != q ==> Covered(s, p)
  }

  /** Only the timeout of `d` may differ. */
  ghost predicate SameBut(s0: State, s1: State, d: Id) {
    && (forall e :: e != d ==> (e in s1.timeout <==> e in s0.timeout) && (e in s1.heap <==> e in s0.heap))
    && (forall e :: e != d && e in s0.timeout ==> s1.timeout[e] == s0.timeout[e])
  }

  /** The driver of queue `q` is set for the time of the first event. */
  ghost predicate OnTime(s: State, q: nat) {
    && q < |s.queues| && s.queues[q] != [] && s.queues[q][0] in s.timeout && Driver(q) in s.timeout
    && Time(s.timeout[Driver(q)]) == Time(s.timeout[s.queues[q][0]])
  }

  /** Event `e` has been taken off for a new timeout. */
  ghost predicate Detached(s0: State, s1: State, e: Id) {
    && (s1.active == s0.active || s1.active == s0.active - {e})
    && s1 == (if e in s0.timeout then Without(s0, e) else s0).(active := s1.active)
  }

  /** The pending events and their deadlines, wherever they wait. */
  ghost function Pending(s: State): map<Id, int> {
    map e | e in s.timeout && e.User? :: Time(s.timeout[e])
  }

  // ---------- Taking an event off ----------

  /** The place of `e` in a queue. */
  function PlaceOf(queue: seq<Id>, e: Id): (k: nat)
    requires e in queue
    ensures k < |queue| && queue[k] == e
  {
    if queue[0] == e then 0 else 1 + PlaceOf(queue[1..], e)
  }

  /** TAILQ_REMOVE. */
  function Cut(queue: seq<Id>, e: Id): seq<Id> {
    if e in queue then Drop(queue, PlaceOf(queue, e)) else queue
  }

  /** The state without the timeout of `e`. */
  function Without(s: State, e: Id): State
    requires e in s.timeout
  {
    var tv := s.timeout[e];
    if Tagged(tv) && Index(tv) < |s.queues| then
      s.(timeout := s.timeout - {e}, queues := s.queues[Index(tv) := Cut(s.queues[Index(tv)], e)])
    else
      s.(timeout := s.timeout - {e}, heap := s.heap - {e})
  }

  /** A queue without place `k`. */
  function Drop(queue: seq<Id>, k: nat): seq<Id>
    requires k < |queue|
  {
    queue[..k] + queue[k + 1..]
  }

  lemma DropQueue(t: map<Id, Timeval>, queue: seq<Id>, q: nat, k: nat)
    requires QueueOk(t, queue, q) && k < |queue|
    ensures QueueOk(t - {queue[k]}, Drop(queue, k), q)
    ensures forall i: nat :: i < |Drop(queue, k)| ==> Drop(queue, k)[i] != queue[k]
  {
    var e, rest := queue[k], Drop(queue, k);
    forall i: nat | i < |rest|
      ensures Member(t - {e}, rest, q, i) && rest[i] != e
    {
      var i' := if i < k then i else i + 1;
      assert Member(t, queue, q, i') && (if i' < k then InOrder(t, queue, i', k) else InOrder(t, queue, k, i'));
    }
    forall i: nat, j: nat | i < j < |rest|
      ensures InOrder(t - {e}, rest, i, j)
    {
      assert InOrder(t, queue, if i < k then i else i + 1, if j < k then j else j + 1);
    }
  }

  lemma DropKeeps(queue: seq<Id>, k: nat)
    requires k < |queue|
    ensures forall x :: x in queue && x != queue[k] ==> x in Drop(queue, k)
  {
  }

  /** The first event is the earliest. */
  lemma HeadFirst(t: map<Id, Timeval>, queue: seq<Id>, q: nat, i: nat)
    requires QueueOk(t, queue, q) && i < |queue|
    ensures queue[0] in t && queue[i] in t && Time(t[queue[0]]) <= Time(t[queue[i]])
  {
    assert Member(t, queue, q, 0) && Member(t, queue, q, i);
    if i > 0 {
      assert InOrder(t, queue, 0, i);
    }
  }

  lemma CutQueue(t: map<Id, Timeval>, queue: seq<Id>, q: nat, e: Id)
    requires QueueOk(t, queue, q) && e in queue
    ensures QueueOk(t - {e}, Cut(queue, e), q) && e !in Cut(queue, e)
    ensures forall x :: x in queue && x != e ==> x in Cut(queue, e)
  {
    DropQueue(t, queue, q, PlaceOf(queue, e));
    DropKeeps(queue, PlaceOf(queue, e));
  }

  /** Events that are not in a queue do not matter to it. */
  lemma OtherQueue(t: map<Id, Timeval>, queue: seq<Id>, q: nat, e: Id)
    requires QueueOk(t, queue, q) && e in t && (Tagged(t[e]) ==> Index(t[e]) != q)
    ensures QueueOk(t - {e}, queue, q) && e !in queue
  {
    forall i: nat | i < |queue|
      ensures Member(t - {e}, queue, q, i) && queue[i] != e
    {
      assert Member(t, queue, q, i);
    }
    forall i: nat, j: nat | i < j < |queue|
      ensures InOrder(t - {e}, queue, i, j)
    {
      assert InOrder(t, queue, i, j);
    }
  }

  lemma WithoutPlaced(s: State, e: Id)
    requires Placed(s) && e in s.timeout
    ensures Placed(Without(s, e))
  {
    var s' := Without(s, e);
    var tv := s.timeout[e];
    assert Stored(s, e);
    forall q: nat | q < |s'.queues|
      ensures QueueOk(s'.timeout, s'.queues[q], q)
    {
      if Tagged(tv) && q == Index(tv) {
        CutQueue(s.timeout, s.queues[q], q, e);
      } else {
        OtherQueue(s.timeout, s.queues[q], q, e);
      }
    }
    if Tagged(tv) {
      CutQueue(s.timeout, s.queues[Index(tv)], Index(tv), e);
    }
    forall x | x in s'.timeout
      ensures Stored(s', x)
    {
      assert Stored(s, x);
    }
  }

  /** A driver that was early enough still is when an event goes. */
  lemma WithoutCovered(s: State, e: Id, q: nat)
    requires Placed(s) && e in s.timeout && q < |s.queues| && Covered(s, q) && e != Driver(q)
    ensures Covered(Without(s, e), q)
  {
    var s' := Without(s, e);
    var queue, queue' := s.queues[q], s'.queues[q];
    assert Stored(s, e) && QueueOk(s.timeout, queue, q);
    if queue' != [] && Driver(q) in s.heap {
      if Tagged(s.timeout[e]) && q == Index(s.timeout[e]) {
        var k := PlaceOf(queue, e);
        HeadFirst(s.timeout, queue, q, if k == 0 then 1 else 0);
        DropQueue(s.timeout, queue, q, k);
        assert Member(s'.timeout, queue', q, 0);
      } else {
        OtherQueue(s.timeout, queue, q, e);
        assert Member(s'.timeout, queue', q, 0);
      }
    }
  }

  // ---------- Putting an event on ----------

  /** Where `insert_common_timeout_inorder` puts an event that ends at `tv`. */
  ghost predicate PlaceFor(t: map<Id, Timeval>, queue: seq<Id>, tv: Timeval, k: nat) {
    && k <= |queue|
    && (forall i: nat :: i < k && queue[i] in t ==> Time(t[queue[i]]) <= Time(tv))
    && (forall i: nat :: k <= i < |queue| && queue[i] in t ==> Time(tv) < Time(t[queue[i]]))
  }

  function Put(queue: seq<Id>, k: nat, e: Id): seq<Id>
    requires k <= |queue|
  {
    queue[..k] + [e] + queue[k..]
  }

  /** The state in which `e` waits for `tv`, at place `k` if in a queue. */
  function With(s: State, e: Id, tv: Timeval, k: nat): State
    requires Tagged(tv) ==> Index(tv) < |s.queues| && k <= |s.queues[Index(tv)]|
  {
    if Tagged(tv) then
      s.(timeout := s.timeout[e := tv], queues := s.queues[Index(tv) := Put(s.queues[Index(tv)], k, e)])
    else
      s.(timeout := s.timeout[e := tv], heap := s.heap + {e})
  }

  lemma PutQueue(t: map<Id, Timeval>, queue: seq<Id>, q: nat, e: Id, tv: Timeval, k: nat)
    requires QueueOk(t, queue, q) && e !in t && Tagged(tv) && Index(tv) == q && PlaceFor(t, queue, tv, k)
    ensures QueueOk(t[e := tv], Put(queue, k, e), q)
  {
    var queue', t' := Put(queue, k, e), t[e := tv];
    forall i: nat | i < |queue'|
      ensures Member(t', queue', q, i)
    {
      if i != k {
        assert Member(t, queue, q, if i < k then i else i - 1);
      }
    }
    forall i: nat, j: nat | i < j < |queue'|
      ensures InOrder(t', queue', i, j)
    {
      if i == k {
        assert Member(t, queue, q, j - 1);
      } else if j == k {
        assert Member(t, queue, q, i);
      } else {
        assert InOrder(t, queue, if i < k then i else i - 1, if j < k then j else j - 1);
        assert Member(t, queue, q, if i < k then i else i - 1) && Member(t, queue, q, if j < k then j else j - 1);
      }
    }
  }

  lemma SameQueue(t: map<Id, Timeval>, queue: seq<Id>, q: nat, e: Id, tv: Timeval)
    requires QueueOk(t, queue, q) && e !in t
    ensures QueueOk(t[e := tv], queue, q)
  {
    var t' := t[e := tv];
    forall i: nat | i < |queue|
      ensures Member(t', queue, q, i)
    {
      assert Member(t, queue, q, i);
    }
    forall i: nat, j: nat | i < j < |queue|
      ensures InOrder(t', queue, i, j)
    {
      assert InOrder(t, queue, i, j) && Member(t, queue, q, i) && Member(t, queue, q, j);
    }
  }

  /** A fit place for `e` and its deadline. */
  ghost predicate Fits(s: State, e: Id, tv: Timeval, k: nat) {
    && e !in s.timeout && Proper(tv, |s.queues|)
    && (e.Driver? ==> !Tagged(tv) && e.q < |s.queues|)
    && (Tagged(tv) ==> Index(tv) < |s.queues| && PlaceFor(s.timeout, s.queues[Index(tv)], tv, k))
  }

  lemma WithPlaced(s: State, e: Id, tv: Timeval, k: nat)
    requires Placed(s) && Fits(s, e, tv, k)
    ensures Placed(With(s, e, tv, k))
  {
    var s' := With(s, e, tv, k);
    forall q: nat | q < |s'.queues|
      ensures QueueOk(s'.timeout, s'.queues[q], q)
    {
      if Tagged(tv) && q == Index(tv) {
        PutQueue(s.timeout, s.queues[q], q, e, tv, k);
      } else {
        SameQueue(s.timeout, s.queues[q], q, e, tv);
      }
    }
    forall x | x in s'.timeout
      ensures Stored(s', x)
    {
      if x != e {
        assert Stored(s, x);
        if Tagged(s.timeout[x]) {
          var q := Index(s.timeout[x]);
          var i :| 0 <= i < |s.queues[q]| && s.queues[q][i] == x;
          assert x == s'.queues[q][if Tagged(tv) && q == Index(tv) && i >= k then i + 1 else i];
        }
      } else if Tagged(tv) {
        assert e == s'.queues[Index(tv)][k];
      }
    }
  }

  /** A queue stays covered unless its head changes or its driver moves. */
  lemma WithCovered(s: State, e: Id, tv: Timeval, k: nat, q: nat)
    requires Placed(s) && Fits(s, e, tv, k) && q < |s.queues| && Covered(s, q) && e != Driver(q)
    requires !(Tagged(tv) && Index(tv) == q && k == 0)
    ensures Covered(With(s, e, tv, k), q)
  {
  }

  // ---------- What the loop waits for ----------

  /** When no driver is waiting to run, the earliest time in the heap is no later than any deadline:
      the loop never sleeps past one. */
  lemma HeapCoversAll(s: State, e: Id)
    requires Placed(s) && AllCovered(s) && e in Pending(s) && s.running == {} && s.starved == {}
    requires forall q: nat :: q < |s.queues| ==> Driver(q) !in s.active
    ensures exists h :: h in s.heap && h in s.timeout && Time(s.timeout[h]) <= Pending(s)[e]
  {
    assert Stored(s, e);
    var tv := s.timeout[e];
    if Tagged(tv) {
      var q := Index(tv);
      var i :| 0 <= i < |s.queues[q]| && s.queues[q][i] == e;
      assert QueueOk(s.timeout, s.queues[q], q) && Covered(s, q);
      HeadFirst(s.timeout, s.queues[q], q, i);
      assert Driver(q) in s.heap;
    } else {
      assert e in s.heap && Time(s.timeout[e]) <= Pending(s)[e];
    }
  }

  // ---------- The event base ----------

  class EventBase {
    var timeout: map<Id, Timeval>
    var active: map<Id, bool>
    var timeheap: set<Id>
    var queues: seq<seq<Id>>
    var durations: seq<Timeval>
    var room: nat
    ghost var running: set<nat>
    ghost var starved: set<nat>

    constructor ()
      ensures Valid() && TagsOk() && Pending(Snap()) == map[] && active == map[] && queues == []
      ensures timeout == map[] && running == {} && starved == {}
    {
      timeout, active, timeheap, queues, durations, room, running, starved := map[], map[], {}, [], [], 0, {}, {};
    }

    ghost function Snap(): State
      reads this`timeout, this`active, this`timeheap, this`queues, this`running, this`starved
    {
      State(timeout, active, timeheap, queues, running, starved)
    }

    ghost predicate Valid()
      reads this
    {
      Placed(Snap()) && AllCovered(Snap()) && |timeheap| <= room
    }

    /** Duration `i` carries the tag of queue `i`, and no two queues have the same duration. */
    ghost predicate TagsOk()
      reads this`queues, this`durations
    {
      && |durations| == |queues|
      && (forall i :: 0 <= i < |durations| ==> Tagged(durations[i]) && Index(durations[i]) == i)
      && (forall i, j :: 0 <= i < j < |durations| ==> Untag(durations[i]) != Untag(durations[j]))
    }

    /** `event_base_init_common_timeout`: the tagged duration of the queue for `duration`, which is new
        unless there is one; none when there are too many queues or no memory. */
    method InitCommonTimeout(duration: Timeval, memory: bool) returns (r: Timeval, ok: bool)
      requires Valid() && TagsOk()
      modifies this`queues, this`durations
      ensures Valid() && TagsOk() && Pending(Snap()) == Pending(old(Snap())) && old(queues) <= queues
      ensures old(durations) <= durations
      ensures ok ==>
                && Tagged(r)
                && Index(r) < |queues|
                && durations[Index(r)] == r
                && Time(r) == Length(duration, |old(queues)|)
      ensures ok ==> (Proper(r, |queues|) <==> duration.usec != 1000000)
      ensures var known := Normal(duration, |old(queues)|) in UntaggedAll(old(durations));
        && (ok <==> known || (memory && |old(queues)| < MAX_COMMON_TIMEOUTS))
        && queues == (if ok && !known then old(queues) + [[]] else old(queues))
    {
      var d := Normal(duration, |queues|);
      for i := 0 to |durations|
        invariant forall k :: 0 <= k < i ==> Untag(durations[k]) != d
      {
        if d.sec == durations[i].sec && d.usec == Micros(durations[i]) {
          assert UntaggedAll(durations)[i] == d;
          return durations[i], true;
        }
      }
      if |queues| == MAX_COMMON_TIMEOUTS || !memory {
        return duration, false;
      }
      TagRoundTrip(d.sec, d.usec, |queues|);
      NewQueue(Snap());
      r, ok := Timeval(d.sec, Tag(d.usec, |queues|)), true;
      queues, durations := queues + [[]], durations + [r];
    }

    /** `min_heap_reserve` for one more event. */
    method Reserve(memory: bool) returns (ok: bool)
      modifies this`room
      ensures room >= old(room) && (ok <==> |timeheap| + 1 <= room) && (ok <==> memory || |timeheap| + 1 <= old(room))
      ensures |timeheap| + 1 <= old(room) ==> room == old(room)
    {
      ok := true;
      if room < |timeheap| + 1 {
        var a := if room == 0 then 8 else room * 2;
        ok := memory;
        if ok {
          room := if a < |timeheap| + 1 then |timeheap| + 1 else a;
        }
      }
    }

    /** `event_queue_remove` for EVLIST_TIMEOUT. */
    method QueueRemove(e: Id)
      requires Placed(Snap()) && e in timeout && |timeheap| <= room
      modifies this`timeout, this`timeheap, this`queues
      ensures Snap() == Without(old(Snap()), e) && Placed(Snap()) && |timeheap| <= room
      ensures e in old(timeheap) ==> |timeheap| < room
    {
      WithoutPlaced(Snap(), e);
      assert Stored(Snap(), e);
      var tv := timeout[e];
      timeout := timeout - {e};
      if Tagged(tv) && Index(tv) < |queues| {
        queues := queues[Index(tv) := Cut(queues[Index(tv)], e)];
      } else {
        timeheap := timeheap - {e};
      }
    }

    /** The search of `insert_common_timeout_inorder` from the end of the queue. */
    method FindPlace(q: nat, tv: Timeval) returns (k: nat)
      requires Placed(Snap()) && q < |queues| && Proper(tv, |queues|) && Tagged(tv) && Index(tv) == q
      ensures PlaceFor(timeout, queues[q], tv, k)
    {
      var queue := queues[q];
      assert QueueOk(timeout, queue, q);
      k := |queue|;
      while k > 0
        invariant k <= |queue|
        invariant forall i: nat :: k <= i < |queue| && queue[i] in timeout ==> Time(tv) < Time(timeout[queue[i]])
      {
        assert Member(timeout, queue, q, k - 1) && Stored(Snap(), queue[k - 1]);
        SameTag(timeout[queue[k - 1]], tv);
        if AtMost(timeout[queue[k - 1]], tv) {
          forall i: nat | i < k && queue[i] in timeout
            ensures Time(timeout[queue[i]]) <= Time(tv)
          {
            assert i < k - 1 ==> InOrder(timeout, queue, i, k - 1);
          }
          return;
        }
        k := k - 1;
      }
    }

    /** `event_queue_insert` for EVLIST_TIMEOUT, where the heap has room. */
    method QueueInsert(e: Id, tv: Timeval) returns (k: nat)
      requires Placed(Snap()) && e !in timeout && Proper(tv, |queues|) && (e.Driver? ==> !Tagged(tv) && e.q < |queues|)
      requires if Tagged(tv) then |timeheap| <= room else |timeheap| < room
      modifies this`timeout, this`timeheap, this`queues
      ensures Fits(old(Snap()), e, tv, k) && Snap() == With(old(Snap()), e, tv, k) && |timeheap| <= room
    {
      k := 0;
      if Tagged(tv) {
        k := FindPlace(Index(tv), tv);
        queues := queues[Index(tv) := Put(queues[Index(tv)], k, e)];
      } else {
        timeheap := timeheap + {e};
      }
      timeout := timeout[e := tv];
    }

    /** `event_del_internal`: off the timeouts and off the active events. */
    method Unqueue(e: Id)
      requires Placed(Snap()) && |timeheap| <= room
      modifies this`timeout, this`timeheap, this`queues, this`active
      ensures Placed(Snap()) && |timeheap| <= room && active == old(active) - {e}
      ensures Snap() == (if e in old(timeout) then Without(old(Snap()), e) else old(Snap())).(active := active)
    {
      if e in timeout {
        QueueRemove(e);
      }
      active := active - {e};
    }

    /** `event_active_nolock` for EV_TIMEOUT. */
    method Activate(e: Id)
      requires Placed(Snap())
      modifies this`active
      ensures active == old(active)[e := true] && Placed(Snap())
    {
      active := active[e := true];
    }

    /** The first half of `event_add_internal`: takes `e` off the timeouts and, if that was what made it
        active, off the active events. */
    method Detach(e: Id)
      requires Placed(Snap()) && |timeheap| <= room
      modifies this`timeout, this`timeheap, this`queues, this`active
      ensures Placed(Snap()) && |timeheap| <= room
      ensures e in old(timeheap) || old(|timeheap|) < room ==> |timeheap| < room
      ensures active == Cleared(old(active), e)
      ensures Detached(old(Snap()), Snap(), e)
    {
      if e in timeout {
        QueueRemove(e);
      }
      SamePlaces(Snap(), Snap().(active := active - {e}));
      if e in active && active[e] {
        active := active - {e};
      }
    }

    /** Moves the driver of queue `q` to the time of the first event; the heap has room for it. */
    method MoveDriver(q: nat)
      requires Placed(Snap()) && |timeheap| <= room && q < |queues| && queues[q] != []
      requires Driver(q) !in timeout ==> |timeheap| < room
      requires OthersCovered(Snap(), q)
      modifies this`timeout, this`timeheap, this`queues, this`active, this`starved
      ensures Valid() && Pending(Snap()) == Pending(old(Snap())) && queues == old(queues)
      ensures active == old(active) || active == old(active) - {Driver(q)}
      ensures starved == old(starved) - {q} && SameBut(old(Snap()), Snap(), Driver(q)) && OnTime(Snap(), q)
    {
      ghost var s0 := Snap();
      HeadAndDriver(s0, q);
      var tv := Untag(timeout[queues[q][0]]);
      Detach(Driver(q));
      ghost var s1 := Snap();
      var k := QueueInsert(Driver(q), tv);
      starved := starved - {q};
      Rescheduled(s0, s1, Snap(), q, tv);
    }

    /** `common_timeout_schedule`: the driver of queue `q` for the time of the first event. It fails exactly
        when the driver is off, the heap is full and there is no memory. */
    method Schedule(q: nat, memory: bool)
      requires Placed(Snap()) && |timeheap| <= room && q < |queues| && queues[q] != []
      requires OthersCovered(Snap(), q)
      modifies this`timeout, this`timeheap, this`queues, this`room, this`active, this`starved
      ensures Valid() && Pending(Snap()) == Pending(old(Snap())) && queues == old(queues)
      ensures active == old(active) || active == old(active) - {Driver(q)}
      ensures starved == if !memory && Driver(q) !in old(timeout) && old(|timeheap|) == old(room)
                         then old(starved) + {q} else old(starved) - {q}
      ensures SameBut(old(Snap()), Snap(), Driver(q)) && (Driver(q) in timeheap ==> OnTime(Snap(), q))
      ensures old(|timeheap|) < old(room) ==> room == old(room)
    {
      if Driver(q) !in timeout {
        var ok := Reserve(memory);
        if !ok {
          Starved(Snap(), q);
          starved := starved + {q};
          return;
        }
      }
      MoveDriver(q);
    }

    /** Schedules the driver for a new first event of queue `q`. */
    method ScheduleFor(e: Id, at: Timeval, memory: bool, ghost s1: State, ghost k: nat)
      requires Placed(Snap()) && |timeheap| <= room && Tagged(at) && Index(at) < |queues| && queues[Index(at)] != []
      requires Fits(s1, e, at, k) && Snap() == With(s1, e, at, k) && OthersCovered(Snap(), Index(at))
      modifies this`timeout, this`timeheap, this`queues, this`room, this`active, this`starved
      ensures Valid() && Pending(Snap()) == Pending(old(Snap())) && |queues| == |old(queues)|
      ensures Users(active) == Users(old(active)) && NoNewDriver(old(active), active)
      ensures starved == if !memory && Driver(Index(at)) !in old(timeout) && old(|timeheap|) == old(room)
                         then old(starved) + {Index(at)} else old(starved) - {Index(at)}
      ensures old(|timeheap|) < old(room) ==> room == old(room)
      ensures Elsewhere(s1, Snap(), e, at) && e in timeout && timeout[e] == at
    {
      Schedule(Index(at), memory);
      SameActive(old(active), active, Driver(Index(at)));
      AlsoElsewhere(s1, old(Snap()), Snap(), e, at, k);
    }

    /** The second half of `event_add_internal`: puts `e` where its deadline belongs and, if it is the
        first of its queue, schedules the driver. */
    method InsertUser(e: Id, at: Timeval, memory: bool)
      requires Valid() && e.User? && e !in timeout && Proper(at, |queues|) && (!Tagged(at) ==> |timeheap| < room)
      modifies this`timeout, this`timeheap, this`queues, this`room, this`active, this`starved
      ensures Valid() && Users(active) == Users(old(active)) && NoNewDriver(old(active), active)
      ensures MovedTo(old(Snap()), Snap(), e, at, !memory && old(|timeheap|) == old(room))
      ensures old(|timeheap|) < old(room) ==> room == old(room)
    {
      ghost var s1 := Snap();
      var k := QueueInsert(e, at);
      Inserted(s1, e, at, k);
      FirstPlace(s1, e, at, k);
      if Tagged(at) && queues[Index(at)][0] == e {
        SomeCovered(Snap(), Index(at));
        ScheduleFor(e, at, memory, s1, k);
      } else {
        Joins(s1, e, at, k, !memory && old(|timeheap|) == old(room));
      }
    }

    /** `event_queue_insert` for an event of the user, with the allocation of `min_heap_push`. */
    method Place(e: Id, at: Timeval, memory: bool) returns (ok: bool)
      requires Valid() && e.User? && e !in timeout && Proper(at, |queues|)
      modifies this`timeout, this`timeheap, this`queues, this`room, this`active, this`starved
      ensures Valid() && Users(active) == Users(old(active)) && NoNewDriver(old(active), active)
      ensures !ok <==> !memory && !Tagged(at) && old(|timeheap|) == old(room)
      ensures ok ==> MovedTo(old(Snap()), Snap(), e, at, !memory && old(|timeheap|) == old(room))
      ensures !ok ==> Snap() == old(Snap())
      ensures old(|timeheap|) < old(room) ==> room == old(room)
    {
      ok := true;
      if !Tagged(at) {
        ok := Reserve(memory);
      }
      if ok {
        InsertUser(e, at, memory);
      }
    }

    /** Takes an event of the user off for a new timeout. */
    method DetachUser(e: Id)
      requires Valid() && e.User?
      modifies this`timeout, this`timeheap, this`queues, this`active
      ensures Valid() && e !in timeout && |queues| == |old(queues)| && Detached(old(Snap()), Snap(), e)
      ensures Pending(Snap()) == Pending(old(Snap())) - {e} && Users(active) == Cleared(Users(old(active)), e)
      ensures |timeheap| == room <==> old(|timeheap|) == room && !(e in old(timeout) && !Tagged(old(timeout)[e]))
    {
      ghost var s0 := Snap();
      assert e in timeout ==> Stored(s0, e);
      assert e in timeheap ==> e in timeout && !Tagged(timeout[e]);
      Detach(e);
      DetachedUser(s0, Snap(), e);
      UsersCleared(s0.active, e);
      assert e !in s0.heap ==> timeheap == s0.heap;
    }

    /** Takes `e` off and puts it where its new deadline belongs. */
    method Move(e: Id, at: Timeval, memory: bool) returns (ok: bool)
      requires Valid() && e.User? && Proper(at, |queues|) && (e !in timeout ==> |timeheap| < room)
      modifies this`timeout, this`timeheap, this`queues, this`room, this`active, this`starved
      ensures Valid() && |queues| == |old(queues)| && NoNewDriver(old(active), active)
      ensures ok <==> memory || old(|timeheap|) < old(room) || Tagged(at) || !InQueue(old(Snap()), e)
      ensures ok ==> Users(active) == Cleared(Users(old(active)), e)
      ensures ok ==>
                MovedTo(old(Snap()), Snap(), e, at, !memory && old(|timeheap|) == old(room) && InQueue(old(Snap()), e))
      ensures !ok ==> Pending(Snap()) == Pending(old(Snap())) - {e} && starved == old(starved)
      ensures old(|timeheap|) < old(room) ==> room == old(room)
    {
      ghost var s0 := Snap();
      DetachUser(e);
      ghost var s1 := Snap();
      ok := Place(e, at, memory);
      if ok {
        MovedOver(s0, s1, Snap(), e, at, !memory && |s1.heap| == old(room));
      }
    }

    /** `event_add`, as far as the timeout goes: the event is pending for its deadline and is no longer
        active because of an earlier one. Without memory for a full heap nothing changes if the event was not
        pending, one that would leave a queue for the heap is lost, and one that goes from a queue to the head
        of another whose driver is off starves that queue. */
    method Add(n: nat, tv: Timeval, now: Timeval, memory: bool) returns (r: AddResult)
      requires Valid() && Proper(tv, |queues|) && now.usec < 1000000
      modifies this`timeout, this`timeheap, this`queues, this`room, this`active, this`starved
      ensures Valid() && |queues| == |old(queues)| && NoNewDriver(old(active), active)
      ensures r == NoMemory <==> !memory && old(|timeheap|) == old(room) && User(n) !in old(timeout)
      ensures r == Lost <==> !memory && old(|timeheap|) == old(room) && InQueue(old(Snap()), User(n)) && !Tagged(tv)
      ensures r == Added ==> Users(active) == Cleared(Users(old(active)), User(n))
      ensures r == Added ==> (User(n) in active <==> User(n) in old(active) && !old(active)[User(n)])
      ensures r == Added ==> Pending(Snap()) == Pending(old(Snap()))[User(n) := Time(now) + Time(tv)]
      ensures r == Added ==> MovedTo(old(Snap()), Snap(), User(n), Deadline(now, tv, |queues|),
        !memory && old(|timeheap|) == old(room) && InQueue(old(Snap()), User(n)))
      ensures r == NoMemory ==>
                Pending(Snap()) == Pending(old(Snap())) && active == old(active) && starved == old(starved)
      ensures r == Lost ==> Pending(Snap()) == Pending(old(Snap())) - {User(n)} && starved == old(starved)
      ensures old(|timeheap|) < old(room) ==> room == old(room)
    {
      var e, at := User(n), Deadline(now, tv, |queues|);
      if e !in timeout {
        var ok := Reserve(memory);
        if !ok {
          return NoMemory;
        }
      }
      var ok := Move(e, at, memory);
      r := if ok then Added else Lost;
      ClearedUser(old(active), active, e);
    }

    /** `event_del`. */
    method Del(n: nat)
      requires Valid()
      modifies this`timeout, this`timeheap, this`queues, this`active
      ensures Valid() && |queues| == |old(queues)|
      ensures Pending(Snap()) == Pending(old(Snap())) - {User(n)} && active == old(active) - {User(n)}
    {
      ghost var s0 := Snap();
      Unqueue(User(n));
      DetachedUser(s0, Snap(), User(n));
    }

    /** `min_heap_top`: an event of the heap with the least time. */
    method Top() returns (e: Id)
      requires Placed(Snap()) && timeheap != {}
      ensures e in timeheap && forall x :: x in timeheap ==> Time(timeout[e]) <= Time(timeout[x])
    {
      e :| e in timeheap;
      var rest := timeheap;
      while rest != {}
        invariant e in timeheap && rest <= timeheap
        invariant forall x :: x in timeheap && x !in rest ==> Time(timeout[e]) <= Time(timeout[x])
        decreases rest
      {
        var x :| x in rest;
        if Time(timeout[x]) < Time(timeout[e]) {
          e := x;
        }
        rest := rest - {x};
      }
    }

    /** Takes an event off the heap and makes it active. */
    method FireEvent(e: Id)
      requires Valid() && e in timeheap
      modifies this`timeout, this`timeheap, this`queues, this`active
      ensures Valid() && Snap() == Fire(old(Snap()), {e})
    {
      FireOne(Snap(), e);
      Unqueue(e);
      Activate(e);
    }

    /** One round of `timeout_process`: the first event of the heap fires if its time has come. */
    method FireTop(now: Timeval, ghost s0: State, ghost fired: set<Id>) returns (more: bool, ghost fired': set<Id>)
      requires Valid() && now.usec < 1000000 && timeheap != {} && fired <= Due(s0, Time(now))
      requires Snap() == Fire(s0, fired)
      modifies this`timeout, this`timeheap, this`queues, this`active
      ensures Valid() && fired' <= Due(s0, Time(now)) && Snap() == Fire(s0, fired')
      ensures if more then |timeheap| < old(|timeheap|) else fired' == Due(s0, Time(now))
    {
      var e := Top();
      fired' := fired;
      assert Stored(Snap(), e);
      AtMostIsTime(timeout[e], now);
      more := AtMost(timeout[e], now);
      if more {
        FireEvent(e);
        FireMore(s0, fired, e);
        fired' := fired + {e};
      } else {
        AllFired(s0, fired, Time(now));
      }
    }

    /** `timeout_process`: exactly the events of the heap whose time has come are taken off and become
        active. */
    method TimeoutProcess(now: Timeval)
      requires Valid() && now.usec < 1000000
      modifies this`timeout, this`timeheap, this`queues, this`active
      ensures Valid() && Snap() == Fire(old(Snap()), Due(old(Snap()), Time(now)))
    {
      ghost var s0, fired: set<Id> := Snap(), {};
      FireNone(s0);
      while timeheap != {}
        invariant Valid() && fired <= Due(s0, Time(now)) && Snap() == Fire(s0, fired)
        decreases |timeheap|
      {
        var more;
        more, fired := FireTop(now, s0, fired);
        if !more {
          return;
        }
      }
      AllFired(s0, fired, Time(now));
    }

    /** `event_process_active_single_queue` takes the driver of queue `q` off and is about to call it. */
    method TakeDriver(q: nat)
      requires Valid() && q < |queues|
      modifies this`timeout, this`timeheap, this`queues, this`active, this`running
      ensures Valid() && running == old(running) + {q} && queues == old(queues)
      ensures Pending(Snap()) == Pending(old(Snap())) && Users(active) == Users(old(active))
      ensures timeheap == old(timeheap) - {Driver(q)}
      ensures timeout == old(timeout) - {Driver(q)} && active == old(active) - {Driver(q)}
    {
      ghost var s0 := Snap();
      assert Driver(q) in timeout ==> Stored(s0, Driver(q));
      assert Driver(q) in timeheap ==> Driver(q) in timeout;
      Unqueue(Driver(q));
      running := running + {q};
      DriverTaken(s0, Snap(), q);
    }

    /** The first event of queue `q` becomes active. */
    method FireHead(q: nat)
      requires Placed(Snap()) && |timeheap| <= room && q < |queues| && queues[q] != [] && OthersCovered(Snap(), q)
      modifies this`timeout, this`timeheap, this`queues, this`active
      ensures Placed(Snap()) && |timeheap| <= room && OthersCovered(Snap(), q)
      ensures Snap() == Pop(old(Snap()), q)
    {
      PopOne(Snap(), q);
      var e := queues[q][0];
      Unqueue(e);
      Activate(e);
    }

    /** The loop of `common_timeout_callback`: exactly the events of queue `q` whose time has come are
        taken off and become active. */
    method DrainQueue(q: nat, now: Timeval) returns (ghost fired: set<Id>)
      requires Placed(Snap()) && |timeheap| <= room && q < |queues| && OthersCovered(Snap(), q) && now.usec < 1000000
      modifies this`timeout, this`timeheap, this`queues, this`active
      ensures Placed(Snap()) && |timeheap| <= room && OthersCovered(Snap(), q)
      ensures fired == ExpiredIn(old(timeout), old(queues[q]), Time(now)) && timeheap == old(timeheap)
      ensures timeout == old(timeout) - fired && active == old(active) + AllTrue(fired)
      ensures |queues| == |old(queues)| && (forall p :: 0 <= p < |queues| && p != q ==> queues[p] == old(queues)[p])
      ensures QueueLater(Snap(), q, Time(now))
    {
      ghost var t0, queue, k := timeout, queues[q], 0;
      assert QueueOk(timeout, queue, q);
      fired := {};
      assert timeout - {} == timeout && active + AllTrue({}) == active;
      while queues[q] != []
        invariant Placed(Snap()) && |timeheap| <= room && OthersCovered(Snap(), q) && timeheap == old(timeheap)
        invariant |queues| == |old(queues)| && (forall p :: 0 <= p < |queues| && p != q ==> queues[p] == old(queues)[p])
        invariant k <= |queue| && queues[q] == queue[k..] && FirstOf(t0, queue, k, fired, Time(now))
        invariant timeout == t0 - fired && active == old(active) + AllTrue(fired)
        decreases |queues[q]|
      {
        var e := queues[q][0];
        HeadAndDriver(Snap(), q);
        LaterIsTime(timeout[e], now);
        if Later(timeout[e], now) {
          break;
        }
        FireHead(q);
        MoreOf(t0, queue, k, fired, Time(now));
        MoreActive(old(active), fired, e);
        fired, k := fired + {e}, k + 1;
      }
      RestLater(t0, queue, q, k, fired, Time(now));
    }

    /** The end of `common_timeout_callback`. */
    method CallbackEnds(q: nat, memory: bool)
      requires Placed(Snap()) && |timeheap| <= room && q < |queues| && OthersCovered(Snap(), q)
      modifies this`timeout, this`timeheap, this`queues, this`room, this`active, this`starved, this`running
      ensures Valid() && running == old(running) - {q} && starved <= old(starved) + {q} && queues == old(queues)
      ensures Pending(Snap()) == Pending(old(Snap())) && SameBut(old(Snap()), Snap(), Driver(q))
      ensures Users(active) == Users(old(active)) && forall p :: Driver(p) in active ==> Driver(p) in old(active)
      ensures Driver(q) in timeheap ==> Driver(q) in old(timeheap) || OnTime(Snap(), q)
      ensures queues[q] != [] ==> SameEntry(old(Snap()), Snap(), queues[q][0]) && queues[q][0] in timeout
      ensures old(|timeheap|) < old(room) ==> starved <= old(starved) && room == old(room)
    {
      CallbackOver(Snap(), q);
      running := running - {q};
      if queues[q] != [] {
        HeadAndDriver(Snap(), q);
        Schedule(q, memory);
        SameActive(old(active), active, Driver(q));
      }
    }

    /** `common_timeout_callback`: fires what is due in queue `q` and schedules the driver for the rest. */
    method DriverCallback(q: nat, now: Timeval, memory: bool) returns (ghost fired: set<Id>)
      requires Valid() && q < |queues| && now.usec < 1000000
      modifies this`timeout, this`timeheap, this`queues, this`room, this`active, this`starved, this`running
      ensures Valid() && running == old(running) - {q} && starved <= old(starved) + {q}
      ensures fired == ExpiredIn(old(timeout), old(queues[q]), Time(now))
      ensures Pending(Snap()) == Pending(old(Snap())) - fired && Users(active) == Users(old(active)) + AllTrue(fired)
      ensures forall p :: Driver(p) in active ==> Driver(p) in old(active)
      ensures |queues| == |old(queues)| && (forall p :: 0 <= p < |queues| && p != q ==> queues[p] == old(queues)[p])
      ensures QueueLater(Snap(), q, Time(now))
      ensures Driver(q) in timeheap ==> Driver(q) in old(timeheap) || OnTime(Snap(), q)
      ensures SameBut(old(Snap()).(timeout := old(timeout) - fired), Snap(), Driver(q))
      ensures old(|timeheap|) < old(room) ==> starved <= old(starved) && room == old(room)
    {
      ghost var s0 := Snap();
      SomeCovered(s0, q);
      fired := DrainQueue(q, now);
      ghost var s1 := Snap();
      FiredUsers(s0, q, fired, s1);
      CallbackEnds(q, memory);
    }

    /** An active driver is taken off and called. */
    method RunDriver(q: nat, now: Timeval, memory: bool) returns (ghost fired: set<Id>)
      requires Valid() && q < |queues| && now.usec < 1000000 && running == {}
      modifies this`timeout, this`timeheap, this`queues, this`room, this`active, this`starved, this`running
      ensures Valid() && running == {} && starved <= old(starved) + {q} && |queues| == |old(queues)|
      ensures fired == ExpiredIn(old(timeout), old(queues[q]), Time(now))
      ensures Pending(Snap()) == Pending(old(Snap())) - fired && Users(active) == Users(old(active)) + AllTrue(fired)
      ensures HeapLater(old(Snap()), Time(now)) ==> HeapLater(Snap(), Time(now))
      ensures QueueLater(Snap(), q, Time(now))
      ensures forall p: nat :: p != q && QueueLater(old(Snap()), p, Time(now)) ==> QueueLater(Snap(), p, Time(now))
      ensures NoNewDriver(old(active), active) && Driver(q) !in active && timeheap <= old(timeheap) + {Driver(q)}
      ensures old(|timeheap|) < old(room) ==> starved <= old(starved) && room == old(room)
    {
      ghost var s0 := Snap();
      TakeDriver(q);
      ghost var s1 := Snap();
      FewerInHeap(timeheap, s0.heap);
      SameExpired(s0, s1, q, Time(now));
      fired := DriverCallback(q, now, memory);
      StillLater(s0, s1, Snap(), q, fired, Time(now));
    }

    /** One round of the loop of `Turn`: the driver of queue `q` runs if it is active. */
    method RunIfActive(q: nat, now: Timeval, memory: bool, ghost s0: State, ghost gone: set<Id>, ghost calm: bool)
      returns (ghost gone': set<Id>)
      requires Valid() && now.usec < 1000000 && q < |queues| && Processed(s0, Snap(), gone, Time(now), q)
      requires calm ==> Spare(Snap(), q, room)
      modifies this`timeout, this`timeheap, this`queues, this`room, this`active, this`starved, this`running
      ensures Valid() && Processed(s0, Snap(), gone', Time(now), q + 1)
      ensures calm ==> Spare(Snap(), q + 1, room)
    {
      ghost var s1 := Snap();
      gone' := gone;
      if Driver(q) in active {
        if calm {
          SpareOne(s1, q, room);
        }
        var fired := RunDriver(q, now, memory);
        DriverProcessed(s0, s1, Snap(), gone, fired, Time(now), q);
        gone' := gone + fired;
        if calm {
          SpareLess(s1, Snap(), q, room);
        }
      } else {
        NotDue(s1, q, Time(now));
        if calm {
          SpareSame(s1, q, room);
        }
      }
    }

    /** What `event_base_loop` does with the time `now` after it has waited: `timeout_process`, and then
        the drivers that became active. Together they fire exactly the events whose deadline has come,
        as if all of them had been in the heap. If no driver was active before, none is afterwards, and no
        queue is starved, whether there is memory or not: a driver that runs has left its place in the heap. */
    method Turn(now: Timeval, memory: bool)
      requires Valid() && now.usec < 1000000 && running == {} && starved == {}
      modifies this`timeout, this`timeheap, this`queues, this`room, this`active, this`starved, this`running
      ensures Valid() && running == {} && |queues| == |old(queues)|
      ensures Pending(Snap()) == Pending(old(Snap())) - Expired(old(Snap()), Time(now))
      ensures forall e :: e in Pending(Snap()) ==> Pending(Snap())[e] > Time(now)
      ensures Users(active) == Users(old(active)) + AllTrue(Expired(old(Snap()), Time(now)))
      ensures NoDrivers(old(active)) ==> NoDrivers(active) && starved == {}
    {
      ghost var s0, calm := Snap(), NoDrivers(active);
      TimeoutProcess(now);
      HeapProcessed(s0, Time(now));
      ghost var gone := DueUsers(s0, Time(now));
      if calm {
        SpareAtFirst(s0, Time(now), room);
      }
      for q := 0 to |queues|
        invariant Valid() && Processed(s0, Snap(), gone, Time(now), q)
        invariant calm ==> Spare(Snap(), q, room)
      {
        gone := RunIfActive(q, now, memory, s0, gone, calm);
      }
      AllProcessed(s0, Snap(), gone, Time(now));
    }

    /** Between two turns. */
    ghost predicate AtRest()
      reads this`active, this`running, this`starved
    {
      running == {} && starved == {} && NoDrivers(active)
    }

    /** The event base as the user sees it. */
    ghost function Seen(): View
      reads this`timeout, this`active, this`timeheap, this`queues, this`running, this`starved
    {
      View(Pending(Snap()), Users(active))
    }

    /** One step of a run, with memory for adding; a turn of the loop needs none. */
    method Do(op: Op)
      requires Valid() && AtRest() && Legal(op, |queues|)
      modifies this`timeout, this`timeheap, this`queues, this`room, this`active, this`starved, this`running
      ensures Valid() && AtRest() && |queues| == |old(queues)| && Seen() == After(old(Seen()), op)
    {
      match op
      case AddTimeout(n, tv, now) =>
        var r := Add(n, tv, now, true);
        assert starved == {};
      case DelTimeout(n) =>
        Del(n);
        UsersMinus(old(active), User(n));
      case Elapse(now, memory) =>
        Turn(now, memory);
    }

    /** Over every run the queues and the heap together do what a map from events to deadlines does. */
    method Run(ops: seq<Op>)
      requires Valid() && AtRest() && forall i :: 0 <= i < |ops| ==> Legal(ops[i], |queues|)
      modifies this`timeout, this`timeheap, this`queues, this`room, this`active, this`starved, this`running
      ensures Valid() && AtRest() && |queues| == |old(queues)| && Seen() == AfterAll(old(Seen()), ops)
    {
      ghost var v := Seen();
      for i := 0 to |ops|
        invariant Valid() && AtRest() && |queues| == |old(queues)| && Seen() == AfterAll(v, ops[..i])
      {
        Do(ops[i]);
        AfterOneMore(v, ops, i);
      }
      assert ops[..|ops|] == ops;
    }
  }

  // ---------- Runs ----------

  /** `event_add`, `event_del`, and the loop at a time. */
  datatype Op = AddTimeout(n: nat, tv: Timeval, now: Timeval) | DelTimeout(n: nat) | Elapse(now: Timeval, memory: bool)

  /** The pending events with their deadlines, and the active ones. */
  datatype View = View(pending: map<Id, int>, active: map<Id, bool>)

  predicate Legal(op: Op, n: nat) {
    match op
    case AddTimeout(_, tv, now) => Proper(tv, n) && now.usec < 1000000
    case DelTimeout(_) => true
    case Elapse(now, _) => now.usec < 1000000
  }

  /** What is due at `now`. */
  ghost function DueIn(pending: map<Id, int>, now: int): set<Id> {
    set e | e in pending && pending[e] <= now
  }

  /** A step on a map from events to deadlines. */
  ghost function After(v: View, op: Op): View {
    match op
    case AddTimeout(n, tv, now) => View(v.pending[User(n) := Time(now) + Time(tv)], Cleared(v.active, User(n)))
    case DelTimeout(n) => View(v.pending - {User(n)}, v.active - {User(n)})
    case Elapse(now, _) =>
      var due := DueIn(v.pending, Time(now));
      View(v.pending - due, v.active + AllTrue(due))
  }

  ghost function AfterAll(v: View, ops: seq<Op>): View {
    if ops == [] then v else After(AfterAll(v, ops[..|ops| - 1]), ops[|ops| - 1])
  }

  lemma AfterOneMore(v: View, ops: seq<Op>, i: nat)
    requires i < |ops|
    ensures AfterAll(v, ops[..i + 1]) == After(AfterAll(v, ops[..i]), ops[i])
  {
    assert ops[..i + 1][..i] == ops[..i];
  }

  lemma UsersMinus(active: map<Id, bool>, e: Id)
    requires e.User?
    ensures Users(active - {e}) == Users(active) - {e}
  {
  }

  // ---------- A turn starves nobody ----------

  ghost predicate NoDrivers(active: map<Id, bool>) {
    forall p :: Driver(p) !in active
  }

  /** The active drivers of the queues from `q` on. */
  ghost function DriversFrom(active: map<Id, bool>, q: nat): set<Id> {
    set d | d in active.Keys && d.Driver? && d.q >= q
  }

  /** No queue is starved, the drivers of the first `q` queues have run, and there is a place in the heap for each
      of the others that are active. */
  ghost predicate Spare(s: State, q: nat, room: nat) {
    && s.starved == {} && |s.heap| + |DriversFrom(s.active, q)| <= room
    && forall p: nat :: Driver(p) in s.active ==> q <= p < |s.queues|
  }

  lemma FewerInHeap(a: set<Id>, b: set<Id>)
    requires a <= b
    ensures |a| <= |b|
  {
    assert b == a + (b - a);
  }

  lemma SizeSplit(a: set<Id>, b: set<Id>)
    requires b <= a
    ensures |a| == |a - b| + |b|
  {
    assert a == (a - b) + b;
  }

  lemma SpareAtFirst(s: State, now: int, room: nat)
    requires Placed(s) && NoDrivers(s.active) && s.starved == {} && |s.heap| <= room
    ensures Spare(Fire(s, Due(s, now)), 0, room)
  {
    var due, s' := Due(s, now), Fire(s, Due(s, now));
    SizeSplit(s.heap, due);
    assert DriversFrom(s'.active, 0) <= due;
    FewerInHeap(DriversFrom(s'.active, 0), due);
    forall p: nat | Driver(p) in s'.active
      ensures p < |s'.queues|
    {
      assert Stored(s, Driver(p));
    }
  }

  lemma SpareOne(s: State, q: nat, room: nat)
    requires Spare(s, q, room) && Driver(q) in s.active
    ensures |s.heap| < room
  {
    assert Driver(q) in DriversFrom(s.active, q);
  }

  lemma SpareLess(s: State, s': State, q: nat, room: nat)
    requires Spare(s, q, room) && Driver(q) in s.active && |s'.queues| == |s.queues| && s'.starved <= s.starved
    requires NoNewDriver(s.active, s'.active) && Driver(q) !in s'.active && s'.heap <= s.heap + {Driver(q)}
    ensures Spare(s', q + 1, room)
  {
    FewerInHeap(s'.heap, s.heap + {Driver(q)});
    var before := DriversFrom(s.active, q);
    assert Driver(q) in before;
    FewerInHeap(DriversFrom(s'.active, q + 1), before - {Driver(q)});
  }

  lemma SpareSame(s: State, q: nat, room: nat)
    requires Spare(s, q, room) && Driver(q) !in s.active
    ensures Spare(s, q + 1, room)
  {
    assert DriversFrom(s.active, q + 1) == DriversFrom(s.active, q);
  }

  // ---------- A queue that is starved ----------

  /** Of the events that wait only `User(0)` is in a queue, which is the first, and the driver of the second is off;
      the events after `k` do not wait. */
  ghost predicate Filled(s: State, k: nat) {
    && InQueue(s, User(0)) && Index(s.timeout[User(0)]) == 0 && Driver(1) !in s.timeout
    && (forall e :: InQueue(s, e) ==> e == User(0)) && forall i: nat :: i > k ==> User(i) !in s.timeout
  }

  lemma FilledMore(s0: State, s1: State, k: nat, at: Timeval, lack: bool)
    requires Placed(s0) && Placed(s1) && Filled(s0, k) && MovedTo(s0, s1, User(k + 1), at, lack) && !Tagged(at)
    ensures Filled(s1, k + 1) && |s1.heap| == |s0.heap| + 1 && s1.starved == s0.starved
  {
    var e := User(k + 1);
    assert SameEntry(s0, s1, User(0)) && SameEntry(s0, s1, Driver(1)) && Stored(s1, e);
    forall x | InQueue(s1, x)
      ensures x == User(0)
    {
      assert x != e ==> SameEntry(s0, s1, x) && InQueue(s0, x);
    }
    forall i: nat | i > k + 1
      ensures User(i) !in s1.timeout
    {
      assert SameEntry(s0, s1, User(i));
    }
    forall x | x != e
      ensures x in s1.heap <==> x in s0.heap
    {
      assert SameEntry(s0, s1, x);
    }
    assert s1.heap == s0.heap + {e};
  }

  lemma FilledFirst(s0: State, s1: State, at: Timeval, lack: bool)
    requires s0.timeout == map[] && s0.starved == {} && MovedTo(s0, s1, User(0), at, lack) && Tagged(at)
    requires Index(at) == 0
    requires Placed(s1) && !lack
    ensures Filled(s1, 0) && s1.starved == {}
  {
    forall x | x != User(0) && x != Driver(0)
      ensures x !in s1.timeout
    {
      assert SameEntry(s0, s1, x);
    }
    assert Driver(0) in s1.timeout ==> Stored(s1, Driver(0));
  }

  /** Two common timeouts, of one and of two seconds. */
  method InitTwo() returns (b: EventBase, first: Timeval, second: Timeval)
    ensures fresh(b) && b.Valid() && |b.queues| == 2 && b.starved == {} && b.timeout == map[]
    ensures Tagged(first) && Index(first) == 0 && Proper(first, 2) && Tagged(second) && Index(second) == 1
    ensures Proper(second, 2)
  {
    b := new EventBase();
    var one, two, ok, ok' := Timeval(1, 0), Timeval(2, 0), true, true;
    assert Normal(one, 0) == one && Normal(two, 1) == two;
    first, ok := b.InitCommonTimeout(one, true);
    assert UntaggedAll(b.durations) == [Untag(first)] && Time(Untag(first)) == 1000000;
    second, ok' := b.InitCommonTimeout(two, true);
    assert Time(first) != Time(second);
  }

  /** Two queues, and an event in the first. */
  method TwoQueues(now: Timeval) returns (b: EventBase, second: Timeval)
    requires now.usec < 1000000
    ensures fresh(b) && b.Valid() && |b.queues| == 2 && b.starved == {} && Filled(b.Snap(), 0)
    ensures Tagged(second) && Index(second) == 1 && Proper(second, 2)
  {
    var first;
    b, first, second := InitTwo();
    ghost var s0 := b.Snap();
    var r := b.Add(0, first, now, true);
    FilledFirst(s0, b.Snap(), Deadline(now, first, 2), false);
  }

  /** Adds events until the heap is full. */
  method FillHeap(b: EventBase, now: Timeval) returns (ghost k: nat)
    requires now.usec < 1000000 && b.Valid() && Filled(b.Snap(), 0)
    modifies b
    ensures b.Valid() && |b.queues| == |old(b.queues)| && Filled(b.Snap(), k) && b.starved == old(b.starved)
    ensures |b.timeheap| == b.room
  {
    var n := 0;
    while |b.timeheap| < b.room
      invariant b.Valid() && |b.queues| == |old(b.queues)| && Filled(b.Snap(), n) && b.starved == old(b.starved)
      decreases b.room - |b.timeheap|
    {
      ghost var s0 := b.Snap();
      var tv := Timeval(1, 0);
      var r := b.Add(n + 1, tv, now, true);
      FilledMore(s0, b.Snap(), n, Deadline(now, tv, |b.queues|), false);
      n := n + 1;
    }
    k := n;
  }

  lemma StarvesSecond(s: State, k: nat, at: Timeval)
    requires Placed(s) && Filled(s, k) && |s.queues| == 2 && Tagged(at) && Index(at) == 1
    ensures StarvedBy(s, User(0), at, true) == s.starved + {1}
  {
    assert QueueOk(s.timeout, s.queues[1], 1);
    forall x | x in s.queues[1]
      ensures false
    {
      var i: nat :| i < |s.queues[1]| && s.queues[1][i] == x;
      assert Member(s.timeout, s.queues[1], 1, i) && InQueue(s, x);
    }
  }

  /** A heap that is full, and an event that goes from one queue to another without memory: the driver of its
      new queue is left off. */
  method StarvedQueue(now: Timeval) returns (b: EventBase)
    requires now.usec < 1000000
    ensures b.Valid() && b.starved == {1} && InQueue(b.Snap(), User(0)) && Index(b.timeout[User(0)]) == 1
  {
    var second;
    b, second := TwoQueues(now);
    ghost var k := FillHeap(b, now);
    StarvesSecond(b.Snap(), k, Deadline(now, second, 2));
    var r := b.Add(0, second, now, false);
  }

  /** The events in `gone` have fired, the heap has been seen to and so have the first `i` queues. */
  ghost predicate Processed(s0: State, s: State, gone: set<Id>, now: int, i: nat) {
    && Pending(s) == Pending(s0) - gone && Users(s.active) == Users(s0.active) + AllTrue(gone)
    && gone <= Expired(s0, now)
    && HeapLater(s, now) && s.running == {} && (forall p :: p in s.starved ==> p < i)
    && |s.queues| == |s0.queues| && forall p: nat :: p < i && p < |s.queues| ==> QueueLater(s, p, now)
  }

  ghost function DueUsers(s: State, now: int): set<Id> {
    set e | e in Due(s, now) && e.User?
  }

  lemma FiredPending(s0: State, fired: set<Id>)
    ensures Pending(Fire(s0, fired)) == Pending(s0) - set e | e in fired && e.User?
  {
  }

  lemma FiredActive(s0: State, fired: set<Id>)
    ensures Users(Fire(s0, fired).active) == Users(s0.active) + AllTrue(set e | e in fired && e.User?)
  {
  }

  lemma HeapProcessed(s0: State, now: int)
    requires Placed(s0) && s0.running == {} && s0.starved == {}
    ensures Processed(s0, Fire(s0, Due(s0, now)), DueUsers(s0, now), now, 0)
  {
    FiredPending(s0, Due(s0, now));
    FiredActive(s0, Due(s0, now));
  }

  /** A queue whose driver is not due has nothing due. */
  lemma NotDue(s: State, q: nat, now: int)
    requires Placed(s) && AllCovered(s) && q < |s.queues| && HeapLater(s, now) && s.running == {} && q !in s.starved
    requires Driver(q) !in s.active
    ensures QueueLater(s, q, now)
  {
    assert Covered(s, q);
  }

  lemma SameExpired(s0: State, s1: State, q: nat, now: int)
    requires Placed(s0) && q < |s0.queues| && s1.queues == s0.queues && s1.timeout == s0.timeout - {Driver(q)}
    ensures ExpiredIn(s1.timeout, s1.queues[q], now) == ExpiredIn(s0.timeout, s0.queues[q], now)
  {
    assert QueueOk(s0.timeout, s0.queues[q], q);
    forall e | e in s0.queues[q]
      ensures e != Driver(q)
    {
      var i :| 0 <= i < |s0.queues[q]| && s0.queues[q][i] == e;
      assert Member(s0.timeout, s0.queues[q], q, i) && Stored(s0, e);
    }
  }

  /** Running a driver makes nothing due that was not. */
  lemma StillLater(s0: State, s1: State, s2: State, q: nat, fired: set<Id>, now: int)
    requires Placed(s0) && Placed(s2) && q < |s0.queues|
    requires s1.timeout == s0.timeout - {Driver(q)} && s1.heap == s0.heap - {Driver(q)} && s1.queues == s0.queues
    requires SameBut(s1.(timeout := s1.timeout - fired), s2, Driver(q)) && (Driver(q) in s2.heap ==> OnTime(s2, q))
    requires |s2.queues| == |s1.queues| && (forall p :: 0 <= p < |s2.queues| && p != q ==> s2.queues[p] == s1.queues[p])
    requires QueueLater(s2, q, now)
    ensures HeapLater(s0, now) ==> HeapLater(s2, now)
    ensures forall p: nat :: p != q && QueueLater(s0, p, now) ==> QueueLater(s2, p, now)
  {
    forall p: nat | p != q && QueueLater(s0, p, now)
      ensures QueueLater(s2, p, now)
    {
      assert QueueOk(s2.timeout, s2.queues[p], p);
      if s2.queues[p] != [] {
        assert Member(s2.timeout, s2.queues[p], p, 0) && Stored(s2, s2.queues[p][0]);
      }
    }
  }

  lemma DriverProcessed(s0: State, s1: State, s2: State, gone: set<Id>, fired: set<Id>, now: int, q: nat)
    requires Processed(s0, s1, gone, now, q) && q < |s1.queues| && Placed(s1) && s2.running == {}
    requires s2.starved <= s1.starved + {q}
    requires fired == ExpiredIn(s1.timeout, s1.queues[q], now) && |s2.queues| == |s1.queues|
    requires Pending(s2) == Pending(s1) - fired && Users(s2.active) == Users(s1.active) + AllTrue(fired)
    requires HeapLater(s2, now) && QueueLater(s2, q, now)
    requires forall p: nat :: p != q && QueueLater(s1, p, now) ==> QueueLater(s2, p, now)
    ensures Processed(s0, s2, gone + fired, now, q + 1)
  {
    QueueExpired(s0, s1, gone, now, q);
    MinusTwice(Pending(s0), gone, fired);
    PlusTwice(Users(s0.active), gone, fired);
  }

  /** What is due in a queue was due from the start. */
  lemma QueueExpired(s0: State, s1: State, gone: set<Id>, now: int, q: nat)
    requires Placed(s1) && q < |s1.queues| && Pending(s1) == Pending(s0) - gone
    ensures ExpiredIn(s1.timeout, s1.queues[q], now) <= Expired(s0, now)
  {
    assert QueueOk(s1.timeout, s1.queues[q], q);
    forall e | e in ExpiredIn(s1.timeout, s1.queues[q], now)
      ensures e in Expired(s0, now)
    {
      var i :| 0 <= i < |s1.queues[q]| && s1.queues[q][i] == e;
      assert Member(s1.timeout, s1.queues[q], q, i) && Stored(s1, e);
      assert e in Pending(s1) && Pending(s1)[e] == Pending(s0)[e];
    }
  }

  lemma MinusTwice(m: map<Id, int>, a: set<Id>, b: set<Id>)
    ensures m - a - b == m - (a + b)
  {
  }

  lemma PlusTwice(m: map<Id, bool>, a: set<Id>, b: set<Id>)
    ensures m + AllTrue(a) + AllTrue(b) == m + AllTrue(a + b)
  {
  }

  /** Once all is seen to, exactly the events that had expired are gone. */
  lemma AllProcessed(s0: State, s: State, gone: set<Id>, now: int)
    requires Placed(s) && Processed(s0, s, gone, now, |s.queues|)
    ensures gone == Expired(s0, now) && forall e :: e in Pending(s) ==> Pending(s)[e] > now
  {
    forall e | e in Pending(s)
      ensures Pending(s)[e] > now
    {
      assert Stored(s, e);
      var tv := s.timeout[e];
      if Tagged(tv) {
        var q := Index(tv);
        var i :| 0 <= i < |s.queues[q]| && s.queues[q][i] == e;
        assert QueueOk(s.timeout, s.queues[q], q) && QueueLater(s, q, now);
        HeadFirst(s.timeout, s.queues[q], q, i);
      }
    }
    forall e | e in Expired(s0, now)
      ensures e in gone
    {
      assert e in gone || e in Pending(s);
    }
  }

  /** No event of queue `q` is due. */
  ghost predicate QueueLater(s: State, q: nat, now: int) {
    q < |s.queues| && (s.queues[q] != [] ==> s.queues[q][0] in s.timeout && Time(s.timeout[s.queues[q][0]]) > now)
  }

  /** No event of the heap is due. */
  ghost predicate HeapLater(s: State, now: int) {
    forall e :: e in s.heap && e in s.timeout ==> Time(s.timeout[e]) > now
  }

  /** The pending events whose time has come. */
  ghost function Expired(s: State, now: int): set<Id> {
    set e | e in Pending(s) && Pending(s)[e] <= now
  }

  /** The callback has run: the other queues are covered as before, and so is `q` if it is empty. */
  lemma CallbackOver(s: State, q: nat)
    requires Placed(s) && q < |s.queues| && OthersCovered(s, q)
    ensures var s' := s.(running := s.running - {q});
            Placed(s') && OthersCovered(s', q) && (s.queues[q] == [] ==> AllCovered(s'))
  {
    var s' := s.(running := s.running - {q});
    SamePlaces(s, s');
    forall p: nat | p < |s'.queues| && p != q
      ensures Covered(s', p)
    {
      assert Covered(s, p);
    }
  }

  lemma FiredUsers(s0: State, q: nat, fired: set<Id>, s1: State)
    requires Placed(s0) && q < |s0.queues| && (forall e :: e in fired ==> e in s0.queues[q])
    requires s1.timeout == s0.timeout - fired && s1.active == s0.active + AllTrue(fired)
    ensures Pending(s1) == Pending(s0) - fired && Users(s1.active) == Users(s0.active) + AllTrue(fired)
    ensures forall p :: Driver(p) in s1.active ==> Driver(p) in s0.active
  {
    assert QueueOk(s0.timeout, s0.queues[q], q);
    forall e | e in fired
      ensures e.User?
    {
      var i :| 0 <= i < |s0.queues[q]| && s0.queues[q][i] == e;
      assert Member(s0.timeout, s0.queues[q], q, i) && Stored(s0, e);
    }
  }

  /** The events of a queue whose time has come. */
  ghost function ExpiredIn(t: map<Id, Timeval>, queue: seq<Id>, now: int): set<Id> {
    set e | e in queue && e in t && Time(t[e]) <= now
  }

  /** The first `k` events of the queue are those in `fired`, and their time has come. */
  ghost predicate FirstOf(t: map<Id, Timeval>, queue: seq<Id>, k: nat, fired: set<Id>, now: int) {
    k <= |queue| && fired == (set e | e in queue[..k]) && forall e :: e in fired ==> e in t && Time(t[e]) <= now
  }

  lemma MoreOf(t: map<Id, Timeval>, queue: seq<Id>, k: nat, fired: set<Id>, now: int)
    requires FirstOf(t, queue, k, fired, now) && k < |queue| && queue[k] in t && Time(t[queue[k]]) <= now
    ensures FirstOf(t, queue, k + 1, fired + {queue[k]}, now)
    ensures t - fired - {queue[k]} == t - (fired + {queue[k]})
  {
  }

  lemma MoreActive(active: map<Id, bool>, fired: set<Id>, e: Id)
    ensures (active + AllTrue(fired))[e := true] == active + AllTrue(fired + {e})
  {
  }

  /** The queue is in order, so the events after the first that is not due are not due. */
  lemma RestLater(t: map<Id, Timeval>, queue: seq<Id>, q: nat, k: nat, fired: set<Id>, now: int)
    requires QueueOk(t, queue, q) && FirstOf(t, queue, k, fired, now)
    requires k < |queue| ==> queue[k] in t && Time(t[queue[k]]) > now
    ensures fired == ExpiredIn(t, queue, now)
  {
    forall i: nat | k <= i < |queue|
      ensures queue[i] in t && Time(t[queue[i]]) > now
    {
      assert Member(t, queue, q, k) && Member(t, queue, q, i) && (i > k ==> InOrder(t, queue, k, i));
    }
    forall e | e in ExpiredIn(t, queue, now)
      ensures e in fired
    {
      var i :| 0 <= i < |queue| && queue[i] == e;
      assert e in queue[..k];
    }
  }

  /** Queue `q` without its first event, which is active. */
  ghost function Pop(s: State, q: nat): State
    requires q < |s.queues| && s.queues[q] != []
  {
    var e := s.queues[q][0];
    s.(timeout := s.timeout - {e}, queues := s.queues[q := s.queues[q][1..]], active := s.active[e := true])
  }

  lemma PopOne(s: State, q: nat)
    requires Placed(s) && q < |s.queues| && s.queues[q] != [] && OthersCovered(s, q)
    ensures var e := s.queues[q][0];
            e in s.timeout && Pop(s, q) == Without(s, e).(active := (s.active - {e})[e := true])
    ensures Placed(Pop(s, q)) && OthersCovered(Pop(s, q), q)
  {
    var e, s' := s.queues[q][0], Pop(s, q);
    assert QueueOk(s.timeout, s.queues[q], q);
    assert Member(s.timeout, s.queues[q], q, 0) && Stored(s, e);
    assert Cut(s.queues[q], e) == s.queues[q][1..];
    assert s.active[e := true] == (s.active - {e})[e := true];
    WithoutPlaced(s, e);
    SamePlaces(Without(s, e), s');
    forall p: nat | p < |s'.queues| && p != q
      ensures Covered(s', p)
    {
      WithoutCovered(s, e, p);
      assert Covered(Without(s, e), p);
    }
  }

  lemma DriverTaken(s0: State, s1: State, q: nat)
    requires Placed(s0) && AllCovered(s0) && q < |s0.queues|
    requires s1 == (if Driver(q) in s0.timeout then Without(s0, Driver(q)) else s0)
                   .(active := s0.active - {Driver(q)}, running := s0.running + {q})
    ensures Placed(s1) && AllCovered(s1) && Pending(s1) == Pending(s0) && Users(s1.active) == Users(s0.active)
  {
    if Driver(q) in s0.timeout {
      WithoutPlaced(s0, Driver(q));
      SamePlaces(Without(s0, Driver(q)), s1);
    } else {
      SamePlaces(s0, s1);
    }
    SameActive(s0.active, s1.active, Driver(q));
    assert Driver(q) in s0.timeout ==> Stored(s0, Driver(q));
    forall p: nat | p < |s1.queues|
      ensures Covered(s1, p)
    {
      if p != q {
        if Driver(q) in s0.timeout {
          WithoutCovered(s0, Driver(q), p);
          assert Covered(Without(s0, Driver(q)), p);
        } else {
          assert Covered(s0, p);
        }
      }
    }
  }

  ghost function AllTrue(es: set<Id>): map<Id, bool> {
    map e | e in es :: true
  }

  /** When nothing that is left is due, everything that was has fired. */
  lemma AllFired(s: State, fired: set<Id>, now: int)
    requires fired <= Due(s, now) && forall x :: x in s.heap - fired && x in s.timeout ==> Time(s.timeout[x]) > now
    ensures fired == Due(s, now)
  {
  }

  /** The events of the heap whose time has come. */
  ghost function Due(s: State, now: int): set<Id> {
    set e | e in s.heap && e in s.timeout && Time(s.timeout[e]) <= now
  }

  /** Those events are active instead of pending. */
  ghost function Fire(s: State, fired: set<Id>): State {
    s.(timeout := s.timeout - fired, heap := s.heap - fired, active := s.active + AllTrue(fired))
  }

  lemma FireNone(s: State)
    ensures Fire(s, {}) == s
  {
  }

  lemma FireMore(s: State, fired: set<Id>, e: Id)
    ensures Fire(Fire(s, fired), {e}) == Fire(s, fired + {e})
  {
    var a, b := Fire(Fire(s, fired), {e}), Fire(s, fired + {e});
    assert a.timeout == b.timeout && a.heap == b.heap && a.active == b.active;
  }

  /** An event of the heap fires: if it is a driver its queue is covered because it is active. */
  lemma FireOne(s: State, e: Id)
    requires Placed(s) && AllCovered(s) && e in s.heap
    ensures Fire(s, {e}) == Without(s, e).(active := (s.active - {e})[e := true])
    ensures Placed(Fire(s, {e})) && AllCovered(Fire(s, {e}))
  {
    var s' := Fire(s, {e});
    assert Stored(s, e);
    assert s.active + AllTrue({e}) == (s.active - {e})[e := true];
    WithoutPlaced(s, e);
    SamePlaces(Without(s, e), s');
    forall p: nat | p < |s'.queues|
      ensures Covered(s', p)
    {
      if e != Driver(p) {
        WithoutCovered(s, e, p);
        assert Covered(Without(s, e), p);
      }
    }
  }

  // ---------- What adding an event leaves alone, and whom it starves ----------

  ghost predicate SameEntry(s0: State, s1: State, x: Id) {
    && (x in s1.timeout <==> x in s0.timeout) && (x in s1.heap <==> x in s0.heap)
    && (x in s0.timeout ==> s1.timeout[x] == s0.timeout[x])
  }

  /** Apart from `e`, and the driver of the queue of `at`, everything waits where it did. */
  ghost predicate Elsewhere(s0: State, s1: State, e: Id, at: Timeval) {
    forall x :: x != e && !(Tagged(at) && x == Driver(Index(at))) ==> SameEntry(s0, s1, x)
  }

  /** An event that does not become the first of a queue only joins. */
  lemma Joins(s0: State, e: Id, at: Timeval, k: nat, lack: bool)
    requires Placed(s0) && AllCovered(s0) && e.User? && Fits(s0, e, at, k)
    requires !(Tagged(at) && With(s0, e, at, k).queues[Index(at)][0] == e)
    ensures MovedTo(s0, With(s0, e, at, k), e, at, lack)
  {
    Inserted(s0, e, at, k);
    FirstPlace(s0, e, at, k);
  }

  lemma AlsoElsewhere(s1: State, s2: State, s3: State, e: Id, at: Timeval, k: nat)
    requires Fits(s1, e, at, k) && s2 == With(s1, e, at, k) && Tagged(at) && SameBut(s2, s3, Driver(Index(at)))
    requires e.User?
    ensures Elsewhere(s1, s3, e, at) && e in s3.timeout && s3.timeout[e] == at
  {
  }

  lemma DetachedElsewhere(s0: State, s1: State, e: Id, at: Timeval)
    requires Detached(s0, s1, e)
    ensures Elsewhere(s0, s1, e, at)
  {
  }

  lemma ElsewhereTwice(s0: State, s1: State, s2: State, e: Id, at: Timeval)
    requires Elsewhere(s0, s1, e, at) && Elsewhere(s1, s2, e, at)
    ensures Elsewhere(s0, s2, e, at)
  {
    forall x | x != e && !(Tagged(at) && x == Driver(Index(at)))
      ensures SameEntry(s0, s2, x)
    {
      assert SameEntry(s0, s1, x) && SameEntry(s1, s2, x);
    }
  }

  ghost predicate NoNewDriver(a: map<Id, bool>, b: map<Id, bool>) {
    forall p :: Driver(p) in b ==> Driver(p) in a
  }

  /** Event `e` waits in a queue. */
  predicate InQueue(s: State, e: Id) {
    e in s.timeout && Tagged(s.timeout[e])
  }

  /** An event `e` for time `t` becomes the first of queue `q`. */
  ghost predicate Heads(s: State, e: Id, q: nat, t: int) {
    q < |s.queues| && forall x :: x in s.queues[q] && x != e && x in s.timeout ==> t < Time(s.timeout[x])
  }

  /** The starved queues after `e` has been put where `at` says; `lack` when there is no place in the heap for
      the driver. */
  ghost function StarvedBy(s: State, e: Id, at: Timeval, lack: bool): set<nat> {
    if !Tagged(at) || !Heads(s, e, Index(at), Time(at)) then s.starved
    else if lack && Driver(Index(at)) !in s.timeout then s.starved + {Index(at)}
    else s.starved - {Index(at)}
  }

  /** `e` waits for `at`; nothing else has changed but the driver of its queue, if `e` is the first there, and
      whether that queue is starved. */
  ghost predicate MovedTo(s0: State, s1: State, e: Id, at: Timeval, lack: bool) {
    && |s1.queues| == |s0.queues| && Pending(s1) == Pending(s0)[e := Time(at)]
    && Elsewhere(s0, s1, e, at) && e in s1.timeout && s1.timeout[e] == at
    && s1.starved == StarvedBy(s0, e, at, lack)
  }

  lemma MovedOver(s0: State, s1: State, s2: State, e: Id, at: Timeval, lack: bool)
    requires Placed(s0) && Detached(s0, s1, e) && e.User? && Proper(at, |s0.queues|) && |s1.queues| == |s0.queues|
    requires Pending(s1) == Pending(s0) - {e} && MovedTo(s1, s2, e, at, lack)
    ensures MovedTo(s0, s2, e, at, lack)
  {
    Overwrite(Pending(s0), e, Time(at));
    DetachedElsewhere(s0, s1, e, at);
    ElsewhereTwice(s0, s1, s2, e, at);
    HeadsDetached(s0, s1, e, at, lack);
  }

  /** The place of an event in its queue is the first exactly if it comes before all the others. */
  lemma FirstPlace(s: State, e: Id, at: Timeval, k: nat)
    requires Placed(s) && Fits(s, e, at, k) && e.User?
    ensures Tagged(at) ==> (With(s, e, at, k).queues[Index(at)][0] == e <==> Heads(s, e, Index(at), Time(at)))
  {
    if Tagged(at) {
      var queue := s.queues[Index(at)];
      assert QueueOk(s.timeout, queue, Index(at));
      if k == 0 {
        forall x | x in queue && x in s.timeout
          ensures Time(at) < Time(s.timeout[x])
        {
          var i: nat :| i < |queue| && queue[i] == x;
        }
      } else {
        assert Member(s.timeout, queue, Index(at), 0);
      }
    }
  }

  lemma HeadsDetached(s0: State, s1: State, e: Id, at: Timeval, lack: bool)
    requires Placed(s0) && Detached(s0, s1, e) && e.User? && Proper(at, |s0.queues|)
    ensures StarvedBy(s1, e, at, lack) == StarvedBy(s0, e, at, lack)
  {
    if Tagged(at) && InQueue(s0, e) && Index(s0.timeout[e]) == Index(at) {
      assert Stored(s0, e);
      assert QueueOk(s0.timeout, s0.queues[Index(at)], Index(at));
      CutQueue(s0.timeout, s0.queues[Index(at)], Index(at), e);
      assert forall x :: x in Cut(s0.queues[Index(at)], e) ==> x in s0.queues[Index(at)];
    }
    if Tagged(at) {
      SameHeads(s0, s1, e, Index(at), Time(at));
    }
  }

  lemma SameHeads(s0: State, s1: State, e: Id, q: nat, t: int)
    requires q < |s0.queues| == |s1.queues| && s1.timeout == s0.timeout - {e}
    requires forall x :: x != e ==> (x in s1.queues[q] <==> x in s0.queues[q])
    ensures Heads(s1, e, q, t) <==> Heads(s0, e, q, t)
  {
  }

  datatype AddResult = Added | NoMemory | Lost

  /** The active events of the user. */
  ghost function Users(active: map<Id, bool>): map<Id, bool> {
    map e | e in active && e.User? :: active[e]
  }

  /** Without `e` if a timeout made it active. */
  ghost function Cleared(active: map<Id, bool>, e: Id): map<Id, bool> {
    if e in active && active[e] then active - {e} else active
  }

  /** An event that is active for another reason stays so, and so do all others. */
  lemma ClearedKeeps(active: map<Id, bool>, e: Id)
    ensures var left := Cleared(active, e);
            && (e in left <==> e in active && !active[e]) && (e in left ==> !left[e])
            && forall x :: x != e ==> (x in left <==> x in active) && (x in left ==> left[x] == active[x])
  {
  }

  lemma ClearedUser(was: map<Id, bool>, now: map<Id, bool>, e: Id)
    requires e.User?
    ensures Users(now) == Cleared(Users(was), e) ==> (e in now <==> e in was && !was[e])
  {
    if Users(now) == Cleared(Users(was), e) {
      ClearedKeeps(Users(was), e);
      assert e in now <==> e in Users(now);
    }
  }

  lemma UsersCleared(active: map<Id, bool>, e: Id)
    requires e.User?
    ensures Users(Cleared(active, e)) == Cleared(Users(active), e)
  {
  }

  lemma Overwrite(m: map<Id, int>, e: Id, x: int)
    ensures (m - {e})[e := x] == m[e := x]
  {
  }

  lemma SameActive(a: map<Id, bool>, b: map<Id, bool>, d: Id)
    requires d.Driver? && (b == a || b == a - {d})
    ensures Users(b) == Users(a)
  {
  }

  lemma SomeCovered(s: State, q: nat)
    requires AllCovered(s) || OthersCovered(s, q)
    ensures OthersCovered(s, q)
  {
  }

  /** An event of the user is on. */
  lemma Inserted(s1: State, e: Id, at: Timeval, k: nat)
    requires Placed(s1) && AllCovered(s1) && e.User? && Fits(s1, e, at, k)
    ensures var s2 := With(s1, e, at, k);
      && Placed(s2) && Pending(s2) == Pending(s1)[e := Time(at)]
      && (Tagged(at) ==> OthersCovered(s2, Index(at)) && s2.queues[Index(at)] != [])
      && ((Tagged(at) && s2.queues[Index(at)][0] == e) || AllCovered(s2))
  {
    var s2 := With(s1, e, at, k);
    WithPlaced(s1, e, at, k);
    forall p: nat | p < |s2.queues| && !(Tagged(at) && p == Index(at) && k == 0)
      ensures Covered(s2, p)
    {
      WithCovered(s1, e, at, k, p);
    }
  }

  /** An event of the user is off. */
  lemma DetachedUser(s0: State, s1: State, e: Id)
    requires Placed(s0) && AllCovered(s0) && e.User? && Detached(s0, s1, e)
    ensures AllCovered(s1) && Pending(s1) == Pending(s0) - {e} && e !in s1.timeout
  {
    assert Pending(s1) == Pending(s0) - {e} && e !in s1.timeout;
    forall p: nat | p < |s1.queues|
      ensures Covered(s1, p)
    {
      if e in s0.timeout {
        WithoutCovered(s0, e, p);
        assert Covered(Without(s0, e), p);
      } else {
        assert Covered(s0, p);
      }
    }
  }

  lemma NewQueue(s: State)
    requires Placed(s) && AllCovered(s) && |s.queues| < MAX_COMMON_TIMEOUTS
    ensures var s' := s.(queues := s.queues + [[]]); Placed(s') && AllCovered(s')
  {
    var s' := s.(queues := s.queues + [[]]);
    forall e | e in s'.timeout
      ensures Stored(s', e)
    {
      assert Stored(s, e);
    }
    forall q: nat | q < |s'.queues|
      ensures Covered(s', q) && QueueOk(s'.timeout, s'.queues[q], q)
    {
      assert q < |s.queues| ==> Covered(s, q) && QueueOk(s.timeout, s.queues[q], q);
    }
  }

  lemma HeadAndDriver(s: State, q: nat)
    requires Placed(s) && q < |s.queues| && s.queues[q] != []
    ensures s.queues[q][0] in s.timeout && Proper(s.timeout[s.queues[q][0]], |s.queues|) && s.queues[q][0] != Driver(q)
    ensures Driver(q) in s.timeout ==> Driver(q) in s.heap && !Tagged(s.timeout[Driver(q)])
  {
    assert QueueOk(s.timeout, s.queues[q], q);
    assert Member(s.timeout, s.queues[q], q, 0) && Stored(s, s.queues[q][0]);
    assert Driver(q) in s.timeout ==> Stored(s, Driver(q));
  }

  lemma SamePlaces(s: State, s': State)
    requires Placed(s) && s'.timeout == s.timeout && s'.heap == s.heap && s'.queues == s.queues
    ensures Placed(s')
  {
  }

  lemma Starved(s: State, q: nat)
    requires Placed(s) && q < |s.queues| && OthersCovered(s, q)
    ensures var s' := s.(starved := s.starved + {q}); Placed(s') && AllCovered(s')
  {
    var s' := s.(starved := s.starved + {q});
    SamePlaces(s, s');
    forall p: nat | p < |s'.queues|
      ensures Covered(s', p)
    {
      assert p != q ==> Covered(s, p);
    }
  }

  /** Another queue stays covered when the driver of queue `q` moves. */
  lemma OtherDriver(s0: State, s1: State, s2: State, q: nat, tv: Timeval, p: nat)
    requires Placed(s0) && Placed(s1) && Fits(s1, Driver(q), tv, 0) && !Tagged(tv) && p < |s0.queues| && p != q
    requires Detached(s0, s1, Driver(q))
    requires s2 == With(s1, Driver(q), tv, 0).(starved := s0.starved - {q})
    requires Covered(s0, p)
    ensures Covered(s2, p)
  {
    if Driver(q) in s0.timeout {
      WithoutCovered(s0, Driver(q), p);
      assert Stored(s0, Driver(q));
    }
    WithCovered(s1, Driver(q), tv, 0, p);
  }

  lemma MovedCovered(s0: State, s1: State, s2: State, q: nat, tv: Timeval)
    requires Placed(s0) && Placed(s1) && q < |s0.queues| && s0.queues[q] != []
    requires Detached(s0, s1, Driver(q)) && Fits(s1, Driver(q), tv, 0)
    requires s0.queues[q][0] in s0.timeout && !Tagged(tv) && Time(tv) == Time(s0.timeout[s0.queues[q][0]])
    requires s2 == With(s1, Driver(q), tv, 0).(starved := s0.starved - {q}) && OthersCovered(s0, q)
    ensures AllCovered(s2)
  {
    HeadAndDriver(s0, q);
    forall p: nat | p < |s2.queues|
      ensures Covered(s2, p)
    {
      if p == q {
        OwnDriver(s0, s1, s2, q, tv);
      } else {
        OtherDriver(s0, s1, s2, q, tv, p);
      }
    }
  }

  /** What scheduling the driver of queue `q` does to the state. */
  lemma Rescheduled(s0: State, s1: State, s2: State, q: nat, tv: Timeval)
    requires Placed(s0) && Placed(s1) && q < |s0.queues| && s0.queues[q] != []
    requires Detached(s0, s1, Driver(q)) && Fits(s1, Driver(q), tv, 0)
    requires s0.queues[q][0] in s0.timeout && !Tagged(tv) && Time(tv) == Time(s0.timeout[s0.queues[q][0]])
    requires s2 == With(s1, Driver(q), tv, 0).(starved := s0.starved - {q}) && OthersCovered(s0, q)
    ensures Placed(s2) && AllCovered(s2) && s2.queues == s0.queues
    ensures Pending(s2) == Pending(s0) && SameBut(s0, s2, Driver(q)) && OnTime(s2, q)
  {
    HeadAndDriver(s0, q);
    WithPlaced(s1, Driver(q), tv, 0);
    SamePlaces(With(s1, Driver(q), tv, 0), s2);
    MovedCovered(s0, s1, s2, q, tv);
    SameUsers(s0, s2, Driver(q));
  }

  lemma SameUsers(s0: State, s2: State, d: Id)
    requires SameBut(s0, s2, d) && d.Driver?
    ensures Pending(s2) == Pending(s0)
  {
  }

  lemma OwnDriver(s0: State, s1: State, s2: State, q: nat, tv: Timeval)
    requires q < |s0.queues| && s0.queues[q] != [] && s0.queues[q][0] in s0.timeout && s0.queues[q][0] != Driver(q)
    requires Driver(q) in s0.timeout ==> !Tagged(s0.timeout[Driver(q)])
    requires Detached(s0, s1, Driver(q))
    requires !Tagged(tv) && Time(tv) == Time(s0.timeout[s0.queues[q][0]])
    requires s2 == With(s1, Driver(q), tv, 0).(starved := s0.starved - {q})
    ensures Covered(s2, q)
  {
  }

  lemma SameTag(a: Timeval, b: Timeval)
    requires Tagged(a) && Tagged(b) && Index(a) == Index(b) && Micros(a) < 1000000 && Micros(b) < 1000000
    ensures AtMost(a, b) <==> Time(a) <= Time(b)
  {
  }
}
