/** The ring of name servers of the resolver and the round-robin choice among those that are up. */
module NameServers {

  class Server {
    const address: int
    var next: Server
    var up: bool

    constructor (address: int)
      ensures this.address == address && next == this && up
    {
      this.address, next, up := address, this, true;
    }
  }

  // ---------- Rings ----------

  function Rotated(ring: seq<Server>, k: nat): seq<Server>
    requires k <= |ring|
  {
    ring[k..] + ring[..k]
  }

  /** The servers of the ring that are in `ups`, in the order of the ring. */
  ghost function InOrder(ring: seq<Server>, ups: set<Server>): seq<Server> {
    if ring == [] then []
    else if ring[0] in ups then [ring[0]] + InOrder(ring[1..], ups)
    else InOrder(ring[1..], ups)
  }

  lemma {:induction false} InOrderAppend(a: seq<Server>, b: seq<Server>, ups: set<Server>)
    ensures InOrder(a + b, ups) == InOrder(a, ups) + InOrder(b, ups)
  {
    if a == [] {
      assert a + b == b;
    } else {
      assert (a + b)[1..] == a[1..] + b;
      InOrderAppend(a[1..], b, ups);
    }
  }

  lemma {:induction false} InOrderNone(a: seq<Server>, ups: set<Server>)
    requires forall i :: 0 <= i < |a| ==> a[i] !in ups
    ensures InOrder(a, ups) == []
  {
    if a != [] {
      InOrderNone(a[1..], ups);
    }
  }

  lemma {:induction false} InOrderMembers(ring: seq<Server>, ups: set<Server>)
    ensures forall s :: s in InOrder(ring, ups) <==> s in ring && s in ups
  {
    if ring != [] {
      InOrderMembers(ring[1..], ups);
      assert ring == [ring[0]] + ring[1..];
    }
  }

  lemma {:induction false} InOrderDistinct(ring: seq<Server>, ups: set<Server>)
    requires forall i, j :: 0 <= i < j < |ring| ==> ring[i] != ring[j]
    ensures forall i, j :: 0 <= i < j < |InOrder(ring, ups)| ==> InOrder(ring, ups)[i] != InOrder(ring, ups)[j]
  {
    if ring != [] {
      var rest := ring[1..];
      InOrderDistinct(rest, ups);
      InOrderMembers(rest, ups);
      assert ring[0] !in rest;
    }
  }

  /** The place of the first server that is up. */
  ghost predicate FirstUp(ring: seq<Server>, ups: set<Server>, k: nat) {
    k < |ring| && ring[k] in ups && forall i :: 0 <= i < k ==> ring[i] !in ups
  }

  /** Picking the first server that is up and turning the ring past it takes it from the front of the order
      to the back. */
  lemma PickTurns(ring: seq<Server>, ups: set<Server>, k: nat)
    requires FirstUp(ring, ups, k)
    ensures InOrder(ring, ups) == [ring[k]] + InOrder(ring[k + 1..], ups)
    ensures InOrder(Rotated(ring, k + 1), ups) == InOrder(ring[k + 1..], ups) + [ring[k]]
  {
    var front := ring[..k];
    assert ring == front + ([ring[k]] + ring[k + 1..]);
    InOrderNone(front, ups);
    InOrderAppend(front, [ring[k]] + ring[k + 1..], ups);
    InOrderAppend([ring[k]], ring[k + 1..], ups);
    assert ring[..k + 1] == front + [ring[k]];
    InOrderAppend(front, [ring[k]], ups);
    InOrderAppend(ring[k + 1..], ring[..k + 1], ups);
  }

  /** `picks` are the servers that consecutive picks from `ring` return while the states do not change, and
      `after` is the ring afterwards. */
  ghost predicate Picks(ring: seq<Server>, ups: set<Server>, picks: seq<Server>, after: seq<Server>)
    decreases |picks|
  {
    if picks == [] then ring == after
    else
      exists k: nat ::
        FirstUp(ring, ups, k) && picks[0] == ring[k] && Picks(Rotated(ring, k + 1), ups, picks[1..], after)
  }

  /** The picks go through the order and what has been picked goes to its end. */
  lemma {:induction false} PicksFollowOrder(ring: seq<Server>, ups: set<Server>, picks: seq<Server>, after: seq<Server>)
    requires Picks(ring, ups, picks, after) && |picks| <= |InOrder(ring, ups)|
    ensures picks == InOrder(ring, ups)[..|picks|]
    ensures InOrder(after, ups) == InOrder(ring, ups)[|picks|..] + picks
    decreases |picks|
  {
    var order := InOrder(ring, ups);
    if picks == [] {
      assert order[0..] == order;
    } else {
      var k: nat :| FirstUp(ring, ups, k) && picks[0] == ring[k] && Picks(Rotated(ring, k + 1), ups, picks[1..], after);
      PickTurns(ring, ups, k);
      var turned := Rotated(ring, k + 1);
      var rest := InOrder(ring[k + 1..], ups);
      assert InOrder(turned, ups) == rest + [ring[k]] && order == [ring[k]] + rest;
      PicksFollowOrder(turned, ups, picks[1..], after);
      var n := |picks| - 1;
      assert (rest + [ring[k]])[..n] == rest[..n] && (rest + [ring[k]])[n..] == rest[n..] + [ring[k]];
      assert picks == [picks[0]] + picks[1..];
    }
  }

  /** One more pick. */
  lemma {:induction false} PickedOneMore(ring: seq<Server>, ups: set<Server>, picks: seq<Server>, mid: seq<Server>,
                                         k: nat)
    requires Picks(ring, ups, picks, mid) && FirstUp(mid, ups, k)
    ensures Picks(ring, ups, picks + [mid[k]], Rotated(mid, k + 1))
    decreases |picks|
  {
    var picks' := picks + [mid[k]];
    if picks == [] {
      assert picks'[1..] == [];
    } else {
      var j: nat :| FirstUp(ring, ups, j) && picks[0] == ring[j] && Picks(Rotated(ring, j + 1), ups, picks[1..], mid);
      PickedOneMore(Rotated(ring, j + 1), ups, picks[1..], mid, k);
      assert picks'[1..] == picks[1..] + [mid[k]];
    }
  }

  ghost function Members(ring: seq<Server>): set<Server> {
    set s | s in ring
  }

  lemma {:induction false} CountInOrder(ring: seq<Server>, ups: set<Server>)
    requires forall i, j :: 0 <= i < j < |ring| ==> ring[i] != ring[j]
    ensures |InOrder(ring, ups)| == |Members(ring) * ups|
  {
    if ring != [] {
      var rest := ring[1..];
      CountInOrder(rest, ups);
      assert ring[0] !in rest && ring == [ring[0]] + rest;
      assert Members(ring) * ups == Members(rest) * ups + (if ring[0] in ups then {ring[0]} else {});
    } else {
      assert Members(ring) * ups == {};
    }
  }

  /** Fairness: as many picks as servers are up return each of them exactly once, and no other. */
  lemma RoundRobin(ring: seq<Server>, ups: set<Server>, picks: seq<Server>, after: seq<Server>)
    requires forall i, j :: 0 <= i < j < |ring| ==> ring[i] != ring[j]
    requires Picks(ring, ups, picks, after) && |picks| == |Members(ring) * ups|
    ensures forall s :: s in picks <==> s in ring && s in ups
    ensures forall i, j :: 0 <= i < j < |picks| ==> picks[i] != picks[j]
    ensures InOrder(after, ups) == InOrder(ring, ups)
  {
    CountInOrder(ring, ups);
    PicksFollowOrder(ring, ups, picks, after);
    InOrderMembers(ring, ups);
    InOrderDistinct(ring, ups);
    assert picks == InOrder(ring, ups);
  }

  // ---------- The resolver ----------

  /** Server `i` is followed by the next one of the ring. */
  ghost predicate Follows(ring: seq<Server>, i: nat)
    requires i < |ring|
    reads {ring[i]}`next
  {
    ring[i].next == ring[if i + 1 < |ring| then i + 1 else 0]
  }

  ghost predicate RingOk(ring: seq<Server>)
    reads ring`next
  {
    && (forall i, j :: 0 <= i < j < |ring| ==> ring[i] != ring[j])
    && forall i: nat :: i < |ring| ==> Follows(ring, i)
  }

  /** A ring can be read from any of its servers on. */
  lemma RingTurns(ring: seq<Server>, k: nat)
    requires RingOk(ring) && k <= |ring|
    ensures RingOk(Rotated(ring, k))
  {
    var turned := Rotated(ring, k);
    forall i: nat | i < |turned|
      ensures Follows(turned, i)
    {
      var at := if i + k < |ring| then i + k else i + k - |ring|;
      assert Follows(ring, at) && turned[i] == ring[at];
    }
  }

  lemma SameMembers(ring: seq<Server>, k: nat)
    requires k <= |ring|
    ensures forall s :: s in Rotated(ring, k) <==> s in ring
  {
    assert ring == ring[..k] + ring[k..];
  }

  /** The ring with `ns` after its head. */
  function Joined(ring: seq<Server>, ns: Server): seq<Server> {
    if ring == [] then [ns] else [ring[0], ns] + ring[1..]
  }

  /** A request in flight: how often it has been sent and the server that it is for. */
  datatype Request = Request(txCount: nat, ns: Server)

  class Resolver {
    var serverHead: Server?
    var good: int
    var inflight: seq<Request>
    ghost var ring: seq<Server>

    constructor ()
      ensures Valid() && ring == [] && inflight == []
    {
      serverHead, good, inflight, ring := null, 0, [], [];
    }

    ghost predicate Linked()
      reads this`ring, this`serverHead, ring`next
    {
      RingOk(ring) && serverHead == (if ring == [] then null else ring[0])
    }

    ghost function Ups(): set<Server>
      reads this`ring, ring`up
    {
      set s | s in ring && s.up
    }

    /** `global_good_nameservers` counts the servers that are up. */
    ghost predicate Valid()
      reads this, ring
    {
      Linked() && good == |Ups()|
    }

    /** Moves the head of the ring on by `k` servers. */
    ghost method Turn(k: nat)
      requires RingOk(ring) && k <= |ring| && ring != [] && serverHead == ring[if k < |ring| then k else 0]
      modifies this`ring
      ensures Linked() && ring == Rotated(old(ring), k) && Ups() == old(Ups())
    {
      RingTurns(ring, k);
      SameMembers(ring, k);
      ring := Rotated(ring, k);
    }

    /** Makes the server after the head the head. */
    method Advance()
      requires Linked() && serverHead != null
      modifies this`serverHead, this`ring
      ensures Linked() && ring == Rotated(old(ring), 1) && Ups() == old(Ups())
    {
      assert Follows(ring, 0);
      serverHead := serverHead.next;
      Turn(1);
    }

    /** `nameserver_pick`: the first server from the head on that is up, or the next one if none is. */
    method Pick() returns (picked: Server?)
      requires Valid()
      modifies this`serverHead, this`ring
      ensures Valid() && Ups() == old(Ups())
      ensures old(ring) == [] ==> picked == null && ring == []
      ensures old(ring) != [] && good == 0 ==> ring == Rotated(old(ring), 1) && picked == ring[0]
      ensures good > 0 ==>
                exists k: nat ::
                  FirstUp(old(ring), Ups(), k) && picked == old(ring)[k] && ring == Rotated(old(ring), k + 1)
    {
      if serverHead == null {
        return null;
      }
      if good == 0 {
        Advance();
        return serverHead;
      }
      ghost var k;
      picked, k := Find();
    }

    /** As many picks as there are servers up, the states of the servers unchanged: each of those that are up
        is picked exactly once, no other is, and the next round picks them in the same order. */
    method PickRound() returns (picks: seq<Server>)
      requires Valid()
      modifies this`serverHead, this`ring
      ensures Valid() && Ups() == old(Ups()) && |picks| == good
      ensures Picks(old(ring), Ups(), picks, ring)
      ensures forall s :: s in picks <==> s in Ups()
      ensures forall i, j :: 0 <= i < j < |picks| ==> picks[i] != picks[j]
      ensures InOrder(ring, Ups()) == old(InOrder(ring, Ups()))
    {
      picks := [];
      for i := 0 to good
        invariant Valid() && Ups() == old(Ups()) && |picks| == i && good == old(good)
        invariant Picks(old(ring), old(Ups()), picks, ring)
      {
        ghost var mid := ring;
        var picked := Pick();
        ghost var k: nat :| FirstUp(mid, Ups(), k) && picked == mid[k] && ring == Rotated(mid, k + 1);
        PickedOneMore(old(ring), old(Ups()), picks, mid, k);
        picks := picks + [picked];
      }
      assert Members(old(ring)) * Ups() == Ups();
      RoundRobin(old(ring), Ups(), picks, ring);
    }

    /** The loop of `nameserver_pick`; once round the ring it takes the server that it began with. */
    method Find() returns (picked: Server, ghost k: nat)
      requires Linked() && ring != []
      modifies this`serverHead, this`ring
      ensures Linked() && Ups() == old(Ups())
      ensures Ups() != {} ==>
                FirstUp(old(ring), Ups(), k) && picked == old(ring)[k] && ring == Rotated(old(ring), k + 1)
      ensures Ups() == {} ==> picked == old(ring)[0] && ring == Rotated(old(ring), 1)
    {
      var startedAt := serverHead;
      k := 0;
      while true
        invariant ring == old(ring) && RingOk(ring) && k < |ring| && serverHead == ring[k]
        invariant forall i :: 0 <= i < k ==> !ring[i].up
        decreases |ring| - k
      {
        assert Follows(ring, k);
        picked := serverHead;
        serverHead := serverHead.next;
        if picked.up {
          assert FirstUp(ring, Ups(), k);
          Turn(k + 1);
          return;
        }
        if serverHead == startedAt {
          assert k + 1 == |ring|;
          picked := serverHead;
          Advance();
          return;
        }
        k := k + 1;
      }
    }

    /** `nameserver_up`. */
    method Up(ns: Server)
      requires Valid() && ns in ring
      modifies this`good, ns`up
      ensures Valid() && Ups() == old(Ups()) + {ns}
    {
      if !ns.up {
        ns.up := true;
        good := good + 1;
        assert Ups() == old(Ups()) + {ns};
      }
    }

    /** `nameserver_failed`: the server is down, and requests for it that have not been sent go to servers
        that are up, if there are any. */
    method Fail(ns: Server)
      requires Valid() && ns in ring && forall r :: r in inflight ==> r.ns in ring
      modifies this`good, this`serverHead, this`ring, this`inflight, ns`up
      ensures Valid() && Ups() == old(Ups()) - {ns} && |inflight| == |old(inflight)|
      ensures Members(ring) == old(Members(ring))
      ensures forall i :: 0 <= i < |inflight| ==>
        var r, was := inflight[i], old(inflight)[i];
        && r.txCount == was.txCount
        && (if old(ns.up) && was.txCount == 0 && was.ns == ns && good > 0 then r.ns in Ups() else r == was)
    {
      if !ns.up {
        return;
      }
      good := good - 1;
      ns.up := false;
      assert Ups() == old(Ups()) - {ns};
      if good == 0 {
        return;
      }
      Reassign(ns);
    }

    /** The loop of `nameserver_failed` over the requests in flight. */
    method Reassign(ns: Server)
      requires Valid() && good > 0
      modifies this`serverHead, this`ring, this`inflight
      ensures Valid() && Ups() == old(Ups()) && |inflight| == |old(inflight)| && Members(ring) == old(Members(ring))
      ensures forall i :: 0 <= i < |inflight| ==>
        var r, was := inflight[i], old(inflight)[i];
        r.txCount == was.txCount && if was.txCount == 0 && was.ns == ns then r.ns in Ups() else r == was
    {
      for i := 0 to |inflight|
        invariant Valid() && Ups() == old(Ups()) && |inflight| == |old(inflight)| && Members(ring) == old(Members(ring))
        invariant forall j :: 0 <= j < i ==> var r, was := inflight[j], old(inflight)[j];
          r.txCount == was.txCount && if was.txCount == 0 && was.ns == ns then r.ns in Ups() else r == was
        invariant forall j :: i <= j < |inflight| ==> inflight[j] == old(inflight)[j]
      {
        if inflight[i].txCount == 0 && inflight[i].ns == ns {
          var picked := Pick();
          inflight := inflight[i := inflight[i].(ns := picked)];
        }
      }
    }

    /** Is there a server with this address? The loop of `_evdns_nameserver_add_impl` round the ring. */
    method Known(address: int) returns (known: bool)
      requires Linked()
      ensures known <==> exists s :: s in ring && s.address == address
    {
      if serverHead == null {
        return false;
      }
      var server: Server := serverHead;
      ghost var k := 0;
      while true
        invariant k < |ring| && server == ring[k] && forall i :: 0 <= i < k ==> ring[i].address != address
        decreases |ring| - k
      {
        assert Follows(ring, k);
        if server.address == address {
          return true;
        }
        server := server.next;
        if server == serverHead {
          assert k + 1 == |ring|;
          return false;
        }
        k := k + 1;
      }
    }

    /** `_evdns_nameserver_add_impl`: a new server goes in after the head and is up; `err` is what making its socket
        ends with, 0 if nothing fails. */
    method Add(address: int, err: int) returns (r: int, ns: Server?)
      requires Valid() && err in {-1, 0, 1, 2}
      modifies this`serverHead, this`good, this`ring, (if serverHead == null then {} else {serverHead})`next
      ensures Valid() && (r == 3 <==> old(exists s :: s in ring && s.address == address)) && (r == 0 <==> ns != null)
      ensures r == 3 || r == err
      ensures r != 0 ==> ring == old(ring)
      ensures r == 0 ==>
                fresh(ns) && ns.address == address && ring == Joined(old(ring), ns) && Ups() == old(Ups()) + {ns}
    {
      var known := Known(address);
      if known {
        return 3, null;
      }
      if err != 0 {
        return err, null;
      }
      ns := Create(address);
      r := 0;
    }

    /** A new server in the ring. */
    method Create(address: int) returns (ns: Server)
      requires Valid()
      modifies this`serverHead, this`good, this`ring, (if serverHead == null then {} else {serverHead})`next
      ensures Valid() && fresh(ns) && ns.address == address
      ensures ring == Joined(old(ring), ns) && Ups() == old(Ups()) + {ns}
    {
      ns := new Server(address);
      Insert(ns);
    }

    /** Links a server into the ring. */
    method Link(ns: Server)
      requires Linked() && ns !in ring && ns.next == ns
      modifies this`serverHead, this`ring, ns`next, (if serverHead == null then {} else {serverHead})`next
      ensures Linked() && ring == Joined(old(ring), ns)
      ensures ns.up ==> Ups() == old(Ups()) + {ns}
    {
      if serverHead == null {
        serverHead := ns;
        ring := [ns];
      } else {
        InsertAfterHead(ns);
      }
    }

    method Insert(ns: Server)
      requires Valid() && ns !in ring && ns.up && ns.next == ns
      modifies this`serverHead, this`good, this`ring, ns`next, (if serverHead == null then {} else {serverHead})`next
      ensures Valid() && Ups() == old(Ups()) + {ns} && ring == Joined(old(ring), ns)
    {
      Link(ns);
      good := good + 1;
    }

    method InsertAfterHead(ns: Server)
      requires Linked() && ring != [] && ns !in ring
      modifies this`ring, ns`next, serverHead`next
      ensures Linked() && ring == Joined(old(ring), ns) && forall s :: s in ring <==> s == ns || s in old(ring)
    {
      assert Follows(ring, 0);
      ns.next := serverHead.next;
      serverHead.next := ns;
      ring := [ring[0], ns] + ring[1..];
      forall i: nat | i < |ring|
        ensures Follows(ring, i)
      {
        if i >= 2 {
          assert old(Follows(ring, i - 1)) && ring[i] == old(ring[i - 1]) && ring[i] != ring[0];
        }
      }
      assert old(ring) == [old(ring[0])] + old(ring[1..]);
    }
  }
}
