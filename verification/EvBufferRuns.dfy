/** Runs of operations over any number of chunked buffers. */
module EvBufferRuns {
  import opened EvBuffer

  /** All the chunks of the buffers. */
  ghost function Chunks(bs: seq<Buffer>): set<Chain>
    reads bs`chains
  {
    set i, k | 0 <= i < |bs| && 0 <= k < |bs[i].chains| :: bs[i].chains[k]
  }

  /** Buffers `i` and `j` are different objects without a chunk in common. */
  ghost predicate Separate(bs: seq<Buffer>, i: nat, j: nat)
    requires i < |bs| && j < |bs|
    reads bs`chains
  {
    bs[i] != bs[j] && bs[i].Disjoint(bs[j])
  }

  ghost predicate AllSeparate(bs: seq<Buffer>)
    reads bs`chains
  {
    forall i: nat, j: nat :: i < |bs| && j < |bs| && i != j ==> Separate(bs, i, j)
  }

  /** Buffer `i` is in order and stands for `cs[i]`. */
  ghost predicate HoldsAt(bs: seq<Buffer>, cs: seq<string>, i: nat)
    requires i < |bs| == |cs|
    reads bs[i], bs[i].chains
  {
    bs[i].Valid() && bs[i].Content() == cs[i]
  }

  /** The buffers stand for the strings `cs`, and no two share a chunk. */
  ghost predicate Hold(bs: seq<Buffer>, cs: seq<string>)
    reads bs, Chunks(bs)
  {
    |bs| == |cs| && AllSeparate(bs) && forall i: nat :: i < |bs| ==> HoldsAt(bs, cs, i)
  }

  datatype Op =
    | Append(i: nat, data: string)
    | Prepend(i: nat, data: string)
    | Drain(i: nat, n: nat)
    | Pullup(i: nat, size: int)
    | AppendAll(i: nat, j: nat)
    | PrependAll(i: nat, j: nat)
    | Transfer(i: nat, j: nat, n: nat)

  /** The operation is on two buffers. */
  predicate OfTwo(op: Op) {
    op.AppendAll? || op.PrependAll? || op.Transfer?
  }

  predicate Legal(op: Op, n: nat) {
    op.i < n && (OfTwo(op) ==> op.j < n)
  }

  function Min(a: nat, b: nat): nat {
    if a < b then a else b
  }

  /** What an operation does to strings. */
  function After(cs: seq<string>, op: Op): (r: seq<string>)
    requires Legal(op, |cs|)
    ensures |r| == |cs|
  {
    match op
    case Append(i, data) => cs[i := cs[i] + data]
    case Prepend(i, data) => cs[i := data + cs[i]]
    case Drain(i, n) => cs[i := cs[i][Min(n, |cs[i]|)..]]
    case Pullup(i, size) => cs
    case AppendAll(i, j) => if i == j then cs else cs[i := cs[i] + cs[j]][j := ""]
    case PrependAll(i, j) => if i == j then cs else cs[i := cs[j] + cs[i]][j := ""]
    case Transfer(i, j, n) =>
      if i == j then cs
      else
        var m := Min(n, |cs[i]|);
        cs[j := cs[j] + cs[i][..m]][i := cs[i][m..]]
  }

  /** An operation on one buffer. */
  method OnOne(bs: seq<Buffer>, op: Op, ghost cs: seq<string>)
    requires Hold(bs, cs) && Legal(op, |bs|) && !OfTwo(op)
    modifies bs[op.i], bs[op.i].chains
    ensures bs[op.i].Valid() && bs[op.i].Content() == After(cs, op)[op.i] && bs[op.i].OldOrNew(old(bs[op.i].chains))
  {
    var b := bs[op.i];
    assert HoldsAt(bs, cs, op.i);
    assert b.first != null ==> b.first == b.chains[0];
    assert b.last != null ==> b.last == b.chains[|b.chains| - 1];
    match op
    case Append(i, data) =>
      var ok := b.Add(data, true);
    case Prepend(i, data) =>
      var ok := b.Prepend(data, true);
    case Drain(i, n) =>
      b.Drain(n);
    case Pullup(i, size) =>
      var ok := b.Pullup(size, true);
  }

  /** Buffer `j` is emptied into buffer `i`, at its end or at its front. */
  method Unite(bs: seq<Buffer>, i: nat, j: nat, front: bool, ghost cs: seq<string>)
    requires Hold(bs, cs) && i < |bs| && j < |bs| && i != j
    modifies bs[i], bs[j], bs[i].chains, bs[j].chains
    ensures bs[i].Valid() && bs[i].Content() == if front then cs[j] + cs[i] else cs[i] + cs[j]
    ensures bs[j].Valid() && bs[j].Content() == "" && bs[i].Disjoint(bs[j])
    ensures bs[i].OldOrNew(old(bs[i].chains) + old(bs[j].chains)) && bs[j].OldOrNew(old(bs[j].chains))
  {
    var a, b := bs[i], bs[j];
    assert HoldsAt(bs, cs, i) && HoldsAt(bs, cs, j) && Separate(bs, i, j);
    assert a.last != null ==> a.last == a.chains[|a.chains| - 1];
    assert b.last != null ==> b.last == b.chains[|b.chains| - 1];
    if front {
      a.PrependBuffer(b);
    } else {
      a.AddBuffer(b);
    }
  }

  /** The first bytes of buffer `i` go to the end of buffer `j`. */
  method Send(bs: seq<Buffer>, i: nat, j: nat, n: nat, ghost cs: seq<string>)
    requires Hold(bs, cs) && i < |bs| && j < |bs| && i != j
    modifies bs[i], bs[j], bs[i].chains, bs[j].chains
    ensures var m := Min(n, |cs[i]|);
      && bs[i].Valid() && bs[i].Content() == cs[i][m..]
      && bs[j].Valid() && bs[j].Content() == cs[j] + cs[i][..m] && bs[i].Disjoint(bs[j])
    ensures bs[i].OldOrNew(old(bs[i].chains)) && bs[j].OldOrNew(old(bs[i].chains) + old(bs[j].chains))
  {
    assert HoldsAt(bs, cs, i) && HoldsAt(bs, cs, j) && Separate(bs, i, j);
    var m, added := bs[i].RemoveBuffer(bs[j], n, true);
  }

  /** An operation on two different buffers. */
  method OnTwo(bs: seq<Buffer>, op: Op, ghost cs: seq<string>)
    requires Hold(bs, cs) && Legal(op, |bs|) && OfTwo(op) && op.i != op.j
    modifies bs[op.i], bs[op.j], bs[op.i].chains, bs[op.j].chains
    ensures bs[op.i].Valid() && bs[op.i].Content() == After(cs, op)[op.i]
    ensures bs[op.j].Valid() && bs[op.j].Content() == After(cs, op)[op.j]
    ensures bs[op.i].Disjoint(bs[op.j])
    ensures bs[op.i].OldOrNew(old(bs[op.i].chains) + old(bs[op.j].chains))
    ensures bs[op.j].OldOrNew(old(bs[op.i].chains) + old(bs[op.j].chains))
  {
    if op.Transfer? {
      Send(bs, op.i, op.j, op.n, cs);
    } else {
      Unite(bs, op.i, op.j, op.PrependAll?, cs);
    }
  }

  /** Every chunk was there before or is new. */
  twostate predicate Grown(bs: seq<Buffer>)
    reads bs`chains
  {
    forall c :: c in Chunks(bs) ==> c in old(Chunks(bs)) || fresh(c)
  }

  lemma InChunks(bs: seq<Buffer>)
    ensures forall i, c :: 0 <= i < |bs| && c in bs[i].chains ==> c in Chunks(bs)
  {
    forall i, c | 0 <= i < |bs| && c in bs[i].chains
      ensures c in Chunks(bs)
    {
      var k :| 0 <= k < |bs[i].chains| && bs[i].chains[k] == c;
    }
  }

  lemma NowIn(bs: seq<Buffer>)
    ensures forall c :: c in Chunks(bs) ==> exists i :: 0 <= i < |bs| && c in bs[i].chains
  {
  }

  /** An operation on one buffer leaves the others alone. */
  method DoOne(bs: seq<Buffer>, op: Op, ghost cs: seq<string>)
    requires Hold(bs, cs) && Legal(op, |bs|) && !OfTwo(op)
    modifies bs, Chunks(bs)
    ensures Hold(bs, After(cs, op)) && Grown(bs)
  {
    InChunks(bs);
    OnOne(bs, op, cs);
    forall k: nat | k < |bs|
      ensures HoldsAt(bs, After(cs, op), k)
    {
      if k != op.i {
        assert old(HoldsAt(bs, cs, k)) && old(Separate(bs, k, op.i));
      }
    }
    forall k: nat, l: nat | k < |bs| && l < |bs| && k != l
      ensures Separate(bs, k, l)
    {
      assert old(Separate(bs, k, l));
      NoneSharedFrom(bs[k].chains, bs[l].chains);
    }
    NowIn(bs);
  }

  /** So does an operation on two. */
  method DoTwo(bs: seq<Buffer>, op: Op, ghost cs: seq<string>)
    requires Hold(bs, cs) && Legal(op, |bs|) && OfTwo(op) && op.i != op.j
    modifies bs, Chunks(bs)
    ensures Hold(bs, After(cs, op)) && Grown(bs)
  {
    InChunks(bs);
    OnTwo(bs, op, cs);
    forall k: nat | k < |bs|
      ensures HoldsAt(bs, After(cs, op), k)
    {
      if k != op.i && k != op.j {
        assert old(HoldsAt(bs, cs, k)) && old(Separate(bs, k, op.i)) && old(Separate(bs, k, op.j));
      }
    }
    forall k: nat, l: nat | k < |bs| && l < |bs| && k != l
      ensures Separate(bs, k, l)
    {
      assert old(Separate(bs, k, l));
      if k != op.i && k != op.j {
        assert old(Separate(bs, k, op.i)) && old(Separate(bs, k, op.j));
      } else if l != op.i && l != op.j {
        assert old(Separate(bs, op.i, l)) && old(Separate(bs, op.j, l));
      }
      NoneSharedFrom(bs[k].chains, bs[l].chains);
    }
    NowIn(bs);
  }

  method Do(bs: seq<Buffer>, op: Op, ghost cs: seq<string>)
    requires Hold(bs, cs) && Legal(op, |bs|)
    modifies bs, Chunks(bs)
    ensures Hold(bs, After(cs, op)) && Grown(bs)
  {
    if !OfTwo(op) {
      DoOne(bs, op, cs);
    } else if op.i != op.j {
      DoTwo(bs, op, cs);
    }
  }

  function AfterAll(cs: seq<string>, ops: seq<Op>): (r: seq<string>)
    requires forall k :: 0 <= k < |ops| ==> Legal(ops[k], |cs|)
    ensures |r| == |cs|
  {
    if ops == [] then cs else After(AfterAll(cs, ops[..|ops| - 1]), ops[|ops| - 1])
  }

  /** Over every run, with memory, the buffers behave as strings. */
  method Run(bs: seq<Buffer>, ops: seq<Op>, ghost cs: seq<string>)
    requires Hold(bs, cs) && forall k :: 0 <= k < |ops| ==> Legal(ops[k], |bs|)
    modifies bs, Chunks(bs)
    ensures Hold(bs, AfterAll(cs, ops))
  {
    for k := 0 to |ops|
      invariant Hold(bs, AfterAll(cs, ops[..k])) && Grown(bs)
    {
      Do(bs, ops[k], AfterAll(cs, ops[..k]));
      assert ops[..k + 1][..k] == ops[..k];
    }
    assert ops[..|ops|] == ops;
  }

  /** Any number of new buffers to start from. */
  method NewBuffers(n: nat) returns (bs: seq<Buffer>)
    ensures |bs| == n && fresh(bs) && Hold(bs, seq(n, _ => ""))
  {
    bs := [];
    for k := 0 to n
      invariant |bs| == k && fresh(bs) && forall i :: 0 <= i < k ==> bs[i].Valid() && bs[i].chains == []
      invariant forall i, j :: 0 <= i < j < k ==> bs[i] != bs[j]
    {
      var b := new Buffer();
      bs := bs + [b];
    }
  }
}
