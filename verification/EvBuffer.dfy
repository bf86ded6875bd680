/** The chunked buffer of libevent: a linked list of chunks that behaves as one byte string. */
module EvBuffer {

  const CHAIN_SIZE: nat := 48
  const MIN_BUFFER_SIZE: nat := 1024
  const MAX_TO_REALIGN_IN_EXPAND: nat := 2048
  const EVBUFFER_CHAIN_MAX_AUTO_SIZE: nat := 4096

  /** A chunk: `off` bytes of data start at `misalign` in the memory `mem`. */
  class Chain {
    var next: Chain?
    var mem: string
    var misalign: nat
    var off: nat

    constructor (mem: string)
      ensures next == null && this.mem == mem && misalign == 0 && off == 0
    {
      next, this.mem, misalign, off := null, mem, 0, 0;
    }

    ghost predicate Fits()
      reads this
    {
      0 < |mem| && misalign + off <= |mem|
    }

    ghost function Data(): string
      requires Fits()
      reads this
    {
      mem[misalign..misalign + off]
    }

    lemma DataPrefix(n: nat)
      requires Fits() && n <= off
      ensures mem[misalign..misalign + n] == Data()[..n]
    {
    }

    /** Copies `data` into the memory after the data. */
    method Write(data: string)
      requires Fits() && misalign + off + |data| <= |mem|
      modifies this`mem, this`off
      ensures Fits() && Data() == old(Data()) + data && |mem| == old(|mem|)
    {
      CopiedBehind(mem, misalign, off, data);
      mem := Copied(mem, misalign + off, data);
      off := off + |data|;
    }

    /** Copies `data` into the memory before the data. */
    method WriteFront(data: string)
      requires Fits() && |data| <= misalign
      modifies this`mem, this`off, this`misalign
      ensures Fits() && Data() == data + old(Data()) && |mem| == old(|mem|) && misalign == old(misalign) - |data|
    {
      CopiedBefore(mem, misalign - |data|, data, off);
      mem := Copied(mem, misalign - |data|, data);
      off := off + |data|;
      misalign := misalign - |data|;
    }

    /** `evbuffer_chain_align`: moves the data to the start of the memory. */
    method Align()
      requires Fits()
      modifies this`mem, this`misalign
      ensures Fits() && Data() == old(Data()) && misalign == 0 && |mem| == old(|mem|)
    {
      mem := Copied(mem, 0, mem[misalign..misalign + off]);
      misalign := 0;
    }

    /** Gives up the first `n` bytes. */
    method Skip(n: nat)
      requires Fits() && n <= off
      modifies this`misalign, this`off
      ensures Fits() && Data() == old(Data())[n..] && misalign == old(misalign) + n
    {
      misalign := misalign + n;
      off := off - n;
    }

    /** `evbuffer_chain_should_realign`. */
    predicate ShouldRealign(datlen: nat)
      reads this`mem, this`off
    {
      |mem| >= off + datlen && off < |mem| / 2 && off <= MAX_TO_REALIGN_IN_EXPAND
    }

    /** `evbuffer_add` needs no other chunk for `n` bytes. */
    predicate Takes(n: nat)
      reads this`mem, this`misalign, this`off
    {
      misalign + off + n <= |mem| || ShouldRealign(n)
    }
  }

  /** What is taken fits the memory of the chunk, and everything that fits is taken by a chunk whose data begin the
      memory, or fill less than half of it and are few enough to be moved. */
  lemma ChunkTakes(c: Chain, n: nat)
    requires c.Fits()
    ensures c.Takes(n) ==> c.off + n <= |c.mem|
    ensures c.misalign == 0 || (c.off < |c.mem| / 2 && c.off <= 2048) ==> (c.Takes(n) <==> c.off + n <= |c.mem|)
    ensures c.misalign > 0 && (c.off >= |c.mem| / 2 || c.off > 2048) ==>
              (c.Takes(n) <==> c.misalign + c.off + n <= |c.mem|)
  {
  }

  function Doubled(n: nat, k: nat): nat {
    if k == 0 then n else 2 * Doubled(n, k - 1)
  }

  /** The loop of `evbuffer_chain_new` that rounds an allocation up: the least of the sizes MIN_BUFFER_SIZE,
      doubled `k` times, that has room for the chunk. */
  method AllocationFor(size: nat) returns (n: nat, ghost k: nat)
    ensures n == Doubled(MIN_BUFFER_SIZE, k) >= size + CHAIN_SIZE && n > CHAIN_SIZE
    ensures k > 0 ==> Doubled(MIN_BUFFER_SIZE, k - 1) < size + CHAIN_SIZE
  {
    n, k := MIN_BUFFER_SIZE, 0;
    while n < size + CHAIN_SIZE
      invariant n == Doubled(MIN_BUFFER_SIZE, k) > CHAIN_SIZE
      invariant k > 0 ==> Doubled(MIN_BUFFER_SIZE, k - 1) < size + CHAIN_SIZE
      decreases size + CHAIN_SIZE - n
    {
      n, k := n * 2, k + 1;
    }
  }

  lemma {:induction false} DoubledGrows(j: nat, k: nat)
    requires j <= k
    ensures MIN_BUFFER_SIZE <= Doubled(MIN_BUFFER_SIZE, j) <= Doubled(MIN_BUFFER_SIZE, k)
  {
    if j < k {
      DoubledGrows(j, k - 1);
    } else if j > 0 {
      DoubledGrows(j - 1, j - 1);
    }
  }

  /** How many values a `size_t` has, half of them being MIN_BUFFER_SIZE doubled `e` times. */
  function Range(e: nat): (r: nat)
    ensures r > 2 * CHAIN_SIZE
  {
    DoubledGrows(0, e);
    2 * Doubled(MIN_BUFFER_SIZE, e)
  }

  /** A sum of two numbers below `range` in a `size_t`. */
  function Wrapped(x: nat, range: nat): (r: nat)
    requires x < 2 * range
    ensures r < range && (x < range <==> r == x)
  {
    if x < range then x else x - range
  }

  /** `to_alloc` after `k` rounds of the loop of `evbuffer_chain_new`, in a `size_t`. */
  function Shifted(k: nat, e: nat): (r: nat)
    ensures r < Range(e)
  {
    DoubledGrows(0, e);
    if k == 0 then MIN_BUFFER_SIZE else Wrapped(2 * Shifted(k - 1, e), Range(e))
  }

  /** The top bit is shifted out in the end. */
  lemma {:induction false} ShiftedOut(k: nat, e: nat)
    ensures Shifted(k, e) == if k <= e then Doubled(MIN_BUFFER_SIZE, k) else 0
  {
    if k > 0 {
      ShiftedOut(k - 1, e);
      if k <= e {
        DoubledGrows(k, e);
      }
    }
  }

  /** In a `size_t` the loop ends exactly if the sum of the sizes, which may wrap round, is at most half of
      the range; otherwise `to_alloc` becomes zero and stays so. */
  lemma AllocationEnds(size: nat, e: nat)
    requires size < Range(e)
    ensures (exists k: nat :: Shifted(k, e) >= Wrapped(size + CHAIN_SIZE, Range(e)))
            <==> Wrapped(size + CHAIN_SIZE, Range(e)) <= Doubled(MIN_BUFFER_SIZE, e)
  {
    ShiftedOut(e, e);
    forall k: nat
      ensures Shifted(k, e) <= Doubled(MIN_BUFFER_SIZE, e)
    {
      ShiftedOut(k, e);
      DoubledGrows(if k <= e then k else e, e);
    }
  }

  /** The loop of `evbuffer_chain_new` in a `size_t`, where it ends: there is room for the chunk exactly if
      the sum did not wrap round, and then the result is that of `AllocationFor`. */
  method AllocationInWords(size: nat, e: nat) returns (n: nat, ghost k: nat)
    requires size < Range(e) && Wrapped(size + CHAIN_SIZE, Range(e)) <= Doubled(MIN_BUFFER_SIZE, e)
    ensures k <= e && n == Doubled(MIN_BUFFER_SIZE, k)
    ensures n >= size + CHAIN_SIZE <==> size + CHAIN_SIZE < Range(e)
    ensures k > 0 ==> Doubled(MIN_BUFFER_SIZE, k - 1) < Wrapped(size + CHAIN_SIZE, Range(e)) <= n
  {
    var sum := Wrapped(size + CHAIN_SIZE, Range(e));
    n, k := MIN_BUFFER_SIZE, 0;
    while n < sum
      invariant k <= e && n == Shifted(k, e) == Doubled(MIN_BUFFER_SIZE, k)
      invariant k > 0 ==> Doubled(MIN_BUFFER_SIZE, k - 1) < sum
      decreases e - k
    {
      n, k := Wrapped(2 * n, Range(e)), k + 1;
      ShiftedOut(k, e);
    }
    DoubledGrows(k, e);
  }

  /** `evbuffer_chain_new`; `memory` says whether the allocation succeeds. */
  method NewChain(size: nat, memory: bool) returns (c: Chain?)
    ensures c != null <==> memory
    ensures c != null ==> fresh(c) && c.next == null && c.misalign == 0 && c.off == 0 && c.Fits() && |c.mem| >= size
  {
    var n, k := AllocationFor(size);
    c := null;
    if memory {
      c := new Chain(seq(n - CHAIN_SIZE, _ => '\0'));
    }
  }

  /** `memcpy` into the memory of a chunk. */
  function Copied(mem: string, at: nat, data: string): (r: string)
    requires at + |data| <= |mem|
    ensures |r| == |mem| && r[at..at + |data|] == data && r[..at] == mem[..at] && r[at + |data|..] == mem[at + |data|..]
  {
    mem[..at] + data + mem[at + |data|..]
  }

  lemma CopiedBefore(mem: string, at: nat, data: string, n: nat)
    requires at + |data| + n <= |mem|
    ensures Copied(mem, at, data)[at..at + |data| + n] == data + mem[at + |data|..at + |data| + n]
  {
    var r, m := Copied(mem, at, data), at + |data|;
    assert r[at..m + n] == r[at..m] + r[m..m + n];
    assert r[m..m + n] == r[m..][..n] && mem[m..m + n] == mem[m..][..n];
  }

  lemma CopiedBehind(mem: string, at: nat, n: nat, data: string)
    requires at + n + |data| <= |mem|
    ensures Copied(mem, at + n, data)[at..at + n + |data|] == mem[at..at + n] + data
  {
    var r, m := Copied(mem, at + n, data), at + n;
    assert r[at..m + |data|] == r[at..m] + r[m..m + |data|];
    assert r[at..m] == r[..m][at..] && mem[at..m] == mem[..m][at..];
  }

  method NewChainWith(size: nat, data: string, memory: bool) returns (c: Chain?)
    requires |data| <= size
    ensures c != null <==> memory
    ensures c != null ==> fresh(c) && c.next == null && c.Fits() && c.Data() == data && c.off == |data|
  {
    c := NewChain(size, memory);
    if c != null {
      c.Write(data);
    }
  }

  /** A new chunk with `data` at the end of its memory. */
  method NewChainBefore(data: string, memory: bool) returns (c: Chain?)
    ensures c != null <==> memory
    ensures c != null ==> fresh(c) && c.next == null && c.Fits() && c.Data() == data && c.off == |data|
  {
    c := NewChain(|data|, memory);
    if c != null {
      c.misalign := |c.mem|;
      c.WriteFront(data);
    }
  }

  lemma Assoc(a: string, b: string, c: string, d: string)
    requires b + c == d
    ensures a + b + c == a + d
  {
  }

  /** The concatenation of the parts. */
  function Flat(parts: seq<string>): string {
    if parts == [] then [] else parts[0] + Flat(parts[1..])
  }

  lemma {:induction false} FlatAppend(a: seq<string>, b: seq<string>)
    ensures Flat(a + b) == Flat(a) + Flat(b)
  {
    if a == [] {
      assert a + b == b;
    } else {
      assert (a + b)[1..] == a[1..] + b;
      FlatAppend(a[1..], b);
    }
  }

  lemma FlatLast(parts: seq<string>, x: string)
    ensures Flat(parts + [x]) == Flat(parts) + x && Flat([x]) == x
  {
    FlatAppend(parts, [x]);
  }

  lemma FlatOne(parts: seq<string>)
    requires |parts| == 1
    ensures parts == [parts[0]] && Flat(parts) == parts[0]
  {
    FlatLast([], parts[0]);
  }

  /** Changing part `k` changes the concatenation there. */
  lemma FlatSplit(parts: seq<string>, k: nat)
    requires k < |parts|
    ensures Flat(parts) == Flat(parts[..k]) + parts[k] + Flat(parts[k + 1..])
  {
    assert parts == parts[..k] + parts[k..];
    FlatAppend(parts[..k], parts[k..]);
    assert parts[k..][1..] == parts[k + 1..];
  }

  lemma FlatReplace(parts: seq<string>, k: nat, x: string)
    requires k < |parts|
    ensures Flat(parts[k := x]) == Flat(parts[..k]) + x + Flat(parts[k + 1..])
    ensures Flat(parts) == Flat(parts[..k]) + parts[k] + Flat(parts[k + 1..])
  {
    FlatSplit(parts, k);
    var parts' := parts[k := x];
    FlatSplit(parts', k);
    assert parts'[..k] == parts[..k] && parts'[k + 1..] == parts[k + 1..];
  }

  lemma FlatNext(parts: seq<string>, k: nat)
    requires k < |parts|
    ensures Flat(parts[..k + 1]) == Flat(parts[..k]) + parts[k]
  {
    assert parts[..k + 1] == parts[..k] + [parts[k]];
    FlatLast(parts[..k], parts[k]);
  }

  lemma FlatPrefix(parts: seq<string>, k: nat)
    requires k <= |parts|
    ensures |Flat(parts[..k])| <= |Flat(parts)| && Flat(parts[..k]) == Flat(parts)[..|Flat(parts[..k])|]
  {
    assert parts == parts[..k] + parts[k..];
    FlatAppend(parts[..k], parts[k..]);
  }

  /** The parts after `r` bytes of part `k` are the rest of the string. */
  lemma FlatCut(parts: seq<string>, k: nat, r: nat)
    requires k < |parts| && r < |parts[k]|
    ensures var len := |Flat(parts[..k])| + r;
            && len <= |Flat(parts)|
            && Flat(parts[k..][0 := parts[k][r..]]) == Flat(parts)[len..]
            && Flat(parts)[..len] == Flat(parts[..k]) + parts[k][..r]
  {
    var len := |Flat(parts[..k])| + r;
    FlatSplit(parts, k);
    var rest := parts[k..][0 := parts[k][r..]];
    assert rest[1..] == parts[k + 1..];
    assert parts[k] == parts[k][..r] + parts[k][r..];
    assert Flat(parts) == (Flat(parts[..k]) + parts[k][..r]) + (parts[k][r..] + Flat(parts[k + 1..]));
  }

  /** How many of the parts `n` bytes cover whole. */
  function Count(parts: seq<string>, n: nat): (k: nat)
    ensures k <= |parts|
  {
    if parts != [] && |parts[0]| <= n then 1 + Count(parts[1..], n - |parts[0]|) else 0
  }

  /** The bytes of the parts that `n` bytes cover whole. */
  function Whole(parts: seq<string>, n: nat): nat {
    |Flat(parts[..Count(parts, n)])|
  }

  lemma {:induction false} WholeIs(parts: seq<string>, n: nat, k: nat)
    requires k < |parts| && |Flat(parts[..k])| <= n < |Flat(parts[..k])| + |parts[k]|
    ensures Count(parts, n) == k && Whole(parts, n) == |Flat(parts[..k])|
  {
    if k > 0 {
      assert parts[..k][1..] == parts[1..][..k - 1];
      assert Flat(parts[..k]) == parts[0] + Flat(parts[1..][..k - 1]);
      WholeIs(parts[1..], n - |parts[0]|, k - 1);
    }
  }

  /** Chunks `i` and `j` are different objects. */
  predicate Apart(cs: seq<Chain>, i: nat, j: nat)
    requires i < |cs| && j < |cs|
  {
    cs[i] != cs[j]
  }

  ghost predicate Distinct(cs: seq<Chain>) {
    forall i: nat, j: nat :: i < j < |cs| ==> Apart(cs, i, j)
  }

  /** No chunk is in both lists. */
  ghost predicate NoneShared(cs: seq<Chain>, ds: seq<Chain>) {
    && (forall c :: c in cs ==> c !in ds)
    && (forall i, j :: 0 <= i < |cs| && 0 <= j < |ds| ==> cs[i] != ds[j])
  }

  lemma NoneSharedFrom(cs: seq<Chain>, ds: seq<Chain>)
    requires forall c :: c in cs ==> c !in ds
    ensures NoneShared(cs, ds)
  {
    forall i, j | 0 <= i < |cs| && 0 <= j < |ds|
      ensures cs[i] != ds[j]
    {
      assert cs[i] in cs && ds[j] in ds;
    }
  }

  /** Chunk `i` is linked to chunk `i + 1` and holds part `i`. */
  ghost predicate Node(cs: seq<Chain>, ps: seq<string>, i: nat)
    requires i < |cs| == |ps|
    reads cs[i]
  {
    && cs[i].next == (if i + 1 < |cs| then cs[i + 1] else null)
    && cs[i].Fits() && cs[i].Data() == ps[i]
  }

  /** The chunks `cs` form a list that holds the parts `ps`. */
  ghost predicate ListOk(cs: seq<Chain>, ps: seq<string>)
    reads cs
  {
    |cs| == |ps| && Distinct(cs) && forall i: nat :: i < |cs| ==> Node(cs, ps, i)
  }

  /** The end of a list is a list. */
  lemma ListSuffix(cs: seq<Chain>, ps: seq<string>, k: nat)
    requires ListOk(cs, ps) && k <= |cs|
    ensures ListOk(cs[k..], ps[k..])
  {
    forall i: nat, j: nat | i < j < |cs[k..]|
      ensures Apart(cs[k..], i, j)
    {
      assert Apart(cs, k + i, k + j);
    }
    forall i: nat | i < |cs[k..]|
      ensures Node(cs[k..], ps[k..], i)
    {
      assert Node(cs, ps, k + i);
    }
  }

  /** Ends the list before chunk `k`. */
  method CutList(previous: Chain, ghost cs: seq<Chain>, ghost ps: seq<string>, ghost k: nat)
    requires ListOk(cs, ps) && 0 < k < |cs| && previous == cs[k - 1]
    modifies previous`next
    ensures ListOk(cs[..k], ps[..k]) && ListOk(cs[k..], ps[k..])
    ensures forall c :: c in cs[..k] ==> c !in cs[k..]
  {
    ListSuffix(cs, ps, k);
    previous.next := null;
    forall i: nat, j: nat | i < j < k
      ensures Apart(cs[..k], i, j)
    {
      assert Apart(cs, i, j);
    }
    forall i: nat | i < k
      ensures Node(cs[..k], ps[..k], i)
    {
      assert old(Node(cs, ps, i)) && (i < k - 1 ==> Apart(cs, i, k - 1));
    }
    forall i: nat | i < |cs[k..]|
      ensures Node(cs[k..], ps[k..], i)
    {
      assert old(Node(cs[k..], ps[k..], i)) && Apart(cs, k - 1, k + i);
    }
    forall i: nat, j: nat | i < k && j < |cs[k..]|
      ensures cs[i] != cs[k..][j]
    {
      assert Apart(cs, i, k + j);
    }
  }

  /** Links the list `ds` behind the list `cs`. */
  method JoinLists(end: Chain, begin: Chain, ghost cs: seq<Chain>, ghost ps: seq<string>, ghost ds: seq<Chain>,
                   ghost qs: seq<string>)
    requires ListOk(cs, ps) && ListOk(ds, qs) && cs != [] && ds != [] && end == cs[|cs| - 1] && begin == ds[0]
    requires forall c :: c in cs ==> c !in ds
    modifies end`next
    ensures ListOk(cs + ds, ps + qs)
  {
    ghost var n := |cs|;
    end.next := begin;
    assert forall i :: 0 <= i < n ==> cs[i] in cs;
    assert forall i :: 0 <= i < |ds| ==> ds[i] in ds;
    forall i: nat, j: nat | i < j < |cs + ds|
      ensures Apart(cs + ds, i, j)
    {
      if j < n {
        assert Apart(cs, i, j);
      } else if i >= n {
        assert Apart(ds, i - n, j - n);
      }
    }
    forall i: nat | i < |cs + ds|
      ensures Node(cs + ds, ps + qs, i)
    {
      if i < n {
        assert old(Node(cs, ps, i)) && (i < n - 1 ==> Apart(cs, i, n - 1));
      } else {
        assert old(Node(ds, qs, i - n));
      }
    }
  }

  class Buffer {
    var first: Chain?
    var last: Chain?
    var lwdOwner: Chain?   // last_with_datap: the chunk whose `next` field it points at, null for `first`
    var totalLen: nat
    ghost var chains: seq<Chain>
    ghost var parts: seq<string>

    constructor ()
      ensures Valid() && chains == []
    {
      first, last, lwdOwner, totalLen, chains, parts := null, null, null, 0, [], [];
    }

    /** The linked list is `chains`, and holds `parts`. */
    ghost predicate Linked()
      reads this`first, this`last, this`chains, this`parts, chains
    {
      && ListOk(chains, parts)
      && first == (if chains == [] then null else chains[0])
      && last == (if chains == [] then null else chains[|chains| - 1])
    }

    ghost predicate Valid()
      reads this, chains
    {
      && Linked()
      && totalLen == |Flat(parts)|
      && (|chains| > 1 ==> forall i :: 0 <= i < |parts| ==> parts[i] != [])
      && lwdOwner == (if |chains| < 2 then null else chains[|chains| - 2])
    }

    lemma IsValid()
      requires Linked() && totalLen == |Flat(parts)|
      requires |chains| > 1 ==> forall i :: 0 <= i < |parts| ==> parts[i] != []
      requires lwdOwner == (if |chains| < 2 then null else chains[|chains| - 2])
      ensures Valid()
    {
    }

    /** The bytes that the buffer stands for. */
    ghost function Content(): string
      requires Valid()
      reads this, chains
    {
      Flat(parts)
    }

    /** Only chunk `k` changed, and what it holds is now part `k`. */
    twostate lemma OnlyChunk(k: nat)
      requires old(Linked()) && k < |chains| && chains == old(chains) && first == old(first) && last == old(last)
      requires |parts| == |old(parts)| && parts == old(parts)[k := parts[k]]
      requires forall c :: c in chains && c != chains[k] ==> unchanged(c)
      requires Node(chains, parts, k)
      ensures Linked()
    {
      forall i: nat | i < |chains|
        ensures Node(chains, parts, i)
      {
        if i != k {
          assert old(Node(chains, parts, i));
          assert if i < k then Apart(chains, i, k) else Apart(chains, k, i);
          assert chains[i] in chains && chains[i] != chains[k];
        }
      }
    }

    /** Copies `data` into the memory after the data of the last chunk. */
    method WriteLast(data: string)
      requires Valid() && chains != [] && last.misalign + last.off + |data| <= |last.mem|
      modifies this`totalLen, this`parts, last`mem, last`off
      ensures Valid() && Content() == old(Content()) + data
    {
      ghost var n := |chains| - 1;
      assert Node(chains, parts, n);
      FlatReplace(parts, n, parts[n] + data);
      last.Write(data);
      totalLen := totalLen + |data|;
      parts := parts[n := parts[n] + data];
      OnlyChunk(n);
      IsValid();
    }

    /** The chunk that a link points at: the field `next` of `owner`, or `first`. */
    function Link(owner: Chain?): Chain?
      reads this, owner
    {
      if owner == null then first else owner.next
    }

    /** Makes `c` the only chunk. */
    method MakeOnly(c: Chain)
      requires c.Fits() && c.next == null
      modifies this`first, this`last, this`chains, this`parts
      ensures Linked() && chains == [c] && parts == [c.Data()]
    {
      first, last := c, c;
      chains, parts := [c], [c.Data()];
    }

    /** Links `c` behind the last chunk. */
    method LinkLast(c: Chain)
      requires Linked() && chains != [] && c !in chains && c.Fits() && c.next == null
      modifies this`last, this`chains, this`parts, last`next
      ensures Linked() && chains == old(chains) + [c] && parts == old(parts) + [c.Data()]
    {
      JoinLists(last, c, chains, parts, [c], [c.Data()]);
      last := c;
      chains, parts := chains + [c], parts + [c.Data()];
    }

    /** In an ordinary buffer `last_with_datap` points at the last chunk, which is empty only if
        the whole buffer is. */
    lemma EndOfList()
      requires Valid()
      ensures Link(lwdOwner) == last && (last == null <==> chains == [])
      ensures last != null ==> last.next == null && (last.off == 0 <==> totalLen == 0)
      ensures last != null && last.off == 0 ==> lwdOwner == null && |chains| == 1
      ensures totalLen > 0 ==> forall i :: 0 <= i < |parts| ==> parts[i] != []
    {
      var n := |chains|;
      if n > 0 {
        assert Node(chains, parts, n - 1);
        FlatSplit(parts, n - 1);
      }
      if n > 1 {
        assert Node(chains, parts, n - 2);
      }
    }

    lemma FirstCounts()
      requires Valid() && chains != []
      ensures first.Fits() && first.Data() == parts[0] && first.off <= totalLen
    {
      assert Node(chains, parts, 0);
    }

    /** `evbuffer_chain_insert`. */
    method ChainInsert(c: Chain)
      requires Valid() && c !in chains && c.Fits() && c.next == null && (c.off > 0 || chains == [])
      modifies this, if last == null then {} else {last}
      ensures Valid() && Content() == old(Content()) + c.Data()
      ensures chains == if old(totalLen) == 0 then [c] else old(chains) + [c]
    {
      ghost var n := |chains|;
      FlatLast(parts, c.Data());
      EndOfList();
      if Link(lwdOwner) == null {
        MakeOnly(c);
      } else {
        var owner := lwdOwner;
        if Link(owner).off != 0 {
          owner := Link(owner);
        }
        if Link(owner) == null {
          lwdOwner := last;
          LinkLast(c);
        } else {
          MakeOnly(c);
        }
      }
      totalLen := totalLen + c.off;
    }

    /** The size asked for when `evbuffer_add` needs another chunk. */
    static function NextSize(current: nat, datlen: nat): nat {
      var twice := if current <= EVBUFFER_CHAIN_MAX_AUTO_SIZE / 2 then 2 * current else current;
      if datlen > twice then datlen else twice
    }

    /** A new chunk behind the last one takes what does not fit there. */
    method AddAcross(data: string, remain: nat, memory: bool) returns (ok: bool)
      requires Valid() && chains != [] && remain == |last.mem| - last.misalign - last.off < |data|
      modifies this, last
      ensures Valid() && OldOrNew(old(chains)) && ok == memory
      ensures Content() == if ok then old(Content()) + data else old(Content())
    {
      var fits, rest := data[..remain], data[remain..];
      var c := NewChainWith(NextSize(|last.mem|, |data|), rest, memory);
      if c == null {
        return false;
      }
      FillAndInsert(fits, c, rest);
      Assoc(old(Content()), fits, rest, data);
      ok := true;
    }

    /** Fills the last chunk and puts `c` with the rest behind it. */
    method FillAndInsert(fits: string, c: Chain, ghost rest: string)
      requires Valid() && chains != [] && last.misalign + last.off + |fits| <= |last.mem|
      requires c !in chains && c.Fits() && c.next == null && c.Data() == rest != []
      modifies this, last
      ensures Valid() && Content() == old(Content()) + fits + rest
      ensures forall d :: d in chains ==> d in old(chains) || d == c
    {
      assert Node(chains, parts, |chains| - 1);
      WriteLast(fits);
      ChainInsert(c);
    }

    /** Every chunk was there before or is new. */
    twostate predicate OldOrNew(cs: seq<Chain>)
      reads this
    {
      forall c :: c in chains ==> c in cs || fresh(c)
    }

    /** The last chunk takes `n` bytes. */
    predicate LastTakes(n: nat)
      reads this`last, last
    {
      last != null && last.Takes(n)
    }

    /** `evbuffer_add`: appends `data`, or fails for lack of memory and changes nothing. */
    method Add(data: string, memory: bool) returns (ok: bool)
      requires Valid()
      modifies this, if last == null then {} else {last}
      ensures Valid() && OldOrNew(old(chains))
      ensures (ok <==> memory || old(LastTakes(|data|))) && (ok && old(chains) == [] ==> |chains| == 1)
      ensures Content() == if ok then old(Content()) + data else old(Content())
    {
      if last == null {
        var c := NewChain(|data|, memory);
        if c == null {
          return false;
        }
        ChainInsert(c);
      }
      assert Node(chains, parts, |chains| - 1);
      var remain := |last.mem| - last.misalign - last.off;
      if remain >= |data| {
        WriteLast(data);
        ok := true;
      } else if last.ShouldRealign(|data|) {
        AlignLast();
        WriteLast(data);
        ok := true;
      } else {
        ok := AddAcross(data, remain, memory);
      }
    }

    method AlignLast()
      requires Valid() && chains != []
      modifies last`mem, last`misalign
      ensures Valid() && last.misalign == 0 && last.off == old(last.off) && |last.mem| == old(|last.mem|)
    {
      assert Node(chains, parts, |chains| - 1);
      last.Align();
      OnlyChunk(|chains| - 1);
    }

    /** Puts `c` in front of the first chunk. */
    method LinkFirst(c: Chain)
      requires Linked() && chains != [] && c !in chains && c.Fits() && c.next == null
      modifies this`first, this`chains, this`parts, c`next
      ensures Linked() && chains == [c] + old(chains) && parts == [c.Data()] + old(parts)
    {
      JoinLists(c, first, [c], [c.Data()], chains, parts);
      first := c;
      chains, parts := [c] + chains, [c.Data()] + parts;
    }

    /** Copies `data` into the memory before the data of the first chunk. */
    method WriteFirst(data: string)
      requires Valid() && chains != [] && |data| <= first.misalign
      modifies this`totalLen, this`parts, first`mem, first`off, first`misalign
      ensures Valid() && Content() == data + old(Content())
      ensures first.misalign == old(first.misalign) - |data|
    {
      assert Node(chains, parts, 0);
      first.WriteFront(data);
      totalLen := totalLen + |data|;
      parts := parts[0 := data + parts[0]];
      FlatReplace(old(parts), 0, parts[0]);
      OnlyChunk(0);
    }

    /** The memory that a prepend can use without a new chunk. */
    ghost function FrontRoom(): nat
      reads this, first
    {
      if first == null then 0 else if first.off == 0 then |first.mem| else first.misalign
    }

    /** An empty first chunk is treated as empty at the beginning. */
    method OpenFront()
      requires Valid() && chains != []
      modifies first`misalign
      ensures Valid() && first.misalign == old(FrontRoom())
      ensures first.off == old(first.off) && |first.mem| == old(|first.mem|)
    {
      assert Node(chains, parts, 0);
      if first.off == 0 {
        first.misalign := |first.mem|;
        OnlyChunk(0);
      }
    }

    /** Puts a new chunk with `data` in front. */
    method PrependChunk(data: string, memory: bool) returns (ok: bool)
      requires Valid() && totalLen > 0 && data != []
      modifies this
      ensures Valid() && OldOrNew(old(chains)) && ok == memory
      ensures Content() == if ok then data + old(Content()) else old(Content())
    {
      var c := NewChainBefore(data, memory);
      if c == null {
        return false;
      }
      EndOfList();
      assert ([data] + parts)[1..] == parts;
      if lwdOwner == null {
        lwdOwner := c;
      }
      LinkFirst(c);
      totalLen := totalLen + |data|;
      ok := true;
    }

    /** `evbuffer_prepend`: puts `data` in front.  When memory for another chunk is lacking, the part
        of `data` that fitted into the first chunk has been prepended already. */
    method Prepend(data: string, memory: bool) returns (ok: bool)
      requires Valid()
      modifies this, if first == null then {} else {first}
      ensures Valid() && OldOrNew(old(chains))
      ensures ok <==> memory || old(first != null && |data| <= FrontRoom())
      ensures ok ==> Content() == data + old(Content())
      ensures !ok && old(first) == null ==> Content() == old(Content())
      ensures !ok && old(first) != null ==>
                old(FrontRoom()) < |data| && Content() == data[|data| - old(FrontRoom())..] + old(Content())
    {
      if first == null {
        var c := NewChain(|data|, memory);
        if c == null {
          return false;
        }
        ChainInsert(c);
      }
      FirstCounts();
      OpenFront();
      if first.misalign >= |data| {
        WriteFirst(data);
        ok := true;
      } else {
        ok := PrependOver(data, memory);
      }
    }

    /** Fills the first chunk with the end of `data` and puts a new one with the rest before it. */
    method PrependOver(data: string, memory: bool) returns (ok: bool)
      requires Valid() && chains != [] && first.misalign < |data| && (first.misalign > 0 || totalLen > 0)
      modifies this, first
      ensures Valid() && OldOrNew(old(chains)) && ok == memory
      ensures Content() == if ok then data + old(Content()) else data[|data| - old(first.misalign)..] + old(Content())
    {
      var k := |data| - first.misalign;
      ghost var s := Content();
      PrependBytes(data, k, s);
      if first.misalign > 0 {
        WriteFirst(data[k..]);
      }
      ok := PrependChunk(data[..k], memory);
    }

    /** Forgets the chunks before chunk `k`, which is `c`. */
    method CutFront(c: Chain, ghost k: nat)
      requires Linked() && k < |chains| && c == chains[k]
      modifies this`first, this`chains, this`parts
      ensures Linked() && chains == old(chains)[k..] && parts == old(parts)[k..]
    {
      ListSuffix(chains, parts, k);
      first := c;
      chains, parts := chains[k..], parts[k..];
    }

    /** Gives up the first `n` bytes of the first chunk, but not all of them. */
    method SkipFirst(n: nat)
      requires Linked() && chains != [] && n < |parts[0]|
      modifies this`parts, first`misalign, first`off
      ensures Linked() && parts == old(parts)[0 := old(parts)[0][n..]] && first.misalign == old(first.misalign) + n
    {
      assert Node(chains, parts, 0);
      first.Skip(n);
      parts := parts[0 := parts[0][n..]];
      OnlyChunk(0);
    }

    /** Walks over the chunks that `len` bytes cover whole; as in `evbuffer_drain` and
        `evbuffer_remove_buffer`, `last_with_datap` falls back to `first` when the chunk that owns it
        is passed. */
    method Walk(len: nat) returns (c: Chain, remaining: nat, previous: Chain?, ghost k: nat)
      requires Valid() && len < totalLen
      modifies this`lwdOwner
      ensures k < |chains| && c == chains[k] && remaining < |parts[k]|
      ensures |Flat(parts[..k])| + remaining == len
      ensures previous == if k == 0 then null else chains[k - 1]
      ensures lwdOwner == if k + 2 <= |chains| then old(lwdOwner) else null
    {
      FirstCounts();
      c := first;
      remaining := len;
      previous := null;
      k := 0;
      while remaining >= c.off
        invariant k < |chains| && c == chains[k]
        invariant |Flat(parts[..k])| + remaining == len
        invariant previous == if k == 0 then null else chains[k - 1]
        invariant lwdOwner == if k + 2 <= |chains| then old(lwdOwner) else null
        decreases |chains| - k
      {
        assert Node(chains, parts, k) && c.off == |parts[k]|;
        FlatNext(parts, k);
        FlatSplit(parts, k);
        remaining := remaining - c.off;
        assert k + 2 < |chains| ==> Apart(chains, k, |chains| - 2);
        if lwdOwner == c {
          lwdOwner := null;
        }
        previous := c;
        c := c.next;
        k := k + 1;
      }
      assert Node(chains, parts, k);
    }

    /** `evbuffer_drain`. */
    method Drain(len: nat)
      requires Valid()
      modifies this, chains
      ensures Valid() && forall c :: c in chains ==> c in old(chains)
      ensures Content() == if len < old(totalLen) then old(Content())[len..] else []
    {
      if totalLen == 0 {
        return;
      }
      if len >= totalLen {
        first, last, lwdOwner, totalLen := null, null, null, 0;
        chains, parts := [], [];
      } else {
        DrainSome(len);
      }
    }

    /** `evbuffer_drain` when bytes are left. */
    method DrainSome(len: nat)
      requires Valid() && len < totalLen
      modifies this, chains
      ensures Valid() && (forall c :: c in chains ==> c in old(chains)) && Content() == old(Content())[len..]
      ensures len < old(|parts[0]|) ==>
                && first == old(first) && first.misalign == old(first.misalign) + len
                && parts == old(parts)[0 := old(parts)[0][len..]]
    {
      var c, remaining, _, k := Walk(len);
      if k > 0 {
        FlatHead(parts, k);
      }
      FlatCut(parts, k, remaining);
      CutFront(c, k);
      SkipFirst(remaining);
      totalLen := totalLen - len;
      IsValid();
    }

    /** The loop of `evbuffer_copyout` over the chunks that `n` bytes cover whole. */
    method CopyWhole(n: nat) returns (r: string, c: Chain?, left: nat, ghost k: nat)
      requires Valid() && n <= totalLen
      ensures k <= |chains| && c == (if k < |chains| then chains[k] else null)
      ensures r == Flat(parts[..k]) && |r| + left == n
      ensures left > 0 ==> k < |chains| && left < |parts[k]|
    {
      left, c, r, k := n, first, [], 0;
      while left > 0 && left >= c.off
        invariant k <= |chains| && c == (if k < |chains| then chains[k] else null)
        invariant r == Flat(parts[..k]) && |r| + left == n
        invariant left > 0 ==> k < |chains|
        decreases |chains| - k
      {
        assert Node(chains, parts, k);
        FlatNext(parts, k);
        r := r + c.mem[c.misalign..c.misalign + c.off];
        left := left - c.off;
        c := c.next;
        k := k + 1;
        assert k == |chains| ==> parts[..k] == parts;
      }
      assert left > 0 ==> Node(chains, parts, k);
    }

    /** `evbuffer_copyout`. */
    method CopyOut(datlen: nat) returns (r: string)
      requires Valid()
      ensures r == Content()[..if datlen < totalLen then datlen else totalLen]
    {
      var whole, c, left, k := CopyWhole(if datlen < totalLen then datlen else totalLen);
      r := whole;
      if left > 0 {
        assert Node(chains, parts, k);
        FlatCut(parts, k, left);
        c.DataPrefix(left);
        r := r + c.mem[c.misalign..c.misalign + left];
      } else {
        FlatPrefix(parts, k);
      }
    }

    /** `evbuffer_remove`. */
    method Remove(datlen: nat) returns (r: string)
      requires Valid()
      modifies this, chains
      ensures Valid() && forall c :: c in chains ==> c in old(chains)
      ensures r + Content() == old(Content()) && |r| == if datlen < old(totalLen) then datlen else old(totalLen)
    {
      r := CopyOut(datlen);
      Drain(|r|);
    }

    /** The two buffers share no chunk. */
    ghost predicate Disjoint(that: Buffer)
      reads this`chains, that`chains
    {
      NoneShared(chains, that.chains)
    }

    /** `ZERO_CHAIN`. */
    method ZeroChain()
      modifies this
      ensures Valid() && chains == [] && Content() == []
    {
      first, last, lwdOwner, totalLen := null, null, null, 0;
      chains, parts := [], [];
    }

    /** `COPY_CHAIN`: the list of `src` becomes the list of this buffer. */
    method CopyChain(src: Buffer)
      requires src.Valid() && src != this
      modifies this
      ensures Valid() && chains == src.chains && Content() == src.Content()
    {
      first, last, lwdOwner, totalLen := src.first, src.last, src.lwdOwner, src.totalLen;
      chains, parts := src.chains, src.parts;
    }

    /** `APPEND_CHAIN`. */
    method AppendChain(src: Buffer)
      requires Valid() && src.Valid() && src != this && Disjoint(src) && totalLen > 0 && src.totalLen > 0
      modifies this, last`next
      ensures Valid() && chains == old(chains) + src.chains && Content() == old(Content()) + old(src.Content())
    {
      FlatAppend(parts, src.parts);
      EndOfList();
      src.EndOfList();
      lwdOwner := if src.lwdOwner == null then last else src.lwdOwner;
      JoinLists(last, src.first, chains, parts, src.chains, src.parts);
      last := src.last;
      chains, parts := chains + src.chains, parts + src.parts;
      totalLen := totalLen + src.totalLen;
    }

    /** `PREPEND_CHAIN`. */
    method PrependChain(src: Buffer)
      requires Valid() && src.Valid() && src != this && Disjoint(src) && totalLen > 0 && src.totalLen > 0
      modifies this, src.last`next
      ensures Valid() && chains == src.chains + old(chains) && Content() == old(src.Content()) + old(Content())
    {
      FlatAppend(src.parts, parts);
      EndOfList();
      src.EndOfList();
      JoinLists(src.last, first, src.chains, src.parts, chains, parts);
      first := src.first;
      totalLen := totalLen + src.totalLen;
      if lwdOwner == null {
        lwdOwner := src.last;
      }
      chains, parts := src.chains + chains, src.parts + parts;
    }

    /** `evbuffer_add_buffer`: moves everything from `src` to the end of this buffer. */
    method AddBuffer(src: Buffer)
      requires Valid() && src.Valid() && (src != this ==> Disjoint(src))
      modifies this, src, if last == null then {} else {last}
      ensures Valid() && src.Valid() && (src != this ==> Disjoint(src))
      ensures src == this ==> Content() == old(Content())
      ensures src != this ==> Content() == old(Content()) + old(src.Content()) && src.Content() == []
      ensures OldOrNew(old(chains) + old(src.chains)) && src.OldOrNew(old(src.chains))
    {
      if src.totalLen == 0 || src == this {
        return;
      }
      if totalLen == 0 {
        CopyChain(src);
      } else {
        AppendChain(src);
      }
      src.ZeroChain();
    }

    /** `evbuffer_prepend_buffer`: moves everything from `src` to the front of this buffer. */
    method PrependBuffer(src: Buffer)
      requires Valid() && src.Valid() && (src != this ==> Disjoint(src))
      modifies this, src, if src.last == null then {} else {src.last}
      ensures Valid() && src.Valid() && (src != this ==> Disjoint(src))
      ensures src == this ==> Content() == old(Content())
      ensures src != this ==> Content() == old(src.Content()) + old(Content()) && src.Content() == []
      ensures OldOrNew(old(chains) + old(src.chains)) && src.OldOrNew(old(src.chains))
    {
      if src.totalLen == 0 || src == this {
        return;
      }
      if totalLen == 0 {
        CopyChain(src);
      } else {
        PrependChain(src);
      }
      src.ZeroChain();
    }

    /** The link that points at chunk `i`. */
    ghost function OwnerAt(i: nat): Chain?
      requires i <= |chains|
      reads this`chains
    {
      if i == 0 then null else chains[i - 1]
    }

    /** `advance_last_with_data`: from chunk `at` to the last of the non-empty chunks that follow it. */
    method AdvanceLastWithData(ghost at: nat) returns (ghost to: nat)
      requires Linked() && at < |chains| && lwdOwner == OwnerAt(at)
      modifies this`lwdOwner
      ensures at <= to < |chains| && lwdOwner == OwnerAt(to)
      ensures forall i :: at < i <= to ==> parts[i] != []
      ensures to + 1 < |chains| ==> parts[to + 1] == []
    {
      to := at;
      assert Node(chains, parts, to);
      var c := Link(lwdOwner);
      assert to > 0 ==> Node(chains, parts, to - 1);
      while c.next != null && c.next.off != 0
        invariant at <= to < |chains| && lwdOwner == OwnerAt(to) && c == chains[to] && Node(chains, parts, to)
        invariant forall i :: at < i <= to ==> parts[i] != []
        decreases |chains| - to
      {
        assert Node(chains, parts, to + 1);
        lwdOwner := c;
        c := c.next;
        to := to + 1;
      }
      assert to + 1 < |chains| ==> Node(chains, parts, to + 1);
    }

    /** Takes off the first `k` chunks, of which `previous` is the last. */
    method DetachFront(c: Chain, previous: Chain, ghost k: nat) returns (head: Chain)
      requires Linked() && 0 < k < |chains| && c == chains[k] && previous == chains[k - 1]
      modifies this`first, this`chains, this`parts, previous`next
      ensures Linked() && chains == old(chains)[k..] && parts == old(parts)[k..]
      ensures head == old(first) && ListOk(old(chains)[..k], old(parts)[..k])
      ensures forall d :: d in old(chains)[..k] ==> d !in chains
    {
      head := first;
      CutList(previous, chains, parts, k);
      first := c;
      chains, parts := chains[k..], parts[k..];
    }

    /** Puts the list from `head` to `tail` behind the last chunk. */
    method AttachList(head: Chain, tail: Chain, ghost cs: seq<Chain>, ghost ps: seq<string>)
      requires Linked() && ListOk(cs, ps) && cs != [] && head == cs[0] && tail == cs[|cs| - 1]
      requires forall d :: d in cs ==> d !in chains
      modifies this`first, this`last, this`chains, this`parts, chains`next
      ensures Linked() && chains == old(chains) + cs && parts == old(parts) + ps
    {
      if first == null {
        first := head;
        assert chains + cs == cs && parts + ps == ps;
      } else {
        assert last == chains[|chains| - 1];
        JoinLists(last, head, chains, parts, cs, ps);
      }
      last := tail;
      chains, parts := chains + cs, parts + ps;
    }

    /** `evbuffer_free_trailing_empty_chains`: an ordinary buffer has an empty chunk only if it has
        nothing else. */
    method FreeTrailingEmpty()
      requires Valid()
      modifies this`first, this`last, this`chains, this`parts
      ensures Valid() && Content() == old(Content())
      ensures chains == if old(totalLen) == 0 then [] else old(chains)
      ensures totalLen > 0 ==> unchanged(this)
    {
      EndOfList();
      if Link(lwdOwner) != null && Link(lwdOwner).off == 0 {
        first, last := null, null;
        chains, parts := [], [];
      }
    }

    /** Links the non-empty chunks from `head` to `tail` behind the last one and moves
        `last_with_datap` to the new last chunk. */
    method AttachData(head: Chain, tail: Chain, ghost cs: seq<Chain>, ghost ps: seq<string>)
      requires Linked() && ListOk(cs, ps) && cs != [] && head == cs[0] && tail == cs[|cs| - 1]
      requires (forall d :: d in cs ==> d !in chains) && (forall i :: 0 <= i < |ps| ==> ps[i] != [])
      requires lwdOwner == OwnerAt(if chains == [] then 0 else |chains| - 1)
      modifies this`first, this`last, this`lwdOwner, this`chains, this`parts, chains`next
      ensures Linked() && chains == old(chains) + cs && parts == old(parts) + ps
      ensures lwdOwner == OwnerAt(|chains| - 1)
    {
      ghost var at := if chains == [] then 0 else |chains| - 1;
      AttachList(head, tail, cs, ps);
      assert forall i :: at < i < |parts| ==> parts[i] != [];
      var to := AdvanceLastWithData(at);
    }

    /** Takes over the non-empty chunks from `head` to `tail`, which hold `n` bytes. */
    method Receive(head: Chain, tail: Chain, n: nat, ghost cs: seq<Chain>, ghost ps: seq<string>)
      requires Valid() && ListOk(cs, ps) && cs != [] && head == cs[0] && tail == cs[|cs| - 1]
      requires (forall d :: d in cs ==> d !in chains) && (forall i :: 0 <= i < |ps| ==> ps[i] != [])
      requires n == |Flat(ps)|
      modifies this, chains`next
      ensures Valid() && Content() == old(Content()) + Flat(ps) && last == tail
      ensures forall d :: d in chains ==> d in old(chains) || d in cs
    {
      FreeTrailingEmpty();
      EndOfList();
      FlatAppend(parts, ps);
      AttachData(head, tail, cs, ps);
      totalLen := totalLen + n;
    }

    /** Valid apart from `totalLen`, which still counts `gone` bytes that have been taken off. */
    ghost predicate ValidLess(gone: nat)
      reads this, chains
    {
      && Linked() && chains != []
      && totalLen == gone + |Flat(parts)|
      && (forall i :: 0 <= i < |parts| ==> parts[i] != [])
      && lwdOwner == (if |chains| < 2 then null else chains[|chains| - 2])
    }

    /** The first half of `evbuffer_remove_buffer`: takes off the chunks that `datlen` bytes cover
        whole; `rest` more bytes are due from the chunk that is now first. */
    method SplitOff(datlen: nat)
      returns (head: Chain?, tail: Chain?, rest: nat, ghost cs: seq<Chain>, ghost ps: seq<string>)
      requires Valid() && datlen < totalLen
      modifies this, chains`next
      ensures |ps| == Count(old(parts), datlen) && |Flat(ps)| == Whole(old(parts), datlen)
      ensures ValidLess(|Flat(ps)|) && totalLen == old(totalLen) && rest < |parts[0]|
      ensures |Flat(ps)| + rest == datlen && Flat(ps) + Flat(parts) == old(Content())
      ensures ListOk(cs, ps) && (cs == [] <==> |Flat(ps)| == 0) && (cs != [] ==> head == cs[0] && tail == cs[|cs| - 1])
      ensures cs + chains == old(chains) && (forall d :: d in cs ==> d !in chains)
      ensures forall i :: 0 <= i < |ps| ==> ps[i] != []
    {
      EndOfList();
      var c: Chain;
      ghost var k: nat;
      c, rest, tail, k := Walk(datlen);
      WholeIs(parts, datlen, k);
      head := null;
      cs, ps := chains[..k], parts[..k];
      assert cs + chains[k..] == chains && ps + parts[k..] == parts;
      FlatAppend(ps, parts[k..]);
      if tail != null {
        FlatNonEmpty(ps);
        head := DetachFront(c, tail, k);
      } else {
        assert chains[k..] == chains && parts[k..] == parts;
      }
    }

    /** The end of `evbuffer_remove_buffer`: gives up `rest` bytes of the first chunk. */
    method SkipRest(rest: nat, ghost gone: nat, nread: nat)
      requires ValidLess(gone) && rest < |parts[0]| && nread == gone + rest
      modifies this, first`misalign, first`off
      ensures Valid() && chains == old(chains) && Content() == Flat(old(parts))[rest..]
    {
      FlatCut(parts, 0, rest);
      assert parts[0..] == parts;
      SkipFirst(rest);
      totalLen := totalLen - nread;
    }

    /** The chunks that `datlen` bytes cover whole go to `dst`. */
    method MoveWhole(dst: Buffer, datlen: nat) returns (rest: nat, ghost gone: nat)
      requires Valid() && dst.Valid() && dst != this && Disjoint(dst) && datlen < totalLen
      modifies this, dst, chains`next, dst.chains`next
      ensures ValidLess(gone) && dst.Valid() && Disjoint(dst) && rest < |parts[0]|
      ensures gone + rest == datlen && Flat(parts) == old(Content())[gone..] && gone == Whole(old(parts), datlen)
      ensures dst.Content() == old(dst.Content()) + old(Content())[..gone]
      ensures dst.last == old(LastAfter(dst, datlen))
      ensures OldOrNew(old(chains)) && dst.OldOrNew(old(chains) + old(dst.chains))
    {
      var head, tail, r, cs, ps := SplitOff(datlen);
      rest, gone := r, |Flat(ps)|;
      assert forall d :: d in chains ==> d in cs + chains;
      assert forall d :: d in cs ==> d in cs + chains;
      NoneSharedFrom(chains, dst.chains);
      if datlen - rest > 0 {
        HandOver(dst, head, tail, datlen - rest, cs, ps, gone);
      }
    }

    /** Gives the chunks that have been taken off to `dst`. */
    method HandOver(dst: Buffer, head: Chain, tail: Chain, n: nat, ghost cs: seq<Chain>, ghost ps: seq<string>,
                    ghost gone: nat)
      requires ValidLess(gone) && dst.Valid() && dst != this && Disjoint(dst) && n == |Flat(ps)|
      requires ListOk(cs, ps) && cs != [] && head == cs[0] && tail == cs[|cs| - 1]
      requires (forall d :: d in cs ==> d !in chains && d !in dst.chains) && forall i :: 0 <= i < |ps| ==> ps[i] != []
      modifies dst, dst.chains`next
      ensures ValidLess(gone) && dst.Valid() && Disjoint(dst) && dst.last == tail
      ensures dst.Content() == old(dst.Content()) + Flat(ps)
      ensures forall d :: d in dst.chains ==> d in old(dst.chains) || d in cs
    {
      dst.Receive(head, tail, n, cs, ps);
      NoneSharedFrom(chains, dst.chains);
    }

    /** The last chunk of `dst` once it has the chunks that `datlen` bytes cover whole. */
    ghost function LastAfter(dst: Buffer, datlen: nat): Chain?
      requires Valid()
      reads this, chains, dst
    {
      var k := Count(parts, datlen);
      if k == 0 then dst.last else chains[k - 1]
    }

    /** That chunk takes the bytes that are left to be copied. */
    ghost predicate RestFits(dst: Buffer, datlen: nat)
      requires Valid()
      reads this, chains, dst, dst.last
    {
      var c := LastAfter(dst, datlen);
      var rest := datlen - Whole(parts, datlen);
      c != null && rest >= 0 && c.Takes(rest)
    }

    /** Nothing is left to be copied when `datlen` bytes are whole chunks. */
    lemma NoRest(dst: Buffer, datlen: nat)
      requires Valid() && 0 < datlen == Whole(parts, datlen)
      ensures RestFits(dst, datlen)
    {
      var k := Count(parts, datlen);
      assert k > 0;
      assert Node(chains, parts, k - 1);
    }

    /** `evbuffer_remove_buffer` when `datlen` bytes are fewer than there are.  The source ignores
        that `evbuffer_add` may fail for lack of memory: then the bytes of the chunk that is not
        moved whole are lost. */
    method RemoveSome(dst: Buffer, datlen: nat, memory: bool) returns (ghost added: bool)
      requires Valid() && dst.Valid() && dst != this && Disjoint(dst) && 0 < datlen < totalLen
      modifies this, dst, chains, dst.chains
      ensures Valid() && dst.Valid() && Disjoint(dst)
      ensures OldOrNew(old(chains)) && dst.OldOrNew(old(chains) + old(dst.chains))
      ensures Content() == old(Content())[datlen..] && (added <==> memory || old(RestFits(dst, datlen)))
      ensures added ==> dst.Content() == old(dst.Content()) + old(Content())[..datlen]
      ensures !added ==> Whole(old(parts), datlen) < datlen
      ensures !added ==> dst.Content() == old(dst.Content()) + old(Content())[..Whole(old(parts), datlen)]
    {
      ghost var s, t := Content(), dst.Content();
      var rest, gone := MoveStep(dst, datlen);
      assert first in chains && (dst.last != null ==> dst.last in dst.chains);
      added := CopyRest(dst, rest, datlen, memory, gone, s, t);
    }

    /** The first half of `evbuffer_remove_buffer`; the copy will need no memory exactly if `RestFits`. */
    method MoveStep(dst: Buffer, datlen: nat) returns (rest: nat, ghost gone: nat)
      requires Valid() && dst.Valid() && dst != this && Disjoint(dst) && 0 < datlen < totalLen
      modifies this, dst, chains`next, dst.chains`next
      ensures ValidLess(gone) && dst.Valid() && Disjoint(dst) && rest < |parts[0]|
      ensures gone + rest == datlen && Flat(parts) == old(Content())[gone..] && gone == Whole(old(parts), datlen)
      ensures dst.Content() == old(dst.Content()) + old(Content())[..gone]
      ensures (dst.LastTakes(rest) <==> old(RestFits(dst, datlen))) && (rest == 0 ==> dst.LastTakes(rest))
      ensures OldOrNew(old(chains)) && dst.OldOrNew(old(chains) + old(dst.chains))
    {
      if Whole(parts, datlen) == datlen {
        NoRest(dst, datlen);
      }
      ghost var fits := RestFits(dst, datlen);
      rest, gone := MoveWhole(dst, datlen);
      assert dst.LastTakes(rest) == fits;
    }

    /** The second half of `evbuffer_remove_buffer`: copies `rest` bytes of the first chunk and gives them up. */
    method CopyRest(dst: Buffer, rest: nat, nread: nat, memory: bool, ghost gone: nat, ghost s: string, ghost t: string)
      returns (ghost added: bool)
      requires ValidLess(gone) && dst.Valid() && dst != this && Disjoint(dst) && rest < |parts[0]|
      requires nread == gone + rest
      requires gone <= |s| && Flat(parts) == s[gone..] && dst.Content() == t + s[..gone]
      modifies this, dst, first, if dst.last == null then {} else {dst.last}
      ensures Valid() && dst.Valid() && Disjoint(dst) && chains == old(chains) && dst.OldOrNew(old(dst.chains))
      ensures nread <= |s| && Content() == s[nread..] && dst.Content() == t + s[..if added then nread else gone]
      ensures added <==> memory || old(dst.LastTakes(rest))
    {
      RemovedBytes(s, t, gone, parts, rest);
      added := MoveStart(dst, rest, nread, memory, gone);
    }

    /** The same, in terms of the chunks. */
    method MoveStart(dst: Buffer, rest: nat, nread: nat, memory: bool, ghost gone: nat) returns (ghost added: bool)
      requires ValidLess(gone) && dst.Valid() && dst != this && Disjoint(dst) && rest < |parts[0]|
      requires nread == gone + rest
      modifies this, dst, first, if dst.last == null then {} else {dst.last}
      ensures Valid() && dst.Valid() && Disjoint(dst) && chains == old(chains) && dst.OldOrNew(old(dst.chains))
      ensures Content() == Flat(old(parts))[rest..]
      ensures dst.Content() == if added then old(dst.Content()) + old(parts)[0][..rest] else old(dst.Content())
      ensures added <==> memory || old(dst.LastTakes(rest))
    {
      assert first in chains && (dst.last != null ==> dst.last in dst.chains);
      added := AddStart(dst, rest, memory, gone);
      SkipRest(rest, gone, nread);
    }

    /** Appends a copy of the first `rest` bytes to `dst`. */
    method AddStart(dst: Buffer, rest: nat, memory: bool, ghost gone: nat) returns (ghost added: bool)
      requires ValidLess(gone) && dst.Valid() && dst != this && Disjoint(dst) && rest < |parts[0]|
      modifies dst, if dst.last == null then {} else {dst.last}
      ensures ValidLess(gone) && dst.Valid() && Disjoint(dst) && dst.OldOrNew(old(dst.chains))
      ensures dst.Content() == if added then old(dst.Content()) + parts[0][..rest] else old(dst.Content())
      ensures added <==> memory || old(dst.LastTakes(rest))
    {
      assert Node(chains, parts, 0) && (dst.last != null ==> dst.last in dst.chains);
      var ok := dst.Add(first.mem[first.misalign..first.misalign + rest], memory);
      NoneSharedFrom(chains, dst.chains);
      added := ok;
    }

    /** The bytes asked for are whole chunks or fit the memory of chunks that are there. */
    ghost predicate MovesWithout(dst: Buffer, datlen: nat)
      requires Valid()
      reads this, chains, dst, dst.last
    {
      datlen == 0 || dst == this || datlen >= totalLen || RestFits(dst, datlen)
    }

    /** `evbuffer_remove_buffer`: moves up to `datlen` bytes from the front to the end of `dst`. All of them
        arrive exactly if there is memory or none is needed; else only the chunks that are moved whole do,
        and the other bytes are in neither buffer. */
    method RemoveBuffer(dst: Buffer, datlen: nat, memory: bool) returns (n: nat, ghost added: bool)
      requires Valid() && dst.Valid() && (dst != this ==> Disjoint(dst))
      modifies this, dst, chains, dst.chains
      ensures Valid() && dst.Valid() && (dst != this ==> Disjoint(dst))
      ensures OldOrNew(old(chains)) && dst.OldOrNew(old(chains) + old(dst.chains))
      ensures n == if dst == this then 0 else if datlen < old(totalLen) then datlen else old(totalLen)
      ensures Content() == old(Content())[n..] && (added <==> memory || old(MovesWithout(dst, datlen)))
      ensures added && dst != this ==> dst.Content() == old(dst.Content()) + old(Content())[..n]
      ensures !added ==>
                Whole(old(parts), n) < n && dst.Content() == old(dst.Content()) + old(Content())[..Whole(old(parts), n)]
    {
      added := true;
      if datlen == 0 || dst == this {
        n := 0;
      } else if datlen >= totalLen {
        n := totalLen;
        assert dst.last != null ==> dst.last in dst.chains;
        NoneSharedFrom(dst.chains, chains);
        dst.AddBuffer(this);
        NoneSharedFrom(chains, dst.chains);
      } else {
        n := datlen;
        added := RemoveSome(dst, datlen, memory);
      }
    }

    /** The loop of `evbuffer_pullup` from chunk `from` on: the bytes of the chunks that `size` bytes
        cover whole, where it stops, and whether it passed the chunk that `last_with_datap` leads to
        or the one that owns it. */
    method Gather(start: Chain, size: nat, ghost from: nat)
      returns (data: string, c: Chain?, left: nat, passedLwd: bool, passedOwner: bool, ghost k: nat)
      requires Valid() && from < |chains| && start == chains[from] && size <= |Flat(parts[from..])|
      ensures from <= k <= |chains| && c == (if k < |chains| then chains[k] else null)
      ensures Gathered(parts, from, k, data, left, size)
      ensures if k < |chains| then left < |parts[k]| else left == 0
      ensures passedLwd <==> k == |chains|
      ensures passedOwner <==> from + 2 <= |chains| && k >= |chains| - 1
    {
      EndOfList();
      data, c, left, passedLwd, passedOwner, k := GatherFrom(start, size, Link(lwdOwner), lwdOwner, from);
    }

    method GatherFrom(start: Chain, size: nat, lwd: Chain?, owner: Chain?, ghost from: nat)
      returns (data: string, c: Chain?, left: nat, passedLwd: bool, passedOwner: bool, ghost k: nat)
      requires Linked() && from < |chains| && start == chains[from] && size <= |Flat(parts[from..])|
      requires lwd == chains[|chains| - 1] && owner == (if |chains| < 2 then null else chains[|chains| - 2])
      ensures from <= k <= |chains| && c == (if k < |chains| then chains[k] else null)
      ensures Gathered(parts, from, k, data, left, size)
      ensures if k < |chains| then left < |parts[k]| else left == 0
      ensures passedLwd <==> k == |chains|
      ensures passedOwner <==> from + 2 <= |chains| && k >= |chains| - 1
    {
      c, left, data, k := start, size, [], from;
      passedLwd, passedOwner := false, false;
      while c != null && left >= c.off
        invariant from <= k <= |chains| && c == (if k < |chains| then chains[k] else null)
        invariant Gathered(parts, from, k, data, left, size)
        invariant passedLwd <==> k == |chains|
        invariant passedOwner <==> from + 2 <= |chains| && k >= |chains| - 1
        decreases |chains| - k
      {
        assert Node(chains, parts, k);
        GatheredMore(parts, from, k, data, left, size);
        data := data + c.mem[c.misalign..c.misalign + c.off];
        left := left - c.off;
        EndsApart(k);
        if c == lwd {
          passedLwd := true;
        }
        if c == owner {
          passedOwner := true;
        }
        c := c.next;
        k := k + 1;
      }
      if k < |chains| {
        assert Node(chains, parts, k);
      } else {
        GatheredAll(parts, from, data, left, size);
      }
    }

    /** Only the last chunk is the last one, and only the one before it comes before it. */
    lemma EndsApart(k: nat)
      requires Linked() && k < |chains|
      ensures chains[k] == chains[|chains| - 1] <==> k == |chains| - 1
      ensures |chains| >= 2 ==> (chains[k] == chains[|chains| - 2] <==> k == |chains| - 2)
    {
      assert k < |chains| - 1 ==> Apart(chains, k, |chains| - 1);
      assert k < |chains| - 2 ==> Apart(chains, k, |chains| - 2);
      assert k == |chains| - 1 > 0 ==> Apart(chains, k - 1, k);
    }

    /** All `size` bytes from chunk `from` on, as copied by `evbuffer_pullup`. */
    method GatherAll(start: Chain, size: nat, ghost from: nat)
      returns (data: string, c: Chain?, left: nat, passedLwd: bool, passedOwner: bool, ghost k: nat)
      requires Valid() && from < |chains| && start == chains[from] && size <= |Flat(parts[from..])|
      ensures from <= k <= |chains| && c == (if k < |chains| then chains[k] else null)
      ensures if k < |chains| then left < |parts[k]| else left == 0
      ensures |data| == size && Flat(parts[..from]) + data == Pulled(parts, k, left)
      ensures Pulled(parts, k, left) <= Flat(parts)
      ensures passedLwd <==> k == |chains|
      ensures passedOwner <==> from + 2 <= |chains| && k >= |chains| - 1
      ensures ListOk(chains[k..], parts[k..])
    {
      data, c, left, passedLwd, passedOwner, k := Gather(start, size, from);
      ListSuffix(chains, parts, k);
      GatheredPulled(parts, from, k, data, left, size);
      if c != null {
        assert Node(chains, parts, k);
        DataStart(c, left);
        data := data + c.mem[c.misalign..c.misalign + left];
      }
    }

    /** Links chunk `tmp` before chunk `k`, of which `left` bytes are given up; the chunks before `k`
        are freed. */
    method LinkBefore(tmp: Chain, c: Chain?, left: nat, ghost k: nat)
      requires k <= |chains| == |parts| && ListOk(chains[k..], parts[k..])
      requires c == (if k < |chains| then chains[k] else null)
      requires c != null ==> left < |parts[k]| && last == chains[|chains| - 1]
      requires tmp !in chains[k..] && tmp.Fits()
      modifies this`first, this`last, this`chains, this`parts, tmp`next, if c == null then {} else {c}
      ensures Linked() && chains == [tmp] + old(chains)[k..]
      ensures parts == [old(tmp.Data())] + Remaining(old(parts), k, left)
    {
      ghost var rest, restParts := chains[k..], Remaining(parts, k, left);
      if c != null {
        SkipHead(c, left, rest, parts[k..]);
      } else {
        last := tmp;
      }
      tmp.next := c;
      first := tmp;
      ConsList(tmp, rest, restParts);
      chains, parts := [tmp] + rest, [tmp.Data()] + restParts;
    }

    /** The end of `evbuffer_pullup`: chunk `tmp`, which holds the bytes before chunk `k` and then
        `left` bytes of it, is put in front of what remains. */
    method PutInFront(tmp: Chain, c: Chain?, left: nat, passedLwd: bool, passedOwner: bool, ghost k: nat)
      requires 1 <= k <= |chains| == |parts| && ListOk(chains[k..], parts[k..])
      requires c == (if k < |chains| then chains[k] else null) && last == chains[|chains| - 1]
      requires if c == null then left == 0 else left < |parts[k]|
      requires tmp !in chains[k..] && tmp.Fits() && tmp.Data() == Pulled(parts, k, left)
      requires totalLen == |Flat(parts)| && forall i :: 0 <= i < |parts| ==> parts[i] != []
      requires lwdOwner == (if |chains| < 2 then null else chains[|chains| - 2])
      requires passedLwd <==> k == |chains|
      requires k == |chains| - 1 ==> passedOwner || lwdOwner == tmp
      requires k < |chains| - 1 ==> !passedOwner
      modifies this, tmp`next, if c == null then {} else {c}
      ensures Valid() && Content() == Flat(old(parts)) && first == tmp
      ensures first.Fits() && first.Data() == Pulled(old(parts), k, left) && chains == [tmp] + old(chains)[k..]
    {
      PulledSame(parts, k, left);
      LinkBefore(tmp, c, left, k);
      assert Node(chains, parts, 0) && (k < |old(chains)| ==> Node(chains, parts, 1));
      if passedLwd {
        lwdOwner := null;
      } else if passedOwner {
        lwdOwner := if first.next != null && first.next.off > 0 then first else null;
      }
    }

    /** `evbuffer_pullup` when the memory of the first chunk can hold the `n` bytes. */
    method PullupHere(n: nat)
      requires Valid() && chains != [] && |parts[0]| < n <= totalLen && n <= |first.mem| - first.misalign
      modifies this, chains
      ensures Valid() && Content() == old(Content()) && OldOrNew(old(chains))
      ensures first != null && first.Fits() && first.Data() <= Content() && first.off == n
    {
      EndOfList();
      assert Node(chains, parts, 0);
      FlatSplit(parts, 0);
      FlatNext(parts, 0);
      var tmp := first;
      var data, c, left, passedLwd, passedOwner, k := GatherAll(first.next, n - first.off, 1);
      FirstApart(k);
      tmp.Write(data);
      PutInFront(tmp, c, left, passedLwd, passedOwner, k);
    }

    lemma FirstApart(k: nat)
      requires Linked() && 1 <= k <= |chains|
      ensures first !in chains[k..]
    {
      forall j: nat | j < |chains[k..]|
        ensures chains[k..][j] != first
      {
        assert Apart(chains, 0, k + j);
      }
    }

    /** `evbuffer_pullup` into a new chunk. */
    method PullupNew(n: nat, memory: bool) returns (ok: bool)
      requires Valid() && chains != [] && |parts[0]| < n <= totalLen
      modifies this, chains
      ensures Valid() && Content() == old(Content()) && ok == memory && OldOrNew(old(chains))
      ensures ok ==> first != null && first.Fits() && first.Data() <= Content() && first.off == n
    {
      var tmp := NewChain(n, memory);
      if tmp == null {
        return false;
      }
      EndOfList();
      FlatNext(parts, 0);
      assert parts[0..] == parts;
      var data, c, left, passedLwd, passedOwner, k := GatherAll(first, n, 0);
      assert parts[..0] == [];
      tmp.Write(data);
      PutInFront(tmp, c, left, passedLwd, passedOwner, k);
      ok := true;
    }

    /** The memory of the first chunk from its data on. */
    function FirstSpan(): int
      reads this, first
    {
      if first == null then 0 else |first.mem| - first.misalign
    }

    /** `evbuffer_pullup`: makes the first `size` bytes (all, if `size` is negative) contiguous. */
    method Pullup(size: int, memory: bool) returns (ok: bool)
      requires Valid()
      modifies this, chains
      ensures Valid() && Content() == old(Content()) && OldOrNew(old(chains))
      ensures var n := if size < 0 then old(totalLen) else size;
        && (ok <==> 0 < n <= old(totalLen) && (memory || n <= old(FirstSpan())))
        && (ok ==> first != null && first.Fits() && n <= first.off && first.Data() <= Content())
    {
      var n := if size < 0 then totalLen else size;
      if n == 0 || n > totalLen {
        return false;
      }
      FirstCounts();
      FlatSplit(parts, 0);
      if first.off >= n {
        ok := true;
      } else if |first.mem| - first.misalign >= n {
        PullupHere(n);
        ok := true;
      } else {
        ok := PullupNew(n, memory);
      }
    }
  }

  /** A new buffer with `data` in one chunk. */
  method BufferWith(data: string) returns (b: Buffer)
    ensures fresh(b) && b.Valid() && (forall c :: c in b.chains ==> fresh(c)) && b.parts == [data] && |b.chains| == 1
    ensures b.Content() == data
  {
    b := new Buffer();
    assert b.Content() == "" && "" + data == data;
    var ok := b.Add(data, true);
    FlatOne(b.parts);
  }

  lemma FlatHead(parts: seq<string>, k: nat)
    requires 0 < k <= |parts|
    ensures |Flat(parts[..k])| >= |parts[0]|
  {
    assert parts[..k][0] == parts[0];
  }

  /** Without memory a prepend can do a part of what it was asked: all of `data` but its first byte is in
      the buffer, and the call has failed. */
  method PrependPartly() returns (b: Buffer, data: string, ok: bool)
    ensures b.Valid() && |data| > 1 && !ok && b.Content() == data[1..] + "bc"
  {
    b := BufferWith("abc");
    assert "abc"[1..] == "bc" && b.chains[0] in b.chains;
    b.DrainSome(1);
    b.FirstCounts();
    data := seq(b.first.misalign + 1, _ => 'x');
    ok := b.Prepend(data, false);
  }

  /** The first of two bytes moved to an empty buffer without memory: it is in neither. */
  method LostWithoutMemory() returns (src: Buffer, dst: Buffer)
    ensures src.Valid() && src.Content() == "b" && dst.Valid() && dst.Content() == ""
  {
    src := BufferWith("ab");
    dst := new Buffer();
    NothingWhole("ab");
    assert src.chains[0] in src.chains;
    var n, added := src.RemoveBuffer(dst, 1, false);
    assert "ab"[1..] == "b" && "" + "ab"[..0] == "";
  }

  lemma NothingWhole(data: string)
    requires |data| > 1
    ensures Count([data], 1) == 0 && Whole([data], 1) == 0
  {
  }

  /** `data` is what the parts from `from` up to `k` hold, of `size` bytes in all. */
  ghost predicate Gathered(parts: seq<string>, from: nat, k: nat, data: string, left: nat, size: nat) {
    from <= k <= |parts| && data == Flat(parts[from..][..k - from]) && |data| + left == size
  }

  lemma GatheredMore(parts: seq<string>, from: nat, k: nat, data: string, left: nat, size: nat)
    requires Gathered(parts, from, k, data, left, size) && k < |parts| && left >= |parts[k]|
    ensures Gathered(parts, from, k + 1, data + parts[k], left - |parts[k]|, size)
  {
    FlatNext(parts[from..], k - from);
  }

  lemma GatheredAll(parts: seq<string>, from: nat, data: string, left: nat, size: nat)
    requires Gathered(parts, from, |parts|, data, left, size) && size <= |Flat(parts[from..])|
    ensures left == 0
  {
    assert parts[from..][..|parts| - from] == parts[from..];
  }

  /** `Pulled` in terms of what `Gather` returns when it starts at part `from`. */
  lemma PulledIs(parts: seq<string>, from: nat, k: nat, left: nat)
    requires from <= k <= |parts| && (k < |parts| ==> left < |parts[k]|)
    ensures Pulled(parts, k, left)
         == Flat(parts[..from]) + (Flat(parts[from..][..k - from]) + (if k < |parts| then parts[k][..left] else []))
    ensures Pulled(parts, k, left) <= Flat(parts)
  {
    assert parts[..k] == parts[..from] + parts[from..][..k - from];
    FlatAppend(parts[..from], parts[from..][..k - from]);
    if k < |parts| {
      FlatCut(parts, k, left);
    } else {
      assert parts[..k] == parts;
    }
  }

  lemma GatheredPulled(parts: seq<string>, from: nat, k: nat, data: string, left: nat, size: nat)
    requires Gathered(parts, from, k, data, left, size) && if k < |parts| then left < |parts[k]| else left == 0
    ensures Pulled(parts, k, left) <= Flat(parts)
    ensures var all := if k < |parts| then data + parts[k][..left] else data;
            |all| == size && Flat(parts[..from]) + all == Pulled(parts, k, left)
  {
    PulledIs(parts, from, k, left);
    assert data + [] == data;
  }

  lemma DataStart(c: Chain, n: nat)
    requires c.Fits() && n <= c.off
    ensures c.mem[c.misalign..c.misalign + n] == c.Data()[..n]
  {
  }

  /** What a pullup gathers: the parts before `k` and `left` bytes of part `k`. */
  ghost function Pulled(parts: seq<string>, k: nat, left: nat): string
    requires k <= |parts| && (k < |parts| ==> left < |parts[k]|)
  {
    Flat(parts[..k]) + if k < |parts| then parts[k][..left] else []
  }

  /** What a pullup leaves alone. */
  ghost function Remaining(parts: seq<string>, k: nat, left: nat): seq<string>
    requires k <= |parts| && (k < |parts| ==> left < |parts[k]|)
  {
    if k < |parts| then parts[k..][0 := parts[k][left..]] else []
  }

  lemma PulledSame(parts: seq<string>, k: nat, left: nat)
    requires 1 <= k <= |parts| && (k < |parts| ==> left < |parts[k]|)
    requires forall i :: 0 <= i < |parts| ==> parts[i] != []
    ensures Flat([Pulled(parts, k, left)] + Remaining(parts, k, left)) == Flat(parts)
    ensures Pulled(parts, k, left) != []
    ensures forall i :: 0 <= i < |Remaining(parts, k, left)| ==> Remaining(parts, k, left)[i] != []
  {
    FlatNonEmpty(parts[..k]);
    var pulled, rest := Pulled(parts, k, left), Remaining(parts, k, left);
    assert ([pulled] + rest)[1..] == rest;
    assert Flat([pulled] + rest) == pulled + Flat(rest);
    if k < |parts| {
      FlatCut(parts, k, left);
      var len := |Flat(parts[..k])| + left;
      assert pulled == Flat(parts)[..len] && Flat(rest) == Flat(parts)[len..];
    } else {
      assert parts[..k] == parts;
    }
  }

  /** Gives up the first `n` bytes of the first chunk of a list. */
  method SkipHead(c: Chain, n: nat, ghost cs: seq<Chain>, ghost ps: seq<string>)
    requires ListOk(cs, ps) && cs != [] && c == cs[0] && n <= |ps[0]|
    modifies c`misalign, c`off
    ensures ListOk(cs, ps[0 := ps[0][n..]])
  {
    assert Node(cs, ps, 0);
    c.Skip(n);
    ghost var after := ps[0 := ps[0][n..]];
    forall i: nat | i < |cs|
      ensures Node(cs, after, i)
    {
      assert old(Node(cs, ps, i)) && (i > 0 ==> Apart(cs, 0, i));
    }
  }

  /** A chunk linked to the start of a list. */
  lemma ConsList(c: Chain, cs: seq<Chain>, ps: seq<string>)
    requires ListOk(cs, ps) && c !in cs && c.Fits() && c.next == if cs == [] then null else cs[0]
    ensures ListOk([c] + cs, [c.Data()] + ps)
  {
    var all, parts := [c] + cs, [c.Data()] + ps;
    forall i: nat, j: nat | i < j < |all|
      ensures Apart(all, i, j)
    {
      assert i > 0 ==> Apart(cs, i - 1, j - 1);
      assert all[j] in cs;
    }
    forall i: nat | i < |all|
      ensures Node(all, parts, i)
    {
      assert i > 0 ==> Node(cs, ps, i - 1);
    }
  }

  /** The start of the first remaining part continues what was taken off. */
  lemma PrependBytes(data: string, k: nat, s: string)
    requires k <= |data|
    ensures data[..k] + (data[k..] + s) == data + s && (k == |data| ==> data[k..] + s == s)
  {
  }

  lemma RemovedBytes(s: string, t: string, gone: nat, parts: seq<string>, rest: nat)
    requires gone <= |s| && parts != [] && Flat(parts) == s[gone..] && rest <= |parts[0]|
    ensures gone + rest <= |s| && t + s[..gone] + parts[0][..rest] == t + s[..gone + rest]
    ensures Flat(parts)[rest..] == s[gone + rest..]
  {
    NextBytes(s, gone, parts, rest);
    Assoc(t, s[..gone], parts[0][..rest], s[..gone + rest]);
  }

  lemma NextBytes(s: string, gone: nat, parts: seq<string>, rest: nat)
    requires gone <= |s| && parts != [] && Flat(parts) == s[gone..] && rest <= |parts[0]|
    ensures gone + rest <= |s| && s[..gone] + parts[0][..rest] == s[..gone + rest]
    ensures Flat(parts)[rest..] == s[gone + rest..]
  {
    assert parts[0][..rest] == Flat(parts)[..rest];
  }

  lemma FlatNonEmpty(ps: seq<string>)
    requires ps != [] && ps[0] != []
    ensures |Flat(ps)| > 0
  {
  }
}
