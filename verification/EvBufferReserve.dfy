/** Reserving space at the end of a chunked buffer and committing what was written there. Between the
    two a buffer may end in empty chunks. */
module EvBufferReserve {
  import opened EvBuffer

  /** Part `w` is the last one with data; it is the first part if no part has any. */
  ghost predicate LastWithData(parts: seq<string>, w: nat) {
    if parts == [] then w == 0
    else w < |parts| && (w > 0 ==> parts[w] != []) && forall i :: w < i < |parts| ==> parts[i] == []
  }

  /** The chunks are in order and counted, and `last_with_datap` points at chunk `w`. */
  ghost predicate Shape(b: Buffer, w: nat)
    reads b, b.chains
  {
    b.totalLen == |Flat(b.parts)| && Lined(b, w)
  }

  ghost predicate Lined(b: Buffer, w: nat)
    reads b, b.chains
  {
    && b.Linked() && LastWithData(b.parts, w)
    && w <= |b.chains| && b.lwdOwner == (if w == 0 then null else b.chains[w - 1])
  }

  /** CHAIN_SPACE_LEN: the memory after the data. */
  function Space(c: Chain): nat
    requires c.Fits()
    reads c
  {
    |c.mem| - c.misalign - c.off
  }

  ghost predicate RoomAt(cs: seq<Chain>, rooms: seq<nat>, i: nat)
    requires i < |cs| == |rooms|
    reads cs[i]
  {
    cs[i].Fits() && rooms[i] == Space(cs[i])
  }

  /** `rooms` is the space in each of the chunks. */
  ghost predicate RoomsOk(cs: seq<Chain>, rooms: seq<nat>)
    reads cs
  {
    |rooms| == |cs| && forall i: nat :: i < |cs| ==> RoomAt(cs, rooms, i)
  }

  /** `sizes` is the memory of each of the chunks. */
  ghost predicate SizesOk(cs: seq<Chain>, sizes: seq<nat>)
    reads cs`mem
  {
    |sizes| == |cs| && forall i: nat :: i < |cs| ==> |cs[i].mem| == sizes[i]
  }

  function Sum(rooms: seq<nat>): nat {
    if rooms == [] then 0 else rooms[0] + Sum(rooms[1..])
  }

  lemma {:induction false} SumSnoc(rooms: seq<nat>, x: nat)
    ensures Sum(rooms + [x]) == Sum(rooms) + x
  {
    if rooms != [] {
      SumSnoc(rooms[1..], x);
      assert (rooms + [x])[1..] == rooms[1..] + [x];
    }
  }

  lemma SumSlice(rooms: seq<nat>, f: nat, k: nat)
    requires f <= k < |rooms|
    ensures Sum(rooms[f..k + 1]) == Sum(rooms[f..k]) + rooms[k]
  {
    assert rooms[f..k + 1] == rooms[f..k] + [rooms[k]];
    SumSnoc(rooms[f..k], rooms[k]);
  }

  lemma SliceOfTail(s: seq<nat>, f: nat, m: nat)
    requires 0 < f && f + m <= |s|
    ensures s[1..][f - 1..f - 1 + m] == s[f..f + m]
  {
    var l, r := s[1..][f - 1..f - 1 + m], s[f..f + m];
    assert |l| == |r| && forall i :: 0 <= i < m ==> l[i] == s[f + i] == r[i];
  }

  lemma {:induction false} SumLess(rooms: seq<nat>, sizes: seq<nat>, f: nat, m: nat)
    requires |rooms| == |sizes| && f + m <= |rooms| && forall i :: 0 <= i < |rooms| ==> rooms[i] <= sizes[i]
    ensures Sum(rooms[f..f + m]) <= Sum(sizes)
  {
    if f > 0 {
      SumLess(rooms[1..], sizes[1..], f - 1, m);
      SliceOfTail(rooms, f, m);
    } else if m > 0 {
      SumLess(rooms[1..], sizes[1..], 0, m - 1);
      assert rooms[1..][0..m - 1] == rooms[0..m][1..];
    }
  }

  /** The first chunk with space, from the last one with data on. */
  function FirstRoom(rooms: seq<nat>, w: nat): nat {
    if w < |rooms| && rooms[w] == 0 then w + 1 else w
  }

  /** At most `n` chunks, from the first one with space on, have room for `datlen` bytes. */
  ghost predicate HasRoom(rooms: seq<nat>, w: nat, n: nat, datlen: nat) {
    exists m: nat :: m <= n && Reaches(rooms, FirstRoom(rooms, w), m, datlen)
  }

  ghost predicate Reaches(rooms: seq<nat>, f: nat, m: nat, datlen: nat) {
    f + m <= |rooms| && Sum(rooms[f..f + m]) >= datlen
  }

  /** An empty chunk gets all of its memory back. */
  method Realign(b: Buffer, c: Chain, ghost w: nat, ghost k: nat, ghost rooms: seq<nat>)
    returns (ghost rooms': seq<nat>)
    requires Shape(b, w) && RoomsOk(b.chains, rooms) && k < |b.chains| && c == b.chains[k] && c.off == 0
    modifies c`misalign
    ensures Shape(b, w) && RoomsOk(b.chains, rooms') && rooms' == rooms[k := |c.mem|] && c.Fits()
  {
    assert Node(b.chains, b.parts, k);
    c.misalign := 0;
    rooms' := rooms[k := |c.mem|];
    forall i: nat | i < |b.chains|
      ensures Node(b.chains, b.parts, i) && RoomAt(b.chains, rooms', i)
    {
      assert old(Node(b.chains, b.parts, i)) && old(RoomAt(b.chains, rooms, i));
      assert i != k ==> (if i < k then Apart(b.chains, i, k) else Apart(b.chains, k, i));
    }
  }

  /** The chunk that `last_with_datap` points at. */
  lemma AtLastWithData(b: Buffer, w: nat)
    requires Shape(b, w)
    ensures b.Link(b.lwdOwner) == (if w < |b.chains| then b.chains[w] else null)
    ensures w < |b.chains| ==> b.chains[w].Fits() && b.chains[w].Data() == b.parts[w]
  {
    if w > 0 {
      assert Node(b.chains, b.parts, w - 1);
    }
    if w < |b.chains| {
      assert Node(b.chains, b.parts, w);
    }
  }

  /** The state of the loop of `_evbuffer_expand_fast` before chunk `k`. */
  ghost predicate Surveyed(rooms: seq<nat>, w: nat, k: nat, used: nat, avail: nat) {
    && k <= |rooms|
    && if k == w then used == 0 && avail == 0
       else w < k && FirstRoom(rooms, w) + used == k && avail == Sum(rooms[FirstRoom(rooms, w)..k])
  }

  lemma SurveyMore(rooms: seq<nat>, w: nat, k: nat, used: nat, avail: nat)
    requires Surveyed(rooms, w, k, used, avail) && w <= k < |rooms|
    ensures Surveyed(rooms, w, k + 1, if k == w && rooms[w] == 0 then used else used + 1, avail + rooms[k])
  {
    var f := FirstRoom(rooms, w);
    if k == w {
      assert rooms[f..k + 1] == if rooms[w] == 0 then [] else [] + [rooms[k]];
    } else {
      SumSlice(rooms, f, k);
    }
  }

  lemma SurveyKept(rooms: seq<nat>, w: nat, k: nat, used: nat, avail: nat, x: nat)
    requires Surveyed(rooms, w, k, used, avail) && w <= k < |rooms|
    ensures Surveyed(rooms[k := x], w, k, used, avail)
  {
  }

  /** One chunk of the loop: its space, after it has been realigned if it is empty. */
  method Measure(b: Buffer, c: Chain, ghost w: nat, ghost k: nat, ghost rooms: seq<nat>, ghost used: nat,
                 ghost avail: nat)
    returns (space: nat, next: Chain?, ghost rooms': seq<nat>)
    requires Shape(b, w) && RoomsOk(b.chains, rooms) && w <= k < |b.chains| && c == b.chains[k]
    requires Surveyed(rooms, w, k, used, avail)
    modifies c`misalign
    ensures Shape(b, w) && RoomsOk(b.chains, rooms') && space == rooms'[k] && (space == 0 ==> k == w)
    ensures k > w ==> rooms'[w] == rooms[w]
    ensures Surveyed(rooms', w, k + 1, if space == 0 then used else used + 1, avail + space)
    ensures next == if k + 1 < |b.chains| then b.chains[k + 1] else null
  {
    assert Node(b.chains, b.parts, k) && RoomAt(b.chains, rooms, k);
    next := c.next;
    if c.off != 0 {
      space, rooms' := |c.mem| - c.misalign - c.off, rooms;
    } else {
      SurveyKept(rooms, w, k, used, avail, |c.mem|);
      rooms' := Realign(b, c, w, k, rooms);
      space := |c.mem|;
    }
    SurveyMore(rooms', w, k, used, avail);
  }

  /** The loop of `_evbuffer_expand_fast`: is there enough space in the first `n` chunks that have any? */
  method Survey(b: Buffer, datlen: nat, n: nat, ghost w: nat, ghost rooms0: seq<nat>)
    returns (enough: bool, used: nat, avail: nat, ghost rooms: seq<nat>)
    requires Shape(b, w) && RoomsOk(b.chains, rooms0) && b.chains != [] && n >= 2
    modifies b.chains`misalign
    ensures Shape(b, w) && RoomsOk(b.chains, rooms)
    ensures enough ==> HasRoom(rooms, w, n, datlen)
    ensures !enough ==> avail < datlen && rooms[w] < datlen && used <= n && used <= |b.chains| - w
    ensures !enough && used < n ==> Surveyed(rooms, w, |rooms|, used, avail)
  {
    AtLastWithData(b, w);
    var c := b.Link(b.lwdOwner);
    ghost var k := w;
    used, avail, rooms := 0, 0, rooms0;
    while c != null
      invariant w <= k <= |b.chains| && c == (if k < |b.chains| then b.chains[k] else null)
      invariant Shape(b, w) && RoomsOk(b.chains, rooms) && Surveyed(rooms, w, k, used, avail) && used < n
      invariant k > w ==> avail < datlen && rooms[w] < datlen
      decreases |b.chains| - k
    {
      var space: nat, next;
      space, next, rooms := Measure(b, c, w, k, rooms, used, avail);
      if space != 0 {
        used := used + 1;
      }
      avail := avail + space;
      if avail >= datlen {
        EnoughRoom(rooms, w, k + 1, used, avail, n, datlen);
        return true, used, avail, rooms;
      }
      if used == n {
        return false, used, avail, rooms;
      }
      c := next;
      k := k + 1;
    }
    enough := false;
  }

  /** The space is part of the memory. */
  lemma RoomIsMemory(cs: seq<Chain>, rooms: seq<nat>, sizes: seq<nat>, w: nat, n: nat, datlen: nat)
    requires RoomsOk(cs, rooms) && SizesOk(cs, sizes) && HasRoom(rooms, w, n, datlen)
    ensures datlen <= Sum(sizes)
  {
    var m: nat :| m <= n && Reaches(rooms, FirstRoom(rooms, w), m, datlen);
    forall i | 0 <= i < |rooms|
      ensures rooms[i] <= sizes[i]
    {
      assert RoomAt(cs, rooms, i);
    }
    SumLess(rooms, sizes, FirstRoom(rooms, w), m);
  }

  lemma EnoughRoom(rooms: seq<nat>, w: nat, k: nat, used: nat, avail: nat, n: nat, datlen: nat)
    requires Surveyed(rooms, w, k, used, avail) && used <= n && avail >= datlen && w < k
    ensures HasRoom(rooms, w, n, datlen)
  {
    assert Reaches(rooms, FirstRoom(rooms, w), used, datlen);
  }

  /** There is one more chunk, without data. */
  ghost predicate OneMore(b: Buffer, cs: seq<Chain>, ps: seq<string>)
    reads b, b.last
  {
    b.last != null && b.last.misalign == 0 && b.chains == cs + [b.last] && b.parts == ps + [[]]
  }

  /** Puts a new chunk for `size` bytes behind the last one. */
  method AppendSpace(b: Buffer, size: nat, memory: bool, ghost w: nat, ghost rooms: seq<nat>)
    returns (ok: bool, ghost rooms': seq<nat>)
    requires Shape(b, w) && RoomsOk(b.chains, rooms) && b.chains != []
    modifies b, b.chains`next
    ensures Shape(b, w) && RoomsOk(b.chains, rooms') && Flat(b.parts) == old(Flat(b.parts)) && b.OldOrNew(old(b.chains))
    ensures ok ==>
              && |rooms'| == |rooms| + 1
              && rooms'[..|rooms|] == rooms
              && rooms'[|rooms|] >= size
              && OneMore(b, old(b.chains), old(b.parts))
    ensures (ok <==> memory) && (!ok ==> rooms' == rooms && unchanged(b))
  {
    rooms' := rooms;
    var tmp := NewChain(size, memory);
    ok := tmp != null;
    if ok {
      LinkSpace(b, tmp, w, rooms);
      rooms' := rooms + [|tmp.mem|];
    }
  }

  method LinkSpace(b: Buffer, tmp: Chain, ghost w: nat, ghost rooms: seq<nat>)
    requires Shape(b, w) && RoomsOk(b.chains, rooms) && b.chains != []
    requires tmp !in b.chains && tmp.Fits() && tmp.next == null && tmp.off == 0 && tmp.misalign == 0
    modifies b, b.chains`next
    ensures Shape(b, w) && RoomsOk(b.chains, rooms + [|tmp.mem|]) && Flat(b.parts) == old(Flat(b.parts))
    ensures b.chains == old(b.chains) + [tmp] && OneMore(b, old(b.chains), old(b.parts))
  {
    ghost var cs := b.chains;
    assert b.last in cs;
    FlatLast(b.parts, []);
    b.LinkLast(tmp);
    ghost var more := rooms + [|tmp.mem|];
    forall i: nat | i < |b.chains|
      ensures RoomAt(b.chains, more, i)
    {
      assert i < |cs| ==> old(RoomAt(cs, rooms, i));
    }
  }

  lemma {:induction false} FlatEmpty(parts: seq<string>)
    requires forall i :: 0 <= i < |parts| ==> parts[i] == []
    ensures Flat(parts) == []
  {
    if parts != [] {
      FlatEmpty(parts[1..]);
    }
  }

  lemma FlatTrim(parts: seq<string>, w: nat)
    requires LastWithData(parts, w) && parts != []
    ensures Flat(parts[..w + 1]) == Flat(parts) && LastWithData(parts[..w + 1], w)
  {
    assert parts == parts[..w + 1] + parts[w + 1..];
    FlatAppend(parts[..w + 1], parts[w + 1..]);
    FlatEmpty(parts[w + 1..]);
  }

  /** Frees the empty chunks behind the last one with data. */
  method Trim(b: Buffer, c: Chain, ghost w: nat, ghost rooms: seq<nat>)
    requires Shape(b, w) && RoomsOk(b.chains, rooms) && w < |b.chains| && c == b.chains[w]
    modifies b, c`next
    ensures Shape(b, w) && RoomsOk(b.chains, rooms[..w + 1]) && Flat(b.parts) == old(Flat(b.parts))
    ensures b.chains == old(b.chains)[..w + 1]
  {
    ghost var cs, ps := b.chains, b.parts;
    FlatTrim(ps, w);
    if c.next != null {
      assert Node(cs, ps, w);
      CutList(c, cs, ps, w + 1);
      b.last := c;
      b.chains, b.parts := cs[..w + 1], ps[..w + 1];
    } else {
      assert Node(cs, ps, w);
      assert cs[..w + 1] == cs && ps[..w + 1] == ps;
    }
    ghost var kept := rooms[..w + 1];
    forall i: nat | i < |b.chains|
      ensures RoomAt(b.chains, kept, i)
    {
      assert old(RoomAt(cs, rooms, i));
    }
  }

  /** A single new chunk in place of chunks without data. */
  method Restart(b: Buffer, datlen: nat, memory: bool, ghost w: nat) returns (ok: bool, ghost rooms: seq<nat>)
    requires Shape(b, w) && Flat(b.parts) == []
    modifies b
    ensures Shape(b, 0) && RoomsOk(b.chains, rooms) && Flat(b.parts) == [] && b.OldOrNew(old(b.chains))
    ensures (ok <==> memory) && (ok ==> |rooms| == 1 && rooms[0] >= datlen && rooms[0] > 0)
  {
    var tmp := NewChain(datlen, memory);
    ok := tmp != null;
    if ok {
      b.MakeOnly(tmp);
      b.lwdOwner := null;
      rooms := [|tmp.mem|];
      FlatEmpty(b.parts);
      assert RoomAt(b.chains, rooms, 0);
    } else {
      b.ZeroChain();
      rooms := [];
    }
  }

  /** The end of `_evbuffer_expand_fast`: one new chunk replaces all the empty ones. */
  method Replace(b: Buffer, datlen: nat, memory: bool, ghost w: nat, ghost rooms: seq<nat>)
    returns (ok: bool, ghost w': nat, ghost rooms': seq<nat>)
    requires Shape(b, w) && RoomsOk(b.chains, rooms) && b.chains != [] && rooms[w] < datlen
    modifies b, b.chains`next
    ensures Shape(b, w') && RoomsOk(b.chains, rooms') && Flat(b.parts) == old(Flat(b.parts))
    ensures b.OldOrNew(old(b.chains))
    ensures (ok <==> memory) && (ok ==> HasRoom(rooms', w', 2, datlen))
  {
    AtLastWithData(b, w);
    var c := b.Link(b.lwdOwner);
    w' := w;
    if c.off == 0 {
      FlatEmpty(b.parts);
      ok, rooms' := Restart(b, datlen, memory, w);
      w' := 0;
      if ok {
        OneRoom(rooms', 2, datlen);
      }
    } else {
      assert RoomAt(b.chains, rooms, w);
      var avail := |c.mem| - c.misalign - c.off;
      ghost var kept := rooms[..w + 1];
      Trim(b, c, w, rooms);
      ok, rooms' := AppendSpace(b, datlen - avail, memory, w, kept);
      if ok {
        TwoRooms(rooms', w, datlen);
      }
    }
  }

  lemma TwoRooms(rooms: seq<nat>, w: nat, datlen: nat)
    requires |rooms| == w + 2 && rooms[w] + rooms[w + 1] >= datlen
    ensures HasRoom(rooms, w, 2, datlen)
  {
    if rooms[w] == 0 {
      assert rooms[w + 1..w + 2] == [rooms[w + 1]];
      assert Reaches(rooms, FirstRoom(rooms, w), 1, datlen);
    } else {
      assert rooms[w..w + 2] == [rooms[w]] + [rooms[w + 1]];
      SumSnoc([rooms[w]], rooms[w + 1]);
      assert Reaches(rooms, FirstRoom(rooms, w), 2, datlen);
    }
  }

  lemma OneRoom(rooms: seq<nat>, n: nat, datlen: nat)
    requires |rooms| == 1 && rooms[0] >= datlen && rooms[0] > 0 && n >= 1
    ensures HasRoom(rooms, 0, n, datlen)
  {
    assert rooms[0..1] == rooms;
    assert Reaches(rooms, FirstRoom(rooms, 0), 1, datlen);
  }

  lemma OneMoreRoom(rooms: seq<nat>, w: nat, used: nat, avail: nat, more: seq<nat>, n: nat, datlen: nat)
    requires Surveyed(rooms, w, |rooms|, used, avail) && w < |rooms| && used < n
    requires |more| == |rooms| + 1 && more[..|rooms|] == rooms && avail + more[|rooms|] >= datlen
    ensures HasRoom(more, w, n, datlen)
  {
    var f := FirstRoom(rooms, w);
    assert more[f..|rooms|] == rooms[f..];
    assert rooms[f..|rooms|] == rooms[f..];
    assert more[f..|more|] == more[f..|rooms|] + [more[|rooms|]];
    SumSnoc(rooms[f..], more[|rooms|]);
    assert FirstRoom(more, w) == f;
    assert Reaches(more, FirstRoom(more, w), used + 1, datlen);
  }

  /** The chunks are too small for `datlen` bytes, and there are few enough of them for one more. */
  predicate Grows(cs: seq<Chain>, w: nat, n: nat, sizes: seq<nat>, datlen: nat) {
    cs != [] && |cs| < w + n && datlen > Sum(sizes)
  }

  /** `_evbuffer_expand_fast`: keeps the bytes and, unless there is no memory, leaves room for `datlen` more
      in at most `n` chunks. */
  method ExpandFast(b: Buffer, datlen: nat, n: nat, memory: bool, ghost w: nat, ghost rooms: seq<nat>,
                    ghost sizes: seq<nat>)
    returns (ok: bool, ghost w': nat, ghost rooms': seq<nat>)
    requires Shape(b, w) && RoomsOk(b.chains, rooms) && SizesOk(b.chains, sizes) && n >= 2
    modifies b, b.chains
    ensures ok && Grows(old(b.chains), w, n, sizes, datlen) ==> w' == w && OneMore(b, old(b.chains), old(b.parts))
    ensures Shape(b, w') && RoomsOk(b.chains, rooms') && Flat(b.parts) == old(Flat(b.parts))
    ensures b.OldOrNew(old(b.chains))
    ensures (memory ==> ok) && (ok ==> HasRoom(rooms', w', n, datlen) && b.chains != [])
  {
    w' := w;
    if b.last == null {
      ok, rooms' := Restart(b, datlen, memory, w);
      w' := 0;
      if ok {
        OneRoom(rooms', n, datlen);
      }
      return;
    }
    var enough, used, avail;
    enough, used, avail, rooms' := Survey(b, datlen, n, w, rooms);
    ok := enough;
    if enough {
      RoomIsMemory(b.chains, rooms', sizes, w, n, datlen);
    } else {
      if used < n {
        ghost var surveyed := rooms';
        ok, rooms' := AppendSpace(b, datlen - avail, memory, w, surveyed);
        if ok {
          OneMoreRoom(surveyed, w, used, avail, rooms', n, datlen);
        }
      } else {
        ok, w', rooms' := Replace(b, datlen, memory, w, rooms');
        if ok {
          MoreChunks(rooms', w', n, datlen);
        }
      }
    }
  }

  lemma MoreChunks(rooms: seq<nat>, w: nat, n: nat, datlen: nat)
    requires HasRoom(rooms, w, 2, datlen) && n >= 2
    ensures HasRoom(rooms, w, n, datlen)
  {
  }

  // ---------- Vectors ----------

  /** An iovec: `len` bytes of the memory of a chunk from `at` on. */
  datatype Vec = Vec(chain: Chain, at: nat, len: nat)

  /** Vector `i` is the start of the space of chunk `f + i`. */
  ghost predicate VecAt(cs: seq<Chain>, rooms: seq<nat>, f: nat, vecs: seq<Vec>, i: nat)
    requires i < |vecs|
    reads cs
  {
    && f + i < |cs| == |rooms| && vecs[i].chain == cs[f + i]
    && vecs[i].at == cs[f + i].misalign + cs[f + i].off && vecs[i].len <= rooms[f + i]
  }

  ghost predicate VecsOk(cs: seq<Chain>, rooms: seq<nat>, f: nat, vecs: seq<Vec>)
    reads cs
  {
    forall i: nat :: i < |vecs| ==> VecAt(cs, rooms, f, vecs, i)
  }

  function Lengths(vecs: seq<Vec>): seq<nat> {
    seq(|vecs|, i requires 0 <= i < |vecs| => vecs[i].len)
  }

  /** The first chunk with space, and the chunk whose link points at it. */
  method FirstSpace(b: Buffer, ghost w: nat, ghost rooms: seq<nat>) returns (owner: Chain?, c: Chain?)
    requires Shape(b, w) && RoomsOk(b.chains, rooms) && b.chains != []
    ensures var f := FirstRoom(rooms, w);
            && f <= |b.chains| && c == (if f < |b.chains| then b.chains[f] else null)
            && owner == (if f == 0 then null else b.chains[f - 1])
  {
    AtLastWithData(b, w);
    owner, c := b.lwdOwner, b.Link(b.lwdOwner);
    assert RoomAt(b.chains, rooms, w) && Node(b.chains, b.parts, w);
    if |c.mem| - c.misalign - c.off == 0 {
      owner, c := c, c.next;
    }
  }

  /** The vector for the space of a chunk when `left` bytes are wanted, and the next chunk. */
  method NextVec(b: Buffer, c: Chain, left: nat, exact: bool, ghost w: nat, ghost k: nat, ghost rooms: seq<nat>)
    returns (v: Vec, next: Chain?)
    requires Shape(b, w) && RoomsOk(b.chains, rooms) && k < |b.chains| && c == b.chains[k]
    ensures v.chain == c && v.at == c.misalign + c.off && next == (if k + 1 < |b.chains| then b.chains[k + 1] else null)
    ensures v.len == if rooms[k] > left && exact then left else rooms[k]
  {
    assert RoomAt(b.chains, rooms, k) && Node(b.chains, b.parts, k);
    var space := |c.mem| - c.misalign - c.off;
    v := Vec(c, c.misalign + c.off, if space > left && exact then left else space);
    next := c.next;
  }

  /** `_evbuffer_read_setup_vecs`: at most `avail` vectors, from the first chunk with space on, with room for
      `howmuch` bytes; exactly that much if `exact`. */
  method SetupVecs(b: Buffer, howmuch: nat, avail: nat, exact: bool, ghost w: nat, ghost rooms: seq<nat>)
    returns (vecs: seq<Vec>)
    requires Shape(b, w) && RoomsOk(b.chains, rooms) && b.chains != [] && HasRoom(rooms, w, avail, howmuch)
    ensures |vecs| <= avail && VecsOk(b.chains, rooms, FirstRoom(rooms, w), vecs)
    ensures Sum(Lengths(vecs)) >= howmuch && (exact ==> Sum(Lengths(vecs)) == howmuch)
  {
    var _, c := FirstSpace(b, w, rooms);
    ghost var f := FirstRoom(rooms, w);
    ghost var m: nat :| m <= avail && Reaches(rooms, f, m, howmuch);
    var soFar: nat := 0;
    vecs := [];
    assert rooms[f..f] == [];
    while |vecs| < avail && soFar < howmuch
      invariant |vecs| <= avail && f + |vecs| <= |b.chains|
      invariant c == (if f + |vecs| < |b.chains| then b.chains[f + |vecs|] else null)
      invariant VecsOk(b.chains, rooms, f, vecs) && Gathering(rooms, f, m, vecs, soFar, howmuch, exact)
      decreases avail - |vecs|
    {
      ghost var k := f + |vecs|;
      var v: Vec;
      v, c := NextVec(b, c, howmuch - soFar, exact, w, k, rooms);
      AddVec(b.chains, rooms, f, vecs, v);
      GatherMore(rooms, f, m, vecs, soFar, howmuch, exact, v);
      vecs := vecs + [v];
      soFar := soFar + v.len;
    }
  }

  lemma AddVec(cs: seq<Chain>, rooms: seq<nat>, f: nat, vecs: seq<Vec>, v: Vec)
    requires VecsOk(cs, rooms, f, vecs) && f + |vecs| < |cs| == |rooms| && v.chain == cs[f + |vecs|]
    requires v.at == v.chain.misalign + v.chain.off && v.len <= rooms[f + |vecs|]
    ensures VecsOk(cs, rooms, f, vecs + [v])
  {
    var more := vecs + [v];
    forall i: nat | i < |more|
      ensures VecAt(cs, rooms, f, more, i)
    {
      assert i < |vecs| ==> VecAt(cs, rooms, f, vecs, i);
    }
  }

  /** The vectors have room for `soFar` of the `howmuch` bytes that `m` chunks from `f` on have room for. */
  ghost predicate Gathering(rooms: seq<nat>, f: nat, m: nat, vecs: seq<Vec>, soFar: nat, howmuch: nat, exact: bool)
    requires f + |vecs| <= |rooms|
  {
    && soFar == Sum(Lengths(vecs)) && (exact ==> soFar <= howmuch)
    && (soFar < howmuch ==> |vecs| < m && soFar == Sum(rooms[f..f + |vecs|]))
  }

  lemma GatherMore(rooms: seq<nat>, f: nat, m: nat, vecs: seq<Vec>, soFar: nat, howmuch: nat, exact: bool, v: Vec)
    requires f + |vecs| < |rooms| && Gathering(rooms, f, m, vecs, soFar, howmuch, exact) && soFar < howmuch
    requires Reaches(rooms, f, m, howmuch)
    requires var room := rooms[f + |vecs|]; v.len == if room > howmuch - soFar && exact then howmuch - soFar else room
    ensures Gathering(rooms, f, m, vecs + [v], soFar + v.len, howmuch, exact)
  {
    assert Lengths(vecs + [v]) == Lengths(vecs) + [v.len];
    SumSnoc(Lengths(vecs), v.len);
    SumSlice(rooms, f, f + |vecs|);
  }

  // ---------- Committing ----------

  /** Vector `i` starts at the space of chunk `f + i` and covers the bytes `bytes[i]` there. */
  ghost predicate CoverAt(cs: seq<Chain>, f: nat, vecs: seq<Vec>, bytes: seq<string>, i: nat)
    requires i < |vecs| == |bytes|
    reads cs
  {
    && f + i < |cs| && vecs[i].chain == cs[f + i] && vecs[i].at == cs[f + i].misalign + cs[f + i].off
    && vecs[i].at + vecs[i].len <= |cs[f + i].mem| && bytes[i] == cs[f + i].mem[vecs[i].at..vecs[i].at + vecs[i].len]
  }

  ghost predicate CoversFrom(cs: seq<Chain>, f: nat, vecs: seq<Vec>, bytes: seq<string>, from: nat)
    reads cs
  {
    |vecs| == |bytes| && forall i: nat :: from <= i < |vecs| ==> CoverAt(cs, f, vecs, bytes, i)
  }

  lemma FlatGrow(parts: seq<string>, k: nat, x: string)
    requires k < |parts| && forall j :: k < j < |parts| ==> parts[j] == []
    ensures Flat(parts[k := parts[k] + x]) == Flat(parts) + x
  {
    FlatReplace(parts, k, parts[k] + x);
    FlatEmpty(parts[k + 1..]);
  }

  lemma DataGrows(c: Chain, n: nat)
    requires c.Fits() && n <= Space(c)
    ensures c.mem[c.misalign..c.misalign + c.off + n] == c.Data() + c.mem[c.misalign + c.off..c.misalign + c.off + n]
  {
  }

  /** The space of chunk `k` becomes data as far as `n` bytes. */
  method Extend(b: Buffer, c: Chain, n: nat, ghost k: nat, ghost x: string)
    requires b.Linked() && k < |b.chains| && c == b.chains[k] && c.misalign + c.off + n <= |c.mem|
    requires x == c.mem[c.misalign + c.off..c.misalign + c.off + n]
    requires forall j :: k < j < |b.parts| ==> b.parts[j] == []
    modifies b`parts, c`off
    ensures b.Linked() && b.parts == old(b.parts)[k := old(b.parts)[k] + x] && Flat(b.parts) == old(Flat(b.parts)) + x
  {
    assert Node(b.chains, b.parts, k);
    DataGrows(c, n);
    FlatGrow(b.parts, k, x);
    c.off := c.off + n;
    b.parts := b.parts[k := b.parts[k] + x];
    b.OnlyChunk(k);
  }

  /** One round of the second pass of `evbuffer_commit_space`. */
  method CommitOne(b: Buffer, v: Vec, owner: Chain?, ghost w: nat, ghost k: nat, ghost x: string)
    returns (ghost w': nat)
    requires Lined(b, w) && w <= k < |b.chains| && v.chain == b.chains[k]
    requires owner == (if k == 0 then null else b.chains[k - 1])
    requires v.at == v.chain.misalign + v.chain.off && v.at + v.len <= |v.chain.mem|
    requires x == v.chain.mem[v.at..v.at + v.len]
    modifies b`parts, b`lwdOwner, v.chain`off
    ensures Lined(b, w') && Flat(b.parts) == old(Flat(b.parts)) + x && w' == if v.len > 0 then k else w
  {
    Extend(b, v.chain, v.len, k, x);
    w' := w;
    if v.len > 0 {
      b.lwdOwner := owner;
      w' := k;
    } else {
      assert x == [] && old(b.parts)[k] + x == old(b.parts)[k];
      assert b.parts == old(b.parts);
    }
  }

  /** The same, for vector `i` of several. */
  method CommitNext(b: Buffer, vecs: seq<Vec>, owner: Chain?, ghost w: nat, ghost f: nat, ghost bytes: seq<string>,
                    i: nat)
    returns (ghost w': nat)
    requires Lined(b, w) && w <= f + i && i < |vecs| && CoversFrom(b.chains, f, vecs, bytes, i)
    requires f + i <= |b.chains| && owner == (if f + i == 0 then null else b.chains[f + i - 1])
    modifies b`parts, b`lwdOwner, b.chains`off
    ensures Lined(b, w') && w' <= f + i + 1 <= |b.chains| && CoversFrom(b.chains, f, vecs, bytes, i + 1)
    ensures vecs[i].chain == b.chains[f + i] && vecs[i].len == |bytes[i]|
    ensures Flat(b.parts) == old(Flat(b.parts)) + bytes[i]
  {
    assert CoverAt(b.chains, f, vecs, bytes, i);
    w' := CommitOne(b, vecs[i], owner, w, f + i, bytes[i]);
    forall j: nat | i + 1 <= j < |vecs|
      ensures CoverAt(b.chains, f, vecs, bytes, j)
    {
      assert old(CoverAt(b.chains, f, vecs, bytes, j));
      assert Apart(b.chains, f + i, f + j);
    }
  }

  /** The second pass of `evbuffer_commit_space`. */
  method CommitAll(b: Buffer, vecs: seq<Vec>, first: Chain?, ghost w: nat, ghost f: nat, ghost bytes: seq<string>)
    returns (added: nat, ghost w': nat)
    requires Lined(b, w) && w <= f && CoversFrom(b.chains, f, vecs, bytes, 0)
    requires f <= |b.chains| && first == (if f == 0 then null else b.chains[f - 1])
    modifies b`parts, b`lwdOwner, b.chains`off
    ensures Lined(b, w') && Flat(b.parts) == old(Flat(b.parts)) + Flat(bytes) && added == |Flat(bytes)|
  {
    var owner := first;
    added, w' := 0, w;
    assert Flat(b.parts) + Flat(bytes[..0]) == Flat(b.parts);
    for i := 0 to |vecs|
      invariant Lined(b, w') && w' <= f + i && CoversFrom(b.chains, f, vecs, bytes, i)
      invariant f + i <= |b.chains| && owner == (if f + i == 0 then null else b.chains[f + i - 1])
      invariant Flat(b.parts) == old(Flat(b.parts)) + Flat(bytes[..i]) && added == |Flat(bytes[..i])|
    {
      w' := CommitNext(b, vecs, owner, w', f, bytes, i);
      FlatNext(bytes, i);
      added := added + vecs[i].len;
      owner := vecs[i].chain;
    }
    assert bytes[..|bytes|] == bytes;
  }

  /** The first pass of `evbuffer_commit_space`. */
  method CheckVecs(b: Buffer, first: Chain?, vecs: seq<Vec>, ghost w: nat, ghost f: nat, ghost rooms: seq<nat>)
    returns (ok: bool)
    requires Shape(b, w) && RoomsOk(b.chains, rooms) && f <= |b.chains|
    requires first == (if f < |b.chains| then b.chains[f] else null)
    ensures ok <==> VecsOk(b.chains, rooms, f, vecs)
  {
    var c := first;
    for i := 0 to |vecs|
      invariant f + i <= |b.chains| && c == (if f + i < |b.chains| then b.chains[f + i] else null)
      invariant forall j: nat :: j < i ==> VecAt(b.chains, rooms, f, vecs, j)
    {
      if c == null {
        assert !VecAt(b.chains, rooms, f, vecs, i);
        return false;
      }
      assert RoomAt(b.chains, rooms, f + i) && Node(b.chains, b.parts, f + i);
      if vecs[i].chain != c || vecs[i].at != c.misalign + c.off || vecs[i].len > |c.mem| - c.misalign - c.off {
        assert !VecAt(b.chains, rooms, f, vecs, i);
        return false;
      }
      c := c.next;
    }
    ok := true;
  }

  /** What stands in the memory that the vectors cover. */
  ghost function BytesOf(cs: seq<Chain>, rooms: seq<nat>, f: nat, vecs: seq<Vec>): (r: seq<string>)
    requires RoomsOk(cs, rooms) && VecsOk(cs, rooms, f, vecs)
    reads cs
    ensures CoversFrom(cs, f, vecs, r, 0)
  {
    if vecs == [] then [] else
      var k := |vecs| - 1;
      assert VecAt(cs, rooms, f, vecs, k) && RoomAt(cs, rooms, f + k);
      assert VecsOk(cs, rooms, f, vecs[..k]) by {
        forall i: nat | i < k
          ensures VecAt(cs, rooms, f, vecs[..k], i)
        {
          assert VecAt(cs, rooms, f, vecs, i);
        }
      }
      var rest := BytesOf(cs, rooms, f, vecs[..k]);
      var r := rest + [cs[f + k].mem[vecs[k].at..vecs[k].at + vecs[k].len]];
      assert forall i: nat :: i < |vecs| ==> CoverAt(cs, f, vecs, r, i) by {
        forall i: nat | i < |vecs|
          ensures CoverAt(cs, f, vecs, r, i)
        {
          assert i < k ==> CoverAt(cs, f, vecs[..k], rest, i);
        }
      }
      r
  }

  /** A link determines the chunk it points at. */
  lemma OwnersDiffer(b: Buffer, w: nat, z: nat)
    requires b.Linked() && w < z <= |b.chains|
    ensures b.OwnerAt(w) != b.OwnerAt(z)
  {
    if w > 0 {
      assert Apart(b.chains, w - 1, z - 1);
    }
  }

  /** `last_with_datap` points before a chunk with data. */
  lemma Stale(b: Buffer, w: nat, k: nat)
    requires b.Linked() && w < k < |b.chains| && b.lwdOwner == b.OwnerAt(w) && b.parts[k] != []
    ensures forall z: nat :: !Shape(b, z)
  {
    forall z: nat
      ensures !Shape(b, z)
    {
      if w < z <= |b.chains| {
        OwnersDiffer(b, w, z);
      } else if z < w {
        OwnersDiffer(b, z, w);
      }
    }
  }

  /** `evbuffer_commit_space` for one vector that is the space of the last chunk. The bytes are appended, but
      `last_with_datap` is right afterwards exactly when there is no other empty chunk before that one. */
  method CommitLast(b: Buffer, v: Vec, ghost w: nat, ghost x: string) returns (ghost w': nat)
    requires Shape(b, w) && b.chains != [] && v.chain == b.last && v.at == b.last.misalign + b.last.off
    requires v.at + v.len <= |b.last.mem| && x == b.last.mem[v.at..v.at + v.len]
    modifies b`parts, b`lwdOwner, b`totalLen, b.chains`off
    ensures b.totalLen == |Flat(b.parts)| && Flat(b.parts) == old(Flat(b.parts)) + x
    ensures v.len == 0 || |b.chains| <= w + 2 ==> Shape(b, w')
    ensures v.len > 0 && |b.chains| > w + 2 ==> forall z: nat :: !Shape(b, z)
  {
    ghost var k := |b.chains| - 1;
    w' := w;
    b.totalLen := b.totalLen + v.len;
    Extend(b, b.last, v.len, k, x);
    if v.len > 0 {
      w' := b.AdvanceLastWithData(w);
      if k > w + 1 {
        assert b.parts[w + 1] == [];
        Stale(b, w, k);
      }
    } else {
      assert x == [] && old(b.parts)[k] + x == old(b.parts)[k];
      assert b.parts == old(b.parts);
    }
  }

  /** `evbuffer_reserve_space` for two vectors or more. */
  method Reserve(b: Buffer, size: nat, n: nat, memory: bool, ghost w: nat, ghost rooms: seq<nat>, ghost sizes: seq<nat>)
    returns (ok: bool, vecs: seq<Vec>, ghost w': nat, ghost rooms': seq<nat>)
    requires Shape(b, w) && RoomsOk(b.chains, rooms) && SizesOk(b.chains, sizes) && n >= 2
    modifies b, b.chains
    ensures Shape(b, w') && RoomsOk(b.chains, rooms') && Flat(b.parts) == old(Flat(b.parts))
    ensures b.OldOrNew(old(b.chains))
    ensures memory ==> ok
    ensures ok ==>
              && b.chains != []
              && |vecs| <= n
              && VecsOk(b.chains, rooms', FirstRoom(rooms', w'), vecs)
              && Sum(Lengths(vecs)) >= size
    ensures ok && Grows(old(b.chains), w, n, sizes, size) ==> w' == w && OneMore(b, old(b.chains), old(b.parts))
  {
    vecs := [];
    ok, w', rooms' := ExpandFast(b, size, n, memory, w, rooms, sizes);
    if ok {
      vecs := SetupVecs(b, size, n, false, w', rooms');
    }
  }

  /** The user may commit the first few of the vectors, and less of each than was reserved. */
  lemma FewerAndShorter(cs: seq<Chain>, rooms: seq<nat>, f: nat, vecs: seq<Vec>, used: seq<Vec>)
    requires VecsOk(cs, rooms, f, vecs) && |used| <= |vecs|
    requires forall i :: 0 <= i < |used| ==> used[i] == vecs[i].(len := used[i].len) && used[i].len <= vecs[i].len
    ensures VecsOk(cs, rooms, f, used)
  {
    forall i: nat | i < |used|
      ensures VecAt(cs, rooms, f, used, i)
    {
      assert VecAt(cs, rooms, f, vecs, i);
    }
  }

  /** The vector is the space of the last chunk, or the start of it. */
  predicate AtLast(b: Buffer, v: Vec)
    reads b`last, b.last
  {
    b.last != null && v.chain == b.last && v.at == b.last.misalign + b.last.off
  }

  /** One vector, which fits the space of the last chunk. */
  predicate OnlyLast(b: Buffer, vecs: seq<Vec>)
    reads b`last, b.last
  {
    |vecs| == 1 && AtLast(b, vecs[0]) && vecs[0].len <= |b.last.mem| - b.last.misalign - b.last.off
  }

  /** `evbuffer_commit_space`, given vectors that start where the space of the chunks does from the first one
      with space on: exactly the bytes that stand there are appended, and `last_with_datap` is right. It
      refuses vectors that are too long or lie elsewhere, except for one that lies in the last chunk. */
  method Commit(b: Buffer, vecs: seq<Vec>, ghost w: nat, ghost rooms: seq<nat>) returns (ok: bool, ghost w': nat)
    requires Shape(b, w) && RoomsOk(b.chains, rooms)
    modifies b`parts, b`lwdOwner, b`totalLen, b.chains`off
    ensures ok <==> old(OnlyLast(b, vecs)) || old(VecsOk(b.chains, rooms, FirstRoom(rooms, w), vecs))
    ensures old(VecsOk(b.chains, rooms, FirstRoom(rooms, w), vecs)) ==>
              && Shape(b, w')
              && Flat(b.parts) == old(Flat(b.parts)) + old(Flat(BytesOf(b.chains, rooms, FirstRoom(rooms, w), vecs)))
    ensures old(OnlyLast(b, vecs)) ==>
              var v := vecs[0];
              && b.totalLen == |Flat(b.parts)|
              && Flat(b.parts) == old(Flat(b.parts)) + old(b.last.mem[v.at..v.at + v.len])
              && if v.len == 0 || |b.chains| <= w + 2 then Shape(b, w') else forall z: nat :: !Shape(b, z)
    ensures !ok ==> Shape(b, w) && b.parts == old(b.parts)
  {
    ok, w' := true, w;
    if vecs == [] {
      return;
    }
    if |vecs| == 1 && AtLast(b, vecs[0]) {
      assert vecs == [vecs[0]];
      ok, w' := TryLast(b, vecs[0], w, rooms);
      return;
    }
    ok, w' := CommitVecs(b, vecs, w, rooms);
  }

  /** The general case of `evbuffer_commit_space`, with two passes over the vectors. */
  method CommitVecs(b: Buffer, vecs: seq<Vec>, ghost w: nat, ghost rooms: seq<nat>) returns (ok: bool, ghost w': nat)
    requires Shape(b, w) && RoomsOk(b.chains, rooms) && vecs != []
    modifies b`parts, b`lwdOwner, b`totalLen, b.chains`off
    ensures ok <==> old(VecsOk(b.chains, rooms, FirstRoom(rooms, w), vecs))
    ensures ok ==>
              && Shape(b, w')
              && Flat(b.parts) == old(Flat(b.parts)) + old(Flat(BytesOf(b.chains, rooms, FirstRoom(rooms, w), vecs)))
    ensures !ok ==> Shape(b, w) && b.parts == old(b.parts)
  {
    ghost var f := FirstRoom(rooms, w);
    AtLastWithData(b, w);
    if b.Link(b.lwdOwner) == null {
      assert !VecAt(b.chains, rooms, f, vecs, 0);
      return false, w;
    }
    var owner, c := FirstSpace(b, w, rooms);
    ok := CheckVecs(b, c, vecs, w, f, rooms);
    w' := w;
    if ok {
      var added;
      ghost var bytes := BytesOf(b.chains, rooms, f, vecs);
      added, w' := CommitAll(b, vecs, owner, w, f, bytes);
      b.totalLen := b.totalLen + added;
    }
  }

  /** The case of `evbuffer_commit_space` for one vector in the last chunk. */
  method TryLast(b: Buffer, v: Vec, ghost w: nat, ghost rooms: seq<nat>) returns (ok: bool, ghost w': nat)
    requires Shape(b, w) && RoomsOk(b.chains, rooms) && b.chains != [] && AtLast(b, v)
    modifies b`parts, b`lwdOwner, b`totalLen, b.chains`off
    ensures ok <==> old(v.len <= |b.last.mem| - b.last.misalign - b.last.off)
    ensures !ok ==> Shape(b, w) && b.parts == old(b.parts) && !old(VecsOk(b.chains, rooms, FirstRoom(rooms, w), [v]))
    ensures ok ==> b.totalLen == |Flat(b.parts)|
    ensures ok ==> Flat(b.parts) == old(Flat(b.parts)) + old(b.last.mem[v.at..v.at + v.len])
    ensures ok ==> if v.len == 0 || |b.chains| <= w + 2 then Shape(b, w') else forall z: nat :: !Shape(b, z)
    ensures old(VecsOk(b.chains, rooms, FirstRoom(rooms, w), [v])) ==>
              && Shape(b, w')
              && Flat(b.parts) == old(Flat(b.parts)) + old(Flat(BytesOf(b.chains, rooms, FirstRoom(rooms, w), [v])))
  {
    w' := w;
    ghost var k, f := |b.chains| - 1, FirstRoom(rooms, w);
    assert RoomAt(b.chains, rooms, k) && Node(b.chains, b.parts, k);
    ok := v.len <= |b.last.mem| - b.last.misalign - b.last.off;
    if VecsOk(b.chains, rooms, f, [v]) {
      assert VecAt(b.chains, rooms, f, [v], 0);
      assert f < k ==> Apart(b.chains, f, k);
      OneBytes(b.chains, rooms, f, v);
    }
    if ok {
      w' := CommitLast(b, v, w, b.last.mem[v.at..v.at + v.len]);
    }
  }

  lemma OneBytes(cs: seq<Chain>, rooms: seq<nat>, f: nat, v: Vec)
    requires RoomsOk(cs, rooms) && VecsOk(cs, rooms, f, [v])
    ensures f < |cs| && v.at + v.len <= |cs[f].mem| && Flat(BytesOf(cs, rooms, f, [v])) == cs[f].mem[v.at..v.at + v.len]
  {
    var bytes := BytesOf(cs, rooms, f, [v]);
    assert CoverAt(cs, f, [v], bytes, 0);
    assert bytes == [bytes[0]];
    FlatLast([], bytes[0]);
    assert [] + [bytes[0]] == [bytes[0]];
  }

  // ---------- Adding ----------

  /** The first chunk without data, from the one that `last_with_datap` points at on. */
  function FirstEmpty(parts: seq<string>, w: nat): (v: nat)
    requires w <= |parts|
    ensures w <= v <= |parts| && (v < |parts| ==> parts[v] == []) && forall i :: w <= i < v ==> parts[i] != []
    decreases |parts| - w
  {
    if w < |parts| && parts[w] != [] then FirstEmpty(parts, w + 1) else w
  }

  /** The victim search of `evbuffer_chain_insert`: the link to the first empty chunk, or to the end. */
  method FindVictim(b: Buffer, ghost w: nat) returns (owner: Chain?, ghost v: nat)
    requires b.Linked() && w < |b.chains| && b.lwdOwner == b.OwnerAt(w)
    ensures v == FirstEmpty(b.parts, w) && owner == b.OwnerAt(v)
    ensures b.Link(owner) == (if v < |b.chains| then b.chains[v] else null)
  {
    owner, v := b.lwdOwner, w;
    LinkAt(b, v);
    while b.Link(owner) != null && b.Link(owner).off != 0
      invariant w <= v <= |b.chains| && owner == b.OwnerAt(v) && FirstEmpty(b.parts, v) == FirstEmpty(b.parts, w)
      invariant b.Link(owner) == (if v < |b.chains| then b.chains[v] else null)
      decreases |b.chains| - v
    {
      assert Node(b.chains, b.parts, v);
      owner := b.Link(owner);
      v := v + 1;
      LinkAt(b, v);
    }
    assert v < |b.chains| ==> Node(b.chains, b.parts, v);
  }

  lemma LinkAt(b: Buffer, i: nat)
    requires b.Linked() && i <= |b.chains|
    ensures b.Link(b.OwnerAt(i)) == if i < |b.chains| then b.chains[i] else null
  {
    assert i > 0 ==> Node(b.chains, b.parts, i - 1);
  }

  /** Chunk `c` takes the place of chunk `v` and of all behind it. */
  method ReplaceFrom(b: Buffer, owner: Chain?, c: Chain, ghost v: nat)
    requires b.Linked() && v < |b.chains| && owner == b.OwnerAt(v) && c !in b.chains && c.Fits() && c.next == null
    modifies b`first, b`last, b`chains, b`parts, if owner == null then {} else {owner}
    ensures b.Linked() && b.chains == old(b.chains)[..v] + [c] && b.parts == old(b.parts)[..v] + [c.Data()]
  {
    if owner == null {
      b.MakeOnly(c);
    } else {
      ghost var cs, ps := b.chains, b.parts;
      CutList(owner, cs, ps, v);
      JoinLists(owner, c, cs[..v], ps[..v], [c], [c.Data()]);
      b.last := c;
      b.chains, b.parts := cs[..v] + [c], ps[..v] + [c.Data()];
    }
  }

  /** `evbuffer_chain_insert` of a chunk with data. A chunk that replaces others does not move
      `last_with_datap`. */
  method Insert(b: Buffer, c: Chain, ghost w: nat) returns (ghost w': nat)
    requires b.Linked() && w < |b.chains| && b.lwdOwner == b.OwnerAt(w)
    requires c !in b.chains && c.Fits() && c.next == null && c.off > 0
    modifies b, b.chains
    ensures b.Linked() && b.totalLen == old(b.totalLen) + c.off
    ensures var v := FirstEmpty(old(b.parts), w);
      && b.chains == old(b.chains)[..v] + [c] && b.parts == old(b.parts)[..v] + [c.Data()]
      && w' == (if v == |old(b.chains)| then v else w) && b.lwdOwner == b.OwnerAt(w')
  {
    var owner, v := FindVictim(b, w);
    w' := w;
    if b.Link(owner) == null {
      b.lwdOwner := b.last;
      w' := v;
      assert b.last in b.chains;
      b.LinkLast(c);
      assert old(b.chains)[..v] == old(b.chains) && old(b.parts)[..v] == old(b.parts);
    } else {
      assert owner != null ==> owner in b.chains;
      ReplaceFrom(b, owner, c, v);
    }
    b.totalLen := b.totalLen + c.off;
  }

  /** The bytes are in the last chunk; `last_with_datap` has not been moved. */
  method AddToLast(b: Buffer, data: string, ghost w: nat)
    requires Shape(b, w) && b.chains != [] && b.last.misalign + b.last.off + |data| <= |b.last.mem|
    modifies b`totalLen, b`parts, b.last`mem, b.last`off
    ensures b.Linked() && b.totalLen == |Flat(b.parts)| && Flat(b.parts) == old(Flat(b.parts)) + data
    ensures b.parts == old(b.parts)[|b.chains| - 1 := old(b.parts)[|b.chains| - 1] + data]
    ensures if data == [] || w == |b.chains| - 1 then Shape(b, w) else forall z: nat :: !Shape(b, z)
  {
    ghost var k := |b.chains| - 1;
    assert Node(b.chains, b.parts, k);
    FlatGrow(b.parts, k, data);
    b.last.Write(data);
    b.totalLen := b.totalLen + |data|;
    b.parts := b.parts[k := b.parts[k] + data];
    b.OnlyChunk(k);
    if data == [] {
      assert old(b.parts)[k] + data == old(b.parts)[k];
      assert b.parts == old(b.parts);
    } else if w < k {
      Stale(b, w, k);
    }
  }

  /** What `evbuffer_add` asks of a buffer that ends in empty chunks, when the data need another chunk and
      `remain` bytes of them fit the last one: it is the only chunk without data and takes some of them, or
      there are no data at all and it takes none. */
  predicate NewChunkRight(parts: seq<string>, w: nat, remain: int)
    requires w < |parts|
  {
    w == |parts| - 1 || if parts[w] == [] then remain == 0 else |parts| == w + 2 && remain > 0
  }

  /** The chunk with the first of the data is freed. */
  predicate Loses(parts: seq<string>, w: nat, remain: int)
    requires w < |parts|
  {
    w < |parts| - 1 && remain > 0 && !(parts[w] != [] && |parts| == w + 2)
  }

  /** The parts after a new chunk with `rest` has been put behind the chunk that took `fits`. */
  ghost function PartsAfter(parts: seq<string>, w: nat, fits: string, rest: string): seq<string>
    requires w < |parts|
  {
    var k := |parts| - 1;
    var parts' := parts[k := parts[k] + fits];
    parts'[..FirstEmpty(parts', w)] + [rest]
  }

  /** Either no chunk without data is left, or the last one is freed with those before it. */
  lemma {:induction false} VictimOrLoss(parts: seq<string>, w: nat, fits: string)
    requires LastWithData(parts, w) && parts != []
    ensures var k := |parts| - 1; var v := FirstEmpty(parts[k := parts[k] + fits], w);
      if v == |parts| then !Loses(parts, w, |fits|) else Loses(parts, w, |fits|) || fits == []
  {
    var k := |parts| - 1;
    var parts' := parts[k := parts[k] + fits];
    var v := FirstEmpty(parts', w);
    assert w < k ==> parts'[w] == parts[w] && parts'[w + 1] == if w + 1 == k then fits else [];
    assert v < |parts| ==> parts'[v] == [];
  }

  lemma {:induction false} AfterBytes(parts: seq<string>, w: nat, fits: string, rest: string)
    requires LastWithData(parts, w) && parts != []
    ensures Flat(PartsAfter(parts, w, fits, rest))
         == Flat(parts) + (if Loses(parts, w, |fits|) then rest else fits + rest)
  {
    var k := |parts| - 1;
    var parts' := parts[k := parts[k] + fits];
    var v := FirstEmpty(parts', w);
    VictimOrLoss(parts, w, fits);
    FlatLast(parts'[..v], rest);
    if v == |parts| {
      FlatGrow(parts, k, fits);
      assert parts'[..v] == parts';
      Assoc(Flat(parts), fits, rest, fits + rest);
    } else {
      FlatFront(parts, w, v);
      assert parts'[..v] == parts[..v];
      assert fits == [] ==> fits + rest == rest;
    }
  }

  lemma FlatFront(parts: seq<string>, w: nat, v: nat)
    requires LastWithData(parts, w) && w <= v < |parts| && parts[v] == []
    ensures Flat(parts[..v]) == Flat(parts)
  {
    assert parts == parts[..v] + parts[v..];
    FlatAppend(parts[..v], parts[v..]);
    FlatEmpty(parts[v..]);
  }

  /** Where the data go, `last_with_datap` is right afterwards, and the bytes counted are there. */
  lemma {:induction false} AfterShape(parts: seq<string>, w: nat, fits: string, rest: string)
    requires LastWithData(parts, w) && parts != [] && rest != []
    ensures var k := |parts| - 1; var v := FirstEmpty(parts[k := parts[k] + fits], w);
      var w' := if v == |parts| then v else w; var after := PartsAfter(parts, w, fits, rest);
      && (NewChunkRight(parts, w, |fits|) ==> LastWithData(after, w') && !Loses(parts, w, |fits|))
      && (!NewChunkRight(parts, w, |fits|) ==> Loses(parts, w, |fits|) || w' < |after| - 1)
  {
    var k := |parts| - 1;
    var parts' := parts[k := parts[k] + fits];
    var v := FirstEmpty(parts', w);
    assert w < k && parts[w] != [] ==> parts'[w] != [] && parts'[w + 1] == if w + 1 == k then fits else [];
    assert w < k && parts[w] == [] ==> v == w;
  }

  lemma {:induction false} AfterAdd(b: Buffer, ps: seq<string>, w: nat, w': nat, fits: string, rest: string)
    requires LastWithData(ps, w) && ps != [] && rest != [] && b.Linked() && b.parts == PartsAfter(ps, w, fits, rest)
    requires w' <= |b.chains| && b.lwdOwner == b.OwnerAt(w') && b.totalLen == |Flat(ps)| + |fits| + |rest|
    requires var k := |ps| - 1; var v := FirstEmpty(ps[k := ps[k] + fits], w); w' == if v == |ps| then v else w
    ensures Flat(b.parts) == Flat(ps) + (if Loses(ps, w, |fits|) then rest else fits + rest)
    ensures if NewChunkRight(ps, w, |fits|) then Shape(b, w') else forall z: nat :: !Shape(b, z)
  {
    AfterBytes(ps, w, fits, rest);
    AfterShape(ps, w, fits, rest);
    if !NewChunkRight(ps, w, |fits|) && w' < |b.parts| - 1 {
      Stale(b, w', |b.parts| - 1);
    }
  }

  /** Fills the last chunk and puts `c` with the rest behind it. */
  method FillAndInsert(b: Buffer, fits: string, c: Chain, ghost rest: string, ghost w: nat) returns (ghost w': nat)
    requires Shape(b, w) && b.chains != [] && b.last.misalign + b.last.off + |fits| <= |b.last.mem| && rest != []
    requires c !in b.chains && c.Fits() && c.next == null && c.Data() == rest && c.off == |rest|
    modifies b, b.chains
    ensures Flat(b.parts) == old(Flat(b.parts)) + (if Loses(old(b.parts), w, |fits|) then rest else fits + rest)
    ensures b.totalLen == old(b.totalLen) + |fits| + |rest|
    ensures if NewChunkRight(old(b.parts), w, |fits|) then Shape(b, w') else forall z: nat :: !Shape(b, z)
  {
    assert b.last in b.chains;
    ghost var ps := b.parts;
    AddToLast(b, fits, w);
    w' := Insert(b, c, w);
    AfterAdd(b, ps, w, w', fits, rest);
  }

  /** The last branch of `evbuffer_add`: a new chunk for what does not fit the last one. */
  method AddAcross(b: Buffer, data: string, remain: nat, memory: bool, ghost w: nat) returns (ok: bool, ghost w': nat)
    requires Shape(b, w) && b.chains != [] && remain == |b.last.mem| - b.last.misalign - b.last.off < |data|
    modifies b, b.chains
    ensures (ok <==> memory) && (!ok ==> unchanged(b) && Shape(b, w))
    ensures ok ==>
              Flat(b.parts) == old(Flat(b.parts)) + (if Loses(old(b.parts), w, remain) then data[remain..] else data)
    ensures ok ==> b.totalLen == old(b.totalLen) + |data|
    ensures ok ==> if NewChunkRight(old(b.parts), w, remain) then Shape(b, w') else forall z: nat :: !Shape(b, z)
  {
    w' := w;
    var fits, rest := data[..remain], data[remain..];
    assert fits + rest == data;
    var c := NewChainWith(Buffer.NextSize(|b.last.mem|, |data|), rest, memory);
    ok := c != null;
    if ok {
      w' := FillAndInsert(b, fits, c, rest, w);
    }
  }

  /** The data need another chunk, and `remain` bytes of them fit the last one. */
  predicate NeedsChunk(last: Chain, remain: int, datlen: nat)
    reads last
  {
    remain == |last.mem| - last.misalign - last.off < datlen && !last.ShouldRealign(datlen)
  }

  /** Exactly when `evbuffer_add`, given the memory, appends the bytes and leaves `last_with_datap` right. */
  ghost predicate AddsRight(b: Buffer, w: nat, datlen: nat)
    requires Shape(b, w)
    reads b, b.chains, b.last
  {
    datlen == 0 || b.last == null || w == |b.parts| - 1 ||
    var remain := |b.last.mem| - b.last.misalign - b.last.off;
    NeedsChunk(b.last, remain, datlen) && NewChunkRight(b.parts, w, remain)
  }

  /** The first of the data go to a chunk that is then freed, though `total_len` counts them. */
  ghost predicate AddLoses(b: Buffer, w: nat, datlen: nat)
    requires Shape(b, w)
    reads b, b.chains, b.last
  {
    b.last != null &&
    var remain := |b.last.mem| - b.last.misalign - b.last.off;
    NeedsChunk(b.last, remain, datlen) && Loses(b.parts, w, remain)
  }

  lemma LastFits(b: Buffer, w: nat)
    requires Shape(b, w)
    ensures b.last != null ==> b.last in b.chains && b.last.Fits()
  {
    if b.chains != [] {
      assert Node(b.chains, b.parts, |b.chains| - 1);
    }
  }

  /** `evbuffer_add` on a buffer that may end in empty chunks, all branches. Given the memory, it appends the
      data unless `AddLoses`, and `last_with_datap` is right afterwards exactly if `AddsRight`. */
  method Add(b: Buffer, data: string, memory: bool, ghost w: nat) returns (ok: bool, ghost w': nat)
    requires Shape(b, w)
    modifies b, b.chains
    ensures ok <==> memory || old(b.LastTakes(|data|))
    ensures !ok ==> Shape(b, w) && Flat(b.parts) == old(Flat(b.parts))
    ensures ok ==> if old(AddLoses(b, w, |data|)) then |Flat(b.parts)| < b.totalLen
                   else Flat(b.parts) == old(Flat(b.parts)) + data
    ensures ok ==> b.totalLen == old(b.totalLen) + |data|
    ensures ok ==> if old(AddsRight(b, w, |data|)) then Shape(b, w') else forall z: nat :: !Shape(b, z)
  {
    w' := w;
    if b.last == null {
      ok, w' := AddFirst(b, data, memory, w);
      return;
    }
    LastFits(b, w);
    var remain := |b.last.mem| - b.last.misalign - b.last.off;
    ok := true;
    if remain >= |data| {
      AddToLast(b, data, w);
    } else if b.last.ShouldRealign(|data|) {
      AlignEnd(b, w);
      AddToLast(b, data, w);
    } else {
      assert Loses(b.parts, w, remain) ==> |Flat(b.parts) + data[remain..]| < |Flat(b.parts) + data|;
      ok, w' := AddAcross(b, data, remain, memory, w);
    }
  }

  /** The first chunk of a buffer without any. */
  method AddFirst(b: Buffer, data: string, memory: bool, ghost w: nat) returns (ok: bool, ghost w': nat)
    requires Shape(b, w) && b.chains == []
    modifies b
    ensures (ok <==> memory) && (!ok ==> unchanged(b))
    ensures ok ==> Shape(b, w') && Flat(b.parts) == old(Flat(b.parts)) + data && b.totalLen == old(b.totalLen) + |data|
  {
    w' := 0;
    var c := NewChainWith(|data|, data, memory);
    ok := c != null;
    if ok {
      b.MakeOnly(c);
      b.totalLen := b.totalLen + |data|;
      FlatLast([], data);
      assert [] + [data] == [data];
    }
  }

  method AlignEnd(b: Buffer, ghost w: nat)
    requires Shape(b, w) && b.chains != []
    modifies b.last`mem, b.last`misalign
    ensures Shape(b, w) && b.last.misalign == 0 && b.last.off == old(b.last.off) && |b.last.mem| == old(|b.last.mem|)
  {
    ghost var k := |b.chains| - 1;
    assert Node(b.chains, b.parts, k);
    b.last.Align();
    b.OnlyChunk(k);
  }

  // ---------- Buffers that end in empty chunks ----------

  /** All the memory of the chunks. */
  method TotalMemory(b: Buffer, ghost w: nat) returns (n: nat, ghost sizes: seq<nat>)
    requires Shape(b, w)
    ensures SizesOk(b.chains, sizes) && n == Sum(sizes)
  {
    var c := b.first;
    ghost var k := 0;
    n, sizes := 0, [];
    while c != null
      invariant k <= |b.chains| && c == (if k < |b.chains| then b.chains[k] else null) && |sizes| == k
      invariant n == Sum(sizes)
      invariant forall i: nat :: i < k ==> |b.chains[i].mem| == sizes[i]
      decreases |b.chains| - k
    {
      assert Node(b.chains, b.parts, k);
      SumSnoc(sizes, |c.mem|);
      sizes := sizes + [|c.mem|];
      n := n + |c.mem|;
      c := c.next;
      k := k + 1;
    }
  }

  /** A reservation of three vectors for more than all the memory there is adds an empty chunk. */
  method Grow(b: Buffer, ghost w: nat, ghost rooms: seq<nat>) returns (ghost rooms': seq<nat>)
    requires Shape(b, w) && RoomsOk(b.chains, rooms) && b.chains != [] && |b.chains| < w + 3
    modifies b, b.chains
    ensures b.OldOrNew(old(b.chains)) && Flat(b.parts) == old(Flat(b.parts))
    ensures Shape(b, w) && RoomsOk(b.chains, rooms') && OneMore(b, old(b.chains), old(b.parts))
  {
    var n, sizes := TotalMemory(b, w);
    var ok, vecs;
    ghost var w';
    ok, vecs, w', rooms' := Reserve(b, n + 1, 3, true, w, rooms, sizes);
  }

  method OneByteBuffer() returns (b: Buffer, ghost rooms: seq<nat>)
    ensures fresh(b) && (forall c :: c in b.chains ==> fresh(c))
    ensures Shape(b, 0) && b.parts == ["a"] && Flat(b.parts) == "a" && RoomsOk(b.chains, rooms)
  {
    b := BufferWith("a");
    assert Node(b.chains, b.parts, 0);
    rooms := [Space(b.chains[0])];
    assert RoomAt(b.chains, rooms, 0);
  }

  /** One byte and two such reservations: two empty chunks at the end. */
  method TwoEmptyChunks() returns (b: Buffer)
    ensures fresh(b) && (forall c :: c in b.chains ==> fresh(c))
    ensures Shape(b, 0) && b.parts == ["a", [], []] && Flat(b.parts) == "a" && b.last.misalign == 0
  {
    ghost var rooms;
    b, rooms := OneByteBuffer();
    assert forall i :: 0 <= i < |b.chains| ==> b.chains[i] in b.chains;
    rooms := Grow(b, 0, rooms);
    assert forall i :: 0 <= i < |b.chains| ==> b.chains[i] in b.chains;
    rooms := Grow(b, 0, rooms);
  }

  /** There `evbuffer_add` of more than the last chunk holds loses the bytes that it puts into that chunk. */
  method AddThere() returns (b: Buffer, data: string)
    ensures b.totalLen > |Flat(b.parts)| && Flat(b.parts) != "a" + data && forall z: nat :: !Shape(b, z)
  {
    b := TwoEmptyChunks();
    LastFits(b, 0);
    assert Node(b.chains, b.parts, 2);
    data := seq(|b.last.mem| + 1, _ => 'b');
    assert forall i :: 0 <= i < |b.chains| ==> b.chains[i] in b.chains;
    var ok;
    ghost var w;
    ok, w := Add(b, data, true, 0);
  }

  /** There a byte committed to the last chunk leaves `last_with_datap` behind. */
  method CommitThere() returns (b: Buffer)
    ensures |Flat(b.parts)| == 2 && forall z: nat :: !Shape(b, z)
  {
    b := TwoEmptyChunks();
    assert Node(b.chains, b.parts, 2);
    assert forall i :: 0 <= i < |b.chains| ==> b.chains[i] in b.chains;
    var v := Vec(b.last, b.last.misalign + b.last.off, 1);
    ghost var x := b.last.mem[v.at..v.at + v.len];
    ghost var w := CommitLast(b, v, 0, x);
  }
}
