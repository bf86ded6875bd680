/** Searching and reading lines in a chunked buffer, by comparison with the plain string. */
module EvBufferSearch {
  import opened EvBuffer

  /** `evbuffer_ptr`: a position and the place in the chunks it stands for. */
  datatype Ptr = Ptr(pos: int, chain: Chain?, inChain: nat)

  /** The optional end of a search. */
  datatype End = None | Some(ptr: Ptr) {
    ghost function Limit(): int {
      if Some? then ptr.pos else -1
    }
  }

  datatype EolStyle = Any | CrLf | CrLfStrict | Lf

  const NOT_FOUND: Ptr := Ptr(-1, null, 0)

  /** `what` occurs in `s` at `i`. */
  predicate Occurs(s: string, what: string, i: nat) {
    i + |what| <= |s| && s[i..i + |what|] == what
  }

  lemma OccursFirst(s: string, what: string, i: nat)
    requires what != [] && Occurs(s, what, i)
    ensures i < |s| && s[i] == what[0]
  {
  }

  /** Byte `j` of part `k` in the concatenation. */
  lemma FlatIndex(parts: seq<string>, k: nat, j: nat)
    requires k < |parts| && j < |parts[k]|
    ensures |Flat(parts[..k])| + j < |Flat(parts)| && Flat(parts)[|Flat(parts[..k])| + j] == parts[k][j]
  {
    FlatSplit(parts, k);
  }

  /** The byte at `j` in chunk `k` is byte `p` of the buffer; `k` is the number of chunks at the end. */
  ghost predicate At(parts: seq<string>, k: nat, j: nat, p: nat) {
    && k <= |parts| && p == |Flat(parts[..k])| + j
    && (if k < |parts| then j <= |parts[k]| else j == 0)
  }

  /** `memchr` from index `i` on; the length of `s` when there is none. */
  method IndexOf(s: string, ch: char, i: nat) returns (r: nat)
    requires i <= |s|
    ensures i <= r <= |s| && (r < |s| ==> s[r] == ch) && forall j :: i <= j < r ==> s[j] != ch
  {
    r := i;
    while r < |s| && s[r] != ch
      invariant i <= r <= |s| && forall j :: i <= j < r ==> s[j] != ch
    {
      r := r + 1;
    }
  }

  lemma SliceSlice(s: string, a: nat, b: nat, c: nat, d: nat)
    requires a <= b <= |s| && c <= d <= b - a
    ensures s[a..b][c..d] == s[a + c..a + d]
  {
    var x, y := s[a..b][c..d], s[a + c..a + d];
    assert |x| == |y| && forall i :: 0 <= i < |x| ==> x[i] == y[i];
  }

  /** A stretch of one chunk is a stretch of the buffer. */
  lemma ChunkSlice(parts: seq<string>, k: nat, j: nat, n: nat, p: nat)
    requires k < |parts| && At(parts, k, j, p) && j + n <= |parts[k]|
    ensures p + n <= |Flat(parts)| && Flat(parts)[p..p + n] == parts[k][j..j + n]
  {
    FlatSplit(parts, k);
  }

  /** The first `n` bytes of `mem` occur in `s` at `p`. */
  ghost predicate Agree(s: string, mem: string, p: nat, n: nat) {
    n <= |mem| && p + n <= |s| && forall i :: 0 <= i < n ==> s[p + i] == mem[i]
  }

  lemma AgreeAll(s: string, mem: string, p: nat)
    ensures Agree(s, mem, p, |mem|) <==> Occurs(s, mem, p)
  {
  }

  lemma AgreeSlice(s: string, mem: string, p: nat, done: nat, n: nat)
    requires Agree(s, mem, p, done + n)
    ensures s[p + done..p + done + n] == mem[done..done + n]
  {
    var x, y := s[p + done..p + done + n], mem[done..done + n];
    forall i | 0 <= i < n
      ensures x[i] == y[i]
    {
      assert x[i] == s[p + (done + i)] && y[i] == mem[done + i];
    }
  }

  /** Comparing `mem` with `s` at `p` piece by piece. */
  lemma Extend(s: string, mem: string, p: nat, done: nat, n: nat)
    requires Agree(s, mem, p, done) && done + n <= |mem| && p + |mem| <= |s|
    ensures s[p + done..p + done + n] == mem[done..done + n] <==> Agree(s, mem, p, done + n)
  {
    var x, y := s[p + done..p + done + n], mem[done..done + n];
    if x == y {
      forall i | done <= i < done + n
        ensures s[p + i] == mem[i]
      {
        assert x[i - done] == s[p + i] && y[i - done] == mem[i];
      }
    } else if Agree(s, mem, p, done + n) {
      AgreeSlice(s, mem, p, done, n);
    }
  }

  /** Moving on to the next chunk keeps the position. */
  lemma NextChunk(parts: seq<string>, k: nat, j: nat, p: nat)
    requires k < |parts| && At(parts, k, j, p)
    ensures At(parts, k + 1, 0, p + |parts[k]| - j)
  {
    FlatNext(parts, k);
  }

  lemma AtEnd(parts: seq<string>, p: nat)
    requires At(parts, |parts|, 0, p)
    ensures p == |Flat(parts)|
  {
    assert parts[..|parts|] == parts;
  }

  /** The chunks are in order and counted; empty chunks may stand anywhere. */
  ghost predicate Readable(b: Buffer)
    reads b, b.chains
  {
    b.Linked() && b.totalLen == |Flat(b.parts)|
  }

  ghost function Bytes(b: Buffer): string
    reads b`parts
  {
    Flat(b.parts)
  }

  /** Where a pointer stands; `k` counts the chunks before it. */
  ghost predicate PtrAt(b: Buffer, ptr: Ptr, k: nat)
    reads b`parts, b`chains
  {
    && ptr.pos >= 0 && At(b.parts, k, ptr.inChain, ptr.pos) && |b.chains| == |b.parts|
    && ptr.chain == (if k < |b.chains| then b.chains[k] else null)
  }

  /** The `memcmp` of one stretch of a chunk. */
  method Compare(c: Chain, position: nat, mem: string, done: nat, n: nat) returns (same: bool)
    requires c.Fits() && position + n <= c.off && done + n <= |mem|
    ensures same <==> c.Data()[position..position + n] == mem[done..done + n]
  {
    SliceSlice(c.mem, c.misalign, c.misalign + c.off, position, position + n);
    same := c.mem[c.misalign + position..c.misalign + position + n] == mem[done..done + n];
  }

  lemma AgreeChunk(parts: seq<string>, k: nat, j: nat, n: nat, p: nat, mem: string, done: nat)
    requires k < |parts| && At(parts, k, j, p + done) && j + n <= |parts[k]|
    requires Agree(Flat(parts), mem, p, done) && done + n <= |mem| && p + |mem| <= |Flat(parts)|
    ensures parts[k][j..j + n] == mem[done..done + n] <==> Agree(Flat(parts), mem, p, done + n)
  {
    ChunkSlice(parts, k, j, n, p + done);
    Extend(Flat(parts), mem, p, done, n);
  }

  /** `evbuffer_ptr_memcmp` against 0: do the bytes at `ptr` equal `mem`? */
  method PtrMemcmp(b: Buffer, ptr: Ptr, mem: string, ghost k0: nat) returns (same: bool)
    requires Readable(b) && PtrAt(b, ptr, k0)
    ensures same <==> Occurs(Bytes(b), mem, ptr.pos)
  {
    AgreeAll(Bytes(b), mem, ptr.pos);
    if ptr.pos + |mem| > b.totalLen {
      return false;
    }
    var c := ptr.chain;
    var position: nat, done: nat := ptr.inChain, 0;
    ghost var k := k0;
    while done < |mem| && c != null
      invariant done <= |mem| && k <= |b.chains| && c == (if k < |b.chains| then b.chains[k] else null)
      invariant done < |mem| ==> At(b.parts, k, position, ptr.pos + done)
      invariant Agree(Bytes(b), mem, ptr.pos, done)
      decreases |b.chains| - k
    {
      assert Node(b.chains, b.parts, k);
      var left := |mem| - done;
      var n := if left + position > c.off then c.off - position else left;
      AgreeChunk(b.parts, k, position, n, ptr.pos, mem, done);
      same := Compare(c, position, mem, done, n);
      if !same {
        return;
      }
      NextChunk(b.parts, k, position, ptr.pos + done);
      done := done + n;
      position := 0;
      c := c.next;
      k := k + 1;
    }
    if done < |mem| {
      AtEnd(b.parts, ptr.pos + done);
    }
    same := true;
  }

  /** `evbuffer_ptr_set`: moves `ptr` on by `n` bytes from where it stands (from the start of the
      buffer for EVBUFFER_PTR_SET); it fails exactly when that is not before the last byte. */
  method PtrSet(b: Buffer, ptr: Ptr, n: nat, add: bool, ghost k0: nat) returns (r: Ptr, ghost k: nat)
    requires Readable(b) && (add ==> PtrAt(b, ptr, k0))
    ensures r.pos >= 0 <==> (if add then ptr.pos else 0) + n < |Bytes(b)|
    ensures r.pos >= 0 ==> PtrAt(b, r, k) && r.pos == (if add then ptr.pos else 0) + n && r.chain != null
    ensures r.pos < 0 ==> r.pos == -1 && r.chain == null
  {
    var c := if add then ptr.chain else b.first;
    var position: nat, left: nat := if add then ptr.inChain else 0, n;
    var pos := (if add then ptr.pos else 0) + n;
    k := if add then k0 else 0;
    while c != null && position + left >= c.off
      invariant k <= |b.chains| && c == (if k < |b.chains| then b.chains[k] else null)
      invariant left <= pos && At(b.parts, k, position, pos - left)
      decreases |b.chains| - k
    {
      assert Node(b.chains, b.parts, k);
      NextChunk(b.parts, k, position, pos - left);
      left := left - (c.off - position);
      c := c.next;
      position := 0;
      k := k + 1;
    }
    if c != null {
      assert Node(b.chains, b.parts, k);
      FlatIndex(b.parts, k, position + left);
      r := Ptr(pos, c, position + left);
    } else {
      AtEnd(b.parts, pos - left);
      r := Ptr(-1, null, if add then ptr.inChain else 0);
    }
  }

  /** No character of part `k` from `j` up to `r` starts `what`. */
  lemma SkipTo(parts: seq<string>, k: nat, j: nat, r: nat, p: nat, what: string)
    requires k < |parts| && At(parts, k, j, p) && j <= r <= |parts[k]| && what != []
    requires forall x :: j <= x < r ==> parts[k][x] != what[0]
    ensures At(parts, k, r, p + r - j)
    ensures forall i: nat :: p <= i < p + r - j ==> !Occurs(Flat(parts), what, i)
  {
    forall i: nat | p <= i < p + r - j
      ensures !Occurs(Flat(parts), what, i)
    {
      FlatIndex(parts, k, j + i - p);
      if Occurs(Flat(parts), what, i) {
        OccursFirst(Flat(parts), what, i);
      }
    }
  }

  /** `memchr` in the data of a chunk. */
  method Memchr(c: Chain, ch: char, i: nat) returns (r: nat)
    requires c.Fits() && i <= c.off
    ensures i <= r <= c.off && (r < c.off ==> c.Data()[r] == ch) && forall j :: i <= j < r ==> c.Data()[j] != ch
  {
    r := IndexOf(c.mem[c.misalign..c.misalign + c.off], ch, i);
  }

  /** A match that starts at `i` and ends before `end`, when there is one. */
  ghost predicate Match(s: string, what: string, end: int, i: nat) {
    Occurs(s, what, i) && (end >= 0 ==> i + |what| <= end)
  }

  /** No match from `from` on starts before `to`. */
  ghost predicate NoneBefore(s: string, what: string, end: int, from: nat, to: nat) {
    forall i: nat :: from <= i < to ==> !Match(s, what, end, i)
  }

  /** `EV_SSIZE_MAX` where `ssize_t` has 32 bits. */
  const EV_SSIZE_MAX: nat := 0x7fff_ffff

  /** Nothing that starts behind the chunk of `end` ends before `end`. */
  lemma BehindEnd(b: Buffer, end: Ptr, ke: nat, k: nat, j: nat, p: nat, what: string)
    requires Readable(b) && PtrAt(b, end, ke) && k < |b.chains| && end.chain == b.chains[k]
    requires At(b.parts, k, j, p) && j == |b.parts[k]| && what != []
    ensures forall i: nat :: p <= i ==> !Match(Bytes(b), what, end.pos, i)
  {
    assert ke == k by {
      assert ke < k ==> Apart(b.chains, ke, k);
      assert k < ke < |b.chains| ==> Apart(b.chains, k, ke);
    }
  }

  /** One round of the search: either a match, or a pointer with no match behind it. */
  method SearchChunk(b: Buffer, c: Chain, ptr: Ptr, what: string, ghost end: int, ghost k: nat)
    returns (hit: bool, r: Ptr)
    requires Readable(b) && PtrAt(b, ptr, k) && k < |b.chains| && c == b.chains[k] && what != []
    ensures PtrAt(b, r, k) && ptr.pos <= r.pos && ptr.inChain <= r.inChain && r.chain == c
    ensures NoneBefore(Bytes(b), what, end, ptr.pos, r.pos)
    ensures if hit then r.inChain < c.off else r.inChain == c.off == |b.parts[k]|
  {
    assert Node(b.chains, b.parts, k);
    var at := Memchr(c, what[0], ptr.inChain);
    SkipTo(b.parts, k, ptr.inChain, at, ptr.pos, what);
    r := Ptr(ptr.pos + at - ptr.inChain, c, at);
    hit := at < c.off;
  }

  lemma NoneBeforeMore(s: string, what: string, end: int, from: nat, mid: nat, to: nat)
    requires NoneBefore(s, what, end, from, mid) && NoneBefore(s, what, end, mid, to)
    ensures NoneBefore(s, what, end, from, to)
  {
  }

  /** What the search has found at `r`, with nothing from `from` on before it. */
  ghost predicate Found(b: Buffer, what: string, end: int, from: nat, r: Ptr, k: nat)
    reads b`parts, b`chains
  {
    if r.pos >= 0 then
      && PtrAt(b, r, k) && from <= r.pos
      && Match(Bytes(b), what, end, r.pos) && NoneBefore(Bytes(b), what, end, from, r.pos)
    else
      r == NOT_FOUND && forall i: nat :: from <= i ==> !Match(Bytes(b), what, end, i)
  }

  lemma FoundFrom(b: Buffer, what: string, end: int, from: nat, mid: nat, r: Ptr, k: nat)
    requires Found(b, what, end, mid, r, k) && NoneBefore(Bytes(b), what, end, from, mid) && from <= mid
    ensures Found(b, what, end, from, r, k)
  {
  }

  /** The comparison at a place where the first byte is right: a match, one that ends too late, or none. */
  method TryHere(b: Buffer, ptr: Ptr, what: string, end: End, ghost k: nat) returns (done: bool, r: Ptr)
    requires Readable(b) && PtrAt(b, ptr, k) && what != [] && (end.Some? ==> end.ptr.pos >= 0)
    ensures done ==> Found(b, what, end.Limit(), ptr.pos, r, k)
    ensures !done ==>
              && r == ptr.(pos := ptr.pos + 1, inChain := ptr.inChain + 1)
              && NoneBefore(Bytes(b), what, end.Limit(), ptr.pos, r.pos)
  {
    done := PtrMemcmp(b, ptr, what, k);
    r := ptr;
    if !done {
      r := ptr.(pos := ptr.pos + 1, inChain := ptr.inChain + 1);
    } else if end.Some? && ptr.pos + |what| > end.ptr.pos {
      r := NOT_FOUND;
    }
  }

  /** One round of the loop of `evbuffer_search_range`. */
  method SearchOn(b: Buffer, c: Chain, ptr: Ptr, what: string, end: End, ghost k: nat, ghost ke: nat)
    returns (done: bool, r: Ptr)
    requires Readable(b) && PtrAt(b, ptr, k) && k < |b.chains| && c == b.chains[k] && what != []
    requires end.Some? ==> PtrAt(b, end.ptr, ke)
    ensures done ==> Found(b, what, end.Limit(), ptr.pos, r, k)
    ensures !done ==> PtrAt(b, r, k) && ptr.pos <= r.pos && NoneBefore(Bytes(b), what, end.Limit(), ptr.pos, r.pos)
    ensures !done ==> r.chain == c && (ptr.inChain < r.inChain || r.inChain == c.off) && c.off == |b.parts[k]|
  {
    assert Node(b.chains, b.parts, k);
    var hit: bool;
    hit, r := SearchChunk(b, c, ptr, what, end.Limit(), k);
    done := false;
    ghost var mid := r.pos;
    if hit {
      done, r := TryHere(b, r, what, end, k);
    } else if end.Some? && c == end.ptr.chain {
      BehindEnd(b, end.ptr, ke, k, r.inChain, r.pos, what);
      done, r := true, NOT_FOUND;
    }
    if done {
      FoundFrom(b, what, end.Limit(), ptr.pos, mid, r, k);
    } else {
      NoneBeforeMore(Bytes(b), what, end.Limit(), ptr.pos, mid, r.pos);
    }
  }

  /** `evbuffer_search_range`: the first match from `start` on that ends before `end`. */
  method SearchRange(b: Buffer, what: string, start: Ptr, end: End, ghost ks: nat, ghost ke: nat)
    returns (r: Ptr, ghost k: nat)
    requires Readable(b) && PtrAt(b, start, ks) && (end.Some? ==> PtrAt(b, end.ptr, ke))
    ensures what == [] || |what| > EV_SSIZE_MAX ==> r == start && k == ks
    ensures 0 < |what| <= EV_SSIZE_MAX ==> Found(b, what, end.Limit(), start.pos, r, k)
  {
    r, k := start, ks;
    if what == [] || |what| > EV_SSIZE_MAX {
      return;
    }
    var c := start.chain;
    while c != null
      invariant PtrAt(b, r, k) && start.pos <= r.pos && c == r.chain
      invariant NoneBefore(Bytes(b), what, end.Limit(), start.pos, r.pos)
      decreases |b.chains| - k, if k < |b.parts| then |b.parts[k]| - r.inChain else 0
    {
      ghost var from := r.pos;
      var done: bool;
      done, r := SearchOn(b, c, r, what, end, k, ke);
      if done {
        FoundFrom(b, what, end.Limit(), start.pos, from, r, k);
        return;
      }
      NoneBeforeMore(Bytes(b), what, end.Limit(), start.pos, from, r.pos);
      if r.inChain == c.off {
        assert Node(b.chains, b.parts, k);
        NextChunk(b.parts, k, r.inChain, r.pos);
        c := c.next;
        r := r.(chain := c, inChain := 0);
        k := k + 1;
      }
    }
    AtEnd(b.parts, r.pos);
    r := NOT_FOUND;
  }

  predicate IsEol(ch: char) {
    ch == '\r' || ch == '\n'
  }

  const CHUNK_SZ: nat := 128

  /** `find_eol_char`: looks for both characters in stretches of 128; the length of `s` when there
      is none. */
  method FindEolIn(s: string, i: nat) returns (r: nat)
    requires i <= |s|
    ensures i <= r <= |s| && (r < |s| ==> IsEol(s[r])) && forall j :: i <= j < r ==> !IsEol(s[j])
  {
    var at: nat := i;
    while at < |s|
      invariant i <= at && forall j :: i <= j < at && j < |s| ==> !IsEol(s[j])
    {
      var to := if at + CHUNK_SZ < |s| then at + CHUNK_SZ else |s|;
      var cr := IndexOf(s[..to], '\r', at);
      var lf := IndexOf(s[..to], '\n', at);
      if cr < to {
        return if lf < to && lf < cr then lf else cr;
      } else if lf < to {
        return lf;
      }
      at := at + CHUNK_SZ;
    }
    r := |s|;
  }

  /** The characters searched for: line feeds, or both end-of-line characters. */
  predicate Stop(isLf: bool, ch: char) {
    if isLf then ch == '\n' else IsEol(ch)
  }

  ghost predicate NoStop(s: string, isLf: bool, from: nat, to: nat) {
    forall i :: from <= i < to && i < |s| ==> !Stop(isLf, s[i])
  }

  lemma SkipStop(parts: seq<string>, k: nat, j: nat, r: nat, p: nat, isLf: bool)
    requires k < |parts| && At(parts, k, j, p) && j <= r <= |parts[k]|
    requires NoStop(parts[k], isLf, j, r)
    ensures At(parts, k, r, p + r - j) && NoStop(Flat(parts), isLf, p, p + r - j)
    ensures r < |parts[k]| ==> p + r - j < |Flat(parts)| && Flat(parts)[p + r - j] == parts[k][r]
  {
    if r < |parts[k]| {
      FlatIndex(parts, k, r);
    }
    forall i | p <= i < p + r - j
      ensures i < |Flat(parts)| && !Stop(isLf, Flat(parts)[i])
    {
      FlatIndex(parts, k, j + i - p);
    }
  }

  method ScanChunk(c: Chain, isLf: bool, i: nat) returns (r: nat)
    requires c.Fits() && i <= c.off
    ensures i <= r <= c.off && (r < c.off ==> Stop(isLf, c.Data()[r])) && NoStop(c.Data(), isLf, i, r)
  {
    var data := c.mem[c.misalign..c.misalign + c.off];
    if isLf {
      r := IndexOf(data, '\n', i);
    } else {
      r := FindEolIn(data, i);
    }
  }

  /** `evbuffer_find_eol_char` and, with `isLf`, `evbuffer_strchr` for a line feed: the two share
      their walk over the chunks. */
  method FindStop(b: Buffer, it: Ptr, isLf: bool, ghost ks: nat) returns (r: Ptr, ghost k: nat)
    requires Readable(b) && PtrAt(b, it, ks)
    ensures r.pos < 0 ==> r.pos == -1 && NoStop(Bytes(b), isLf, it.pos, |Bytes(b)|)
    ensures r.pos >= 0 ==>
      && PtrAt(b, r, k) && it.pos <= r.pos < |Bytes(b)| && r.chain != null && k < |b.chains| && r.inChain < |b.parts[k]|
      && Stop(isLf, Bytes(b)[r.pos]) && Bytes(b)[r.pos] == b.parts[k][r.inChain]
      && NoStop(Bytes(b), isLf, it.pos, r.pos)
  {
    r, k := it, ks;
    while r.chain != null
      invariant PtrAt(b, r, k) && it.pos <= r.pos && NoStop(Bytes(b), isLf, it.pos, r.pos)
      decreases |b.chains| - k
    {
      assert Node(b.chains, b.parts, k);
      var c := r.chain;
      var at := ScanChunk(c, isLf, r.inChain);
      SkipStop(b.parts, k, r.inChain, at, r.pos, isLf);
      r := r.(pos := r.pos + at - r.inChain, inChain := at);
      if at < c.off {
        return;
      }
      NextChunk(b.parts, k, at, r.pos);
      r := r.(chain := c.next, inChain := 0);
      k := k + 1;
    }
    AtEnd(b.parts, r.pos);
    r := r.(pos := -1);
  }

  /** How many end-of-line characters stand at `i`. */
  function Span(s: string, i: nat): (n: nat)
    ensures i <= |s| ==> i + n <= |s|
    decreases |s| - i
  {
    if i < |s| && IsEol(s[i]) then 1 + Span(s, i + 1) else 0
  }

  lemma {:induction false} SpanSplit(s: string, i: nat, n: nat)
    requires AllEol(s, i, i + n)
    ensures Span(s, i) == n + Span(s, i + n)
    decreases n
  {
    if n > 0 {
      SpanSplit(s, i + 1, n - 1);
    }
  }

  ghost predicate AllEol(s: string, i: nat, j: nat) {
    j <= |s| && forall x :: i <= x < j ==> IsEol(s[x])
  }

  /** The inner loop of `evbuffer_strspn`. */
  method SpanChunk(c: Chain, i: nat) returns (j: nat)
    requires c.Fits() && i <= c.off
    ensures i <= j <= c.off && AllEol(c.Data(), i, j) && (j < c.off ==> !IsEol(c.Data()[j]))
  {
    j := i;
    while j < c.off && IsEol(c.mem[c.misalign + j])
      invariant i <= j <= c.off && AllEol(c.Data(), i, j)
    {
      assert c.Data()[j] == c.mem[c.misalign + j];
      j := j + 1;
    }
  }

  /** The `n` characters from `i` on are a run of end-of-line characters, or the start of one. */
  ghost predicate Spanned(s: string, i: nat, n: nat) {
    Span(s, i) == n + Span(s, i + n)
  }

  lemma SpanMore(s: string, i: nat, n: nat, m: nat)
    requires Spanned(s, i, n) && AllEol(s, i + n, i + n + m)
    ensures Spanned(s, i, n + m)
  {
    SpanSplit(s, i + n, m);
  }

  lemma SpanEnds(s: string, i: nat, n: nat)
    requires Spanned(s, i, n) && (i + n < |s| ==> !IsEol(s[i + n]))
    ensures Span(s, i) == n
  {
  }

  /** A run in part `k` is one of the whole string. */
  lemma AllEolInPart(parts: seq<string>, k: nat, i: nat, j: nat, p: nat)
    requires k < |parts| && At(parts, k, i, p) && i <= j && AllEol(parts[k], i, j)
    ensures At(parts, k, j, p + j - i) && p + j - i <= |Flat(parts)| && AllEol(Flat(parts), p, p + j - i)
    ensures j < |parts[k]| ==> p + j - i < |Flat(parts)| && Flat(parts)[p + j - i] == parts[k][j]
  {
    ChunkSlice(parts, k, i, j - i, p);
    forall y | p <= y < p + j - i
      ensures IsEol(Flat(parts)[y])
    {
      FlatIndex(parts, k, i + (y - p));
    }
    if j < |parts[k]| {
      FlatIndex(parts, k, j);
    }
  }

  /** The run goes on over part `k` from `i` to `j`, and ends there unless that is the end of the part. */
  lemma SpanOver(parts: seq<string>, k: nat, i: nat, j: nat, start: nat, n: nat, m: nat)
    requires k < |parts| && At(parts, k, i, start + n) && i <= j && AllEol(parts[k], i, j)
    requires Spanned(Flat(parts), start, n) && m == n + (j - i)
    ensures At(parts, k, j, start + m) && Spanned(Flat(parts), start, m)
    ensures j < |parts[k]| && !IsEol(parts[k][j]) ==> Span(Flat(parts), start) == m
    ensures j == |parts[k]| ==>
              if k + 1 < |parts| then At(parts, k + 1, 0, start + m) else Span(Flat(parts), start) == m
  {
    AllEolInPart(parts, k, i, j, start + n);
    SpanMore(Flat(parts), start, n, j - i);
    if j < |parts[k]| && !IsEol(parts[k][j]) {
      SpanEnds(Flat(parts), start, m);
    } else if j == |parts[k]| {
      NextChunk(parts, k, j, start + m);
      if k + 1 == |parts| {
        AtEnd(parts, start + m);
        SpanEnds(Flat(parts), start, m);
      }
    }
  }

  /** `evbuffer_strspn` with the set of both end-of-line characters. */
  method StrSpn(b: Buffer, it: Ptr, ghost ks: nat) returns (count: int)
    requires Readable(b) && PtrAt(b, it, ks)
    ensures count == if it.chain == null then -1 else Span(Bytes(b), it.pos)
  {
    if it.chain == null {
      return -1;
    }
    var c: Chain, i: nat := it.chain, it.inChain;
    ghost var k := ks;
    count := 0;
    while true
      invariant k < |b.chains| && c == b.chains[k] && count >= 0 && At(b.parts, k, i, it.pos + count)
      invariant Spanned(Bytes(b), it.pos, count)
      decreases |b.chains| - k
    {
      assert Node(b.chains, b.parts, k);
      var j := SpanChunk(c, i);
      SpanOver(b.parts, k, i, j, it.pos, count, count + (j - i));
      count := count + (j - i);
      if j < c.off {
        return;
      }
      i := 0;
      if c.next == null {
        return;
      }
      c := c.next;
      k := k + 1;
    }
  }

  /** The length of the end of line that stands at `i`; 0 when there is none. */
  function EolAt(s: string, i: nat, style: EolStyle): nat {
    match style
    case Any => Span(s, i)
    case CrLf => if i < |s| && s[i] == '\n' then 1 else if Occurs(s, "\r\n", i) then 2 else 0
    case CrLfStrict => if Occurs(s, "\r\n", i) then 2 else 0
    case Lf => if i < |s| && s[i] == '\n' then 1 else 0
  }

  /** With EVBUFFER_EOL_ANY a line ends in as many carriage returns and line feeds as there are. */
  lemma {:induction false} AnyIsRun(s: string, i: nat)
    requires i <= |s|
    ensures var n := EolAt(s, i, Any);
            && i + n <= |s| && (forall j :: i <= j < i + n ==> s[j] == '\r' || s[j] == '\n')
            && (i + n < |s| ==> s[i + n] != '\r' && s[i + n] != '\n')
    decreases |s| - i
  {
    if i < |s| && IsEol(s[i]) {
      AnyIsRun(s, i + 1);
      assert EolAt(s, i, Any) == 1 + EolAt(s, i + 1, Any);
    }
  }

  /** The strict style ends a line exactly at a carriage return and a line feed, the lenient one at a line feed
      alone as well. */
  lemma StrictIsCrLf(s: string, i: nat)
    ensures EolAt(s, i, CrLfStrict) == if i + 1 < |s| && s[i] == '\r' && s[i + 1] == '\n' then 2 else 0
    ensures EolAt(s, i, CrLf) == if i < |s| && s[i] == '\n' then 1 else EolAt(s, i, CrLfStrict)
    ensures EolAt(s, i, Lf) == if i < |s| && s[i] == '\n' then 1 else 0
  {
    var crlf := "\r\n";
    if i + 2 <= |s| {
      assert s[i..i + 2] == [s[i], s[i + 1]];
      assert s[i..i + 2] == crlf <==> s[i] == crlf[0] && s[i + 1] == crlf[1];
    }
  }

  ghost predicate NoEol(s: string, style: EolStyle, from: nat, to: nat) {
    forall i: nat :: from <= i < to ==> EolAt(s, i, style) == 0
  }

  /** Where no stop character stands no line ends. */
  lemma NoStopNoEol(s: string, style: EolStyle, from: nat, to: nat)
    requires style != CrLfStrict && NoStop(s, style == Lf, from, to)
    ensures NoEol(s, style, from, to)
  {
  }

  /** Is a CRLF or a line feed at the pointer, where either character stands? */
  method CrLfHere(b: Buffer, r: Ptr, ghost k: nat) returns (eolLen: nat)
    requires Readable(b) && PtrAt(b, r, k) && k < |b.chains| && r.inChain < |b.parts[k]| && r.pos < |Bytes(b)|
    requires Bytes(b)[r.pos] == b.parts[k][r.inChain]
    ensures eolLen == EolAt(Bytes(b), r.pos, CrLf)
  {
    assert Node(b.chains, b.parts, k);
    if r.chain.mem[r.chain.misalign + r.inChain] == '\n' {
      return 1;
    }
    var same := PtrMemcmp(b, r, "\r\n", k);
    eolLen := if same then 2 else 0;
  }

  /** Nothing up to `to`, nor there, so nothing before the next place. */
  lemma NoEolMore(s: string, style: EolStyle, from: nat, mid: nat, to: nat)
    requires NoEol(s, style, from, mid) && NoEol(s, style, mid, to) && from <= mid
    ensures NoEol(s, style, from, to)
  {
  }

  /** The loop of `evbuffer_search_eol` for EVBUFFER_EOL_CRLF. */
  method SearchCrLf(b: Buffer, it: Ptr, ghost ks: nat) returns (r: Ptr, eolLen: nat, ghost k: nat)
    requires Readable(b) && PtrAt(b, it, ks)
    ensures r.pos >= 0 ==>
      && PtrAt(b, r, k) && it.pos <= r.pos && eolLen == EolAt(Bytes(b), r.pos, CrLf) > 0
      && NoEol(Bytes(b), CrLf, it.pos, r.pos)
    ensures r.pos < 0 ==> r.pos == -1 && eolLen == 0 && NoEol(Bytes(b), CrLf, it.pos, |Bytes(b)|)
  {
    r, k, eolLen := it, ks, 0;
    while true
      invariant PtrAt(b, r, k) && it.pos <= r.pos && NoEol(Bytes(b), CrLf, it.pos, r.pos) && eolLen == 0
      decreases |Bytes(b)| - r.pos
    {
      ghost var from := r.pos;
      r, k := FindStop(b, r, false, k);
      ghost var to := if r.pos < 0 then |Bytes(b)| else r.pos;
      NoStopNoEol(Bytes(b), CrLf, from, to);
      NoEolMore(Bytes(b), CrLf, it.pos, from, to);
      if r.pos < 0 {
        return;
      }
      eolLen := CrLfHere(b, r, k);
      if eolLen > 0 {
        return;
      }
      r, k := PtrSet(b, r, 1, true, k);
      NoEolMore(Bytes(b), CrLf, it.pos, to, to + 1);
      if r.pos < 0 {
        return;
      }
    }
  }

  /** `evbuffer_search_eol`: the first end of line from `it` on. */
  method SearchEol(b: Buffer, it: Ptr, style: EolStyle, ghost ks: nat) returns (r: Ptr, eolLen: nat, ghost k: nat)
    requires Readable(b) && PtrAt(b, it, ks)
    ensures r.pos >= 0 ==>
      && PtrAt(b, r, k) && it.pos <= r.pos && eolLen == EolAt(Bytes(b), r.pos, style) > 0
      && NoEol(Bytes(b), style, it.pos, r.pos)
    ensures r.pos < 0 ==> r.pos == -1 && eolLen == 0 && NoEol(Bytes(b), style, it.pos, |Bytes(b)|)
  {
    match style {
      case CrLf =>
        r, eolLen, k := SearchCrLf(b, it, ks);
      case CrLfStrict =>
        var crlf := "\r\n";
        assert 0 < |crlf| <= EV_SSIZE_MAX && None.Limit() == -1;
        r, k := SearchRange(b, crlf, it, None, ks, 0);
        eolLen := if r.pos < 0 then 0 else 2;
        forall i: nat | it.pos <= i < if r.pos < 0 then |Bytes(b)| else r.pos
          ensures EolAt(Bytes(b), i, CrLfStrict) == 0
        {
          assert !Match(Bytes(b), crlf, -1, i);
        }
      case Any =>
        r, k := FindStop(b, it, false, ks);
        NoStopNoEol(Bytes(b), Any, it.pos, if r.pos < 0 then |Bytes(b)| else r.pos);
        if r.pos < 0 {
          eolLen := 0;
        } else {
          var count := StrSpn(b, r, k);
          eolLen := count;
        }
      case Lf =>
        r, k := FindStop(b, it, true, ks);
        NoStopNoEol(Bytes(b), Lf, it.pos, if r.pos < 0 then |Bytes(b)| else r.pos);
        eolLen := if r.pos < 0 then 0 else 1;
    }
  }

  /** An end of line lies inside the string. */
  lemma EolFits(s: string, i: nat, style: EolStyle)
    requires EolAt(s, i, style) > 0
    ensures i + EolAt(s, i, style) <= |s|
  {
  }

  /** Reading with EVBUFFER_EOL_CRLF ends at the same line feed as reading with EVBUFFER_EOL_LF: it
      only takes the carriage return before it off the line as well. */
  lemma CrLfEndsAtLf(s: string, n: nat)
    requires EolAt(s, n, CrLf) > 0 && NoEol(s, CrLf, 0, n)
    ensures var m := n + EolAt(s, n, CrLf) - 1; EolAt(s, m, Lf) == 1 && NoEol(s, Lf, 0, m)
    ensures EolAt(s, n, CrLf) == 2 <==> s[n] == '\r'
  {
    var crlf := "\r\n";
    if Occurs(s, crlf, n) {
      assert s[n..n + 2][0] == crlf[0] && s[n..n + 2][1] == crlf[1];
    }
    var m := n + EolAt(s, n, CrLf) - 1;
    forall i: nat | i < m
      ensures EolAt(s, i, Lf) == 0
    {
      assert i < n ==> EolAt(s, i, CrLf) == 0;
    }
  }

  /** `evbuffer_readln`: the bytes before the first end of line, which is drained as well. */
  method Readln(b: Buffer, style: EolStyle, frozen: bool, memory: bool) returns (line: Option)
    requires b.Valid()
    modifies b, b.chains
    ensures b.Valid() && forall c :: c in b.chains ==> c in old(b.chains)
    ensures line.NoLine? ==> b.Content() == old(b.Content())
    ensures line.Line? ==>
      var n, s := |line.text|, old(b.Content());
      && !frozen && EolAt(s, n, style) > 0 && n + EolAt(s, n, style) <= |s|
      && s[..n] == line.text && NoEol(s, style, 0, n) && b.Content() == s[n + EolAt(s, n, style)..]
    ensures line == NoLine(false) <==> frozen || NoEol(old(b.Content()), style, 0, |old(b.Content())|)
    ensures line == NoLine(true) ==> !memory
    ensures line.Line? ==> memory
  {
    if frozen {
      return NoLine(false);
    }
    var it, eolLen, _ := SearchEol(b, Ptr(0, b.first, 0), style, 0);
    if it.pos < 0 {
      return NoLine(false);
    }
    EolFits(b.Content(), it.pos, style);
    if !memory {
      return NoLine(true);
    }
    var text := TakeLine(b, it.pos, eolLen);
    line := Line(text);
  }

  /** Takes off a line of `n` bytes and the end of line behind it. */
  method TakeLine(b: Buffer, n: nat, eolLen: nat) returns (text: string)
    requires b.Valid() && n + eolLen <= |b.Content()|
    modifies b, b.chains
    ensures b.Valid() && forall c :: c in b.chains ==> c in old(b.chains)
    ensures text == old(b.Content())[..n] && b.Content() == old(b.Content())[n + eolLen..]
  {
    ghost var s := b.Content();
    text := b.Remove(n);
    Parted(s, text, b.Content(), n, eolLen);
    assert forall i :: 0 <= i < |b.chains| ==> b.chains[i] in old(b.chains);
    b.Drain(eolLen);
  }

  lemma Parted(s: string, text: string, rest: string, n: nat, m: nat)
    requires text + rest == s && |text| == n && n + m <= |s|
    ensures text == s[..n] && rest[m..] == s[n + m..] && (m >= |rest| ==> s[n + m..] == [])
  {
  }

  /** A line, or none; `noMemory` when there was a line but no memory for it. */
  datatype Option = Line(text: string) | NoLine(noMemory: bool)
}
