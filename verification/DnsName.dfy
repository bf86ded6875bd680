/** Names in DNS messages (section 4.1.4 of RFC 1035): a compressing writer and a reader that
    follows compression pointers. */
module DnsName {

  type Byte = x: int | 0 <= x < 256

  type Bytes = seq<Byte>

  const DOT: Byte := 46
  const MAX_LABELS: nat := 128

  /** The offset that the two bytes of a pointer stand for. */
  function Target(high: Byte, low: Byte): nat {
    high % 64 * 256 + low
  }

  // ---------- What the bytes of a message mean ----------

  /** From `j` on the message `p` spells the labels `labels`, with `jumps` pointers on the way. */
  ghost predicate Reads(p: Bytes, j: nat, labels: seq<Bytes>, jumps: nat)
    decreases |labels| + jumps
  {
    && j < |p|
    && if p[j] == 0 then
         labels == [] && jumps == 0
       else if p[j] >= 64 then
         j + 1 < |p| && jumps > 0 && Reads(p, Target(p[j], p[j + 1]), labels, jumps - 1)
       else
         && j + 1 + p[j] <= |p| && labels != [] && labels[0] == p[j + 1..j + 1 + p[j]]
         && Reads(p, j + 1 + p[j], labels[1..], jumps)
  }

  /** The offset after the bytes that stand for the name at `j` itself. */
  ghost function End(p: Bytes, j: nat): nat
    decreases |p| - j
  {
    if j >= |p| || p[j] == 0 then j + 1
    else if p[j] >= 64 then j + 2
    else End(p, j + 1 + p[j])
  }

  /** The labels separated by dots. */
  function Text(labels: seq<Bytes>): Bytes {
    if labels == [] then []
    else if |labels| == 1 then labels[0]
    else labels[0] + [DOT] + Text(labels[1..])
  }

  lemma {:induction false} ReadsUnique(p: Bytes, j: nat, labels: seq<Bytes>, jumps: nat, labels': seq<Bytes>,
                                       jumps': nat)
    requires Reads(p, j, labels, jumps) && Reads(p, j, labels', jumps')
    ensures labels == labels' && jumps == jumps'
    decreases |labels| + jumps
  {
    if p[j] == 0 {
    } else if p[j] >= 64 {
      ReadsUnique(p, Target(p[j], p[j + 1]), labels, jumps - 1, labels', jumps' - 1);
    } else {
      ReadsUnique(p, j + 1 + p[j], labels[1..], jumps, labels'[1..], jumps');
      assert labels == [labels[0]] + labels[1..] && labels' == [labels'[0]] + labels'[1..];
    }
  }

  /** Some reading from `x` takes at most `steps` steps. */
  ghost predicate ReadsWithin(p: Bytes, x: nat, steps: nat) {
    exists labels, jumps :: Reads(p, x, labels, jumps) && |labels| + jumps <= steps
  }

  lemma ReadsWithinMore(p: Bytes, x: nat, steps: nat)
    requires ReadsWithin(p, x, steps)
    ensures ReadsWithin(p, x, steps + 1)
  {
    var labels, jumps :| Reads(p, x, labels, jumps) && |labels| + jumps <= steps;
  }

  /** A reading is not also a shorter one. */
  lemma NotWithin(p: Bytes, j: nat, labels: seq<Bytes>, jumps: nat, steps: nat)
    requires Reads(p, j, labels, jumps) && steps < |labels| + jumps
    ensures !ReadsWithin(p, j, steps)
  {
    forall ls, n | Reads(p, j, ls, n)
      ensures |ls| + n > steps
    {
      ReadsUnique(p, j, ls, n, labels, jumps);
    }
  }

  /** An offset that is passed before those in `rest` is not one of them. */
  lemma PassedStep(p: Bytes, j: nat, labels: seq<Bytes>, jumps: nat, rest: set<nat>, steps: nat)
    requires Reads(p, j, labels, jumps) && |labels| + jumps == steps + 1 && |rest| == steps + 1
    requires forall x :: x in rest ==> x < |p| && ReadsWithin(p, x, steps)
    ensures |{j} + rest| == steps + 2 && forall x :: x in {j} + rest ==> x < |p| && ReadsWithin(p, x, steps + 1)
  {
    NotWithin(p, j, labels, jumps, steps);
    assert j !in rest;
    forall x | x in rest
      ensures ReadsWithin(p, x, steps + 1)
    {
      ReadsWithinMore(p, x, steps);
    }
  }

  /** The offsets that a reading passes: if it ends, it passes none of them twice. */
  lemma {:induction false} PassedOnce(p: Bytes, j: nat, labels: seq<Bytes>, jumps: nat) returns (passed: set<nat>)
    requires Reads(p, j, labels, jumps)
    ensures |passed| == |labels| + jumps + 1
    ensures forall x :: x in passed ==> x < |p| && ReadsWithin(p, x, |labels| + jumps)
    decreases |labels| + jumps
  {
    if p[j] == 0 {
      passed := {j};
      assert ReadsWithin(p, j, 0);
    } else {
      var rest: set<nat>;
      if p[j] >= 64 {
        rest := PassedOnce(p, Target(p[j], p[j + 1]), labels, jumps - 1);
      } else {
        rest := PassedOnce(p, j + 1 + p[j], labels[1..], jumps);
      }
      PassedStep(p, j, labels, jumps, rest, |labels| + jumps - 1);
      passed := {j} + rest;
    }
  }

  lemma {:induction false} BelowCount(n: nat, s: set<nat>)
    requires forall x :: x in s ==> x < n
    ensures |s| <= n
  {
    if n == 0 {
      assert s == {};
    } else {
      BelowCount(n - 1, s - {n - 1});
    }
  }

  /** So giving up after as many pointers as there are bytes refuses no name. */
  lemma FewJumps(p: Bytes, j: nat, labels: seq<Bytes>, jumps: nat)
    requires Reads(p, j, labels, jumps)
    ensures |labels| + jumps < |p|
  {
    var passed := PassedOnce(p, j, labels, jumps);
    BelowCount(|p|, passed);
  }

  lemma {:induction false} TextAppend(done: seq<Bytes>, word: Bytes)
    requires done != []
    ensures Text(done + [word]) == Text(done) + [DOT] + word
  {
    assert done + [word] == [done[0]] + (done[1..] + [word]);
    if |done| > 1 {
      TextAppend(done[1..], word);
      assert (done + [word])[1..] == done[1..] + [word];
      assert done[0] + [DOT] + (Text(done[1..]) + [DOT] + word) == (done[0] + [DOT] + Text(done[1..])) + [DOT] + word;
    }
  }

  lemma {:induction false} TextGrows(done: seq<Bytes>, rest: seq<Bytes>)
    ensures |Text(done)| <= |Text(done + rest)|
  {
    if |done| == 0 {
    } else {
      TextGrows(done[1..], rest);
      assert (done + rest)[1..] == done[1..] + rest;
    }
  }

  // ---------- The reader ----------

  datatype Parsed = Bad | Good(text: Bytes, next: nat)

  /** Reading from `i` leads to `j` over the labels `done` and `jumps` pointers. */
  ghost predicate Along(p: Bytes, i: nat, j: nat, done: seq<Bytes>, jumps: nat)
    decreases |done| + jumps
  {
    if done == [] && jumps == 0 then
      i == j
    else
      && i < |p| && p[i] != 0
      && if p[i] >= 64 then
           i + 1 < |p| && jumps > 0 && Along(p, Target(p[i], p[i + 1]), j, done, jumps - 1)
         else
           && i + 1 + p[i] <= |p| && done != [] && done[0] == p[i + 1..i + 1 + p[i]]
           && Along(p, i + 1 + p[i], j, done[1..], jumps)
  }

  lemma {:induction false} AlongLabel(p: Bytes, i: nat, j: nat, done: seq<Bytes>, jumps: nat)
    requires Along(p, i, j, done, jumps) && j < |p| && 0 < p[j] < 64 && j + 1 + p[j] <= |p|
    ensures Along(p, i, j + 1 + p[j], done + [p[j + 1..j + 1 + p[j]]], jumps)
    decreases |done| + jumps
  {
    var done' := done + [p[j + 1..j + 1 + p[j]]];
    if done == [] && jumps == 0 {
      assert done'[1..] == [];
    } else if p[i] >= 64 {
      AlongLabel(p, Target(p[i], p[i + 1]), j, done, jumps - 1);
    } else {
      AlongLabel(p, i + 1 + p[i], j, done[1..], jumps);
      assert done'[1..] == done[1..] + [p[j + 1..j + 1 + p[j]]];
    }
  }

  lemma {:induction false} AlongJump(p: Bytes, i: nat, j: nat, done: seq<Bytes>, jumps: nat)
    requires Along(p, i, j, done, jumps) && j + 1 < |p| && p[j] >= 64
    ensures Along(p, i, Target(p[j], p[j + 1]), done, jumps + 1)
    decreases |done| + jumps
  {
    if done == [] && jumps == 0 {
    } else if p[i] >= 64 {
      AlongJump(p, Target(p[i], p[i + 1]), j, done, jumps - 1);
    } else {
      AlongJump(p, i + 1 + p[i], j, done[1..], jumps);
    }
  }

  /** What is spelt at `i` is what was passed and what is spelt at `j`. */
  lemma {:induction false} AlongBack(p: Bytes, i: nat, j: nat, done: seq<Bytes>, jumps: nat, ls: seq<Bytes>, n: nat)
    requires Along(p, i, j, done, jumps) && Reads(p, i, ls, n)
    ensures jumps <= n && done <= ls && Reads(p, j, ls[|done|..], n - jumps)
    decreases |done| + jumps
  {
    if done == [] && jumps == 0 {
      assert ls[0..] == ls;
    } else if p[i] >= 64 {
      AlongBack(p, Target(p[i], p[i + 1]), j, done, jumps - 1, ls, n - 1);
    } else {
      AlongBack(p, i + 1 + p[i], j, done[1..], jumps, ls[1..], n);
      assert ls[1..][|done| - 1..] == ls[|done|..];
      assert ls == [ls[0]] + ls[1..] && done == [done[0]] + done[1..];
    }
  }

  lemma {:induction false} AlongEnd(p: Bytes, i: nat, j: nat, done: seq<Bytes>, jumps: nat)
    requires Along(p, i, j, done, jumps) && j < |p| && p[j] == 0
    ensures Reads(p, i, done, jumps)
    decreases |done| + jumps
  {
    if done == [] && jumps == 0 {
    } else if p[i] >= 64 {
      AlongEnd(p, Target(p[i], p[i + 1]), j, done, jumps - 1);
    } else {
      AlongEnd(p, i + 1 + p[i], j, done[1..], jumps);
    }
  }

  /** The name at `i` is refused for good reason: none is spelt there, or it is too long. */
  ghost predicate Refused(p: Bytes, i: nat, limit: nat) {
    forall ls, n: nat :: Reads(p, i, ls, n) ==> |Text(ls)| >= limit
  }

  /** What has been read is already too long. */
  lemma TooLong(p: Bytes, i: nat, j: nat, done: seq<Bytes>, jumps: nat, limit: nat)
    requires Along(p, i, j, done, jumps) && |Text(done)| >= limit
    ensures Refused(p, i, limit)
  {
    forall ls, n: nat | Reads(p, i, ls, n)
      ensures |Text(ls)| >= limit
    {
      AlongBack(p, i, j, done, jumps, ls, n);
      assert ls == done + ls[|done|..];
      TextGrows(done, ls[|done|..]);
    }
  }

  /** Nothing is spelt at `i` because nothing is spelt at `j`. */
  lemma NoneFurther(p: Bytes, i: nat, j: nat, done: seq<Bytes>, jumps: nat, limit: nat)
    requires Along(p, i, j, done, jumps) && forall ls, n: nat :: !Reads(p, j, ls, n)
    ensures Refused(p, i, limit)
  {
    forall ls, n: nat | Reads(p, i, ls, n)
      ensures false
    {
      AlongBack(p, i, j, done, jumps, ls, n);
    }
  }

  lemma TooManyJumps(p: Bytes, i: nat, j: nat, done: seq<Bytes>, jumps: nat, limit: nat)
    requires Along(p, i, j, done, jumps) && jumps >= |p|
    ensures Refused(p, i, limit)
  {
    forall ls, n: nat | Reads(p, i, ls, n)
      ensures false
    {
      AlongBack(p, i, j, done, jumps, ls, n);
      FewJumps(p, i, ls, n);
    }
  }

  /** At `j` the reading has come to a label that still fits but runs past the packet; `memcpy` then
      reads what is behind the packet. */
  ghost predicate OverreadAt(p: Bytes, i: nat, limit: nat, j: nat, labels: seq<Bytes>, jumps: nat) {
    && jumps <= |p| && Along(p, i, j, labels, jumps)
    && j < |p| && 0 < p[j] < 64 && j + 1 + p[j] > |p|
    && |Text(labels)| + (if labels == [] then 0 else 1) + p[j] < limit
  }

  ghost predicate Overreads(p: Bytes, i: nat, limit: nat) {
    exists j: nat, labels, jumps: nat :: OverreadAt(p, i, limit, j, labels, jumps)
  }

  /** A packet of two bytes whose only label announces five. */
  lemma OverreadsShort()
    ensures Overreads([5, 97], 0, 256)
  {
    assert OverreadAt([5, 97], 0, 256, 0, [], 0);
  }

  /** A reading that comes to such a label passes everything that another has passed. */
  lemma {:induction false} AlongAhead(p: Bytes, i: nat, j: nat, done: seq<Bytes>, jumps: nat, j': nat,
                                      labels: seq<Bytes>, jumps': nat)
    requires Along(p, i, j, done, jumps) && Along(p, i, j', labels, jumps')
    requires j' < |p| && 0 < p[j'] < 64 && j' + 1 + p[j'] > |p|
    ensures jumps <= jumps' && done <= labels && Along(p, j, j', labels[|done|..], jumps' - jumps)
    decreases |done| + jumps
  {
    if done == [] && jumps == 0 {
      assert labels[0..] == labels;
    } else if p[i] >= 64 {
      AlongAhead(p, Target(p[i], p[i + 1]), j, done, jumps - 1, j', labels, jumps' - 1);
    } else {
      AlongAhead(p, i + 1 + p[i], j, done[1..], jumps, j', labels[1..], jumps');
      assert labels[1..][|done| - 1..] == labels[|done|..];
      assert labels == [labels[0]] + labels[1..] && done == [done[0]] + done[1..];
    }
  }

  /** Nothing is behind `j`. */
  predicate Halts(p: Bytes, j: nat) {
    j >= |p| || p[j] == 0 || (p[j] >= 64 && j + 1 >= |p|)
  }

  lemma HaltsInside(p: Bytes, i: nat, j: nat, done: seq<Bytes>, jumps: nat, limit: nat)
    requires Along(p, i, j, done, jumps) && (Halts(p, j) || jumps > |p|)
    ensures !Overreads(p, i, limit)
  {
    forall j': nat, labels, jumps': nat
      ensures !OverreadAt(p, i, limit, j', labels, jumps')
    {
      if OverreadAt(p, i, limit, j', labels, jumps') {
        AlongAhead(p, i, j, done, jumps, j', labels, jumps');
        assert false;
      }
    }
  }

  /** The label at `j` is refused for its length before it is copied. */
  lemma TooLongInside(p: Bytes, i: nat, j: nat, done: seq<Bytes>, jumps: nat, limit: nat)
    requires Along(p, i, j, done, jumps) && j < |p| && 0 < p[j] < 64
    requires |Text(done)| + (if done == [] then 0 else 1) + p[j] >= limit
    ensures !Overreads(p, i, limit)
  {
    forall j': nat, labels, jumps': nat
      ensures !OverreadAt(p, i, limit, j', labels, jumps')
    {
      if OverreadAt(p, i, limit, j', labels, jumps') {
        AlongAhead(p, i, j, done, jumps, j', labels, jumps');
        LongerAhead(p, j, done, j', labels, jumps' - jumps);
      }
    }
  }

  lemma LongerAhead(p: Bytes, j: nat, done: seq<Bytes>, j': nat, labels: seq<Bytes>, jumps: nat)
    requires j < |p| && 0 < p[j] < 64 && done <= labels && Along(p, j, j', labels[|done|..], jumps)
    ensures (j' == j && labels == done) || |Text(labels)| >= |Text(done)| + (if done == [] then 0 else 1) + p[j]
  {
    var more := labels[|done|..];
    assert labels == done + more;
    if more != [] {
      assert labels == (done + [more[0]]) + more[1..];
      TextGrows(done + [more[0]], more[1..]);
      if done != [] {
        TextAppend(done, more[0]);
      }
    }
  }

  /** What is known between two turns. */
  ghost predicate Parsing(p: Bytes, i: nat, limit: nat, j: nat, text: Bytes, labels: seq<Bytes>, jumps: nat) {
    && Along(p, i, j, labels, jumps) && jumps <= |p|
    && text == Text(labels) && (text == [] <==> labels == []) && |text| <= limit
  }

  /** Follows a pointer. */
  method Jump(p: Bytes, j: nat, ptrCount: nat, ghost i: nat, ghost limit: nat, ghost labels: seq<Bytes>, text: Bytes)
    returns (ok: bool, to: nat)
    requires Parsing(p, i, limit, j, text, labels, ptrCount) && j < |p| && p[j] >= 64
    ensures !ok ==> Refused(p, i, limit) && !Overreads(p, i, limit)
    ensures ok ==> j + 1 < |p| && to == Target(p[j], p[j + 1]) && Parsing(p, i, limit, to, text, labels, ptrCount + 1)
  {
    if j + 1 >= |p| {
      NoneFurther(p, i, j, labels, ptrCount, limit);
      HaltsInside(p, i, j, labels, ptrCount, limit);
      return false, 0;
    }
    to := Target(p[j], p[j + 1]);
    AlongJump(p, i, j, labels, ptrCount);
    ok := true;
    if to >= |p| {
      NoneFurther(p, i, to, labels, ptrCount + 1, limit);
      ok := false;
    } else if ptrCount + 1 > |p| {
      TooManyJumps(p, i, to, labels, ptrCount + 1, limit);
      ok := false;
    }
    if !ok {
      HaltsInside(p, i, to, labels, ptrCount + 1, limit);
    }
  }

  /** Copies a label; `past` when it runs past the packet. The bytes behind the packet are not part of the
      model: the next turn gives up. */
  method CopyLabel(p: Bytes, j: nat, limit: nat, text: Bytes, ghost ptrCount: nat, ghost i: nat,
                   ghost labels: seq<Bytes>)
    returns (ok: bool, past: bool, out: Bytes, ghost labels': seq<Bytes>)
    requires Parsing(p, i, limit, j, text, labels, ptrCount) && j < |p| && 0 < p[j] < 64
    ensures !ok ==> Refused(p, i, limit) && (past <==> Overreads(p, i, limit))
    ensures ok ==> !past && Parsing(p, i, limit, j + 1 + p[j], out, labels', ptrCount) && |out| > |text|
  {
    ok, past, labels' := false, false, labels;
    out := if text != [] then text + [DOT] else text;
    if |out| + p[j] >= limit {
      TooLongInside(p, i, j, labels, ptrCount, limit);
      LongLabel(p, i, j, labels, ptrCount, limit);
      return;
    }
    if j + 1 + p[j] > |p| {
      NoneFurther(p, i, j, labels, ptrCount, limit);
      assert OverreadAt(p, i, limit, j, labels, ptrCount);
      past := true;
      return;
    }
    ghost var word := p[j + 1..j + 1 + p[j]];
    AlongLabel(p, i, j, labels, ptrCount);
    labels' := labels + [word];
    if labels != [] {
      TextAppend(labels, word);
    }
    out := out + p[j + 1..j + 1 + p[j]];
    ok := true;
  }

  /** With the label at `j` the name is too long, if the label is there. */
  lemma LongLabel(p: Bytes, i: nat, j: nat, labels: seq<Bytes>, jumps: nat, limit: nat)
    requires Along(p, i, j, labels, jumps) && j < |p| && 0 < p[j] < 64
    requires |Text(labels)| + (if labels == [] then 0 else 1) + p[j] >= limit
    ensures Refused(p, i, limit)
  {
    if j + 1 + p[j] > |p| {
      NoneFurther(p, i, j, labels, jumps, limit);
    } else {
      var word := p[j + 1..j + 1 + p[j]];
      AlongLabel(p, i, j, labels, jumps);
      if labels != [] {
        TextAppend(labels, word);
      }
      TooLong(p, i, j + 1 + p[j], labels + [word], jumps, limit);
    }
  }

  /** `name_parse`: succeeds exactly when a name shorter than `limit` is spelt at `idx`. It reads past the
      packet (`past`) exactly when it comes to a label that runs past it. */
  method NameParse(p: Bytes, idx: nat, limit: nat)
    returns (r: Parsed, past: bool, ghost labels: seq<Bytes>, ghost jumps: nat)
    ensures r.Bad? ==> Refused(p, idx, limit)
    ensures r.Good? ==>
              Reads(p, idx, labels, jumps) && r.text == Text(labels) && |r.text| < limit && r.next == End(p, idx)
    ensures (past <==> Overreads(p, idx, limit)) && (past ==> r.Bad?)
  {
    var j: nat, out: Bytes, nameEnd: int, ptrCount: nat := idx, [], -1, 0;
    labels, jumps, past := [], 0, false;
    while j < |p| && p[j] != 0
      invariant Parsing(p, idx, limit, j, out, labels, ptrCount) && !past
      invariant if nameEnd < 0 then End(p, idx) == End(p, j) else nameEnd == End(p, idx)
      decreases |p| - ptrCount, limit - |out|
    {
      var ok: bool;
      if p[j] >= 64 {
        var to: nat;
        ok, to := Jump(p, j, ptrCount, idx, limit, labels, out);
        if !ok {
          return Bad, false, labels, 0;
        }
        if nameEnd < 0 {
          nameEnd := j + 2;
        }
        j := to;
        ptrCount := ptrCount + 1;
      } else {
        ok, past, out, labels := CopyLabel(p, j, limit, out, ptrCount, idx, labels);
        if !ok {
          return Bad, past, labels, 0;
        }
        j := j + 1 + p[j];
      }
    }
    HaltsInside(p, idx, j, labels, ptrCount, limit);
    if j >= |p| {
      NoneFurther(p, idx, j, labels, ptrCount, limit);
      return Bad, false, labels, 0;
    }
    AlongEnd(p, idx, j, labels, ptrCount);
    jumps := ptrCount;
    if |out| >= limit {
      TooLong(p, idx, j, labels, ptrCount, limit);
      return Bad, false, labels, jumps;
    }
    r := Good(out, if nameEnd < 0 then j + 1 else nameEnd);
  }

  // ---------- Names as text ----------

  /** `strchr` for a dot; the length when there is none. */
  function FirstDot(s: Bytes): (k: nat)
    ensures k <= |s| && (k < |s| ==> s[k] == DOT) && forall i :: 0 <= i < k ==> s[i] != DOT
  {
    if s == [] || s[0] == DOT then 0 else 1 + FirstDot(s[1..])
  }

  /** The labels of a name, up to the first empty one. */
  function LabelsOf(name: Bytes): seq<Bytes>
    decreases |name|
  {
    var k := FirstDot(name);
    if k == 0 then [] else if k == |name| then [name] else [name[..k]] + LabelsOf(name[k + 1..])
  }

  /** No label of the name is empty; the root itself is the empty name. */
  predicate Plain(name: Bytes) {
    name == [] || (name[0] != DOT && name[|name| - 1] != DOT
                   && forall i :: 0 < i < |name| ==> name[i] != DOT || name[i - 1] != DOT)
  }

  lemma PlainTail(name: Bytes)
    requires Plain(name) && FirstDot(name) < |name|
    ensures var k := FirstDot(name); k > 0 && name[k + 1..] != [] && Plain(name[k + 1..])
  {
  }

  lemma TailPlain(name: Bytes)
    requires 0 < FirstDot(name) < |name| && Plain(name[FirstDot(name) + 1..]) && name[FirstDot(name) + 1..] != []
    ensures Plain(name)
  {
  }

  /** Taking a name apart and putting it together again is the identity exactly when no label is
      empty. */
  lemma {:induction false} TextOfLabels(name: Bytes)
    ensures Text(LabelsOf(name)) == name <==> Plain(name)
    ensures |Text(LabelsOf(name))| <= |name|
    ensures LabelsOf(name) == [] <==> name == [] || name[0] == DOT
    decreases |name|
  {
    var k := FirstDot(name);
    if 0 < k < |name| {
      var tail := name[k + 1..];
      TextOfLabels(tail);
      assert name == name[..k] + [DOT] + tail;
      assert LabelsOf(name)[1..] == LabelsOf(tail);
      if Plain(name) {
        PlainTail(name);
      } else if Plain(tail) && tail != [] {
        TailPlain(name);
      } else {
        assert Text(LabelsOf(name)) != name;
      }
    }
  }

  /** What follows an empty label is lost: the name `a..b` is taken for `a`. */
  lemma EmptyLabelCuts()
    ensures var name: Bytes := [97, DOT, DOT, 98];
            !Plain(name) && LabelsOf(name) == [[97]] && Text(LabelsOf(name)) == [97]
  {
    var name: Bytes := [97, DOT, DOT, 98];
    assert FirstDot(name) == 1 && name[..1] == [97];
    assert name[2..][0] == DOT && FirstDot(name[2..]) == 0;
    assert name[1] == DOT && name[2] == DOT;
  }

  // ---------- The table of names already written ----------

  /** A name that starts at `pos` in the message. */
  datatype Entry = Entry(v: Bytes, pos: nat)

  class LabelTable {
    var entries: seq<Entry>

    constructor ()
      ensures entries == []
    {
      entries := [];
    }

    /** `dnslabel_table_get_pos`. */
    method GetPos(name: Bytes) returns (pos: int)
      ensures pos == -1 ==> forall i :: 0 <= i < |entries| ==> entries[i].v != name
      ensures pos != -1 ==> pos >= 0 && Entry(name, pos) in entries
    {
      for i := 0 to |entries|
        invariant forall k :: 0 <= k < i ==> entries[k].v != name
      {
        if entries[i].v == name {
          assert entries[i] == Entry(name, entries[i].pos);
          return entries[i].pos;
        }
      }
      pos := -1;
    }

    /** `dnslabel_table_add`: does nothing exactly when the table is full or memory is short. */
    method Add(name: Bytes, pos: nat, memory: bool)
      modifies this
      ensures entries == if memory then Put(old(entries), Entry(name, pos)) else old(entries)
    {
      if |entries| != MAX_LABELS && memory {
        entries := entries + [Entry(name, pos)];
      }
    }
  }

  function Put(entries: seq<Entry>, e: Entry): seq<Entry> {
    if |entries| == MAX_LABELS then entries else entries + [e]
  }

  /** How many of `n` entries go into a table that has `m`. */
  function Room(m: nat, n: nat): nat {
    if m <= MAX_LABELS && n > MAX_LABELS - m then MAX_LABELS - m else n
  }

  /** The entries `es` have been put into the table, as far as there was room. */
  ghost predicate Noted(before: seq<Entry>, es: seq<Entry>, entries: seq<Entry>) {
    Room(|before|, |es|) <= |es| && entries == before + es[..Room(|before|, |es|)]
  }

  lemma NotedMore(before: seq<Entry>, es: seq<Entry>, entries: seq<Entry>, e: Entry)
    requires Noted(before, es, entries)
    ensures Noted(before, es + [e], Put(entries, e))
  {
    var more := es + [e];
    if |entries| == MAX_LABELS {
      assert more[..Room(|before|, |more|)] == es[..Room(|before|, |es|)];
    } else {
      assert Room(|before|, |es|) == |es| && Room(|before|, |more|) == |more|;
      assert es[..|es|] == es && more[..|more|] == more;
    }
  }

  /** The bytes of a last label and the zero after it; the root is that zero. */
  function LastSize(word: Bytes): nat {
    if word == [] then 1 else |word| + 2
  }

  /** `trail` goes label by label from `name`, which is due at `j0`, to `rest`, which is due at `j`. */
  ghost predicate Walked(trail: seq<Entry>, rest: Bytes, j: nat, name: Bytes, j0: nat) {
    && (if trail == [] then rest == name && j == j0 else trail[0] == Entry(name, j0))
    && forall i: nat :: i < |trail| ==> StepOn(trail, rest, j, i)
  }

  ghost predicate StepOn(trail: seq<Entry>, rest: Bytes, j: nat, i: nat)
    requires i < |trail|
  {
    var next := if i + 1 < |trail| then trail[i + 1] else Entry(rest, j);
    var k := FirstDot(trail[i].v);
    k < |trail[i].v| && next == Entry(trail[i].v[k + 1..], trail[i].pos + k + 1)
  }

  /** None of the names on the trail is in the table. */
  ghost predicate AllMissing(trail: seq<Entry>, known: seq<Entry>) {
    forall i: nat :: i < |trail| ==> Missing(trail[i].v, known)
  }

  /** A name on the way to which nothing is in the table, but which is itself, has come without a label. */
  lemma KnownAtOnce(trail: seq<Entry>, rest: Bytes, j: nat, name: Bytes, j0: nat, known: seq<Entry>)
    requires Walked(trail, rest, j, name, j0) && AllMissing(trail, known) && !Missing(name, known)
    ensures trail == [] && rest == name && j == j0
  {
    assert AllMissing(trail, known);
  }

  /** A name that has been written is in the table from then on, if the table had room for it. */
  lemma KnownAfterwards(trail: seq<Entry>, rest: Bytes, j: nat, name: Bytes, j0: nat, before: seq<Entry>,
                        entries: seq<Entry>)
    requires Walked(trail, rest, j, name, j0) && |before| != MAX_LABELS
    requires Noted(before, Steps(trail, rest, j, !Missing(rest, before)), entries)
    ensures !Missing(name, entries)
  {
    var es := Steps(trail, rest, j, !Missing(rest, before));
    if es == [] {
      var i :| 0 <= i < |before| && before[i].v == name;
      assert entries[i].v == name;
    } else {
      assert es[0] == Entry(name, j0) && entries[|before|] == es[0];
    }
  }

  /** What the loop of `dnsname_to_labels` has put into the table when it ended with `rest` at `j`. */
  ghost function Steps(trail: seq<Entry>, rest: Bytes, j: nat, known: bool): seq<Entry> {
    if known then trail else trail + [Entry(rest, j)]
  }

  /** The message spells `name` at `j`. */  /** The message spells `name` at `j`. */
  ghost predicate Names(p: Bytes, j: nat, name: Bytes) {
    exists n: nat :: Reads(p, j, LabelsOf(name), n)
  }

  ghost predicate TableOk(p: Bytes, entries: seq<Entry>) {
    forall i :: 0 <= i < |entries| ==> Names(p, entries[i].pos, entries[i].v)
  }

  /** More bytes at the end change nothing. */
  lemma {:induction false} ReadsLonger(p: Bytes, q: Bytes, j: nat, labels: seq<Bytes>, jumps: nat)
    requires p <= q && Reads(p, j, labels, jumps)
    ensures Reads(q, j, labels, jumps)
    decreases |labels| + jumps
  {
    if p[j] == 0 {
    } else if p[j] >= 64 {
      ReadsLonger(p, q, Target(p[j], p[j + 1]), labels, jumps - 1);
    } else {
      assert q[j + 1..j + 1 + p[j]] == p[j + 1..j + 1 + p[j]];
      ReadsLonger(p, q, j + 1 + p[j], labels[1..], jumps);
    }
  }

  lemma NamesLonger(p: Bytes, q: Bytes, j: nat, name: Bytes)
    requires p <= q && Names(p, j, name)
    ensures Names(q, j, name) && j < |p|
  {
    var n: nat :| Reads(p, j, LabelsOf(name), n);
    ReadsLonger(p, q, j, LabelsOf(name), n);
  }

  lemma TableLonger(p: Bytes, q: Bytes, entries: seq<Entry>)
    requires p <= q && TableOk(p, entries)
    ensures TableOk(q, entries)
  {
    forall i | 0 <= i < |entries|
      ensures Names(q, entries[i].pos, entries[i].v)
    {
      NamesLonger(p, q, entries[i].pos, entries[i].v);
    }
  }

  lemma {:induction false} EndLonger(p: Bytes, q: Bytes, j: nat)
    requires p <= q && End(p, j) <= |p|
    ensures End(q, j) == End(p, j)
    decreases |p| - j
  {
    if j < |p| && 0 < p[j] < 64 {
      EndLonger(p, q, j + 1 + p[j]);
    }
  }

  /** The two bytes of a pointer lead back to its target exactly when the target is below 0x4000. */
  lemma PointerTarget(ref: nat)
    ensures 192 <= High(ref) < 256 && 0 <= Low(ref) < 256
    ensures Target(High(ref), Low(ref)) == ref <==> ref < 0x4000
  {
  }

  /** The bytes of `ref | 0xc000` in 16 bits. */
  function High(ref: nat): Byte {
    0xc0 + ref % 0x4000 / 256
  }

  function Low(ref: nat): Byte {
    ref % 256
  }

  /** The first label of `name` stands at `j` and the rest of the name is due at `to`. */
  ghost predicate Hop(p: Bytes, j: nat, name: Bytes, to: nat, rest: Bytes) {
    var k := FirstDot(name);
    && k < |name| && k < 64 && rest == name[k + 1..]
    && to == j + 1 + k <= |p| && p[j] == k && p[j + 1..to] == name[..k]
  }

  lemma HopNames(p: Bytes, j: nat, name: Bytes, to: nat, rest: Bytes)
    requires Hop(p, j, name, to, rest) && Names(p, to, rest)
    ensures Names(p, j, name)
  {
    var k := FirstDot(name);
    if k == 0 {
      assert Reads(p, j, LabelsOf(name), 0);
    } else {
      var n: nat :| Reads(p, to, LabelsOf(rest), n);
      assert LabelsOf(name)[1..] == LabelsOf(rest);
      assert Reads(p, j, LabelsOf(name), n);
    }
  }

  /** The labels written so far, each with the rest of the name that starts with it. */
  ghost predicate Trail(p: Bytes, trail: seq<Entry>, j: nat, rest: Bytes) {
    forall i: nat :: i < |trail| ==> Linked(p, trail, j, rest, i)
  }

  ghost predicate Linked(p: Bytes, trail: seq<Entry>, j: nat, rest: Bytes, i: nat)
    requires i < |trail|
  {
    var next := if i + 1 < |trail| then trail[i + 1] else Entry(rest, j);
    Hop(p, trail[i].pos, trail[i].v, next.pos, next.v)
  }

  /** Once the rest is there, every name on the trail is. */
  lemma {:induction false} TrailNames(p: Bytes, trail: seq<Entry>, j: nat, rest: Bytes)
    requires Trail(p, trail, j, rest) && Names(p, j, rest)
    ensures TableOk(p, trail)
  {
    if trail != [] {
      var k := |trail| - 1;
      assert Linked(p, trail, j, rest, k);
      HopNames(p, trail[k].pos, trail[k].v, j, rest);
      forall i: nat | i < k
        ensures Linked(p, trail[..k], trail[k].pos, trail[k].v, i)
      {
        assert Linked(p, trail, j, rest, i);
      }
      TrailNames(p, trail[..k], trail[k].pos, trail[k].v);
      forall i | 0 <= i < |trail|
        ensures Names(p, trail[i].pos, trail[i].v)
      {
        assert i < k ==> trail[..k][i] == trail[i];
      }
    }
  }

  lemma TrailLonger(p: Bytes, q: Bytes, trail: seq<Entry>, j: nat, rest: Bytes)
    requires p <= q && Trail(p, trail, j, rest)
    ensures Trail(q, trail, j, rest)
  {
    forall i: nat | i < |trail|
      ensures Linked(q, trail, j, rest, i)
    {
      assert Linked(p, trail, j, rest, i);
      var to := if i + 1 < |trail| then trail[i + 1].pos else j;
      assert q[trail[i].pos + 1..to] == p[trail[i].pos + 1..to];
    }
  }

  // ---------- The writer ----------

  /** Every label fits its length byte. */
  predicate Short(name: Bytes)
    decreases |name|
  {
    var k := FirstDot(name);
    k <= 63 && (k < |name| ==> Short(name[k + 1..]))
  }

  /** The last label is not empty. */
  predicate Open(name: Bytes) {
    name != [] && name[|name| - 1] != DOT
  }

  predicate Missing(name: Bytes, entries: seq<Entry>) {
    forall i :: 0 <= i < |entries| ==> entries[i].v != name
  }

  /** Neither the name nor what follows any of its labels is in the table. */
  predicate Unknown(name: Bytes, entries: seq<Entry>)
    decreases |name|
  {
    var k := FirstDot(name);
    Missing(name, entries) && (k < |name| ==> Unknown(name[k + 1..], entries))
  }

  /** When the final zero of a name written at `j0` is stored behind a buffer of `bufLen` bytes: the name is
      written out in full, without a pointer, its last label is not empty, and the labels end with the buffer. */
  predicate Overruns(name: Bytes, entries: seq<Entry>, j0: nat, bufLen: nat) {
    |name| <= 255 && Short(name) && Open(name) && Unknown(name, entries) && j0 + |name| + 1 == bufLen
  }

  /** With room for two bytes more than the name everything stays inside the buffer. */
  lemma RoomIsEnough(name: Bytes, entries: seq<Entry>, j0: nat, bufLen: nat)
    requires j0 + |name| + 2 <= bufLen
    ensures !Overruns(name, entries, j0, bufLen)
  {
  }

  /** The name `a` two bytes before the end of any buffer. */
  lemma OverrunsAtEnd(bufLen: nat)
    requires bufLen >= 2
    ensures Overruns([97], [], bufLen - 2, bufLen)
  {
    assert FirstDot([97]) == 1;
  }

  /** What is left of the name overruns if the name does. */
  ghost predicate Alike(name: Bytes, rest: Bytes, before: seq<Entry>) {
    (Short(name) <==> Short(rest)) && (Open(name) <==> Open(rest)) && (Unknown(name, before) <==> Unknown(rest, before))
  }

  lemma {:induction false} AlikeMore(name: Bytes, rest: Bytes, before: seq<Entry>)
    requires Alike(name, rest, before) && FirstDot(rest) < |rest| && FirstDot(rest) <= 63 && Missing(rest, before)
    ensures Alike(name, rest[FirstDot(rest) + 1..], before)
  {
    var k := FirstDot(rest);
    var more := rest[k + 1..];
    assert rest[k] == DOT;
    assert more == [] || more[|more| - 1] == rest[|rest| - 1];
  }

  /** The trail leads from the whole name to what is left of it. */
  ghost predicate FromTo(trail: seq<Entry>, j0: nat, name: Bytes, j: nat, rest: Bytes) {
    && (if trail == [] then j == j0 && rest == name else trail[0] == Entry(name, j0))
    && j0 <= j && j + |rest| == j0 + |name|
    && (Plain(name) ==> Plain(rest) && (trail != [] ==> rest != []))
    && forall i: nat :: i < |trail| ==> Longer(trail, i, name, rest)
  }

  ghost predicate Longer(trail: seq<Entry>, i: nat, name: Bytes, rest: Bytes)
    requires i < |trail|
  {
    |trail[i].v| > |rest| && (Plain(name) ==> Plain(trail[i].v))
  }

  /** What went into the table is on the trail. */
  ghost predicate Recorded(trail: seq<Entry>, before: seq<Entry>, entries: seq<Entry>) {
    before <= entries && forall i :: |before| <= i < |entries| ==> entries[i] in trail
  }

  /** What is known while a name is being written at `j0`: the labels on the trail are there and
      `rest` is due at the end of `p`. */
  ghost predicate Writing(p: Bytes, j0: nat, name: Bytes, trail: seq<Entry>, rest: Bytes, before: seq<Entry>,
                          entries: seq<Entry>) {
    && Trail(p, trail, |p|, rest) && FromTo(trail, j0, name, |p|, rest)
    && Recorded(trail, before, entries) && Alike(name, rest, before)
  }

  lemma {:induction false} TrailEnd(p: Bytes, trail: seq<Entry>, j: nat, rest: Bytes, name: Bytes, last: Bytes)
    requires Trail(p, trail, j, rest) && trail != []
    requires Plain(name) && forall i: nat :: i < |trail| ==> Longer(trail, i, name, last)
    ensures End(p, trail[0].pos) == End(p, j)
  {
    var k := |trail| - 1;
    assert Linked(p, trail, j, rest, k) && Longer(trail, k, name, last);
    if k > 0 {
      forall i: nat | i < k
        ensures Linked(p, trail[..k], trail[k].pos, trail[k].v, i) && Longer(trail[..k], i, name, last)
      {
        assert Linked(p, trail, j, rest, i) && Longer(trail, i, name, last);
      }
      TrailEnd(p, trail[..k], trail[k].pos, trail[k].v, name, last);
    }
  }

  lemma RecordedNames(q: Bytes, trail: seq<Entry>, before: seq<Entry>, entries: seq<Entry>)
    requires Recorded(trail, before, entries) && TableOk(q, trail) && TableOk(q, before)
    ensures TableOk(q, entries)
  {
  }

  /** The rest of the name is written: so is the name, and the table is right. */
  lemma Written(p: Bytes, q: Bytes, j0: nat, name: Bytes, trail: seq<Entry>, rest: Bytes, before: seq<Entry>,
                entries: seq<Entry>)
    requires Writing(p, j0, name, trail, rest, before, entries) && p <= q && Names(q, |p|, rest)
    requires TableOk(q, before)
    ensures Names(q, j0, name) && TableOk(q, entries)
    ensures Plain(name) ==> End(q, j0) == End(q, |p|)
  {
    TrailLonger(p, q, trail, |p|, rest);
    TrailNames(q, trail, |p|, rest);
    RecordedNames(q, trail, before, entries);
    if trail != [] {
      assert Names(q, trail[0].pos, trail[0].v);
      if Plain(name) {
        TrailEnd(q, trail, |p|, rest, name, rest);
      }
    }
  }

  lemma {:induction false} HopThere(p: Bytes, q: Bytes, name: Bytes)
    requires FirstDot(name) < |name| && FirstDot(name) <= 63
    requires q == p + [FirstDot(name)] + name[..FirstDot(name)]
    ensures Hop(q, |p|, name, |q|, name[FirstDot(name) + 1..])
  {
    assert q[|p|] == FirstDot(name) && q[|p| + 1..] == name[..FirstDot(name)];
  }

  lemma TrailSnoc(q: Bytes, trail: seq<Entry>, j: nat, rest: Bytes, j': nat, rest': Bytes)
    requires Trail(q, trail, j, rest) && Hop(q, j, rest, j', rest')
    ensures Trail(q, trail + [Entry(rest, j)], j', rest')
  {
    var trail' := trail + [Entry(rest, j)];
    forall i: nat | i < |trail'|
      ensures Linked(q, trail', j', rest', i)
    {
      if i < |trail| {
        assert Linked(q, trail, j, rest, i);
      }
    }
  }

  /** A label more. */
  lemma TrailMore(p: Bytes, q: Bytes, trail: seq<Entry>, rest: Bytes)
    requires Trail(p, trail, |p|, rest) && FirstDot(rest) < |rest| && FirstDot(rest) <= 63
    requires q == p + [FirstDot(rest)] + rest[..FirstDot(rest)]
    ensures Trail(q, trail + [Entry(rest, |p|)], |q|, rest[FirstDot(rest) + 1..])
  {
    TrailLonger(p, q, trail, |p|, rest);
    HopThere(p, q, rest);
    TrailSnoc(q, trail, |p|, rest, |q|, rest[FirstDot(rest) + 1..]);
  }

  lemma LongerMore(trail: seq<Entry>, name: Bytes, rest: Bytes, rest': Bytes, j: nat)
    requires |rest'| < |rest| && (Plain(name) ==> Plain(rest))
    requires forall i: nat :: i < |trail| ==> Longer(trail, i, name, rest)
    ensures var trail' := trail + [Entry(rest, j)]; forall i: nat :: i < |trail'| ==> Longer(trail', i, name, rest')
  {
    var trail' := trail + [Entry(rest, j)];
    forall i: nat | i < |trail'|
      ensures Longer(trail', i, name, rest')
    {
      if i < |trail| {
        assert Longer(trail, i, name, rest);
      }
    }
  }

  lemma FromToMore(trail: seq<Entry>, j0: nat, name: Bytes, j: nat, rest: Bytes)
    requires FromTo(trail, j0, name, j, rest) && FirstDot(rest) < |rest|
    ensures FromTo(trail + [Entry(rest, j)], j0, name, j + 1 + FirstDot(rest), rest[FirstDot(rest) + 1..])
  {
    if Plain(name) {
      PlainTail(rest);
    }
    LongerMore(trail, name, rest, rest[FirstDot(rest) + 1..], j);
  }

  lemma WritingMore(p: Bytes, q: Bytes, j0: nat, name: Bytes, trail: seq<Entry>, rest: Bytes, before: seq<Entry>,
                    entries: seq<Entry>, entries': seq<Entry>)
    requires Writing(p, j0, name, trail, rest, before, entries) && FirstDot(rest) < |rest| && FirstDot(rest) <= 63
    requires Missing(rest, before)
    requires q == p + [FirstDot(rest)] + rest[..FirstDot(rest)]
    requires entries' == entries || entries' == entries + [Entry(rest, |p|)]
    ensures Writing(q, j0, name, trail + [Entry(rest, |p|)], rest[FirstDot(rest) + 1..], before, entries')
  {
    TrailMore(p, q, trail, rest);
    FromToMore(trail, j0, name, |p|, rest);
    AlikeMore(name, rest, before);
  }

  method WriteLabel(buf: array<Byte>, j: nat, word: Bytes)
    requires j + 1 + |word| <= buf.Length && |word| < 256
    modifies buf
    ensures buf[..j + 1 + |word|] == old(buf[..j]) + [|word|] + word
  {
    buf[j] := |word|;
    for i := 0 to |word|
      invariant buf[..j + 1 + i] == old(buf[..j]) + [|word|] + word[..i]
    {
      buf[j + 1 + i] := word[i];
      assert buf[..j + 1 + (i + 1)] == buf[..j + 1 + i] + [word[i]];
      assert word[..i + 1] == word[..i] + [word[i]];
    }
  }

  method WritePointer(buf: array<Byte>, j: nat, ref: nat)
    requires j + 2 <= buf.Length
    modifies buf
    ensures buf[..j] == old(buf[..j]) && buf[..][..j + 2] == old(buf[..j]) + [High(ref), Low(ref)]
  {
    buf[j], buf[j + 1] := High(ref), Low(ref);
    assert buf[..][..j + 2] == buf[..j] + [buf[j], buf[j + 1]];
  }

  /** A pointer to a place where `rest` is spelt spells it too. */
  lemma PointerNames(p: Bytes, ref: nat, rest: Bytes, q: Bytes)
    requires Names(p, ref, rest) && q == p + [High(ref), Low(ref)] && ref < 0x4000
    ensures Names(q, |p|, rest) && End(q, |p|) == |q|
  {
    PointerTarget(ref);
    var n: nat :| Reads(p, ref, LabelsOf(rest), n);
    ReadsLonger(p, q, ref, LabelsOf(rest), n);
    assert q[|p|] == High(ref) && q[|p| + 1] == Low(ref);
    assert Reads(q, |p|, LabelsOf(rest), n + 1);
  }

  lemma OneLabel(q: Bytes, j: nat, word: Bytes)
    requires 0 < |word| < 64 && j + 1 + |word| < |q|
    requires q[j] == |word| && q[j + 1..j + 1 + |word|] == word && q[j + 1 + |word|] == 0
    ensures Reads(q, j, [word], 0) && End(q, j) == j + 2 + |word|
  {
  }

  /** The last label and the zero byte that ends the name. */
  lemma LastNames(q: Bytes, j: nat, rest: Bytes)
    requires 0 < FirstDot(rest) == |rest| < 64 && j + 1 + |rest| < |q|
    requires q[j] == |rest| && q[j + 1..j + 1 + |rest|] == rest && q[j + 1 + |rest|] == 0
    ensures Names(q, j, rest) && End(q, j) == j + 2 + |rest|
  {
    OneLabel(q, j, rest);
    assert LabelsOf(rest) == [rest];
  }

  lemma RootNames(p: Bytes, q: Bytes)
    requires q == p + [0]
    ensures Names(q, |p|, []) && End(q, |p|) == |q|
  {
    assert q[|p|] == 0;
    assert Reads(q, |p|, LabelsOf([]), 0);
  }

  /** What the memory holds up to `r` when `m` is the buffer: one byte behind it is the final zero. */
  ghost function Held(m: Bytes, r: nat): Bytes
    requires r <= |m| + 1
  {
    if r <= |m| then m[..r] else m + [0]
  }

  /** The last label behind `p`, and the final zero unless the label is one. */
  ghost function LastBytes(p: Bytes, rest: Bytes): Bytes
    requires |rest| < 64
  {
    p + [|rest|] + rest + if rest == [] then [] else [0]
  }

  lemma LastBytesName(p: Bytes, rest: Bytes)
    requires FirstDot(rest) == |rest| < 64
    ensures var q := LastBytes(p, rest); p <= q && Names(q, |p|, rest) && End(q, |p|) == |q|
  {
    var q := LastBytes(p, rest);
    if rest == [] {
      assert q == p + [0];
      RootNames(p, q);
    } else {
      assert q[|p|] == |rest| && q[|p| + 1..|p| + 1 + |rest|] == rest && q[|p| + 1 + |rest|] == 0;
      LastNames(q, |p|, rest);
    }
  }

  /** The label ends with a zero exactly if it is empty. */
  lemma LastByte(p: Bytes, rest: Bytes)
    requires |rest| < 64 && 0 !in rest
    ensures var q := p + [|rest|] + rest; q[|q| - 1] == 0 <==> rest == []
  {
    if rest != [] {
      assert (p + [|rest|] + rest)[|p| + |rest|] == rest[|rest| - 1];
    }
  }

  /** The end of the loop of `dnsname_to_labels`: the last label, and a zero unless there is one. A zero that
      would be stored behind the buffer is left out. */
  method WriteLast(buf: array<Byte>, j: nat, rest: Bytes) returns (r: nat)
    requires |rest| < 64 && j + 1 + |rest| <= buf.Length && 0 !in rest
    modifies buf
    ensures r == j + 1 + |rest| + (if rest == [] then 0 else 1)
    ensures Held(buf[..], r) == LastBytes(old(buf[..j]), rest)
  {
    WriteLabel(buf, j, rest);
    r := j + 1 + |rest|;
    ghost var q := buf[..r];
    LastByte(old(buf[..j]), rest);
    assert buf[r - 1] == q[r - 1] && Held(buf[..], r) == q;
    if buf[r - 1] != 0 {
      if r < buf.Length {
        buf[r] := 0;
      }
      r := r + 1;
      assert Held(buf[..], r) == q + [0];
    }
  }

  ghost function EntriesOf(table: LabelTable?): seq<Entry>
    reads table
  {
    if table == null then [] else table.entries
  }

  /** Every entry can be reached by a pointer of 14 bits. */
  ghost predicate Near(entries: seq<Entry>) {
    forall i :: 0 <= i < |entries| ==> entries[i].pos < 0x4000
  }

  lemma NearBelow(p: Bytes, entries: seq<Entry>)
    requires TableOk(p, entries) && |p| <= 0x4000
    ensures Near(entries)
  {
  }

  /** What the table knows about the rest of the name was there before. */
  lemma KnownBefore(p: Bytes, j0: nat, name: Bytes, trail: seq<Entry>, rest: Bytes, before: seq<Entry>,
                    entries: seq<Entry>, ref: nat)
    requires Writing(p, j0, name, trail, rest, before, entries) && Entry(rest, ref) in entries
    requires TableOk(p[..j0], before)
    ensures Names(p, ref, rest) && (Near(before) ==> ref < 0x4000) && !Unknown(name, before) && !Missing(rest, before)
  {
    forall t: nat | t < |trail|
      ensures trail[t].v != rest
    {
      assert Longer(trail, t, name, rest);
    }
    var i :| 0 <= i < |entries| && entries[i] == Entry(rest, ref);
    assert before[i] == Entry(rest, ref);
    NamesLonger(p[..j0], p, ref, rest);
  }

  /** The end by a pointer. */
  lemma PointerEnd(p: Bytes, q: Bytes, ref: nat, j0: nat, name: Bytes, trail: seq<Entry>, rest: Bytes,
                   before: seq<Entry>, entries: seq<Entry>)
    requires j0 <= |p| && Near(before) && Writing(p, j0, name, trail, rest, before, entries) && TableOk(p[..j0], before)
    requires Entry(rest, ref) in entries && q == p + [High(ref), Low(ref)]
    ensures Names(q, j0, name) && TableOk(q, entries) && (Plain(name) ==> End(q, j0) == |q|)
  {
    KnownBefore(p, j0, name, trail, rest, before, entries, ref);
    PointerNames(p, ref, rest, q);
    TableLonger(p[..j0], q, before);
    Written(p, q, j0, name, trail, rest, before, entries);
  }

  /** The end by the last label. */
  method EndWithLast(buf: array<Byte>, j: nat, rest: Bytes, ghost j0: nat, ghost name: Bytes, ghost trail: seq<Entry>,
                     ghost before: seq<Entry>, ghost entries: seq<Entry>, ghost entries': seq<Entry>)
    returns (r: nat)
    requires FirstDot(rest) == |rest| < 64 && j + 1 + |rest| <= buf.Length && 0 !in rest && j0 <= j && |name| <= 255
    requires Writing(buf[..j], j0, name, trail, rest, before, entries) && TableOk(buf[..j][..j0], before)
    requires Missing(rest, before)
    requires entries' == entries || entries' == entries + [Entry(rest, j)]
    modifies buf
    ensures buf[..j] == old(buf[..j]) && Outcome(buf[..], j0, name, before, entries', r) && r == j + LastSize(rest)
  {
    ghost var p := buf[..j];
    r := WriteLast(buf, j, rest);
    LastOutcome(p, buf[..], r, j0, name, trail, rest, before, entries, entries');
    assert buf[..j] == Held(buf[..], r)[..j] == p;
  }

  lemma LastOutcome(p: Bytes, m: Bytes, r: nat, j0: nat, name: Bytes, trail: seq<Entry>, rest: Bytes,
                    before: seq<Entry>, entries: seq<Entry>, entries': seq<Entry>)
    requires j0 <= |p| && Writing(p, j0, name, trail, rest, before, entries) && TableOk(p[..j0], before)
    requires FirstDot(rest) == |rest| < 64 && Missing(rest, before) && |p| + 1 + |rest| <= |m| && |name| <= 255
    requires r == |p| + 1 + |rest| + (if rest == [] then 0 else 1) && Held(m, r) == LastBytes(p, rest)
    requires entries' == entries || entries' == entries + [Entry(rest, |p|)]
    ensures Outcome(m, j0, name, before, entries', r)
  {
    var q := Held(m, r);
    LastBytesName(p, rest);
    TableLonger(p[..j0], q, before);
    Written(p, q, j0, name, trail, rest, before, entries);
    assert Unknown(rest, before) && Short(rest);
  }

  /** A label that is not the last. */
  method OneMore(buf: array<Byte>, j: nat, rest: Bytes, k: nat, ghost j0: nat, ghost name: Bytes,
                 ghost trail: seq<Entry>, ghost before: seq<Entry>, ghost entries: seq<Entry>,
                 ghost entries': seq<Entry>)
    returns (j': nat, rest': Bytes, ghost trail': seq<Entry>)
    requires k == FirstDot(rest) < |rest| && k <= 63 && j + 1 + k <= buf.Length && j0 <= j && 0 !in rest
    requires Writing(buf[..j], j0, name, trail, rest, before, entries) && Missing(rest, before)
    requires entries' == entries || entries' == entries + [Entry(rest, j)]
    modifies buf
    ensures buf[..j] == old(buf[..j]) && j <= j' <= buf.Length && |rest'| < |rest| && 0 !in rest'
    ensures Writing(buf[..j'], j0, name, trail', rest', before, entries') && trail' == trail + [Entry(rest, j)]
  {
    ghost var p := buf[..j];
    WriteLabel(buf, j, rest[..k]);
    j', rest', trail' := j + 1 + k, rest[k + 1..], trail + [Entry(rest, j)];
    ghost var q := buf[..j'];
    WritingMore(p, q, j0, name, trail, rest, before, entries, entries');
    assert buf[..j] == q[..j] == p;
  }

  /** The result `r` of writing `name` at `j0` into a buffer that now holds `m`. */
  ghost predicate Outcome(m: Bytes, j0: nat, name: Bytes, before: seq<Entry>, entries: seq<Entry>, r: int) {
    && (r == |m| + 1 <==> Overruns(name, before, j0, |m|))
    && if r >= 0 then
         && |name| <= 255 && j0 < r <= |m| + 1 && r <= j0 + |name| + 2
         && (Near(before) ==> Spelt(Held(m, r), j0, name, entries, r))
       else if r == -1 then
         !Short(name)
       else
         r == -2 && (|name| > 255 || j0 + |name| + 2 > |m|)
  }

  /** The name stands from `j0` to `r`, and the table is right. */
  ghost predicate Spelt(p: Bytes, j0: nat, name: Bytes, entries: seq<Entry>, r: nat) {
    Names(p, j0, name) && TableOk(p, entries) && (Plain(name) ==> End(p, j0) == r)
  }

  lemma PointerOutcome(p: Bytes, m: Bytes, ref: nat, j0: nat, name: Bytes, trail: seq<Entry>, rest: Bytes,
                       before: seq<Entry>, entries: seq<Entry>)
    requires j0 <= |p| && Writing(p, j0, name, trail, rest, before, entries) && TableOk(p[..j0], before)
    requires |p| + 2 <= |m| && m[..|p| + 2] == p + [High(ref), Low(ref)] && Entry(rest, ref) in entries && |name| <= 255
    ensures Outcome(m, j0, name, before, entries, |p| + 2)
  {
    KnownBefore(p, j0, name, trail, rest, before, entries, ref);
    if Near(before) {
      PointerEnd(p, m[..|p| + 2], ref, j0, name, trail, rest, before, entries);
    }
  }

  /** A name that is known ends with a pointer, if there is room for one. */
  lemma ReferOutcome(p: Bytes, m: Bytes, ref: nat, r: int, j0: nat, name: Bytes, trail: seq<Entry>, rest: Bytes,
                     before: seq<Entry>, entries: seq<Entry>)
    requires j0 <= |p| && Writing(p, j0, name, trail, rest, before, entries) && TableOk(p[..j0], before)
    requires Entry(rest, ref) in entries && |name| <= 255
    requires if |p| + 2 > |m| then r == -2 else r == |p| + 2 && m[..|p| + 2] == p + [High(ref), Low(ref)]
    ensures Outcome(m, j0, name, before, entries, r)
  {
    KnownBefore(p, j0, name, trail, rest, before, entries, ref);
    if |p| + 2 <= |m| {
      PointerOutcome(p, m, ref, j0, name, trail, rest, before, entries);
    }
  }

  lemma MissingBefore(trail: seq<Entry>, rest: Bytes, before: seq<Entry>, entries: seq<Entry>)
    requires Recorded(trail, before, entries) && Missing(rest, entries)
    ensures Missing(rest, before)
  {
    forall i | 0 <= i < |before|
      ensures before[i].v != rest
    {
      assert before[i] == entries[i];
    }
  }

  /** Looks the rest of the name up and writes a pointer if it is known. */
  method Refer(buf: array<Byte>, j: nat, rest: Bytes, table: LabelTable?) returns (known: bool, r: int, ghost ref: nat)
    requires j <= buf.Length
    modifies buf
    ensures buf[..j] == old(buf[..j])
    ensures if known then Entry(rest, ref) in EntriesOf(table) else Missing(rest, EntriesOf(table))
    ensures known ==>
      if j + 2 > buf.Length then r == -2 else r == j + 2 && buf[..j + 2] == old(buf[..j]) + [High(ref), Low(ref)]
  {
    known, r, ref := false, 0, 0;
    if table != null {
      var pos := table.GetPos(rest);
      if pos >= 0 {
        known, ref := true, pos;
        r := -2;
        if j + 2 <= buf.Length {
          WritePointer(buf, j, pos);
          r := j + 2;
        }
      }
    }
  }

  /** Writes the first label of the rest of the name. */
  method NextLabel(buf: array<Byte>, j: nat, rest: Bytes, k: nat, ghost j0: nat, ghost name: Bytes,
                   ghost trail: seq<Entry>, ghost before: seq<Entry>, ghost entries: seq<Entry>,
                   ghost entries': seq<Entry>)
    returns (done: bool, r: int, j': nat, rest': Bytes, ghost trail': seq<Entry>)
    requires |name| <= 255 && j0 <= j && j + k + 1 <= buf.Length && 0 !in rest && k == FirstDot(rest) <= 63
    requires Writing(buf[..j], j0, name, trail, rest, before, entries) && TableOk(buf[..j][..j0], before)
    requires Missing(rest, before)
    requires entries' == entries || entries' == entries + [Entry(rest, j)]
    modifies buf
    ensures buf[..j] == old(buf[..j]) && j <= j' <= buf.Length && 0 !in rest'
    ensures done ==> Outcome(buf[..], j0, name, before, entries', r)
    ensures !done ==> |rest'| < |rest| && Writing(buf[..j'], j0, name, trail', rest', before, entries')
    ensures if done then k == |rest| && r == j + LastSize(rest) else trail' == trail + [Entry(rest, j)]
  {
    done, r, j', rest', trail' := k == |rest|, 0, j, rest, trail;
    if done {
      r := EndWithLast(buf, j, rest, j0, name, trail, before, entries, entries');
    } else {
      j', rest', trail' := OneMore(buf, j, rest, k, j0, name, trail, before, entries, entries');
    }
  }

  /** The two errors of `dnsname_to_labels` in the middle of a name. */
  lemma ErrorOutcome(m: Bytes, p: Bytes, j0: nat, name: Bytes, trail: seq<Entry>, rest: Bytes, before: seq<Entry>,
                     entries: seq<Entry>, r: int)
    requires Writing(p, j0, name, trail, rest, before, entries)
    requires (r == -1 && FirstDot(rest) > 63) || (r == -2 && |p| + FirstDot(rest) + 1 > |m|)
    ensures Outcome(m, j0, name, before, entries, r)
  {
  }

  /** Writes a label and records it, if it is short enough and there is room for it. */
  method Label(buf: array<Byte>, j: nat, rest: Bytes, table: LabelTable?, memory: bool, ghost j0: nat,
               ghost name: Bytes, ghost trail: seq<Entry>, ghost before: seq<Entry>)
    returns (done: bool, r: int, j': nat, rest': Bytes, ghost trail': seq<Entry>)
    requires j0 <= j <= buf.Length && |name| <= 255 && 0 !in rest && Missing(rest, before)
    requires Writing(buf[..j], j0, name, trail, rest, before, EntriesOf(table)) && TableOk(buf[..j][..j0], before)
    modifies buf, table
    ensures buf[..j] == old(buf[..j]) && j <= j' <= buf.Length && 0 !in rest'
    ensures done ==> Outcome(buf[..], j0, name, before, EntriesOf(table), r)
    ensures !done ==> |rest'| < |rest| && Writing(buf[..j'], j0, name, trail', rest', before, EntriesOf(table))
    ensures !done ==> trail' == trail + [Entry(rest, j)]
    ensures done && r >= 0 ==> FirstDot(rest) == |rest| && r == j + LastSize(rest)
    ensures memory && table != null && !(done && r < 0) ==>
              EntriesOf(table) == Put(old(EntriesOf(table)), Entry(rest, j))
  {
    var k := FirstDot(rest);
    ghost var known := EntriesOf(table);
    if k > 63 || j + k + 1 > buf.Length {
      done, r, j', rest', trail' := true, if k > 63 then -1 else -2, j, rest, trail;
      ErrorOutcome(buf[..], buf[..j], j0, name, trail, rest, before, known, r);
      return;
    }
    if table != null {
      table.Add(rest, j, memory);
    }
    done, r, j', rest', trail' := NextLabel(buf, j, rest, k, j0, name, trail, before, known, EntriesOf(table));
  }

  /** The name ended with `rest` at `j`, which was known, or was its last label. */
  ghost predicate Ended(rest: Bytes, j: nat, known: bool, r: int) {
    if known then r == j + 2 else FirstDot(rest) == |rest| && r == j + LastSize(rest)
  }

  lemma WritingWalked(p: Bytes, j0: nat, name: Bytes, trail: seq<Entry>, rest: Bytes, before: seq<Entry>,
                      entries: seq<Entry>)
    requires Writing(p, j0, name, trail, rest, before, entries)
    ensures Walked(trail, rest, |p|, name, j0)
  {
    forall i: nat | i < |trail|
      ensures StepOn(trail, rest, |p|, i)
    {
      assert Linked(p, trail, |p|, rest, i);
    }
  }

  /** One turn of the loop of `dnsname_to_labels`. */
  method Turn(buf: array<Byte>, j: nat, rest: Bytes, table: LabelTable?, memory: bool, ghost j0: nat,
              ghost name: Bytes, ghost trail: seq<Entry>, ghost before: seq<Entry>)
    returns (done: bool, r: int, j': nat, rest': Bytes, ghost trail': seq<Entry>, ghost known: bool)
    requires j0 <= j <= buf.Length && |name| <= 255 && 0 !in rest
    requires Writing(buf[..j], j0, name, trail, rest, before, EntriesOf(table)) && TableOk(buf[..j][..j0], before)
    modifies buf, table
    ensures buf[..j] == old(buf[..j]) && j <= j' <= buf.Length && 0 !in rest'
    ensures done ==> Outcome(buf[..], j0, name, before, EntriesOf(table), r)
    ensures !done ==> |rest'| < |rest| && Writing(buf[..j'], j0, name, trail', rest', before, EntriesOf(table))
    ensures !done ==> !known && trail' == trail + [Entry(rest, j)]
    ensures known <==> !Missing(rest, before)
    ensures done && r >= 0 ==> Ended(rest, j, known, r)
    ensures memory && table != null && !(done && r < 0) ==>
              EntriesOf(table) == if known then old(EntriesOf(table)) else Put(old(EntriesOf(table)), Entry(rest, j))
  {
    ghost var ref: nat;
    done, r, ref := Refer(buf, j, rest, table);
    j', rest', trail', known := j, rest, trail, done;
    if done {
      ReferOutcome(buf[..j], buf[..], ref, r, j0, name, trail, rest, before, EntriesOf(table));
      KnownBefore(buf[..j], j0, name, trail, rest, before, EntriesOf(table), ref);
    } else {
      MissingBefore(trail, rest, before, EntriesOf(table));
      done, r, j', rest', trail' := Label(buf, j, rest, table, memory, j0, name, trail, before);
    }
  }

  lemma NotedTurn(before: seq<Entry>, trail: seq<Entry>, entries: seq<Entry>, rest: Bytes, j: nat, known: bool,
                  entries': seq<Entry>)
    requires Noted(before, trail, entries)
    requires entries' == if known then entries else Put(entries, Entry(rest, j))
    ensures Noted(before, Steps(trail, rest, j, known), entries')
  {
    NotedMore(before, trail, entries, Entry(rest, j));
  }

  lemma MissingMore(trail: seq<Entry>, rest: Bytes, j: nat, before: seq<Entry>)
    requires AllMissing(trail, before) && Missing(rest, before)
    ensures AllMissing(trail + [Entry(rest, j)], before)
  {
  }

  /** How `dnsname_to_labels` came to the end of the name: label by label along `trail`, on which nothing was in the
      table, to `last`, which was there, so that a pointer took over, or was the last label. */
  ghost predicate Led(trail: seq<Entry>, last: Entry, name: Bytes, j0: nat, before: seq<Entry>, r: int) {
    && Walked(trail, last.v, last.pos, name, j0) && AllMissing(trail, before)
    && (r >= 0 ==> Ended(last.v, last.pos, !Missing(last.v, before), r))
  }

  /** `dnsname_to_labels`: writes `name` at `j0`, using pointers to what the table knows, and returns
      the offset after it. `Outcome` says when the final zero belongs behind the buffer. `fails` has the labels,
      counted from 0, for whose entry memory lacks; without any, all that was written out is in the table. */
  method ToLabels(buf: array<Byte>, j0: nat, name: Bytes, table: LabelTable?, fails: set<nat>)
    returns (r: int, ghost trail: seq<Entry>, ghost last: Entry)
    requires j0 <= buf.Length && 0 !in name && TableOk(buf[..j0], EntriesOf(table))
    modifies buf, table
    ensures buf[..j0] == old(buf[..j0]) && Outcome(buf[..], j0, name, old(EntriesOf(table)), EntriesOf(table), r)
    ensures Led(trail, last, name, j0, old(EntriesOf(table)), r)
    ensures fails == {} && table != null && r >= 0 ==>
              var before := old(EntriesOf(table));
              Noted(before, Steps(trail, last.v, last.pos, !Missing(last.v, before)), EntriesOf(table))
  {
    trail, last := [], Entry(name, j0);
    if |name| > 255 {
      r := -2;
      return;
    }
    var j: nat, rest, i: nat := j0, name, 0;
    ghost var before := EntriesOf(table);
    ghost var start := buf[..j0];
    assert start[..j0] == start;
    while true
      invariant j0 <= j <= buf.Length && buf[..j][..j0] == start && 0 !in rest
      invariant Writing(buf[..j], j0, name, trail, rest, before, EntriesOf(table)) && AllMissing(trail, before)
      invariant fails == {} && table != null ==> Noted(before, trail, EntriesOf(table))
      decreases |rest|
    {
      var done, j', rest';
      ghost var trail', known, entries := trail, false, EntriesOf(table);
      WritingWalked(buf[..j], j0, name, trail, rest, before, entries);
      done, r, j', rest', trail', known := Turn(buf, j, rest, table, i !in fails, j0, name, trail, before);
      assert buf[..j][..j0] == buf[..j0] && buf[..j'][..j0] == buf[..j0];
      if fails == {} && table != null && (!done || r >= 0) {
        NotedTurn(before, trail, entries, rest, j, known, EntriesOf(table));
      }
      if done {
        last := Entry(rest, j);
        return;
      }
      MissingMore(trail, rest, j, before);
      j, rest, trail, i := j', rest', trail', i + 1;
    }
  }

  /** Writes a name, with memory for the table: if the table had room it knows the name afterwards. */
  method Introduce(buf: array<Byte>, j0: nat, name: Bytes, table: LabelTable) returns (r: int)
    requires j0 <= buf.Length && 0 !in name && TableOk(buf[..j0], table.entries) && Near(table.entries)
    modifies buf, table
    ensures 0 <= r <= buf.Length ==> TableOk(buf[..r], table.entries)
    ensures r >= 0 && |old(table.entries)| != MAX_LABELS ==> !Missing(name, table.entries)
  {
    ghost var before, trail, last := table.entries, [], Entry(name, j0);
    r, trail, last := ToLabels(buf, j0, name, table, {});
    if r >= 0 && |before| != MAX_LABELS {
      KnownAfterwards(trail, last.v, last.pos, name, j0, before, table.entries);
    }
    if 0 <= r <= buf.Length {
      assert Held(buf[..], r) == buf[..r];
    }
  }

  /** Writing a name twice: where the table has room, the second time takes a pointer. */
  method TwiceIsPointer(buf: array<Byte>, j0: nat, name: Bytes, table: LabelTable) returns (r: int, r': int)
    requires j0 <= buf.Length && 0 !in name && TableOk(buf[..j0], table.entries) && Near(table.entries)
    modifies buf, table
    ensures 0 <= r <= buf.Length && r' >= 0 && |old(table.entries)| != MAX_LABELS ==> r' == r + 2
  {
    r := Introduce(buf, j0, name, table);
    r' := -2;
    if 0 <= r <= buf.Length {
      ghost var known, trail, last := table.entries, [], Entry(name, j0);
      r', trail, last := ToLabels(buf, r, name, table, {});
      if !Missing(name, known) {
        KnownAtOnce(trail, last.v, last.pos, name, r, known);
      }
    }
  }
}
