/** The question section of a DNS message: writing it with one table of names and reading it back. */
module DnsMessage {
  import opened DnsName

  /** The size of `tmp_name`. */
  const NAME_BUFFER: nat := 256

  type Word = x: int | 0 <= x < 0x1_0000

  datatype Question = Question(name: Bytes, kind: Word, class_: Word)

  /** Whatever reads the name at `j` reads what was written, and `name` itself exactly when no label
      is empty. */
  lemma RoundTrip(p: Bytes, j: nat, name: Bytes, r: Parsed, labels: seq<Bytes>, jumps: nat)
    requires Names(p, j, name) && |name| <= 255
    requires r.Bad? ==> Refused(p, j, NAME_BUFFER)
    requires r.Good? ==> Reads(p, j, labels, jumps) && r.text == Text(labels) && r.next == End(p, j)
    ensures r == Good(Text(LabelsOf(name)), End(p, j)) && (r.text == name <==> Plain(name))
  {
    TextOfLabels(name);
    var n: nat :| Reads(p, j, LabelsOf(name), n);
    if r.Good? {
      ReadsUnique(p, j, labels, jumps, LabelsOf(name), n);
    }
  }

  /** A C string ends at the first zero byte. */
  function UpToNul(s: Bytes): Bytes {
    if s == [] || s[0] == 0 then [] else [s[0]] + UpToNul(s[1..])
  }

  lemma {:induction false} NoNul(s: Bytes)
    requires 0 !in s
    ensures UpToNul(s) == s
  {
    if s != [] {
      NoNul(s[1..]);
    }
  }

  ghost predicate Spells(p: Bytes, j: nat, labels: seq<Bytes>) {
    exists n: nat :: Reads(p, j, labels, n)
  }

  /** A question stands at `j` and ends at `end`. */
  ghost predicate QuestionAt(p: Bytes, j: nat, q: Question, end: nat) {
    && end == End(p, j) + 4 <= |p|
    && p[end - 4] == q.kind / 256 && p[end - 3] == q.kind % 256
    && p[end - 2] == q.class_ / 256 && p[end - 1] == q.class_ % 256
    && exists labels :: Spells(p, j, labels) && |Text(labels)| < NAME_BUFFER && q.name == UpToNul(Text(labels))
  }

  /** The questions `qs` stand from `j` to `end`. */
  ghost predicate QuestionsAt(p: Bytes, j: nat, qs: seq<Question>, end: nat)
    decreases |qs|
  {
    if qs == [] then j == end
    else exists m: nat :: QuestionAt(p, j, qs[0], m) && QuestionsAt(p, m, qs[1..], end)
  }

  /** The bytes determine the question. */
  lemma QuestionUnique(p: Bytes, j: nat, q: Question, end: nat, q': Question, end': nat)
    requires QuestionAt(p, j, q, end) && QuestionAt(p, j, q', end')
    ensures q == q' && end == end'
  {
    var labels :| Spells(p, j, labels) && |Text(labels)| < NAME_BUFFER && q.name == UpToNul(Text(labels));
    var labels' :| Spells(p, j, labels') && |Text(labels')| < NAME_BUFFER && q'.name == UpToNul(Text(labels'));
    var n: nat :| Reads(p, j, labels, n);
    var n': nat :| Reads(p, j, labels', n');
    ReadsUnique(p, j, labels, n, labels', n');
    assert q.kind == q.kind / 256 * 256 + q.kind % 256 && q.class_ == q.class_ / 256 * 256 + q.class_ % 256;
  }

  lemma {:induction false} QuestionsAppend(p: Bytes, j: nat, qs: seq<Question>, m: nat, q: Question, end: nat)
    requires QuestionsAt(p, j, qs, m) && QuestionAt(p, m, q, end)
    ensures QuestionsAt(p, j, qs + [q], end)
    decreases |qs|
  {
    if qs == [] {
      assert [q][1..] == [] && QuestionsAt(p, end, [], end);
    } else {
      var k: nat :| QuestionAt(p, j, qs[0], k) && QuestionsAt(p, k, qs[1..], m);
      QuestionsAppend(p, k, qs[1..], m, q, end);
      assert (qs + [q])[1..] == qs[1..] + [q];
    }
  }

  /** Two readings from `j` agree as far as the shorter goes. */
  lemma {:induction false} QuestionsSplit(p: Bytes, j: nat, qs: seq<Question>, m: nat, all: seq<Question>, end: nat)
    requires QuestionsAt(p, j, qs, m) && QuestionsAt(p, j, all, end) && |qs| <= |all|
    ensures qs <= all && QuestionsAt(p, m, all[|qs|..], end)
    decreases |qs|
  {
    if qs == [] {
      assert all[0..] == all;
    } else {
      var k: nat :| QuestionAt(p, j, qs[0], k) && QuestionsAt(p, k, qs[1..], m);
      var k': nat :| QuestionAt(p, j, all[0], k') && QuestionsAt(p, k', all[1..], end);
      QuestionUnique(p, j, qs[0], k, all[0], k');
      QuestionsSplit(p, k, qs[1..], m, all[1..], end);
      assert all[1..][|qs| - 1..] == all[|qs|..];
      assert all == [all[0]] + all[1..] && qs == [qs[0]] + qs[1..];
    }
  }

  lemma QuestionLonger(p: Bytes, r: Bytes, j: nat, q: Question, end: nat)
    requires p <= r && QuestionAt(p, j, q, end)
    ensures QuestionAt(r, j, q, end)
  {
    var labels :| Spells(p, j, labels) && |Text(labels)| < NAME_BUFFER && q.name == UpToNul(Text(labels));
    var n: nat :| Reads(p, j, labels, n);
    ReadsLonger(p, r, j, labels, n);
    EndLonger(p, r, j);
  }

  lemma {:induction false} QuestionsLonger(p: Bytes, r: Bytes, j: nat, qs: seq<Question>, end: nat)
    requires p <= r && QuestionsAt(p, j, qs, end)
    ensures QuestionsAt(r, j, qs, end)
    decreases |qs|
  {
    if qs != [] {
      var k: nat :| QuestionAt(p, j, qs[0], k) && QuestionsAt(p, k, qs[1..], end);
      QuestionLonger(p, r, j, qs[0], k);
      QuestionsLonger(p, r, k, qs[1..], end);
    }
  }

  // ---------- Reading ----------

  datatype ReadResult = ReadError(noMemory: bool) | Read(qs: seq<Question>, next: nat)

  /** GET16. */
  function Get16(p: Bytes, j: nat): Word
    requires j + 2 <= |p|
  {
    (p[j] as int) * 256 + p[j + 1]
  }

  /** Reads one question. */
  method ReadQuestion(p: Bytes, j: nat) returns (ok: bool, q: Question, end: nat)
    ensures ok ==> QuestionAt(p, j, q, end)
    ensures !ok ==> forall q', end' :: !QuestionAt(p, j, q', end')
  {
    q, end := Question([], 0, 0), 0;
    var r, past, labels, n := NameParse(p, j, NAME_BUFFER);
    if r.Bad? {
      return false, q, end;
    }
    assert Spells(p, j, labels);
    end := r.next + 4;
    ok := end <= |p|;
    if ok {
      q := Question(UpToNul(r.text), Get16(p, r.next), Get16(p, r.next + 2));
      assert Halves(p, r.next) && Halves(p, r.next + 2);
    }
  }

  predicate Halves(p: Bytes, j: nat)
    requires j + 2 <= |p|
  {
    Get16(p, j) / 256 == p[j] && Get16(p, j) % 256 == p[j + 1]
  }

  /** There are `n` questions from `j0` on. */
  ghost predicate Stand(p: Bytes, j0: nat, n: nat) {
    exists qs, end: nat :: |qs| == n && QuestionsAt(p, j0, qs, end)
  }

  /** How many of `count` questions are read when there is memory for `memory` of them. */
  function Tried(count: nat, memory: nat): nat {
    if count <= memory then count else memory + 1
  }

  /** The loop of `request_parse` over the questions: it reads `count` of them from `j0` on; there is memory for
      `memory` questions. It fails exactly when one that it comes to is not there, or when memory is short. */
  method ReadQuestions(p: Bytes, j0: nat, count: nat, memory: nat) returns (r: ReadResult)
    ensures r.Read? ==> count <= memory && |r.qs| == count && QuestionsAt(p, j0, r.qs, r.next)
    ensures r == ReadError(true) ==> memory < count
    ensures r == ReadError(false) <==> !Stand(p, j0, Tried(count, memory))
  {
    var qs: seq<Question>, j: nat := [], j0;
    while |qs| < count
      invariant |qs| <= count && |qs| <= memory && QuestionsAt(p, j0, qs, j)
      decreases count - |qs|
    {
      var ok, q, end := ReadQuestion(p, j);
      if !ok {
        NotThere(p, j0, qs, j, Tried(count, memory));
        return ReadError(false);
      }
      QuestionsAppend(p, j0, qs, j, q, end);
      if |qs| == memory {
        assert |qs + [q]| == Tried(count, memory);
        return ReadError(true);
      }
      qs := qs + [q];
      j := end;
    }
    r := Read(qs, j);
  }

  lemma NotThere(p: Bytes, j0: nat, qs: seq<Question>, j: nat, n: nat)
    requires QuestionsAt(p, j0, qs, j) && |qs| < n && forall q', end' :: !QuestionAt(p, j, q', end')
    ensures !Stand(p, j0, n)
  {
    forall all, e: nat | |all| == n && QuestionsAt(p, j0, all, e)
      ensures false
    {
      QuestionsSplit(p, j0, qs, j, all, e);
    }
  }

  /** So whatever was written is read back, exactly if there is memory for it. */
  method ReadsBack(p: Bytes, j0: nat, ghost qs: seq<Question>, ghost end: nat, count: nat, memory: nat)
    returns (r: ReadResult)
    requires QuestionsAt(p, j0, qs, end) && count == |qs|
    ensures r == if count <= memory then Read(qs, end) else ReadError(true)
  {
    r := ReadQuestions(p, j0, count, memory);
    QuestionsFirst(p, j0, qs, end, Tried(count, memory));
    if r.Read? {
      QuestionsSplit(p, j0, r.qs, r.next, qs, end);
    }
  }

  /** The first of the questions stand there too. */
  lemma {:induction false} QuestionsFirst(p: Bytes, j: nat, qs: seq<Question>, end: nat, n: nat)
    requires QuestionsAt(p, j, qs, end) && n <= |qs|
    ensures Stand(p, j, n)
    decreases n
  {
    if n == 0 {
      assert QuestionsAt(p, j, [], j);
    } else {
      var k: nat :| QuestionAt(p, j, qs[0], k) && QuestionsAt(p, k, qs[1..], end);
      QuestionsFirst(p, k, qs[1..], end, n - 1);
      var rest, e: nat :| |rest| == n - 1 && QuestionsAt(p, k, rest, e);
      assert ([qs[0]] + rest)[1..] == rest;
      assert QuestionsAt(p, j, [qs[0]] + rest, e);
    }
  }

  // ---------- Writing ----------

  /** `Failed` carries the negative result of `dnsname_to_labels`; after `Overflow` the response is
      cut and marked as truncated. */
  datatype WriteResult = Failed(code: int) | Overflow | Written(next: nat)

  /** APPEND16 where there is room. */
  method Append16(buf: array<Byte>, j: nat, w: Word)
    requires j + 2 <= buf.Length
    modifies buf
    ensures buf[..j + 2] == old(buf[..j]) + [w / 256, w % 256]
  {
    buf[j], buf[j + 1] := w / 256, w % 256;
    assert buf[..j + 2] == buf[..j] + [buf[j], buf[j + 1]];
  }

  /** A written name and four bytes make a question. */
  lemma QuestionThere(p: Bytes, j: nat, q: Question, m: Bytes)
    requires Plain(q.name) && 0 !in q.name && |q.name| <= 255 && Names(p, j, q.name) && End(p, j) == |p|
    requires m == p + [q.kind / 256, q.kind % 256] + [q.class_ / 256, q.class_ % 256]
    ensures QuestionAt(m, j, q, |m|)
  {
    var labels := LabelsOf(q.name);
    var n: nat :| Reads(p, j, labels, n);
    assert p <= m;
    ReadsLonger(p, m, j, labels, n);
    EndLonger(p, m, j);
    TextOfLabels(q.name);
    NoNul(q.name);
    assert Spells(m, j, labels);
  }

  /** Writes the type and the class. */
  method WriteWords(buf: array<Byte>, j: nat, q: Question) returns (ok: bool)
    requires j <= buf.Length
    modifies buf
    ensures buf[..j] == old(buf[..j]) && (ok <==> j + 4 <= buf.Length)
    ensures ok ==> buf[..j + 4] == buf[..j] + [q.kind / 256, q.kind % 256] + [q.class_ / 256, q.class_ % 256]
  {
    if j + 2 > buf.Length {
      return false;
    }
    Append16(buf, j, q.kind);
    assert buf[..j + 2][..j] == buf[..j];
    if j + 4 > buf.Length {
      return false;
    }
    Append16(buf, j + 2, q.class_);
    assert buf[..j + 4][..j] == buf[..j];
    ok := true;
  }

  /** The name and the four bytes after it fit whatever the table holds. */
  predicate Fits(q: Question) {
    Short(q.name) && |q.name| <= 255
  }

  /** Writes a name where the table leads to places that pointers can reach. */
  method WriteName(buf: array<Byte>, j: nat, name: Bytes, table: LabelTable, fails: set<nat>) returns (r: int)
    requires j <= buf.Length && 0 !in name && TableOk(buf[..j], table.entries) && Near(table.entries)
    modifies buf, table
    ensures buf[..j] == old(buf[..j]) && (r == buf.Length + 1 <==> Overruns(name, old(table.entries), j, buf.Length))
    ensures r < 0 ==> !Short(name) || |name| > 255 || j + |name| + 2 > buf.Length
    ensures r >= 0 ==> j < r <= buf.Length + 1 && r <= j + |name| + 2 && |name| <= 255
    ensures 0 <= r <= buf.Length ==> Spelt(buf[..r], j, name, table.entries, r)
  {
    ghost var trail, last;
    r, trail, last := ToLabels(buf, j, name, table, fails);
    if 0 <= r <= buf.Length {
      assert buf[..][..r] == buf[..r];
    }
  }

  /** Writes one question at `j`; `past` when the zero after the name belongs behind the buffer. */
  method WriteQuestion(buf: array<Byte>, j: nat, q: Question, table: LabelTable, fails: set<nat>)
    returns (r: WriteResult, past: bool)
    requires j <= buf.Length && 0 !in q.name && TableOk(buf[..j], table.entries) && Near(table.entries)
    modifies buf, table
    ensures buf[..j] == old(buf[..j])
    ensures r.Written? ==>
              && j < r.next <= buf.Length && r.next <= j + |q.name| + 6
              && TableOk(buf[..r.next], table.entries)
    ensures r.Written? && Plain(q.name) ==> QuestionAt(buf[..r.next], j, q, r.next)
    ensures Fits(q) && j + |q.name| + 6 <= buf.Length ==> r.Written?
    ensures (past <==> Overruns(q.name, old(table.entries), j, buf.Length)) && (past ==> r.Overflow?)
  {
    var next := WriteName(buf, j, q.name, table, fails);
    past := next == buf.Length + 1;
    if next < 0 {
      return Failed(next), past;
    }
    if next > buf.Length {
      return Overflow, past;
    }
    ghost var p := buf[..next];
    assert p[..j] == buf[..j];
    var ok := WriteWords(buf, next, q);
    assert p[..j] == buf[..j];
    if !ok {
      return Overflow, past;
    }
    r := Written(next + 4);
    WholeQuestion(p, buf[..next + 4], j, q, table.entries);
  }

  lemma WholeQuestion(p: Bytes, m: Bytes, j: nat, q: Question, entries: seq<Entry>)
    requires m == p + [q.kind / 256, q.kind % 256] + [q.class_ / 256, q.class_ % 256] && TableOk(p, entries)
    requires 0 !in q.name && |q.name| <= 255 && Names(p, j, q.name) && (Plain(q.name) ==> End(p, j) == |p|)
    ensures TableOk(m, entries) && (Plain(q.name) ==> QuestionAt(m, j, q, |m|))
  {
    TableLonger(p, m, entries);
    if Plain(q.name) {
      QuestionThere(p, j, q, m);
    }
  }

  /** As many bytes as questions can take. */
  function Need(qs: seq<Question>): nat {
    if qs == [] then 0 else |qs[0].name| + 6 + Need(qs[1..])
  }

  predicate AllFit(qs: seq<Question>) {
    forall i :: 0 <= i < |qs| ==> Fits(qs[i])
  }

  predicate AllPlain(qs: seq<Question>) {
    forall i :: 0 <= i < |qs| ==> Plain(qs[i].name)
  }

  lemma OneMoreQuestion(p: Bytes, m: Bytes, j0: nat, qs: seq<Question>, i: nat, next: nat)
    requires p <= m && i < |qs| && (Plain(qs[i].name) ==> QuestionAt(m, |p|, qs[i], next))
    requires AllPlain(qs) ==> QuestionsAt(p, j0, qs[..i], |p|)
    ensures AllPlain(qs) ==> QuestionsAt(m, j0, qs[..i + 1], next)
  {
    if AllPlain(qs) {
      QuestionsLonger(p, m, j0, qs[..i], |p|);
      QuestionsAppend(m, j0, qs[..i], |p|, qs[i], next);
      assert qs[..i + 1] == qs[..i] + [qs[i]];
    }
  }

  /** Question `i` of several. */
  method WriteNext(buf: array<Byte>, ghost j0: nat, j: nat, qs: seq<Question>, i: nat, table: LabelTable,
                   fails: set<nat>)
    returns (r: WriteResult, past: bool)
    requires j0 <= j <= buf.Length <= 0x4000 && i < |qs| && 0 !in qs[i].name && TableOk(buf[..j], table.entries)
    requires AllPlain(qs) ==> QuestionsAt(buf[..j], j0, qs[..i], j)
    modifies buf, table
    ensures buf[..j0] == old(buf[..j])[..j0] && (past ==> r.Overflow?)
    ensures r.Written? ==> j < r.next <= buf.Length && r.next <= j + |qs[i].name| + 6
    ensures r.Written? ==> buf[..r.next][..j0] == old(buf[..j])[..j0] && TableOk(buf[..r.next], table.entries)
    ensures r.Written? && AllPlain(qs) ==> QuestionsAt(buf[..r.next], j0, qs[..i + 1], r.next)
    ensures Fits(qs[i]) && j + |qs[i].name| + 6 <= buf.Length ==> r.Written?
  {
    ghost var p := buf[..j];
    NearBelow(p, table.entries);
    r, past := WriteQuestion(buf, j, qs[i], table, fails);
    assert p[..j0] == buf[..j][..j0] == buf[..j0];
    if r.Written? {
      ghost var m := buf[..r.next];
      assert p == m[..j] && m[..j0] == p[..j0];
      OneMoreQuestion(p, m, j0, qs, i, r.next);
    }
  }

  /** The question section of `evdns_server_request_format_response`: one table for all the names.
      What is written from `j0` on is the questions, read back as such by `ReadQuestions`. Where there is
      room for them uncompressed they are written. For the entries of question `i` memory lacks as `fails[i]` says. */
  method WriteQuestions(buf: array<Byte>, j0: nat, qs: seq<Question>, fails: seq<set<nat>>)
    returns (r: WriteResult, past: bool, table: LabelTable)
    requires j0 <= buf.Length <= 0x4000
    requires forall i :: 0 <= i < |qs| ==> 0 !in qs[i].name
    modifies buf
    ensures fresh(table) && buf[..j0] == old(buf[..j0])
    ensures r.Written? ==> j0 <= r.next <= buf.Length && TableOk(buf[..r.next], table.entries)
    ensures r.Written? && AllPlain(qs) ==> QuestionsAt(buf[..r.next], j0, qs, r.next)
    ensures AllFit(qs) && j0 + Need(qs) <= buf.Length ==> r.Written? && r.next <= j0 + Need(qs)
    ensures past ==> r.Overflow?
  {
    table := new LabelTable();
    var j := j0;
    past := false;
    for i := 0 to |qs|
      invariant fresh(table) && j0 <= j <= buf.Length && buf[..j][..j0] == old(buf[..j0])
      invariant TableOk(buf[..j], table.entries)
      invariant AllPlain(qs) ==> QuestionsAt(buf[..j], j0, qs[..i], j)
      invariant !past && j + Need(qs[i..]) <= j0 + Need(qs)
    {
      assert qs[i..][0] == qs[i] && qs[i..][1..] == qs[i + 1..];
      r, past := WriteNext(buf, j0, j, qs, i, table, if i < |fails| then fails[i] else {});
      if !r.Written? {
        return;
      }
      j := r.next;
    }
    assert qs[..|qs|] == qs && buf[..j][..j0] == buf[..j0];
    r := Written(j);
  }
}
