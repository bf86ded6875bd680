/** Watcher lists per fd, and how changes to them reach the backend. */
module FdReify {
  import opened Poll

  const EV_ANFD_REIFY: bv8 := 0x01
  const EV_IOFDSET: bv8 := 0x80

  /** An `ev_io`: its identity, and its settings, which must stay constant while it is active. */
  datatype Io = Io(id: nat, fd: nat, events: bv8)

  /** One entry of `anfds`; `emask` and `egen` belong to the epoll backend. */
  datatype Anfd = Anfd(head: seq<Io>, events: bv8, reify: bv8, emask: bv8, egen: bv32)

  const ZERO: Anfd := Anfd([], 0, 0, 0, 0)

  /** The union of the masks of a watcher list. */
  function Or(ws: seq<Io>): bv8 {
    if ws == [] then 0 else ws[0].events | Or(ws[1..])
  }

  lemma BitOr(a: bv8, b: bv8, m: bv8)
    ensures (a | b) & m != 0 <==> a & m != 0 || b & m != 0
  {
  }

  /** A bit is in the union exactly when some watcher asks for it. */
  lemma {:induction false} OrBits(ws: seq<Io>, m: bv8)
    ensures Or(ws) & m != 0 <==> exists w :: w in ws && w.events & m != 0
  {
    if ws != [] {
      OrBits(ws[1..], m);
      BitOr(ws[0].events, Or(ws[1..]), m);
      assert forall w :: w in ws <==> w == ws[0] || w in ws[1..];
    }
  }

  lemma {:induction false} OrIsMask(ws: seq<Io>)
    requires forall w :: w in ws ==> IoMask(w.events)
    ensures IoMask(Or(ws))
  {
    if ws != [] {
      OrIsMask(ws[1..]);
      BitOr(ws[0].events, Or(ws[1..]), 0xfc);
    }
  }

  predicate NoDup<T(==)>(s: seq<T>) {
    s == [] || (s[0] !in s[1..] && NoDup(s[1..]))
  }

  lemma {:induction false} NoDupAppend<T>(s: seq<T>, x: T)
    requires NoDup(s) && x !in s
    ensures NoDup(s + [x])
  {
    if s != [] {
      NoDupAppend(s[1..], x);
      assert (s + [x])[1..] == s[1..] + [x];
    }
  }

  /** `wlist_del` on a list. */
  function Without(ws: seq<Io>, w: Io): seq<Io> {
    if ws == [] then [] else if ws[0] == w then ws[1..] else [ws[0]] + Without(ws[1..], w)
  }

  lemma {:induction false} WithoutElements(ws: seq<Io>, w: Io)
    requires NoDup(ws)
    ensures forall v :: v in Without(ws, w) <==> v in ws && v != w
    ensures NoDup(Without(ws, w))
  {
    if ws != [] {
      WithoutElements(ws[1..], w);
      assert ws == [ws[0]] + ws[1..];
      if ws[0] != w {
        assert Without(ws, w)[1..] == Without(ws[1..], w);
      }
    }
  }

  // --------------------------------------------------------- the table of lists

  /** The lists hold exactly the active watchers, each once and under its own fd. */
  ghost predicate ListsOk(anfds: seq<Anfd>, active: set<Io>) {
    && (forall fd: nat :: fd < |anfds| ==> ListOk(anfds[fd].head, fd, active))
    && (forall w :: w in active ==> w.fd < |anfds| && w in anfds[w.fd].head)
  }

  ghost predicate ListOk(ws: seq<Io>, fd: nat, active: set<Io>) {
    && (forall w :: w in ws ==> w in active && w.fd == fd && IoMask(w.events))
    && NoDup(ws)
  }

  /** `changes` lists the flagged fds, each exactly once. */
  ghost predicate Listed(anfds: seq<Anfd>, changes: seq<nat>) {
    && (forall fd :: fd in changes ==> fd < |anfds| && anfds[fd].reify != 0)
    && (forall fd: nat :: fd < |anfds| && anfds[fd].reify != 0 ==> fd in changes)
    && NoDup(changes)
  }

  /** An unflagged fd has the union of its watchers on record. */
  ghost predicate EventsOk(a: Anfd) {
    IoMask(a.events) && (a.reify == 0 ==> a.events == Or(a.head))
  }

  ghost predicate TableOk(anfds: seq<Anfd>, active: set<Io>, changes: seq<nat>) {
    && ListsOk(anfds, active)
    && Listed(anfds, changes)
    && forall fd: nat :: fd < |anfds| ==> EventsOk(anfds[fd])
  }

  /** `anfds` and the list of changes after `fd_change`. */
  function Flagged(anfds: seq<Anfd>, fd: nat, flags: bv8): seq<Anfd>
    requires fd < |anfds|
  {
    anfds[fd := anfds[fd].(reify := anfds[fd].reify | flags)]
  }

  function Changes(anfds: seq<Anfd>, changes: seq<nat>, fd: nat): seq<nat>
    requires fd < |anfds|
  {
    if anfds[fd].reify == 0 then changes + [fd] else changes
  }

  lemma FlaggedListed(anfds: seq<Anfd>, changes: seq<nat>, fd: nat, flags: bv8)
    requires fd < |anfds| && flags != 0 && Listed(anfds, changes)
    ensures Listed(Flagged(anfds, fd, flags), Changes(anfds, changes, fd))
  {
    var r := anfds[fd].reify;
    assert r | flags != 0;
    if r == 0 {
      NoDupAppend(changes, fd);
    }
  }

  lemma ChangesFrom(anfds: seq<Anfd>, changes: seq<nat>, fd: nat, flags: bv8, done: nat)
    requires fd < |anfds| && done <= |changes|
    ensures var after := Changes(anfds, changes, fd);
      flags != 0 && Listed(anfds, changes[done..]) ==>
        Listed(Flagged(anfds, fd, flags), after[done..]) && fd in after[done..] && changes <= after
  {
    if flags != 0 && Listed(anfds, changes[done..]) {
      FlaggedListed(anfds, changes[done..], fd, flags);
      assert Changes(anfds, changes, fd)[done..] == Changes(anfds, changes[done..], fd);
    }
  }

  /** The table after the listed watcher `w` was stopped. */
  function Stopped(anfds: seq<Anfd>, w: Io): seq<Anfd>
    requires w.fd < |anfds|
  {
    Flagged(anfds[w.fd := anfds[w.fd].(head := Without(anfds[w.fd].head, w))], w.fd, EV_ANFD_REIFY)
  }

  lemma StopKeepsTable(anfds: seq<Anfd>, active: set<Io>, changes: seq<nat>, w: Io)
    requires TableOk(anfds, active, changes) && w in active
    ensures TableOk(Stopped(anfds, w), active - {w}, Changes(anfds, changes, w.fd))
    ensures Stopped(anfds, w)[w.fd].reify != 0
  {
    var unlinked := anfds[w.fd := anfds[w.fd].(head := Without(anfds[w.fd].head, w))];
    assert ListOk(anfds[w.fd].head, w.fd, active);
    WithoutElements(anfds[w.fd].head, w);
    assert Listed(unlinked, changes);
    FlaggedListed(unlinked, changes, w.fd, EV_ANFD_REIFY);
    assert anfds[w.fd].reify | EV_ANFD_REIFY != 0;
    var after := Stopped(anfds, w);
    forall fd: nat | fd < |after|
      ensures ListOk(after[fd].head, fd, active - {w}) && EventsOk(after[fd])
    {
      assert ListOk(anfds[fd].head, fd, active) && EventsOk(anfds[fd]);
    }
  }

  /** The table with room for `fd`. */
  function Grown(anfds: seq<Anfd>, fd: nat): seq<Anfd> {
    if fd < |anfds| then anfds else anfds + seq(fd + 1 - |anfds|, _ => ZERO)
  }

  lemma GrownKeepsTable(anfds: seq<Anfd>, active: set<Io>, changes: seq<nat>, fd: nat)
    requires TableOk(anfds, active, changes)
    ensures fd < |Grown(anfds, fd)| && TableOk(Grown(anfds, fd), active, changes)
  {
  }

  function StartFlags(justSet: bool): (flags: bv8)
    ensures flags & EV_ANFD_REIFY != 0 && (flags & EV_IOFDSET != 0 <==> justSet)
  {
    if justSet then EV_IOFDSET | EV_ANFD_REIFY else EV_ANFD_REIFY
  }

  /** The table after `w` was started; `flags` say whether `ev_io_set` was just used. */
  function Started(anfds: seq<Anfd>, w: Io, flags: bv8): seq<Anfd>
    requires w.fd < |anfds|
  {
    Flagged(anfds[w.fd := anfds[w.fd].(head := [w] + anfds[w.fd].head)], w.fd, flags)
  }

  /** A start after `ev_io_set` makes `fd_reify` call the backend, even if the union of events is the same. */
  lemma StartRearms(anfds: seq<Anfd>, w: Io, justSet: bool)
    requires w.fd < |anfds|
    ensures var a := Started(anfds, w, StartFlags(justSet))[w.fd];
            a.reify & EV_IOFDSET != 0 <==> anfds[w.fd].reify & EV_IOFDSET != 0 || justSet
  {
    BitOr(anfds[w.fd].reify, StartFlags(justSet), EV_IOFDSET);
  }

  lemma StartKeepsTable(anfds: seq<Anfd>, active: set<Io>, changes: seq<nat>, w: Io, flags: bv8)
    requires TableOk(anfds, active, changes) && w !in active && w.fd < |anfds| && IoMask(w.events) && flags != 0
    ensures TableOk(Started(anfds, w, flags), active + {w}, Changes(anfds, changes, w.fd))
  {
    var linked := anfds[w.fd := anfds[w.fd].(head := [w] + anfds[w.fd].head)];
    assert Listed(linked, changes);
    FlaggedListed(linked, changes, w.fd, flags);
    assert linked[w.fd].reify | flags != 0;
    var after := Started(anfds, w, flags);
    forall fd: nat | fd < |after|
      ensures ListOk(after[fd].head, fd, active + {w}) && EventsOk(after[fd])
    {
      assert ListOk(anfds[fd].head, fd, active) && EventsOk(anfds[fd]);
      assert fd == w.fd ==> after[fd].head[1..] == anfds[fd].head;
    }
  }

  // ----------------------------------------------------------- the epoll side

  datatype Reg = Reg(mask: bv8, gen: bv32)
  datatype Op = Add | Mod | Del
  datatype Answer = Ok | EExist | ENoEnt

  /** What the kernel may hold for an fd: if anything, exactly the mask and generation on record;
      and unless it was dropped, something whenever libev wants events. */
  ghost predicate EpollOk(a: Anfd, fd: nat, regs: map<nat, Reg>, dropped: set<nat>) {
    && (fd in regs ==> regs[fd] == Reg(a.emask, a.egen))
    && (a.events != 0 ==> a.emask == a.events && (fd in regs || fd in dropped))
  }

  ghost predicate AllEpollOk(anfds: seq<Anfd>, regs: map<nat, Reg>, dropped: set<nat>) {
    && (forall fd: nat :: fd < |anfds| ==> EpollOk(anfds[fd], fd, regs, dropped))
    && (forall fd :: fd in regs ==> fd < |anfds|)
  }

  ghost predicate SameElsewhere(regs: map<nat, Reg>, regs': map<nat, Reg>, fd: nat) {
    forall g: nat :: g != fd ==> (g in regs' <==> g in regs) && (g in regs ==> regs'[g] == regs[g])
  }

  /** What may go wrong with the first and the second call of `epoll_ctl`: before it the kernel forgets the
      fd, or the call fails for another reason, such as EBADF or ENOMEM. */
  datatype Trouble = Trouble(drop1: bool, drop2: bool, fail1: bool, fail2: bool)

  const CALM: Trouble := Trouble(false, false, false, false)

  /** The first call of `epoll_ctl` is taken: a MOD of an fd that is held, or an ADD of one that is not. */
  predicate FirstTaken(emask: bv8, oev: bv8, nev: bv8, held: bool) {
    held <==> oev != 0 && emask != nev
  }

  /** Both calls fail, for what the kernel holds before the first one and for what goes wrong. */
  predicate Kills(emask: bv8, oev: bv8, nev: bv8, held: bool, t: Trouble) {
    && nev != 0
    && (t.fail1 || (!FirstTaken(emask, oev, nev, held) && !(held && emask == nev) && (t.fail2 || (held && t.drop2))))
  }

  /** The interest set inside the kernel.  `dropped` is history: the fds that the kernel silently
      forgot or refused and that were not registered since. */
  class Kernel {
    var regs: map<nat, Reg>
    ghost var dropped: set<nat>

    constructor ()
      ensures regs == map[] && dropped == {}
    {
      regs, dropped := map[], {};
    }

    method Ctl(op: Op, fd: nat, reg: Reg) returns (r: Answer)
      modifies this
      ensures r == if op.Add? then (if fd in old(regs) then EExist else Ok)
                   else (if fd in old(regs) then Ok else ENoEnt)
      ensures regs == if r != Ok then old(regs) else if op.Del? then old(regs) - {fd} else old(regs)[fd := reg]
      ensures dropped == if r == Ok then old(dropped) - {fd} else old(dropped)
    {
      r := if op.Add? then (if fd in regs then EExist else Ok) else (if fd in regs then Ok else ENoEnt);
      if r == Ok {
        regs := if op.Del? then regs - {fd} else regs[fd := reg];
        dropped := dropped - {fd};
      }
    }

    /** The kernel forgets `fd` if `drop`. */
    method MayDrop(fd: nat, drop: bool)
      modifies this
      ensures regs == if drop then old(regs) - {fd} else old(regs)
      ensures dropped == if drop && fd in old(regs) then old(dropped) + {fd} else old(dropped)
    {
      if drop {
        if fd in regs {
          dropped := dropped + {fd};
        }
        regs := regs - {fd};
      }
    }

    /** The kernel refuses `fd`, which it does not hold or no longer. */
    method Refuse(fd: nat)
      modifies this
      ensures regs == old(regs) - {fd} && dropped == old(dropped) + {fd}
    {
      regs := regs - {fd};
      dropped := dropped + {fd};
    }

    /** `epoll_modify` up to the call of `fd_kill`, on the entry `a` of `fd`: it already records
        `nev`, the kernel still goes by `oev`. */
    method Arm(a: Anfd, fd: nat, oev: bv8, nev: bv8, t: Trouble) returns (a': Anfd, kill: bool)
      requires a.events == nev && EpollOk(a.(events := oev), fd, regs, dropped)
      modifies this
      ensures a' == a.(emask := a'.emask, egen := a'.egen)
      ensures EpollOk(a', fd, regs, dropped) && SameElsewhere(old(regs), regs, fd)
      ensures nev != 0 && !kill && !t.drop2 ==> fd in regs && regs[fd] == Reg(nev, a'.egen)
      ensures kill ==> nev != 0 && t != CALM && fd !in regs
      ensures Outcome(a, fd in old(regs), oev, nev, t, a', fd in regs, kill)
      ensures dropped - {fd} == old(dropped) - {fd}
      ensures t == CALM ==> dropped <= old(dropped)
    {
      kill := false;
      a' := a;
      if nev == 0 {
        return;
      }
      var oldmask := a.emask;
      a' := a.(emask := nev, egen := a.egen + 1);
      if t.fail1 {
        Refuse(fd);
        return a'.(egen := a.egen), true;
      }
      MayDrop(fd, t.drop1);
      var r := Ctl(if oev != 0 && oldmask != nev then Mod else Add, fd, Reg(nev, a'.egen));
      if r == Ok {
        return;
      }
      MayDrop(fd, t.drop2);
      if r == ENoEnt {
        r := Again(Add, fd, Reg(nev, a'.egen), t.fail2);
        if r == Ok {
          return;
        }
        kill := true;
      } else if oldmask != nev {
        r := Again(Mod, fd, Reg(nev, a'.egen), t.fail2);
        if r == Ok {
          return;
        }
        kill := true;
      }
      a' := a'.(egen := a.egen);
    }

    /** The second call of `epoll_ctl`. */
    method Again(op: Op, fd: nat, reg: Reg, fail: bool) returns (r: Answer)
      requires op.Add? ==> fd !in regs
      modifies this
      ensures r == Ok <==> !fail && (op.Add? || fd in old(regs))
      ensures !op.Del? && r == Ok ==> regs == old(regs)[fd := reg] && dropped == old(dropped) - {fd}
      ensures r != Ok ==> regs == old(regs) - {fd} && dropped == if fail then old(dropped) + {fd} else old(dropped)
    {
      if fail {
        Refuse(fd);
        r := ENoEnt;
      } else {
        r := Ctl(op, fd, reg);
      }
    }
  }

  /** An fd that the kernel holds anew has a new generation. */
  predicate Regenerated(gen: bv32, held: bool, gen': bv32, held': bool) {
    gen' == gen + 1 || (gen' == gen && (held' ==> held))
  }

  /** The same for one fd in `fd_reify`, which may kill it; `sure` when the kernel must hold it afterwards. */
  predicate Turned(gen: bv32, held: bool, gen': bv32, held': bool, kill: bool, sure: bool) {
    Regenerated(gen, held, gen', held') && (kill ==> gen' == gen && !held') && (sure ==> held')
  }

  /** What `epoll_modify` makes of the entry `a`, where the kernel holds the fd if `held`, and holds it afterwards
      if `held'`: the fd is killed exactly if both calls fail, and the generation is a new one exactly if the kernel
      took a call, that is, unless nothing is wanted or the kernel holds just what is wanted. */
  predicate Outcome(a: Anfd, held: bool, oev: bv8, nev: bv8, t: Trouble, a': Anfd, held': bool, kill: bool) {
    && (kill <==> Kills(a.emask, oev, nev, held && !t.drop1, t)) && (kill ==> !held')
    && (a'.egen == if nev == 0 || kill || (held && !t.drop1 && a.emask == nev) then a.egen else a.egen + 1)
    && Turned(a.egen, held, a'.egen, held', kill, t == CALM && (held || nev != 0))
  }

  lemma SameOutcome(a: Anfd, held: bool, oev: bv8, nev: bv8, t: Trouble, a1: Anfd, a2: Anfd, held': bool, kill: bool)
    requires Outcome(a, held, oev, nev, t, a1, held', kill) && a2.egen == a1.egen
    ensures Outcome(a, held, oev, nev, t, a2, held', kill)
  {
  }

  /** `fd_reify` calls the backend for this entry, and there is something to wait for. */
  predicate Rearmed(a: Anfd) {
    Or(a.head) != 0 && (a.events != Or(a.head) || a.reify & EV_IOFDSET != 0)
  }

  /** The entry of `fd` and what the kernel holds for it are as at the beginning, or the kernel has forgotten it. */
  ghost predicate Pristine(was: seq<Anfd>, regs0: map<nat, Reg>, now: seq<Anfd>, regs: map<nat, Reg>, fd: nat)
    requires fd < |was| == |now|
  {
    now[fd].egen == was[fd].egen && (fd in regs ==> fd in regs0)
  }

  /** In the middle of `fd_reify`, with the fds in `rest` yet to come: no fd has been registered with an old
      generation. */
  ghost predicate Generations(was: seq<Anfd>, regs0: map<nat, Reg>, now: seq<Anfd>, regs: map<nat, Reg>,
                              rest: seq<nat>) {
    && |was| == |now|
    && (forall fd: nat :: fd < |now| ==> Regenerated(was[fd].egen, fd in regs0, now[fd].egen, fd in regs))
    && (forall fd: nat :: fd < |now| && fd in rest ==> Pristine(was, regs0, now, regs, fd))
  }

  lemma GenerationsStep(was: seq<Anfd>, regs0: map<nat, Reg>, a: seq<Anfd>, regs: map<nat, Reg>, rest: seq<nat>,
                        b: seq<Anfd>, regs': map<nat, Reg>, rest': seq<nat>, fd: nat)
    requires Generations(was, regs0, a, regs, rest) && |b| == |a| && fd < |a| && fd in rest
    requires forall g: nat :: g < |a| && g != fd ==> b[g] == a[g]
    requires SameElsewhere(regs, regs', fd) && Regenerated(a[fd].egen, fd in regs, b[fd].egen, fd in regs')
    requires forall g :: g in rest' && g != fd ==> g in rest
    requires fd in rest' ==> b[fd].egen == a[fd].egen && fd !in regs'
    ensures Generations(was, regs0, b, regs', rest')
  {
    assert Pristine(was, regs0, a, regs, fd);
    forall g: nat | g < |b|
      ensures Regenerated(was[g].egen, g in regs0, b[g].egen, g in regs')
      ensures g in rest' ==> Pristine(was, regs0, b, regs', g)
    {
      assert Regenerated(was[g].egen, g in regs0, a[g].egen, g in regs);
      assert g in rest ==> Pristine(was, regs0, a, regs, g);
    }
  }

  /** The fds yet to come after one round; `fd` may come again. */
  lemma Remaining(before: seq<nat>, after: seq<nat>, i: nat, fd: nat)
    requires i < |before| && before[i] == fd && (after == before || after == before + [fd])
    ensures forall g :: g in after[i + 1..] && g != fd ==> g in before[i..]
    ensures forall g :: g in before[i..] && g != fd ==> g in after[i + 1..]
  {
    assert before[i..] == [fd] + before[i + 1..];
    assert after == before + [fd] ==> after[i + 1..] == before[i + 1..] + [fd];
  }

  /** In the middle of `fd_reify`, without failures: an fd for which the backend is to be called is held by the
      kernel, or is yet to come. */
  ghost predicate Arming(was: seq<Anfd>, now: seq<Anfd>, regs: map<nat, Reg>, rest: seq<nat>) {
    && |was| == |now|
    && forall fd: nat :: fd < |was| && Rearmed(was[fd]) ==> fd in regs || (fd in rest && now[fd] == was[fd])
  }

  lemma ArmingStep(was: seq<Anfd>, a: seq<Anfd>, regs: map<nat, Reg>, rest: seq<nat>,
                   b: seq<Anfd>, regs': map<nat, Reg>, rest': seq<nat>, fd: nat)
    requires Arming(was, a, regs, rest) && |b| == |a| && fd < |a|
    requires forall g: nat :: g < |a| && g != fd ==> b[g] == a[g]
    requires SameElsewhere(regs, regs', fd) && (Rearmed(a[fd]) || fd in regs ==> fd in regs')
    requires forall g :: g in rest && g != fd ==> g in rest'
    ensures Arming(was, b, regs', rest')
  {
  }

  /** What an entry records about the backend. */
  function RecordOf(a: Anfd): (bv8, bv8, bv32) {
    (a.events, a.emask, a.egen)
  }

  ghost predicate SameRecord(t: seq<Anfd>, u: seq<Anfd>) {
    |t| == |u| && forall fd: nat :: fd < |t| ==> RecordOf(t[fd]) == RecordOf(u[fd])
  }

  class IoLoop {
    var anfds: seq<Anfd>
    var active: set<Io>
    var fdchanges: seq<nat>
    const usePoll: bool
    const poll: PollTable
    const kernel: Kernel
    var postfork: bool
    var fed: seq<Io>   // what fd_kill fed with EV_ERROR | EV_READ | EV_WRITE

    constructor (usePoll: bool)
      ensures Valid() && fresh(poll) && fresh(kernel) && anfds == [] && active == {} && this.usePoll == usePoll
    {
      anfds, active, fdchanges, fed := [], {}, [], [];
      postfork := false;
      this.usePoll := usePoll;
      poll := new PollTable();
      kernel := new Kernel();
    }

    /** The backend knows the masks on record in `t`. */
    ghost predicate BackendFor(t: seq<Anfd>)
      reads poll, kernel
    {
      if usePoll then
        poll.Valid() && forall fd: nat :: poll.At(fd) == if fd < |t| then ToPoll(t[fd].events) else 0
      else
        AllEpollOk(t, kernel.regs, kernel.dropped)
    }

    lemma SameBackend(t: seq<Anfd>, u: seq<Anfd>)
      requires BackendFor(t) && SameRecord(t, u)
      ensures BackendFor(u)
    {
    }

    /** The state in the middle of `fd_reify`, when the changes from index `done` on are still
        to be looked at. */
    ghost predicate ValidFrom(done: nat)
      reads this, poll, kernel
    {
      done <= |fdchanges| && TableOk(anfds, active, fdchanges[done..]) && BackendFor(anfds)
    }

    ghost predicate Valid()
      reads this, poll, kernel
    {
      ValidFrom(0)
    }

    /** `fd_change`: the flags are added, and if the changes from index `done` on listed exactly the flagged
        fds, each once, they do so afterwards, and `fd` is one of them. */
    method Change(fd: nat, flags: bv8, ghost done: nat)
      requires fd < |anfds| && done <= |fdchanges|
      modifies this`anfds, this`fdchanges
      ensures anfds == Flagged(old(anfds), fd, flags) && fdchanges == Changes(old(anfds), old(fdchanges), fd)
      ensures flags != 0 && old(Listed(anfds, fdchanges[done..])) ==>
        Listed(anfds, fdchanges[done..]) && fd in fdchanges[done..] && old(fdchanges) <= fdchanges
    {
      ChangesFrom(anfds, fdchanges, fd, flags, done);
      var reify := anfds[fd].reify;
      anfds := anfds[fd := anfds[fd].(reify := reify | flags)];
      if reify == 0 {
        fdchanges := fdchanges + [fd];
      }
    }

    /** Makes room for `fd`; new entries are zero. */
    method Grow(fd: nat)
      requires Valid()
      modifies this`anfds
      ensures Valid() && fd < |anfds| && anfds == Grown(old(anfds), fd)
    {
      GrownKeepsTable(anfds, active, fdchanges, fd);
      anfds := Grown(anfds, fd);
      assert fdchanges[0..] == fdchanges;
      assert !usePoll ==> forall g: nat :: g < |old(anfds)| ==> old(EpollOk(anfds[g], g, kernel.regs, kernel.dropped));
    }

    /** `ev_io_start`; `justSet` says whether `ev_io_set` was used since it was last stopped. */
    method IoStart(w: Io, justSet: bool)
      requires Valid() && IoMask(w.events)
      modifies this`anfds, this`fdchanges, this`active
      ensures Valid() && active == old(active) + {w}
      ensures old(w in active) ==> anfds == old(anfds) && fdchanges == old(fdchanges)
      ensures old(w !in active) ==>
                && anfds == Started(Grown(old(anfds), w.fd), w, StartFlags(justSet))
                && fdchanges == Changes(Grown(old(anfds), w.fd), old(fdchanges), w.fd)
    {
      if w in active {
        return;
      }
      Grow(w.fd);
      Attach(w, StartFlags(justSet));
    }

    /** Puts `w` in front of the watchers of its fd. */
    method Attach(w: Io, flags: bv8)
      requires Valid() && IoMask(w.events) && w !in active && w.fd < |anfds| && flags != 0
      modifies this`anfds, this`fdchanges, this`active
      ensures Valid() && active == old(active) + {w}
      ensures anfds == Started(old(anfds), w, flags) && fdchanges == Changes(old(anfds), old(fdchanges), w.fd)
    {
      ghost var grown := anfds;
      assert fdchanges[0..] == fdchanges;
      StartKeepsTable(anfds, active, fdchanges, w, flags);
      active := active + {w};
      anfds := anfds[w.fd := anfds[w.fd].(head := [w] + anfds[w.fd].head)];
      Change(w.fd, flags, 0);
      assert fdchanges[0..] == fdchanges;
      SameBackend(grown, anfds);
    }

    /** `ev_io_stop`. */
    method IoStop(w: Io, ghost done: nat)
      requires ValidFrom(done)
      modifies this`anfds, this`fdchanges, this`active
      ensures ValidFrom(done) && active == old(active) - {w}
      ensures old(w in active) ==>
                && w.fd < old(|anfds|)
                && anfds == Stopped(old(anfds), w)
                && fdchanges == Changes(old(anfds), old(fdchanges), w.fd)
      ensures old(w !in active) ==> anfds == old(anfds) && fdchanges == old(fdchanges)
    {
      if w !in active {
        return;
      }
      StopKeepsTable(anfds, active, fdchanges[done..], w);
      anfds := anfds[w.fd := anfds[w.fd].(head := Without(anfds[w.fd].head, w))];
      active := active - {w};
      Change(w.fd, EV_ANFD_REIFY, done);
      assert fdchanges[done..] == Changes(old(anfds), old(fdchanges)[done..], w.fd);
      SameBackend(old(anfds), anfds);
    }

    /** One round of `fd_kill`: stops the first watcher of `fd` and reports an error to it. */
    method KillOne(fd: nat, ghost done: nat) returns (w: Io)
      requires ValidFrom(done) && fd < |anfds| && anfds[fd].head != []
      modifies this`anfds, this`fdchanges, this`active, this`fed
      ensures ValidFrom(done) && |anfds| == |old(anfds)| && SameRecord(old(anfds), anfds)
      ensures [w] + anfds[fd].head == old(anfds)[fd].head && fed == old(fed) + [w]
      ensures anfds[fd].reify != 0 && anfds == old(anfds)[fd := anfds[fd]]
      ensures fdchanges == Changes(old(anfds), old(fdchanges), fd)
    {
      w := anfds[fd].head[0];
      assert ListOk(anfds[fd].head, fd, active);
      StopFlags(anfds, w);
      IoStop(w, done);
      fed := fed + [w];
    }

    /** `fd_kill`. */
    method Kill(fd: nat, ghost done: nat)
      requires ValidFrom(done) && fd < |anfds|
      modifies this`anfds, this`fdchanges, this`active, this`fed
      ensures ValidFrom(done) && |anfds| == |old(anfds)| && SameRecord(old(anfds), anfds)
      ensures anfds[fd].head == [] && fed == old(fed) + old(anfds)[fd].head
      ensures anfds == old(anfds)[fd := anfds[fd]]
      ensures fdchanges == old(fdchanges) || fdchanges == old(fdchanges) + [fd]
    {
      ghost var gone: seq<Io> := [];
      while anfds[fd].head != []
        invariant ValidFrom(done) && |anfds| == |old(anfds)| && anfds == old(anfds)[fd := anfds[fd]]
        invariant SameRecord(old(anfds), anfds)
        invariant gone + anfds[fd].head == old(anfds)[fd].head && fed == old(fed) + gone
        invariant fdchanges == old(fdchanges) || (fdchanges == old(fdchanges) + [fd] && anfds[fd].reify != 0)
        decreases |anfds[fd].head|
      {
        ghost var before := anfds;
        var w := KillOne(fd, done);
        SameUpdate(old(anfds), before, anfds, fd);
        Shifted(old(fed), gone, w, anfds[fd].head);
        gone := gone + [w];
      }
    }

    /** `epoll_modify` up to the call of `fd_kill`. */
    method ArmEntry(fd: nat, oev: bv8, nev: bv8, t: Trouble, ghost done: nat) returns (kill: bool)
      requires !usePoll && done <= |fdchanges| && TableOk(anfds, active, fdchanges[done..])
      requires fd < |anfds| && anfds[fd].events == nev
      requires BackendFor(anfds[fd := anfds[fd].(events := oev)])
      modifies this`anfds, kernel
      ensures ValidFrom(done) && |anfds| == |old(anfds)|
      ensures anfds == old(anfds)[fd := anfds[fd]] && anfds[fd].head == old(anfds)[fd].head
      ensures Outcome(old(anfds)[fd], fd in old(kernel.regs), oev, nev, t, anfds[fd], fd in kernel.regs, kill)
      ensures SameElsewhere(old(kernel.regs), kernel.regs, fd) && (kill ==> nev != 0 && t != CALM)
      ensures nev != 0 && !kill && !t.drop2 ==> fd in kernel.regs && kernel.regs[fd] == Reg(nev, anfds[fd].egen)
      ensures t == CALM ==> kernel.dropped <= old(kernel.dropped)
    {
      ghost var was := anfds[fd := anfds[fd].(events := oev)];
      assert EpollOk(was[fd], fd, kernel.regs, kernel.dropped);
      var a: Anfd;
      a, kill := kernel.Arm(anfds[fd], fd, oev, nev, t);
      RearmKeepsTable(anfds, active, fdchanges[done..], fd, a);
      anfds := anfds[fd := a];
      EpollOkElsewhere(was, anfds, fd, old(kernel.regs), kernel.regs, old(kernel.dropped), kernel.dropped);
    }

    /** `epoll_modify`. */
    method EpollModify(fd: nat, oev: bv8, nev: bv8, t: Trouble, ghost done: nat) returns (kill: bool)
      requires !usePoll && done <= |fdchanges| && TableOk(anfds, active, fdchanges[done..])
      requires fd < |anfds| && anfds[fd].events == nev
      requires BackendFor(anfds[fd := anfds[fd].(events := oev)])
      modifies this`anfds, this`fdchanges, this`active, this`fed, kernel
      ensures ValidFrom(done) && fd < |anfds| == old(|anfds|)
      ensures kill ==> nev != 0 && t != CALM && anfds[fd].head == [] && fed == old(fed) + old(anfds)[fd].head
      ensures Outcome(old(anfds)[fd], fd in old(kernel.regs), oev, nev, t, anfds[fd], fd in kernel.regs, kill)
      ensures SameElsewhere(old(kernel.regs), kernel.regs, fd)
      ensures kill ==> fdchanges == old(fdchanges) || fdchanges == old(fdchanges) + [fd]
      ensures !kill ==> anfds == old(anfds)[fd := anfds[fd]] && anfds[fd].head == old(anfds)[fd].head
      ensures !kill ==> fdchanges == old(fdchanges) && fed == old(fed) && active == old(active)
      ensures forall g: nat :: g < |anfds| && g != fd ==> anfds[g] == old(anfds)[g]
      ensures nev != 0 && !kill && !t.drop2 ==> fd in kernel.regs && kernel.regs[fd] == Reg(nev, anfds[fd].egen)
      ensures t == CALM ==> kernel.dropped <= old(kernel.dropped)
    {
      kill := ArmEntry(fd, oev, nev, t, done);
      if kill {
        ghost var a := anfds[fd];
        Kill(fd, done);
        SameOutcome(old(anfds)[fd], fd in old(kernel.regs), oev, nev, t, a, anfds[fd], fd in kernel.regs, kill);
      }
    }

    /** `backend_modify`. */
    method BackendModify(fd: nat, oev: bv8, nev: bv8, t: Trouble, ghost done: nat) returns (kill: bool)
      requires done <= |fdchanges| && TableOk(anfds, active, fdchanges[done..])
      requires fd < |anfds| && anfds[fd].events == nev && IoMask(nev)
      requires BackendFor(anfds[fd := anfds[fd].(events := oev)])
      modifies this`anfds, this`fdchanges, this`active, this`fed, kernel, poll
      ensures ValidFrom(done) && fd < |anfds| == old(|anfds|)
      ensures kill ==> !usePoll && t != CALM && nev != 0 && anfds[fd].head == []
      ensures !usePoll ==> SameElsewhere(old(kernel.regs), kernel.regs, fd)
      ensures !usePoll ==>
                Turned(old(anfds)[fd].egen, fd in old(kernel.regs), anfds[fd].egen, fd in kernel.regs, kill,
                       t == CALM && (fd in old(kernel.regs) || nev != 0))
      ensures kill ==> fdchanges == old(fdchanges) || fdchanges == old(fdchanges) + [fd]
      ensures !kill ==> anfds[fd].head == old(anfds)[fd].head && fdchanges == old(fdchanges)
      ensures forall g: nat :: g < |anfds| && g != fd ==> anfds[g] == old(anfds)[g]
      ensures t == CALM ==> kernel.dropped <= old(kernel.dropped)
    {
      if usePoll {
        poll.Modify(fd, oev, nev);
        kill := false;
      } else {
        kill := EpollModify(fd, oev, nev, t, done);
      }
    }

    /** One round of `fd_reify`. */
    method ReifyOne(i: nat, t: Trouble) returns (kill: bool)
      requires i < |fdchanges| && ValidFrom(i)
      modifies this`anfds, this`fdchanges, this`active, this`fed, kernel, poll
      ensures ValidFrom(i + 1) && |anfds| == old(|anfds|)
      ensures var fd := old(fdchanges)[i];
              && fd < |anfds|
              && (kill ==> !usePoll && t != CALM && old(anfds)[fd].head != [] && anfds[fd].head == [])
              && (kill ==> fdchanges == old(fdchanges) || fdchanges == old(fdchanges) + [fd])
              && (!kill ==> anfds[fd].head == old(anfds)[fd].head && fdchanges == old(fdchanges))
              && (fd in fdchanges[i + 1..] ==> kill)
              && forall g: nat :: g < |anfds| && g != fd ==> anfds[g] == old(anfds)[g]
      ensures t == CALM ==> kernel.dropped <= old(kernel.dropped)
      ensures var fd := old(fdchanges)[i];
              !usePoll ==>
                && SameElsewhere(old(kernel.regs), kernel.regs, fd)
                && Turned(old(anfds)[fd].egen, fd in old(kernel.regs), anfds[fd].egen, fd in kernel.regs, kill,
                          t == CALM && (fd in old(kernel.regs) || Rearmed(old(anfds)[fd])))
    {
      var fd := fdchanges[i];
      assert fd in fdchanges[i..];
      var a := anfds[fd];
      var ev := UnionOf(a.head);
      CleanKeepsTable(anfds, active, fdchanges[i..], fd);
      assert fdchanges[i..][1..] == fdchanges[i + 1..];
      anfds := anfds[fd := a.(reify := 0, events := ev)];
      var flags := if a.events != ev then EV_IOFDSET else a.reify;
      SameBackend(old(anfds), anfds[fd := anfds[fd].(events := a.events)]);
      kill := false;
      if flags & EV_IOFDSET != 0 {
        kill := BackendModify(fd, a.events, ev, t, i + 1);
      } else {
        assert anfds == anfds[fd := anfds[fd].(events := a.events)];
      }
    }

    /** `fd_reify`: whatever the kernel forgets or refuses meanwhile (in round `i`, `troubles[i]`), and although the
        loop may kill fds and so stop watchers and list fds again, it ends with every fd unflagged and on record with
        the union of its watchers. No fd is registered anew under an old generation, and without trouble every fd
        for which the backend was to be called is held by the kernel. */
    method Reify(troubles: seq<Trouble>)
      requires Valid()
      modifies this`anfds, this`fdchanges, this`active, this`fed, kernel, poll
      ensures Valid() && fdchanges == [] && |anfds| == old(|anfds|)
      ensures forall fd: nat :: fd < |anfds| ==> anfds[fd].reify == 0 && anfds[fd].events == Or(anfds[fd].head)
      ensures forall fd: nat :: fd < |anfds| ==>
                anfds[fd].head == old(anfds)[fd].head || (anfds[fd].head == [] && !usePoll && troubles != [])
      ensures troubles == [] ==> kernel.dropped <= old(kernel.dropped)
      ensures !usePoll ==> forall fd: nat :: fd < |anfds| ==>
                Regenerated(old(anfds)[fd].egen, fd in old(kernel.regs), anfds[fd].egen, fd in kernel.regs)
      ensures !usePoll && troubles == [] ==>
                forall fd: nat :: fd < |anfds| && Rearmed(old(anfds)[fd]) ==> fd in kernel.regs
    {
      var i := 0;
      while i < |fdchanges|
        invariant i <= |fdchanges| && ValidFrom(i) && |anfds| == old(|anfds|)
        invariant forall fd: nat :: fd < |anfds| ==>
                    anfds[fd].head == old(anfds)[fd].head || (anfds[fd].head == [] && !usePoll && troubles != [])
        invariant troubles == [] ==> kernel.dropped <= old(kernel.dropped)
        invariant !usePoll ==> Generations(old(anfds), old(kernel.regs), anfds, kernel.regs, fdchanges[i..])
        invariant !usePoll && troubles == [] ==> Arming(old(anfds), anfds, kernel.regs, fdchanges[i..])
        decreases Loaded(anfds), |fdchanges| - i
      {
        ghost var before, fd, regs, changes := anfds, fdchanges[i], kernel.regs, fdchanges;
        assert fd in fdchanges[i..];
        var kill := ReifyOne(i, if i < |troubles| then troubles[i] else CALM);
        LoadedAfter(before, anfds, fd);
        Remaining(changes, fdchanges, i, fd);
        if !usePoll {
          ghost var rest, rest' := changes[i..], fdchanges[i + 1..];
          GenerationsStep(old(anfds), old(kernel.regs), before, regs, rest, anfds, kernel.regs, rest', fd);
          if troubles == [] {
            ArmingStep(old(anfds), before, regs, rest, anfds, kernel.regs, rest', fd);
          }
        }
        i := i + 1;
      }
      fdchanges := [];
    }

    /** With nothing left to reify the poll table is the map from each fd to the union of its
        watchers, and the kernel holds exactly that union for every fd it did not drop. */
    lemma InSync(fd: nat)
      requires Valid() && fdchanges == []
      ensures usePoll ==> poll.At(fd) == if fd < |anfds| then ToPoll(Or(anfds[fd].head)) else 0
      ensures !usePoll && fd in kernel.regs ==> fd < |anfds|
      ensures !usePoll && fd < |anfds| && Or(anfds[fd].head) != 0 ==>
                if fd in kernel.regs then kernel.regs[fd] == Reg(Or(anfds[fd].head), anfds[fd].egen)
                else fd in kernel.dropped
    {
    }

    /** At any time the kernel may silently forget an fd, for example because it was closed. */
    method KernelForgets(fd: nat)
      requires Valid() && !usePoll
      modifies kernel
      ensures Valid() && kernel.regs == old(kernel.regs) - {fd}
    {
      assert fd < |anfds| ==> EpollOk(anfds[fd], fd, kernel.regs, kernel.dropped);
      kernel.MayDrop(fd, true);
      if fd < |anfds| {
        EpollOkElsewhere(anfds, anfds, fd, old(kernel.regs), kernel.regs, old(kernel.dropped), kernel.dropped);
      } else {
        assert kernel.regs == old(kernel.regs);
      }
    }

    /** `fd_rearm_all`. */
    method RearmAll()
      requires TableOk(anfds, active, fdchanges)
      modifies this`anfds, this`fdchanges
      ensures TableOk(anfds, active, fdchanges) && |anfds| == old(|anfds|)
      ensures forall fd: nat :: fd < |anfds| ==> anfds[fd] == Reset(old(anfds)[fd])
    {
      var fd := 0;
      while fd < |anfds|
        invariant fd <= |anfds| == old(|anfds|)
        invariant TableOk(anfds, active, fdchanges)
        invariant forall g: nat :: g < |anfds| ==> anfds[g] == if g < fd then Reset(old(anfds)[g]) else old(anfds)[g]
      {
        if anfds[fd].events != 0 {
          ResetKeepsTable(anfds, active, fdchanges, fd);
          anfds := anfds[fd := anfds[fd].(events := 0, emask := 0)];
          Change(fd, EV_IOFDSET | EV_ANFD_REIFY, 0);
        }
        fd := fd + 1;
      }
    }

    /** `epoll_fork`: a new, empty kernel set, and `fd_rearm_all`. */
    method EpollFork()
      requires Valid() && !usePoll
      modifies this`anfds, this`fdchanges, this`postfork, kernel
      ensures Valid() && |anfds| == old(|anfds|) && !postfork
      ensures kernel.regs == map[] && kernel.dropped == {}
      ensures forall fd: nat :: fd < |anfds| ==> anfds[fd].events == 0 && anfds[fd].head == old(anfds)[fd].head
    {
      postfork := false;
      kernel.regs := map[];
      kernel.dropped := {};
      assert fdchanges[0..] == fdchanges;
      RearmAll();
      assert fdchanges[0..] == fdchanges;
    }

    /** What `ev_run` does when a fork or a foreign event was detected: afterwards, if nothing
        failed meanwhile, it holds exactly the wanted masks. */
    method Recreate(troubles: seq<Trouble>)
      requires Valid() && !usePoll
      modifies this`anfds, this`fdchanges, this`active, this`fed, this`postfork, kernel, poll
      ensures Valid() && fdchanges == [] && |anfds| == old(|anfds|)
      ensures troubles == [] ==> forall fd: nat :: fd < |anfds| ==> anfds[fd].head == old(anfds)[fd].head
      ensures troubles == [] ==> forall fd: nat :: fd < |anfds| && Or(anfds[fd].head) != 0 ==>
                fd in kernel.regs && kernel.regs[fd] == Reg(Or(anfds[fd].head), anfds[fd].egen)
    {
      EpollFork();
      Reify(troubles);
      forall fd: nat | fd < |anfds| && Or(anfds[fd].head) != 0 && troubles == []
        ensures fd in kernel.regs && kernel.regs[fd] == Reg(Or(anfds[fd].head), anfds[fd].egen)
      {
        InSync(fd);
      }
    }

    /** The reaction of `epoll_poll` to an event nobody asked for: tell the kernel the mask that
        is wanted, or to forget the fd. */
    method CleanUp(fd: nat) returns (ok: bool)
      requires Valid() && !usePoll && fd < |anfds|
      modifies this`anfds, kernel
      ensures Valid() && SameBesides(old(anfds), anfds, fd)
      ensures ok == (fd in old(kernel.regs))
      ensures var a := old(anfds)[fd];
              kernel.regs == if ok && a.events != 0 then old(kernel.regs)[fd := Reg(a.events, a.egen)]
                             else old(kernel.regs) - {fd}
    {
      var a := anfds[fd];
      assert EpollOk(a, fd, kernel.regs, kernel.dropped);
      anfds := anfds[fd := a.(emask := a.events)];
      var r := kernel.Ctl(if a.events != 0 then Mod else Del, fd, Reg(a.events, a.egen));
      RearmKeepsTable(old(anfds), active, fdchanges[0..], fd, anfds[fd]);
      EpollOkElsewhere(old(anfds), anfds, fd, old(kernel.regs), kernel.regs, old(kernel.dropped), kernel.dropped);
      ok := r == Ok;
    }

    /** The part of `epoll_poll` that handles one event: generation `gen` of `fd` reports `got`.
        An event is passed on to the watchers unless it is stale, the fd has vanished from the
        kernel, or the fd is due for reification. */
    method EpollEvent(fd: nat, gen: bv32, got: bv8) returns (feeds: seq<(Io, bv8)>)
      requires Valid() && !usePoll && fd < |anfds|
      modifies this`anfds, this`postfork, kernel
      ensures Valid() && SameBesides(old(anfds), anfds, fd)
      ensures postfork == (old(postfork) || Foreign(old(anfds)[fd], fd, gen, got, old(kernel.regs)))
      ensures feeds == if Foreign(old(anfds)[fd], fd, gen, got, old(kernel.regs)) || old(anfds)[fd].reify != 0 then []
                       else Feeds(old(anfds)[fd].head, got)
      ensures var a := old(anfds)[fd];
              kernel.regs == if a.egen != gen || got & a.events == got then old(kernel.regs)
                             else if fd in old(kernel.regs) && a.events != 0
                                  then old(kernel.regs)[fd := Reg(a.events, a.egen)]
                             else old(kernel.regs) - {fd}
    {
      feeds := [];
      var a := anfds[fd];
      AllWanted(a, got);
      if a.egen != gen {
        postfork := true;
        return;
      }
      if Unwanted(a, got) {
        var ok := CleanUp(fd);
        if !ok {
          postfork := true;
          return;
        }
      }
      if a.reify == 0 {
        feeds := Feeds(a.head, got);
      }
    }
  }

  /** A fd is closed, so that the kernel forgets it, and opened again: a watcher that is started for it is set up in
      the kernel under a new generation. */
  method Reopen(l: IoLoop, w: Io)
    requires l.Valid() && !l.usePoll && w !in l.active && IoMask(w.events) && w.events != 0 && w.fd < |l.anfds|
    modifies l, l.kernel, l.poll
    ensures l.Valid() && w.fd < |l.anfds| && w in l.anfds[w.fd].head && w.fd in l.kernel.regs
    ensures l.anfds[w.fd].egen == old(l.anfds)[w.fd].egen + 1
  {
    l.KernelForgets(w.fd);
    StartRearms(l.anfds, w, true);
    assert Grown(l.anfds, w.fd) == l.anfds;
    l.IoStart(w, true);
    HeadRearms(l.anfds[w.fd], w);
    l.Reify([]);
  }

  /** An event that is left over from the old file then feeds nobody. */
  method StaleEventFeedsNobody(l: IoLoop, w: Io, got: bv8) returns (feeds: seq<(Io, bv8)>)
    requires l.Valid() && !l.usePoll && w !in l.active && IoMask(w.events) && w.events != 0 && w.fd < |l.anfds|
    modifies l, l.kernel, l.poll
    ensures l.Valid() && feeds == [] && l.postfork
  {
    var gen := l.anfds[w.fd].egen;
    Reopen(l, w);
    feeds := l.EpollEvent(w.fd, gen, got);
  }

  lemma HeadRearms(a: Anfd, w: Io)
    requires w in a.head && w.events != 0 && a.reify & EV_IOFDSET != 0
    ensures Rearmed(a)
  {
    assert w.events & w.events != 0;
    OrBits(a.head, w.events);
  }

  /** An entry for which the kernel is to be told everything again. */
  function Reset(a: Anfd): Anfd {
    if a.events == 0 then a else a.(events := 0, emask := 0, reify := a.reify | (EV_IOFDSET | EV_ANFD_REIFY))
  }

  /** After `fd_rearm_all` the backend is called for every fd that is waited for. */
  lemma ResetRearms(a: Anfd)
    requires a.events != 0 && Or(a.head) != 0
    ensures Rearmed(Reset(a)) && Reset(a).reify & EV_IOFDSET != 0
  {
    BitOr(a.reify, EV_IOFDSET | EV_ANFD_REIFY, EV_IOFDSET);
  }

  /** Nothing is unwanted exactly if all the bits were asked for. */
  lemma AllWanted(a: Anfd, got: bv8)
    ensures !Unwanted(a, got) <==> got & a.events == got
  {
  }

  predicate Unwanted(a: Anfd, got: bv8) {
    got & !a.events != 0
  }

  /** The event is stale, or unwanted and its fd no longer in the kernel. */
  predicate Foreign(a: Anfd, fd: nat, gen: bv32, got: bv8, regs: map<nat, Reg>) {
    a.egen != gen || (Unwanted(a, got) && fd !in regs)
  }

  /** The part of `got` that `w` asked for. */
  function Share(w: Io, got: bv8): bv8 {
    w.events & got
  }

  /** `fd_event_nocheck`: each watcher gets the part of `got` it asked for, if any. */
  function Feeds(ws: seq<Io>, got: bv8): seq<(Io, bv8)> {
    if ws == [] then [] else FeedOf(ws[0], Share(ws[0], got)) + Feeds(ws[1..], got)
  }

  function FeedOf(w: Io, share: bv8): seq<(Io, bv8)> {
    if share != 0 then [(w, share)] else []
  }

  /** The feeds are exactly the watchers with a matching event, each with its share. */
  lemma {:induction false} FeedsExact(ws: seq<Io>, got: bv8, w: Io, ev: bv8)
    ensures (w, ev) in Feeds(ws, got) <==> w in ws && ev == w.events & got && ev != 0
  {
    assert Share(w, got) == w.events & got;
    FeedsShares(ws, got, w, ev);
  }

  lemma {:induction false} FeedsShares(ws: seq<Io>, got: bv8, w: Io, ev: bv8)
    ensures (w, ev) in Feeds(ws, got) <==> w in ws && ev == Share(w, got) && ev != 0
  {
    if ws != [] {
      FeedsShares(ws[1..], got, w, ev);
      assert (w, ev) in FeedOf(ws[0], Share(ws[0], got)) <==> w == ws[0] && ev == Share(ws[0], got) && ev != 0;
      assert w in ws <==> w == ws[0] || w in ws[1..];
    }
  }

  lemma SameUpdate(a: seq<Anfd>, b: seq<Anfd>, c: seq<Anfd>, fd: nat)
    requires fd < |a| == |b| == |c| && b == a[fd := b[fd]] && c == b[fd := c[fd]]
    ensures c == a[fd := c[fd]]
  {
  }

  lemma ResetKeepsTable(anfds: seq<Anfd>, active: set<Io>, changes: seq<nat>, fd: nat)
    requires TableOk(anfds, active, changes) && fd < |anfds|
    ensures var reset := anfds[fd := anfds[fd].(events := 0, emask := 0)];
            TableOk(Flagged(reset, fd, EV_IOFDSET | EV_ANFD_REIFY), active, Changes(reset, changes, fd))
  {
    var reset := anfds[fd := anfds[fd].(events := 0, emask := 0)];
    assert Listed(reset, changes);
    FlaggedListed(reset, changes, fd, EV_IOFDSET | EV_ANFD_REIFY);
    assert reset[fd].reify | (EV_IOFDSET | EV_ANFD_REIFY) != 0;
    var after := Flagged(reset, fd, EV_IOFDSET | EV_ANFD_REIFY);
    forall g: nat | g < |after|
      ensures ListOk(after[g].head, g, active) && EventsOk(after[g])
    {
      assert ListOk(anfds[g].head, g, active) && EventsOk(anfds[g]);
    }
  }

  /** Apart from what the backend records for `fd`, nothing changed. */
  ghost predicate SameBesides(t: seq<Anfd>, u: seq<Anfd>, fd: nat) {
    fd < |t| == |u| && u == t[fd := t[fd].(emask := u[fd].emask)]
  }

  /** The fds with watchers. */
  ghost function Loaded(anfds: seq<Anfd>): set<nat> {
    set fd: nat | fd < |anfds| && anfds[fd].head != []
  }

  /** An fd whose watchers have all been stopped is no longer loaded. */
  lemma LoadedAfter(before: seq<Anfd>, after: seq<Anfd>, fd: nat)
    requires |after| == |before| && fd < |after|
    requires forall g: nat :: g < |after| && g != fd ==> after[g] == before[g]
    ensures after[fd].head == before[fd].head ==> Loaded(after) == Loaded(before)
    ensures before[fd].head != [] && after[fd].head == [] ==> Loaded(after) < Loaded(before)
  {
    assert before[fd].head != [] ==> fd in Loaded(before);
  }

  /** The loop of `fd_reify` over the watchers of an fd. */
  method UnionOf(ws: seq<Io>) returns (ev: bv8)
    ensures ev == Or(ws)
  {
    ev := 0;
    var k := |ws|;
    assert ws[k..] == [];
    while k > 0
      invariant 0 <= k <= |ws| && ev == Or(ws[k..])
    {
      k := k - 1;
      assert ws[k..][1..] == ws[k + 1..];
      ev := ws[k].events | ev;
    }
    assert ws[0..] == ws;
  }

  lemma CleanKeepsTable(anfds: seq<Anfd>, active: set<Io>, changes: seq<nat>, fd: nat)
    requires TableOk(anfds, active, changes) && changes != [] && changes[0] == fd
    ensures fd < |anfds| && IoMask(Or(anfds[fd].head))
    ensures TableOk(anfds[fd := anfds[fd].(reify := 0, events := Or(anfds[fd].head))], active, changes[1..])
  {
    assert ListOk(anfds[fd].head, fd, active);
    OrIsMask(anfds[fd].head);
    var after := anfds[fd := anfds[fd].(reify := 0, events := Or(anfds[fd].head))];
    assert forall g :: g in changes <==> g == fd || g in changes[1..];
    forall g: nat | g < |after|
      ensures ListOk(after[g].head, g, active) && EventsOk(after[g])
    {
      assert ListOk(anfds[g].head, g, active) && EventsOk(anfds[g]);
    }
  }

  lemma RearmKeepsTable(anfds: seq<Anfd>, active: set<Io>, changes: seq<nat>, fd: nat, a: Anfd)
    requires TableOk(anfds, active, changes) && fd < |anfds|
    requires a == anfds[fd].(emask := a.emask, egen := a.egen)
    ensures TableOk(anfds[fd := a], active, changes)
  {
  }

  lemma EpollOkElsewhere(t: seq<Anfd>, u: seq<Anfd>, fd: nat, regs: map<nat, Reg>, regs': map<nat, Reg>,
                         dropped: set<nat>, dropped': set<nat>)
    requires AllEpollOk(t, regs, dropped) && fd < |t| == |u| && u == t[fd := u[fd]]
    requires SameElsewhere(regs, regs', fd) && dropped' - {fd} == dropped - {fd}
    requires EpollOk(u[fd], fd, regs', dropped')
    ensures AllEpollOk(u, regs', dropped')
  {
    forall g: nat | g < |u| && g != fd
      ensures EpollOk(u[g], g, regs', dropped')
    {
      assert EpollOk(t[g], g, regs, dropped);
      assert g in dropped' <==> g in dropped' - {fd};
    }
  }

  lemma Shifted(before: seq<Io>, gone: seq<Io>, w: Io, rest: seq<Io>)
    ensures gone + ([w] + rest) == (gone + [w]) + rest && before + gone + [w] == before + (gone + [w])
  {
  }

  lemma StopFlags(anfds: seq<Anfd>, w: Io)
    requires w.fd < |anfds| && anfds[w.fd].head != [] && anfds[w.fd].head[0] == w
    ensures Stopped(anfds, w)[w.fd].head == anfds[w.fd].head[1..]
    ensures Stopped(anfds, w)[w.fd].reify != 0
    ensures SameRecord(anfds, Stopped(anfds, w))
  {
  }
}
