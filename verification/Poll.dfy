/** The table that `poll` is called with, and its inverse index. */
module Poll {

  const EV_READ: bv8 := 1
  const EV_WRITE: bv8 := 2
  const POLLIN: bv16 := 1
  const POLLOUT: bv16 := 4

  datatype PollFd = PollFd(fd: nat, events: bv16)

  /** A libev mask in the terms of `poll`. */
  function ToPoll(ev: bv8): (r: bv16)
    ensures r & POLLIN != 0 <==> ev & EV_READ != 0
    ensures r & POLLOUT != 0 <==> ev & EV_WRITE != 0
    ensures r & !(POLLIN | POLLOUT) == 0
  {
    (if ev & EV_READ != 0 then POLLIN else 0) | (if ev & EV_WRITE != 0 then POLLOUT else 0)
  }

  /** Only bits that name read or write. */
  predicate IoMask(ev: bv8) {
    ev & 0xfc == 0
  }

  lemma ToPollZero(ev: bv8)
    requires IoMask(ev)
    ensures ToPoll(ev) == 0 <==> ev == 0
  {
  }

  class PollTable {
    var polls: seq<PollFd>
    var pollidxs: seq<int>

    constructor ()
      ensures Valid() && forall fd: nat :: At(fd) == 0
    {
      polls, pollidxs := [], [];
    }

    ghost predicate EntryOk(i: nat)
      requires i < |polls|
      reads this
    {
      polls[i].fd < |pollidxs| && pollidxs[polls[i].fd] == i
    }

    ghost predicate IndexOk(fd: nat)
      requires fd < |pollidxs|
      reads this
    {
      pollidxs[fd] == -1 || (0 <= pollidxs[fd] < |polls| && polls[pollidxs[fd]].fd == fd)
    }

    /** `pollidxs` is the exact inverse of `polls`, so `polls` is dense with distinct fds. */
    ghost predicate Linked()
      reads this
    {
      && (forall i: nat :: i < |polls| ==> EntryOk(i))
      && (forall fd: nat :: fd < |pollidxs| ==> IndexOk(fd))
    }

    ghost predicate Valid()
      reads this
    {
      Linked() && forall i :: 0 <= i < |polls| ==> polls[i].events != 0
    }

    /** What `poll` is asked about `fd`; 0 when it is not in the table. */
    ghost function At(fd: nat): bv16
      requires Linked()
      reads this
    {
      if fd < |pollidxs| && IndexOk(fd) && pollidxs[fd] >= 0 then polls[pollidxs[fd]].events else 0
    }

    /** The table lists exactly the fds that `At` maps to a mask, each once. */
    lemma TableIsAt(fd: nat, events: bv16)
      requires Valid() && events != 0
      ensures PollFd(fd, events) in polls <==> At(fd) == events
      ensures forall i: nat, j: nat :: i < |polls| && j < |polls| && polls[i].fd == polls[j].fd ==> i == j
    {
      forall i: nat, j: nat | i < |polls| && j < |polls| && polls[i].fd == polls[j].fd
        ensures i == j
      {
        assert EntryOk(i) && EntryOk(j);
      }
      if PollFd(fd, events) in polls {
        var i: nat :| i < |polls| && polls[i] == PollFd(fd, events);
        assert EntryOk(i) && IndexOk(fd);
      }
      assert fd < |pollidxs| ==> IndexOk(fd);
    }

    /** Finds the entry of `fd`, or makes one. */
    method Entry(fd: nat) returns (idx: nat)
      requires Linked()
      modifies this
      ensures Linked() && idx < |polls| && polls[idx].fd == fd
      ensures forall g: nat :: At(g) == old(At(g))
      ensures forall i :: 0 <= i < |polls| && i != idx ==> i < old(|polls|) && polls[i] == old(polls)[i]
    {
      if fd >= |pollidxs| {
        pollidxs := pollidxs + seq(fd + 1 - |pollidxs|, _ => -1);
      }
      if pollidxs[fd] < 0 {
        idx := |polls|;
        pollidxs := pollidxs[fd := idx];
        polls := polls + [PollFd(fd, 0)];
      } else {
        assert fd < old(|pollidxs|) && old(IndexOk(fd));
        idx := pollidxs[fd];
      }
      forall i: nat | i < |polls|
        ensures EntryOk(i)
      {
        assert i < old(|polls|) ==> old(EntryOk(i));
      }
      forall g: nat | g < |pollidxs|
        ensures IndexOk(g)
      {
        assert g < old(|pollidxs|) ==> old(IndexOk(g));
      }
    }

    /** Removes an entry; the last one takes its place. */
    method Remove(idx: nat)
      requires Linked() && idx < |polls|
      modifies this
      ensures Linked()
      ensures forall g: nat :: At(g) == if g == old(polls[idx].fd) then 0 else old(At(g))
      ensures |polls| == old(|polls|) - 1
      ensures forall i :: 0 <= i < |polls| ==> polls[i] == old(polls)[if i == idx then |polls| else i]
    {
      assert EntryOk(idx) && EntryOk(|polls| - 1);
      pollidxs := pollidxs[polls[idx].fd := -1];
      var last := polls[|polls| - 1];
      polls := polls[..|polls| - 1];
      if idx < |polls| {
        polls := polls[idx := last];
        pollidxs := pollidxs[last.fd := idx];
      }
      forall i: nat | i < |polls|
        ensures EntryOk(i)
      {
        assert old(EntryOk(i));
      }
      forall g: nat | g < |pollidxs|
        ensures IndexOk(g)
      {
        assert old(IndexOk(g));
      }
      assert forall g: nat :: g < |pollidxs| ==> old(IndexOk(g));
    }

    /** `poll_modify`. */
    method Modify(fd: nat, oev: bv8, nev: bv8)
      requires Valid() && IoMask(nev)
      modifies this
      ensures Valid()
      ensures forall g: nat :: At(g) == if g == fd && oev != nev then ToPoll(nev) else old(At(g))
    {
      ToPollZero(nev);
      if oev == nev {
        return;
      }
      var idx := Entry(fd);
      assert EntryOk(idx);
      if nev != 0 {
        label found:
        polls := polls[idx := PollFd(fd, ToPoll(nev))];
        forall i: nat | i < |polls|
          ensures EntryOk(i)
        {
          assert old@found(EntryOk(i));
        }
        forall g: nat | g < |pollidxs|
          ensures IndexOk(g)
        {
          assert old@found(IndexOk(g));
        }
      } else {
        Remove(idx);
      }
    }
  }
}
