/** ae_evport.c under ae.c: file descriptors are either associated with an event port of
    the kernel, or, from when the port returned them until the next wait, in a list of the
    pending ones. */
module Evport {

  datatype Interest = Readable | Writable

  type Mask = set<Interest>

  const MAX_BATCH: nat := 512

  datatype Fired = Fired(fd: int, mask: Mask)

  // ----- the invariant -----

  predicate PendingAt(fds: seq<int>, i: int, fd: int) { 0 <= i < |fds| && fds[i] == fd }

  predicate EntryAt(fds: seq<int>, masks: seq<Mask>, i: int, fd: int, mask: Mask) {
    0 <= i < |fds| && i < |masks| && fds[i] == fd && masks[i] == mask
  }

  /** A descriptor is associated in the kernel, with its mask, and not pending. */
  ghost predicate InKernel(mask: Mask, kernel: map<int, Mask>, fds: seq<int>, fd: int) {
    fd in kernel && kernel[fd] == mask && fd !in fds
  }

  /** A descriptor is pending, once, with its mask, and not in the kernel. */
  ghost predicate InList(mask: Mask, kernel: map<int, Mask>, fds: seq<int>, masks: seq<Mask>, fd: int)
    requires |fds| == |masks|
  {
    fd !in kernel && exists i :: EntryAt(fds, masks, i, fd, mask) && forall j :: PendingAt(fds, j, fd) ==> j == i
  }

  /** What holds of one descriptor: with events, it is represented exactly once; without,
      not at all. */
  ghost predicate Represented(mask: Mask, kernel: map<int, Mask>, fds: seq<int>, masks: seq<Mask>, fd: int)
    requires |fds| == |masks|
  {
    if mask == {} then fd !in kernel && fd !in fds
    else InKernel(mask, kernel, fds, fd) || InList(mask, kernel, fds, masks, fd)
  }

  ghost predicate Inv(events: seq<Mask>, kernel: map<int, Mask>, fds: seq<int>, masks: seq<Mask>) {
    |fds| == |masks| && (forall fd <- kernel.Keys :: 0 <= fd < |events|) &&
    (forall i :: 0 <= i < |fds| ==> -1 <= fds[i] < |events|) &&
    forall fd {:trigger events[fd]} :: 0 <= fd < |events| ==> Represented(events[fd], kernel, fds, masks, fd)
  }

  /** The entry of a pending descriptor. */
  lemma {:induction false} PendingEntry(events: seq<Mask>, kernel: map<int, Mask>, fds: seq<int>, masks: seq<Mask>,
                                        i: nat)
    requires Inv(events, kernel, fds, masks) && i < |fds| && fds[i] != -1
    ensures 0 <= fds[i] < |events| && fds[i] !in kernel && events[fds[i]] != {} && masks[i] == events[fds[i]]
    ensures forall j :: 0 <= j < |fds| && fds[j] == fds[i] ==> j == i
  {
    var fd := fds[i];
    assert Represented(events[fd], kernel, fds, masks, fd) && fd in fds && PendingAt(fds, i, fd);
    var k :| EntryAt(fds, masks, k, fd, events[fd]) && forall j :: PendingAt(fds, j, fd) ==> j == k;
    forall j | 0 <= j < |fds| && fds[j] == fd ensures j == i {
      assert PendingAt(fds, j, fd);
    }
  }

  /** The descriptors other than one that changes are represented as before. */
  lemma {:induction false} OthersKept(mask: Mask, kernel: map<int, Mask>, fds: seq<int>, masks: seq<Mask>,
                                      kernel': map<int, Mask>, fds': seq<int>, masks': seq<Mask>, fd: int)
    requires |fds| == |masks| == |fds'| == |masks'| && Represented(mask, kernel, fds, masks, fd)
    requires (fd in kernel <==> fd in kernel') && (fd in kernel ==> kernel[fd] == kernel'[fd])
    requires forall i :: 0 <= i < |fds| ==>
      (fds[i] == fd <==> fds'[i] == fd) && (fds[i] == fd ==> masks[i] == masks'[i])
    ensures Represented(mask, kernel', fds', masks', fd)
  {
    if InList(mask, kernel, fds, masks, fd) {
      var i :| EntryAt(fds, masks, i, fd, mask) && forall j :: PendingAt(fds, j, fd) ==> j == i;
      assert EntryAt(fds', masks', i, fd, mask);
      forall j | PendingAt(fds', j, fd) ensures j == i { assert PendingAt(fds, j, fd); }
    }
  }

  // ----- steps -----

  /** An association, of a descriptor that is not pending, gives it its mask. */
  lemma {:induction false} Associated(events: seq<Mask>, kernel: map<int, Mask>, fds: seq<int>, masks: seq<Mask>,
                                      fd: int, m: Mask)
    requires Inv(events, kernel, fds, masks) && 0 <= fd < |events| && fd !in fds && m != {}
    ensures Inv(events[fd := m], kernel[fd := m], fds, masks)
  {
    var events', kernel' := events[fd := m], kernel[fd := m];
    forall d {:trigger events'[d]} | 0 <= d < |events'| ensures Represented(events'[d], kernel', fds, masks, d) {
      if d != fd { OthersKept(events[d], kernel, fds, masks, kernel', fds, masks, d); }
    }
  }

  lemma {:induction false} Dissociated(events: seq<Mask>, kernel: map<int, Mask>, fds: seq<int>, masks: seq<Mask>,
                                       fd: int)
    requires Inv(events, kernel, fds, masks) && 0 <= fd < |events| && fd !in fds
    ensures Inv(events[fd := {}], kernel - {fd}, fds, masks)
  {
    var events', kernel' := events[fd := {}], kernel - {fd};
    forall d {:trigger events'[d]} | 0 <= d < |events'| ensures Represented(events'[d], kernel', fds, masks, d) {
      if d != fd { OthersKept(events[d], kernel, fds, masks, kernel', fds, masks, d); }
    }
  }

  /** A change of the mask of a pending descriptor; without a mask it is struck out. */
  lemma {:induction false} PendingChanged(events: seq<Mask>, kernel: map<int, Mask>, fds: seq<int>, masks: seq<Mask>,
                                          i: nat, m: Mask)
    requires Inv(events, kernel, fds, masks) && i < |fds| && fds[i] != -1
    ensures 0 <= fds[i] < |events|
    ensures Inv(events[fds[i] := m], kernel, if m == {} then fds[i := -1] else fds, masks[i := m])
  {
    PendingEntry(events, kernel, fds, masks, i);
    var fd := fds[i];
    var events', fds', masks' := events[fd := m], if m == {} then fds[i := -1] else fds, masks[i := m];
    forall d {:trigger events'[d]} | 0 <= d < |events'| ensures Represented(events'[d], kernel, fds', masks', d) {
      if d != fd {
        OthersKept(events[d], kernel, fds, masks, kernel, fds', masks', d);
      } else if m != {} {
        assert EntryAt(fds', masks', i, fd, m);
        forall j | PendingAt(fds', j, fd) ensures j == i { assert PendingAt(fds, j, fd); }
      }
    }
  }

  /** Reassociating a pending descriptor. */
  lemma {:induction false} Restored(events: seq<Mask>, kernel: map<int, Mask>, fds: seq<int>, masks: seq<Mask>, i: nat)
    requires Inv(events, kernel, fds, masks) && i < |fds|
    ensures fds[i] == -1 ==> Inv(events, kernel, fds, masks[i := {}])
    ensures fds[i] != -1 ==> Inv(events, kernel[fds[i] := masks[i]], fds[i := -1], masks[i := {}])
  {
    var fd := fds[i];
    var kernel', fds', masks' := if fd == -1 then kernel else kernel[fd := masks[i]], fds[i := -1], masks[i := {}];
    if fd != -1 { PendingEntry(events, kernel, fds, masks, i); }
    forall d {:trigger events[d]} | 0 <= d < |events| ensures Represented(events[d], kernel', fds', masks', d) {
      if d != fd { OthersKept(events[d], kernel, fds, masks, kernel', fds', masks', d); }
    }
    if fd == -1 { assert fds' == fds; }
  }

  /** What is not pending does not depend on what is. */
  lemma {:induction false} NotPending(mask: Mask, kernel: map<int, Mask>, fds: seq<int>, masks: seq<Mask>, fd: int,
                                      fds': seq<int>, masks': seq<Mask>)
    requires |fds| == |masks| && |fds'| == |masks'| && Represented(mask, kernel, fds, masks, fd) && fd !in fds &&
      fd !in fds'
    ensures Represented(mask, kernel, fds', masks', fd)
    ensures mask != {} ==> fd in kernel && kernel[fd] == mask
    ensures mask == {} ==> fd !in kernel
  {
  }

  predicate StruckOut(fds: seq<int>) { forall i :: 0 <= i < |fds| ==> fds[i] == -1 }

  /** Once all entries are struck out the list can be emptied: all is in the kernel. */
  lemma {:induction false} Emptied(events: seq<Mask>, kernel: map<int, Mask>, fds: seq<int>, masks: seq<Mask>,
                                   fds': seq<int>, masks': seq<Mask>)
    requires Inv(events, kernel, fds, masks) && StruckOut(fds) && |fds'| == |masks'| && StruckOut(fds')
    ensures Inv(events, kernel, fds', masks')
    ensures forall fd :: fd in kernel <==> 0 <= fd < |events| && events[fd] != {}
    ensures forall fd <- kernel.Keys :: kernel[fd] == events[fd]
  {
    forall fd {:trigger events[fd]} | 0 <= fd < |events|
      ensures Represented(events[fd], kernel, fds', masks', fd) &&
        (events[fd] != {} ==> fd in kernel && kernel[fd] == events[fd])
      ensures fd in kernel ==> events[fd] != {}
    {
      NotPending(events[fd], kernel, fds, masks, fd, fds', masks');
    }
  }

  /** The port returns a descriptor, with the mask of its association, and forgets it. */
  lemma {:induction false} Returned(events: seq<Mask>, kernel: map<int, Mask>, fds: seq<int>, masks: seq<Mask>, fd: int)
    requires Inv(events, kernel, fds, masks) && fd in kernel
    ensures Inv(events, kernel - {fd}, fds + [fd], masks + [kernel[fd]])
  {
    var kernel', fds', masks' := kernel - {fd}, fds + [fd], masks + [kernel[fd]];
    assert Represented(events[fd], kernel, fds, masks, fd);
    forall d {:trigger events[d]} | 0 <= d < |events| ensures Represented(events[d], kernel', fds', masks', d) {
      if d == fd {
        assert EntryAt(fds', masks', |fds|, fd, kernel[fd]);
        forall j | PendingAt(fds', j, fd) ensures j == |fds| { assert forall i :: 0 <= i < |fds| ==> fds[i] != fd; }
      } else {
        ReturnedOther(events[d], kernel, fds, masks, fd, d);
      }
    }
  }

  lemma {:induction false} ReturnedOther(mask: Mask, kernel: map<int, Mask>, fds: seq<int>, masks: seq<Mask>, fd: int,
                                         d: int)
    requires |fds| == |masks| && Represented(mask, kernel, fds, masks, d) && d != fd && fd in kernel
    ensures Represented(mask, kernel - {fd}, fds + [fd], masks + [kernel[fd]], d)
  {
    var fds', masks' := fds + [fd], masks + [kernel[fd]];
    if InList(mask, kernel, fds, masks, d) {
      var i :| EntryAt(fds, masks, i, d, mask) && forall j :: PendingAt(fds, j, d) ==> j == i;
      assert EntryAt(fds', masks', i, d, mask);
      forall j | PendingAt(fds', j, d) ensures j == i { assert PendingAt(fds, j, d); }
    }
  }

  // ----- the event loop -----

  /** The greatest descriptor with events, or -1. */
  ghost predicate IsMax(events: seq<Mask>, maxfd: int) {
    -1 <= maxfd < |events| && (maxfd >= 0 ==> events[maxfd] != {}) && forall fd :: maxfd < fd < |events| ==>
      events[fd] == {}
  }

  /** The event loop, with its port; `kernel` is what the port holds. */
  class EventLoop {
    const setsize: nat
    const events: array<Mask>
    var maxfd: int
    var npending: nat
    const pendingFds: array<int>
    const pendingMasks: array<Mask>
    var kernel: map<int, Mask>

    ghost predicate Shape()
      reads this
    {
      events.Length == setsize && pendingFds.Length == pendingMasks.Length == MAX_BATCH && events != pendingMasks &&
      npending <= MAX_BATCH
    }

    ghost predicate Valid()
      reads this, events, pendingFds, pendingMasks
    {
      Shape() && IsMax(events[..], maxfd) && Inv(events[..], kernel, pendingFds[..npending], pendingMasks[..npending])
    }

    /** aeCreateEventLoop and aeApiCreate */
    constructor (size: nat)
      ensures Valid() && setsize == size && fresh(events) && fresh(pendingFds) && fresh(pendingMasks)
      ensures events[..] == seq(size, i => {}) && kernel == map[]
    {
      setsize, maxfd, npending, kernel := size, -1, 0, map[];
      events := new Mask[size](i => {});
      pendingFds := new int[MAX_BATCH](i => -1);
      pendingMasks := new Mask[MAX_BATCH](i => {});
    }

    /** aeApiLookupPending */
    method LookupPending(fd: int) returns (i: int)
      requires Shape()
      ensures -1 <= i < npending && (i >= 0 ==> pendingFds[i] == fd) && (i == -1 <==> fd !in pendingFds[..npending])
    {
      i := 0;
      while i < npending
        invariant 0 <= i <= npending && fd !in pendingFds[..i]
      {
        if pendingFds[i] == fd { return; }
        i := i + 1;
      }
      i := -1;
    }

    /** aeApiAddEvent and the update of the mask in aeCreateFileEvent. `fails` says that
        the kernel refuses an association. */
    method CreateFileEvent(fd: nat, mask: Mask, fails: bool) returns (ok: bool)
      requires Valid() && mask != {}
      modifies this, events, pendingMasks
      ensures Valid() && (fd >= setsize ==> !ok) && (fd < setsize && !fails ==> ok)
      ensures events[..] == if ok then old(events[..])[fd := old(events[fd]) + mask] else old(events[..])
      ensures !ok ==> kernel == old(kernel) && pendingMasks[..] == old(pendingMasks[..])
    {
      if fd >= setsize { return false; }
      var i := LookupPending(fd);
      var full := mask + events[fd];
      ghost var evs, fds, masks := events[..], pendingFds[..npending], pendingMasks[..npending];
      if i != -1 {
        PendingEntry(evs, kernel, fds, masks, i);
        PendingChanged(evs, kernel, fds, masks, i, events[fd] + mask);
        assert masks[i] + full == evs[fd] + mask;
        pendingMasks[i] := pendingMasks[i] + full;
        assert pendingMasks[..npending] == masks[i := evs[fd] + mask];
      } else {
        if fails { return false; }
        Associated(evs, kernel, fds, masks, fd, full);
        kernel := kernel[fd := full];
        assert evs[fd] + mask == full;
      }
      events[fd] := events[fd] + mask;
      if fd > maxfd { maxfd := fd; }
      ok := true;
    }

    /** aeDeleteFileEvent */
    method DeleteFileEvent(fd: nat, mask: Mask)
      requires Valid()
      modifies this, events, pendingFds, pendingMasks
      ensures Valid()
      ensures events[..] == if fd < setsize then old(events[..])[fd := old(events[fd]) - mask] else old(events[..])
    {
      if fd >= setsize { return; }
      if events[fd] == {} {
        assert events[fd] - mask == events[fd] && events[..] == events[..][fd := events[fd]];
        return;
      }
      ghost var evs := events[..];
      events[fd] := events[fd] - mask;
      if fd == maxfd && events[fd] == {} {
        var j := maxfd - 1;
        while j >= 0 && events[j] == {}
          invariant -1 <= j < maxfd && forall k :: j < k < events.Length ==> events[k] == {}
        {
          j := j - 1;
        }
        maxfd := j;
      }
      DelEvent(fd, mask, evs);
    }

    /** aeApiDelEvent, after the mask in the event loop has been updated. An association
        is only removed where there is one. */
    method DelEvent(fd: nat, mask: Mask, ghost evs: seq<Mask>)
      requires Shape() && fd < setsize == |evs| && evs[fd] != {}
      requires Inv(evs, kernel, pendingFds[..npending], pendingMasks[..npending])
      requires events[..] == evs[fd := evs[fd] - mask]
      modifies this`kernel, pendingFds, pendingMasks
      ensures Inv(events[..], kernel, pendingFds[..npending], pendingMasks[..npending])
      ensures events[..] == old(events[..])
    {
      var i := LookupPending(fd);
      ghost var fds, masks := pendingFds[..npending], pendingMasks[..npending];
      if i != -1 {
        PendingEntry(evs, kernel, fds, masks, i);
        PendingChanged(evs, kernel, fds, masks, i, evs[fd] - mask);
        pendingMasks[i] := pendingMasks[i] - mask;
        if pendingMasks[i] == {} { pendingFds[i] := -1; }
        assert pendingMasks[..npending] == masks[i := evs[fd] - mask];
        assert pendingFds[..npending] == if evs[fd] - mask == {} then fds[i := -1] else fds;
        return;
      }
      assert Represented(evs[fd], kernel, fds, masks, fd);
      if events[fd] == {} {
        Dissociated(evs, kernel, fds, masks, fd);
        PortDissociate(fd);
      } else {
        Associated(evs, kernel, fds, masks, fd, events[fd]);
        kernel := kernel[fd := events[fd]];
      }
    }

    /** port_dissociate, which fails where there is no association, and so ends the
        program. */
    method PortDissociate(fd: int)
      requires fd in kernel
      modifies this`kernel
      ensures kernel == old(kernel) - {fd}
    {
      kernel := kernel - {fd};
    }

    /** The start of aeApiPoll: what is pending goes back into the kernel. When the port
        is waited for, it has exactly the descriptors with events, with their masks. */
    method Restore()
      requires Valid()
      modifies this, pendingFds, pendingMasks
      ensures Valid() && npending == 0 && events[..] == old(events[..])
      ensures forall fd :: fd in kernel <==> 0 <= fd < setsize && events[fd] != {}
      ensures forall fd <- kernel.Keys :: kernel[fd] == events[fd]
    {
      ghost var evs := events[..];
      for i := 0 to npending
        invariant Shape() && events[..] == evs && npending == old(npending) && maxfd == old(maxfd)
        invariant Inv(evs, kernel, pendingFds[..npending], pendingMasks[..npending])
        invariant forall j :: 0 <= j < i ==> pendingFds[j] == -1
      {
        ghost var fds, masks := pendingFds[..npending], pendingMasks[..npending];
        Restored(evs, kernel, fds, masks, i);
        if pendingFds[i] == -1 { continue; }
        kernel := kernel[pendingFds[i] := pendingMasks[i]];
        pendingMasks[i] := {};
        pendingFds[i] := -1;
        assert pendingFds[..npending] == fds[i := -1] && pendingMasks[..npending] == masks[i := {}];
      }
      Emptied(evs, kernel, pendingFds[..npending], pendingMasks[..npending], [], []);
      npending := 0;
      assert pendingFds[..0] == [] && pendingMasks[..0] == [];
    }

    /** The port returns a descriptor, with the mask it was associated with, which becomes
        pending. */
    method Deliver(fd: int)
      requires Valid() && npending < MAX_BATCH && fd in kernel
      modifies this`npending, this`kernel, pendingFds, pendingMasks
      ensures Valid() && npending == old(npending) + 1 && kernel == old(kernel) - {fd} && events[..] == old(events[..])
      ensures fd != -1
      ensures pendingFds[..npending] == old(pendingFds[..npending]) + [fd]
    {
      ghost var evs, fds, masks, k := events[..], pendingFds[..npending], pendingMasks[..npending], kernel;
      Returned(evs, kernel, fds, masks, fd);
      pendingFds[npending], pendingMasks[npending] := fd, kernel[fd];
      kernel := kernel - {fd};
      npending := npending + 1;
      assert pendingFds[..npending] == fds + [fd] && pendingMasks[..npending] == masks + [k[fd]];
    }

    /** aeApiPoll. The port returns any of its descriptors that have become ready, up to
        the size of the batch; `ready` proposes which, and with which events. What is
        returned are descriptors with events, each once. */
    method Poll(ready: seq<Fired>) returns (fired: seq<Fired>)
      requires Valid()
      modifies this, pendingFds, pendingMasks
      ensures Valid() && events[..] == old(events[..]) && Fds(fired) == pendingFds[..npending] && -1 !in Fds(fired)
      ensures npending <= setsize && forall i :: 0 <= i < npending ==>
        0 <= pendingFds[i] < setsize && events[pendingFds[i]] != {} && pendingMasks[i] == events[pendingFds[i]]
      ensures |ready| <= MAX_BATCH ==> AllFired(events[..], Fds(ready), pendingFds[..npending])
    {
      hide Inv, IsMax, Represented;
      Restore();
      fired := [];
      ghost var evs := events[..];
      assert pendingFds[..npending] == [] == Fds(fired) && Fds(ready[..0]) == [];
      for n := 0 to |ready|
        invariant Valid() && events[..] == evs && npending <= n
        invariant Fds(fired) == pendingFds[..npending] && -1 !in pendingFds[..npending]
        invariant n <= MAX_BATCH ==> AllFired(evs, Fds(ready[..n]), pendingFds[..npending])
        invariant KernelOr(evs, kernel, pendingFds[..npending])
      {
        var fd := ready[n].fd;
        assert ready[..n + 1] == ready[..n] + [ready[n]];
        FdsAppend(ready[..n], ready[n]);
        if fd in kernel && npending < MAX_BATCH {
          FdsAppend(fired, ready[n]);
          Deliver(fd);
          fired := fired + [ready[n]];
        }
      }
      assert ready[..|ready|] == ready;
      FiredFit(evs, kernel, pendingFds[..npending], pendingMasks[..npending]);
    }
  }

  function Fds(fired: seq<Fired>): (r: seq<int>)
    ensures |r| == |fired|
  {
    if fired == [] then [] else Fds(fired[..|fired| - 1]) + [fired[|fired| - 1].fd]
  }

  lemma {:induction false} FdsAppend(fired: seq<Fired>, f: Fired)
    ensures Fds(fired + [f]) == Fds(fired) + [f.fd]
  {
    assert (fired + [f])[..|fired|] == fired;
  }

  /** Of the proposed descriptors, those with events were returned. */
  ghost predicate AllFired(events: seq<Mask>, ready: seq<int>, fired: seq<int>) {
    forall fd :: fd in ready && 0 <= fd < |events| && events[fd] != {} ==> fd in fired
  }

  ghost predicate KernelOr(events: seq<Mask>, kernel: map<int, Mask>, fds: seq<int>) {
    forall fd :: 0 <= fd < |events| && events[fd] != {} ==> fd in kernel || fd in fds
  }

  /** The descriptors that a wait returned have events, and there are no more of them than
      descriptors, so that they fit the array of the event loop. */
  lemma {:induction false} FiredFit(events: seq<Mask>, kernel: map<int, Mask>, fds: seq<int>, masks: seq<Mask>)
    requires Inv(events, kernel, fds, masks) && -1 !in fds
    ensures forall i :: 0 <= i < |fds| ==> 0 <= fds[i] < |events| && events[fds[i]] != {} && masks[i] == events[fds[i]]
    ensures |fds| <= |events|
  {
    forall i: nat | i < |fds|
      ensures 0 <= fds[i] < |events| && events[fds[i]] != {} && masks[i] == events[fds[i]]
      ensures forall j :: 0 <= j < |fds| && fds[j] == fds[i] ==> j == i
    {
      PendingEntry(events, kernel, fds, masks, i);
    }
    Pigeons(fds, |events|);
  }

  lemma {:induction false} Pigeons(s: seq<int>, n: nat)
    requires forall i :: 0 <= i < |s| ==> 0 <= s[i] < n
    requires forall i, j :: 0 <= i < j < |s| ==> s[i] != s[j]
    ensures |s| <= n
    decreases n
  {
    assert s == [] || 0 <= s[0] < n;
    if n == 0 {
    } else if n - 1 in s {
      var k :| 0 <= k < |s| && s[k] == n - 1;
      Pigeons(s[..k] + s[k + 1..], n - 1);
    } else {
      Pigeons(s, n - 1);
    }
  }

  // ----- runs -----

  datatype Call = Create(fd: nat, mask: Mask, fails: bool) | Delete(fd: nat, mask: Mask) | Wait(ready: seq<Fired>)

  /** Over every run each descriptor with events is represented exactly once, with the
      mask that the event loop has for it, and no other at all. */
  method Serve(l: EventLoop, calls: seq<Call>)
    requires l.Valid()
    modifies l, l.events, l.pendingFds, l.pendingMasks
    ensures l.Valid()
    decreases |calls|
  {
    if calls == [] { return; }
    match calls[0] {
      case Create(fd, mask, fails) =>
        if mask != {} { var _ := l.CreateFileEvent(fd, mask, fails); }
      case Delete(fd, mask) => l.DeleteFileEvent(fd, mask);
      case Wait(ready) => var _ := l.Poll(ready);
    }
    Serve(l, calls[1..]);
  }
}
