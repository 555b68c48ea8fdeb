/** Each step of the virtqueue system keeps the invariant. */
module VirtqueueSteps {
  import opened Bits
  import opened Rings
  import opened Virtqueue

  // ---- send ----

  lemma SendPartition(n: nat, free: seq<nat>, requests: map<nat, Request>, k: nat, r: Request)
    requires Partition(n, free, requests)
    requires 0 < k <= |free| && r.descs == free[..k]
    ensures free[0] !in requests
    ensures Partition(n, free[k..], requests[free[0] := r])
  {
    var requests' := requests[free[0] := r];
    HeadsNotFree(n, free, requests);
    forall h | h in requests'
      ensures OwnChain(n, free[k..], h, requests'[h].descs)
    {
      if h == free[0] {
        forall d | d in free[..k] ensures d < n && d !in free[k..] {
          assert d in free;
        }
      } else {
        assert OwnChain(n, free, h, requests[h].descs);
      }
    }
    forall h, d | h in requests && d in requests[h].descs
      ensures d !in free[..k]
    {
      assert OwnChain(n, free, h, requests[h].descs);
      assert d in free[..k] ==> d in free;
    }
    forall d: nat | d < n
      ensures d in free[k..] || Owned(requests', d)
    {
      if d in free {
        assert d in free[..k] || d in free[k..];
        assert d in free[..k] ==> free[0] in requests' && d in requests'[free[0]].descs;
      } else {
        OwnedStays(requests, requests', d);
      }
    }
    forall d | d in free[k..] ensures d < n {
      assert d in free;
    }
  }

  lemma HeadsNotFree(n: nat, free: seq<nat>, requests: map<nat, Request>)
    requires Partition(n, free, requests)
    ensures forall h :: h in requests ==> h !in free
  {
    forall h | h in requests
      ensures h !in free
    {
      assert OwnChain(n, free, h, requests[h].descs);
      assert requests[h].descs[0] in requests[h].descs;
    }
  }

  lemma OwnedStays(requests: map<nat, Request>, requests': map<nat, Request>, d: nat)
    requires Owned(requests, d)
    requires forall h :: h in requests && d in requests[h].descs ==> h in requests' && requests'[h].descs == requests[h].descs
    ensures Owned(requests', d)
  {
    var h :| h in requests && d in requests[h].descs;
    assert h in requests' && d in requests'[h].descs;
  }

  lemma SendStored(q: Queue, q': Queue, chain: seq<Buffer>, requests: map<nat, Request>, r: Request)
    requires Shape(q) && Partition(q.n, q.free, requests) && AllStored(q.table, requests)
    requires SendMemory(q, q', chain) && WellFormedChain(chain)
    requires r.descs == q.free[..|chain|] && r.buffers == chain
    ensures AllStored(q'.table, requests[q.free[0] := r])
  {
    forall h | h in requests && h != q.free[0]
      ensures Stored(q'.table, requests[h])
    {
      assert OwnChain(q.n, q.free, h, requests[h].descs) && Stored(q.table, requests[h]);
      forall d | d in requests[h].descs ensures d !in q.free[..|chain|] {
      }
    }
  }

  /** The available slot `send` writes is not one the device has yet to consume. */
  lemma SendSlotFree(s: System)
    requires Inv(s) && |s.q.free| > 0
    ensures |s.offers| - s.taken < s.q.n
    ensures forall i :: s.taken <= i < |s.offers| ==> Slot(s.q.n, i) != Slot(s.q.n, s.q.availIdx)
  {
    AvailCount(s.requests, s.offers, s.taken);
    RequestsFit(s.q.n, s.q.free, s.requests);
    IndexSlot(s.q.n, |s.offers|);
    forall i | s.taken <= i < |s.offers|
      ensures Slot(s.q.n, i) != Slot(s.q.n, |s.offers|)
    {
      SlotsApart(s.q.n, i, |s.offers|);
    }
  }

  lemma SendWindows(requests: map<nat, Request>, offers: seq<nat>, taken: nat, completed: seq<UsedElement>, accepted: nat, h: nat, r: Request)
    requires AvailWindow(requests, offers, taken) && UsedWindow(requests, completed, accepted)
    requires h !in requests && r.phase == Offered(|offers|) && taken <= |offers|
    ensures AvailWindow(requests[h := r], offers + [h], taken)
    ensures UsedWindow(requests[h := r], completed, accepted)
  {
  }

  lemma SendNumbers(s: System, s': System, head: nat)
    requires Numbers(s) && |s.offers| < s.taken + s.q.n
    requires s'.q.avail == s.q.avail[Slot(s.q.n, s.q.availIdx) := head] && s'.offers == s.offers + [head]
    requires s'.q.n == s.q.n && s'.q.used == s.q.used && s'.q.usedIdx == s.q.usedIdx && s'.q.usedHead == s.q.usedHead
    requires s'.q.availIdx == Step16(s.q.availIdx)
    requires |s'.q.table| == s.q.n && s'.taken == s.taken && s'.completed == s.completed && s'.accepted == s.accepted
    ensures Numbers(s')
  {
    RingAdvance(s.q.avail, s.q.availIdx, s.offers, s.taken, head);
  }

  lemma SendChains(s: System, s': System, chain: seq<Buffer>)
    requires Shape(s.q) && ChainsInv(s) && SendStep(s, s', chain)
    ensures ChainsInv(s') && s.q.free[0] !in s.requests
  {
    var r := Request(s.q.free[..|chain|], chain, Offered(|s.offers|));
    SendPartition(s.q.n, s.q.free, s.requests, |chain|, r);
    SendStored(s.q, s'.q, chain, s.requests, r);
  }

  lemma SendOffers(s: System, s': System, chain: seq<Buffer>)
    requires Shape(s.q) && WindowsInv(s) && s.taken <= |s.offers|
    requires SendStep(s, s', chain) && s.q.free[0] !in s.requests
    ensures WindowsInv(s')
  {
    var r := Request(s.q.free[..|chain|], chain, Offered(|s.offers|));
    SendWindows(s.requests, s.offers, s.taken, s.completed, s.accepted, s.q.free[0], r);
  }

  /** What polls remember does not depend on new requests or on the queue beyond its wakers. */
  lemma PollsKept(s: System, s': System)
    requires PollsInv(s) && s.requests.Keys <= s'.requests.Keys && s'.q.wakers == s.q.wakers && s'.poll == s.poll
    requires s'.completed == s.completed && s'.accepted == s.accepted && s'.log == s.log
    requires s'.waiting == s.waiting && s'.woken == s.woken && s'.irq == s.irq && s'.irqThread == s.irqThread
    ensures PollsInv(s')
  {
    assert LogOk(s') by { LogKept(s, s'); }
    assert Polling(s') by { WaitsKept(s, s'); }
  }

  lemma LogKept(s: System, s': System)
    requires LogOk(s) && s'.completed == s.completed && s'.accepted == s.accepted && s'.log == s.log
    ensures LogOk(s')
  {
  }

  lemma WaitsKept(s: System, s': System)
    requires Polling(s) && s.requests.Keys <= s'.requests.Keys && s'.q.wakers == s.q.wakers && s'.poll == s.poll
    requires s'.completed == s.completed && s'.accepted == s.accepted
    requires s'.waiting == s.waiting && s'.woken == s.woken && s'.irq == s.irq && s'.irqThread == s.irqThread
    ensures Polling(s')
  {
    forall h | h in s'.waiting ensures h in s'.requests {
      assert h in s.requests;
    }
  }

  lemma SendRing(s: System, s': System, chain: seq<Buffer>)
    requires Numbers(s) && SendStep(s, s', chain) && |s.offers| < s.taken + s.q.n
    ensures Numbers(s')
  {
    SendNumbers(s, s', s.q.free[0]);
  }

  lemma SendKeeps(s: System, s': System, chain: seq<Buffer>)
    requires Inv(s) && SendStep(s, s', chain)
    ensures Inv(s')
  {
    assert |s.offers| < s.taken + s.q.n by { SendSlotFree(s); }
    SendRing(s, s', chain);
    SendChains(s, s', chain);
    SendOffers(s, s', chain);
    PollsKept(s, s');
  }

  // ---- poll ----

  lemma {:induction false} WalkUnique(table: seq<Descriptor>, p: seq<nat>, r: seq<nat>)
    requires IsWalk(table, p) && IsWalk(table, r) && p[0] == r[0]
    ensures p == r
    decreases |p|
  {
    if |p| > 1 && |r| > 1 {
      assert p[1] == r[1];
      assert forall i :: 0 <= i < |p| - 1 ==> p[1..][i] == p[i + 1];
      assert forall i :: 0 <= i < |r| - 1 ==> r[1..][i] == r[i + 1];
      WalkUnique(table, p[1..], r[1..]);
      assert p == [p[0]] + p[1..] && r == [r[0]] + r[1..];
    }
  }

  lemma ReadyPartition(n: nat, free: seq<nat>, requests: map<nat, Request>, h: nat)
    requires Partition(n, free, requests) && h in requests
    ensures Partition(n, free + requests[h].descs, requests - {h})
  {
    var ds, requests' := requests[h].descs, requests - {h};
    assert OwnChain(n, free, h, ds);
    forall i, j | 0 <= i < |free| && 0 <= j < |ds|
      ensures free[i] != ds[j]
    {
      assert ds[j] in ds;
    }
    forall g | g in requests'
      ensures OwnChain(n, free + ds, g, requests'[g].descs)
    {
      assert OwnChain(n, free, g, requests[g].descs);
    }
    forall d: nat | d < n
      ensures d in free + ds || Owned(requests', d)
    {
      if d !in free && d !in ds {
        OwnedStays(requests, requests', d);
      }
    }
  }

  /** Between two Ready results at most a queueful of used entries is published. */
  lemma UsedBound(s: System)
    requires Inv(s)
    ensures |s.completed| - s.accepted <= s.q.n <= 32768
  {
    UsedCount(s.requests, s.completed, s.accepted, {});
    RequestsFit(s.q.n, s.q.free, s.requests);
  }

  /**
   Poll's 16-bit comparison is exact, and a Ready request is one the device returned:
   it is Ready precisely when its completion is the newest entry the poll saw and that
   entry is later than the last one accepted.
   */
  lemma PollExact(s: System)
    requires Inv(s) && s.poll.HasRead?
    ensures s.poll.index == s.q.usedHead <==> s.poll.seen == s.accepted
    ensures var o := PollOutcome(s.q, s.poll.head, s.poll.index);
            var phase := s.requests[s.poll.head].phase;
            && (o.Ready? <==> phase.Done? && phase.pos == s.poll.seen - 1 && s.poll.seen > s.accepted)
            && (o.Ready? ==> phase == Done(s.poll.seen - 1, o.written))
  {
    UsedBound(s);
    PollCompares(s.accepted, s.poll.seen);
    PollFinds(s);
  }

  lemma PollFinds(s: System)
    requires Numbers(s) && UsedWindow(s.requests, s.completed, s.accepted)
    requires s.poll.HasRead? && s.poll.head in s.requests
    requires s.accepted <= s.poll.seen <= |s.completed| && s.poll.index == s.poll.seen % 0x1_0000
    requires s.poll.index == s.q.usedHead <==> s.poll.seen == s.accepted
    ensures var o := PollOutcome(s.q, s.poll.head, s.poll.index);
            var phase := s.requests[s.poll.head].phase;
            && (o.Ready? <==> phase.Done? && phase.pos == s.poll.seen - 1 && s.poll.seen > s.accepted)
            && (o.Ready? ==> phase == Done(s.poll.seen - 1, o.written))
  {
    if s.poll.seen > s.accepted {
      NewestElement(s.q, s.completed, s.accepted, s.poll.seen);
      NewestIs(s.requests, s.completed, s.accepted, s.poll.head, s.poll.seen);
    }
  }

  /** The newest entry names the request exactly when the request was returned there. */
  lemma NewestIs(requests: map<nat, Request>, completed: seq<UsedElement>, accepted: nat, h: nat, seen: nat)
    requires UsedWindow(requests, completed, accepted) && accepted < seen <= |completed| && h in requests
    ensures completed[seen - 1].index == h <==> requests[h].phase.Done? && requests[h].phase.pos == seen - 1
    ensures completed[seen - 1].index == h ==> requests[h].phase == Done(seen - 1, completed[seen - 1].written)
  {
    assert requests[completed[seen - 1].index].phase.Done?;
  }

  lemma PollCompares(accepted: nat, seen: nat)
    requires accepted <= seen <= accepted + 32768
    ensures seen % 0x1_0000 == accepted % 0x1_0000 <==> seen == accepted
  {
    if seen > accepted {
      SlotsDiffer(0x1_0000, accepted, seen);
    }
  }

  /** The element poll reads is the newest one published when it read the index. */
  lemma NewestElement(q: Queue, completed: seq<UsedElement>, accepted: nat, seen: nat)
    requires Shape(q) && RingHolds(q.used, completed, accepted)
    requires accepted < seen <= |completed|
    ensures q.used[Slot(q.n, (seen % 0x1_0000 - 1) % 0x1_0000)] == completed[seen - 1]
  {
    PredMod(seen);
    IndexSlot(q.n, seen - 1);
  }

  lemma PredMod(x: nat)
    requires x > 0
    ensures (x % 0x1_0000 - 1) % 0x1_0000 == (x - 1) % 0x1_0000
  {
  }

  /** The walk of a Ready poll is the request's own chain: the recycling loop ends and frees just that chain. */
  lemma FinishPath(s: System, s': System, path: seq<nat>)
    requires Inv(s) && FinishStep(s, s', path)
    requires PollOutcome(s.q, s.poll.head, s.poll.index).Ready?
    ensures path == s.requests[s.poll.head].descs
  {
    var r := s.requests[s.poll.head];
    assert OwnChain(s.q.n, s.q.free, s.poll.head, r.descs) && Stored(s.q.table, r);
    WalkUnique(s.q.table, path, r.descs);
  }

  lemma ReadyWindows(requests: map<nat, Request>, offers: seq<nat>, taken: nat, completed: seq<UsedElement>, accepted: nat, h: nat)
    requires AvailWindow(requests, offers, taken) && UsedWindow(requests, completed, accepted)
    requires h in requests && requests[h].phase.Done? && requests[h].phase.pos >= accepted
    ensures AvailWindow(requests - {h}, offers, taken)
    ensures UsedWindow(requests - {h}, completed, requests[h].phase.pos + 1)
  {
  }

  lemma FinishPolling(s: System, s': System, path: seq<nat>)
    requires Shape(s.q) && Polling(s) && LogOk(s) && FinishStep(s, s', path)
    requires var o := PollOutcome(s.q, s.poll.head, s.poll.index);
             o.Ready? ==> s.accepted < s.poll.seen && s.completed[s.poll.seen - 1] == UsedElement(s.poll.head, o.written)
    ensures PollsInv(s')
  {
  }

  lemma ReadyNumbers(s: System, s': System, path: seq<nat>)
    requires Numbers(s) && Polling(s) && FinishStep(s, s', path)
    requires PollOutcome(s.q, s.poll.head, s.poll.index).Ready? && s.accepted < s.poll.seen
    ensures Numbers(s')
  {
  }

  lemma ReadyChains(s: System, s': System, path: seq<nat>)
    requires Shape(s.q) && ChainsInv(s) && FinishStep(s, s', path) && s.poll.head in s.requests
    requires PollOutcome(s.q, s.poll.head, s.poll.index).Ready? && path == s.requests[s.poll.head].descs
    ensures ChainsInv(s')
  {
    ReadyPartition(s.q.n, s.q.free, s.requests, s.poll.head);
  }

  lemma ReadyOffers(s: System, s': System, path: seq<nat>)
    requires Shape(s.q) && WindowsInv(s) && FinishStep(s, s', path) && s.poll.head in s.requests
    requires var o := PollOutcome(s.q, s.poll.head, s.poll.index);
             o.Ready? && s.accepted < s.poll.seen && s.requests[s.poll.head].phase == Done(s.poll.seen - 1, o.written)
    ensures WindowsInv(s')
  {
    ReadyWindows(s.requests, s.offers, s.taken, s.completed, s.accepted, s.poll.head);
  }

  lemma ReadyKeeps(s: System, s': System, path: seq<nat>)
    requires Inv(s) && FinishStep(s, s', path)
    requires PollOutcome(s.q, s.poll.head, s.poll.index).Ready?
    ensures Inv(s')
  {
    PollExact(s);
    FinishPath(s, s', path);
    FinishPolling(s, s', path);
    ReadyNumbers(s, s', path);
    ReadyChains(s, s', path);
    ReadyOffers(s, s', path);
  }

  lemma PendingKeeps(s: System, s': System, path: seq<nat>)
    requires Inv(s) && FinishStep(s, s', path)
    requires PollOutcome(s.q, s.poll.head, s.poll.index).Pending?
    ensures Inv(s')
  {
    FinishPolling(s, s', path);
    SameQueue(s, s');
  }

  // ---- device ----

  lemma RephasePartition(n: nat, free: seq<nat>, requests: map<nat, Request>, h: nat, phase: Phase)
    requires Partition(n, free, requests) && h in requests
    ensures Partition(n, free, requests[h := requests[h].(phase := phase)])
  {
    var requests' := requests[h := requests[h].(phase := phase)];
    assert requests'.Keys == requests.Keys && forall g :: g in requests ==> requests'[g].descs == requests[g].descs;
    forall d: nat | d < n
      ensures d in free || Owned(requests', d)
    {
      if d !in free {
        OwnedStays(requests, requests', d);
      }
    }
  }

  lemma RephaseStored(table: seq<Descriptor>, requests: map<nat, Request>, h: nat, phase: Phase)
    requires AllStored(table, requests) && h in requests
    ensures AllStored(table, requests[h := requests[h].(phase := phase)])
  {
    assert Stored(table, requests[h]);
  }

  lemma TakeWindows(requests: map<nat, Request>, offers: seq<nat>, taken: nat, completed: seq<UsedElement>, accepted: nat)
    requires AvailWindow(requests, offers, taken) && UsedWindow(requests, completed, accepted)
    requires taken < |offers|
    ensures var h := offers[taken];
            && h in requests
            && AvailWindow(requests[h := requests[h].(phase := Held)], offers, taken + 1)
            && UsedWindow(requests[h := requests[h].(phase := Held)], completed, accepted)
  {
  }

  lemma RephaseChains(s: System, s': System, head: nat, phase: Phase)
    requires ChainsInv(s) && head in s.requests && s'.requests == s.requests[head := s.requests[head].(phase := phase)]
    requires s'.q.n == s.q.n && s'.q.free == s.q.free && s'.q.table == s.q.table
    ensures ChainsInv(s')
  {
    RephasePartition(s.q.n, s.q.free, s.requests, head, phase);
    RephaseStored(s.q.table, s.requests, head, phase);
  }

  lemma TakeOffers(s: System, s': System)
    requires Shape(s.q) && WindowsInv(s) && TakeStep(s, s') && s.q.avail[Slot(s.q.n, s.taken)] == s.offers[s.taken]
    ensures WindowsInv(s')
  {
    TakeWindows(s.requests, s.offers, s.taken, s.completed, s.accepted);
  }

  lemma TakeNumbers(s: System, s': System)
    requires Numbers(s) && TakeStep(s, s')
    ensures Numbers(s') && s.q.avail[Slot(s.q.n, s.taken)] == s.offers[s.taken]
  {
  }

  lemma TakeKeeps(s: System, s': System)
    requires Inv(s) && TakeStep(s, s')
    ensures Inv(s')
  {
    TakeNumbers(s, s');
    RephaseChains(s, s', s.offers[s.taken], Held);
    TakeOffers(s, s');
    PollsKept(s, s');
  }

  lemma PublishWindows(requests: map<nat, Request>, offers: seq<nat>, taken: nat, completed: seq<UsedElement>, accepted: nat, h: nat, written: nat)
    requires AvailWindow(requests, offers, taken) && UsedWindow(requests, completed, accepted)
    requires h in requests && requests[h].phase.Held?
    ensures var requests' := requests[h := requests[h].(phase := Done(|completed|, written))];
            && AvailWindow(requests', offers, taken)
            && UsedWindow(requests', completed + [UsedElement(h, written)], accepted)
  {
  }

  /** The used slot the device writes is not one poll has yet to look at. */
  lemma PublishSlotFree(s: System, head: nat)
    requires Inv(s) && head in s.requests && s.requests[head].phase.Held?
    ensures |s.completed| < s.accepted + s.q.n
    ensures forall j :: s.accepted <= j < |s.completed| ==> Slot(s.q.n, j) != Slot(s.q.n, s.q.usedIdx)
  {
    UsedCount(s.requests, s.completed, s.accepted, {head});
    RequestsFit(s.q.n, s.q.free, s.requests);
    IndexSlot(s.q.n, |s.completed|);
    forall j | s.accepted <= j < |s.completed| ensures Slot(s.q.n, j) != Slot(s.q.n, |s.completed|) {
      SlotsApart(s.q.n, j, |s.completed|);
    }
  }

  lemma PublishNumbers(s: System, s': System, head: nat, written: nat)
    requires Numbers(s) && PublishStep(s, s', head, written) && |s.completed| < s.accepted + s.q.n
    ensures Numbers(s')
  {
    RingAdvance(s.q.used, s.q.usedIdx, s.completed, s.accepted, UsedElement(head, written));
  }

  lemma PublishOffers(s: System, s': System, head: nat, written: nat)
    requires Shape(s.q) && WindowsInv(s) && PublishStep(s, s', head, written)
    ensures WindowsInv(s')
  {
    PublishWindows(s.requests, s.offers, s.taken, s.completed, s.accepted, head, written);
  }

  lemma PublishPolls(s: System, s': System, head: nat, written: nat)
    requires Shape(s.q) && PollsInv(s) && PublishStep(s, s', head, written)
    ensures PollsInv(s')
  {
  }

  lemma PublishKeeps(s: System, s': System, head: nat, written: nat)
    requires Inv(s) && PublishStep(s, s', head, written)
    ensures Inv(s')
  {
    assert |s.completed| < s.accepted + s.q.n by { PublishSlotFree(s, head); }
    PublishNumbers(s, s', head, written);
    RephaseChains(s, s', head, Done(|s.completed|, written));
    PublishOffers(s, s', head, written);
    PublishPolls(s, s', head, written);
  }

  // ---- all steps ----

  lemma RegisterPolls(s: System, s': System, head: nat)
    requires PollsInv(s) && RegisterStep(s, s', head)
    ensures PollsInv(s')
  {
  }

  /** Polls' bookkeeping aside, nothing moves. */
  lemma SameQueue(s: System, s': System)
    requires Numbers(s) && ChainsInv(s) && WindowsInv(s) && s'.q == s.q.(wakers := s'.q.wakers)
    requires s' == s.(q := s'.q, poll := s'.poll, waiting := s'.waiting, woken := s'.woken, irq := s'.irq, irqThread := s'.irqThread)
    ensures Numbers(s') && ChainsInv(s') && WindowsInv(s')
  {
  }

  lemma RegisterKeeps(s: System, s': System, head: nat)
    requires Inv(s) && RegisterStep(s, s', head)
    ensures Inv(s')
  {
    SameQueue(s, s');
    RegisterPolls(s, s', head);
  }

  lemma ReadPolls(s: System, s': System)
    requires s.q.usedIdx == |s.completed| % 0x1_0000 && s.accepted <= |s.completed| && PollsInv(s)
    requires s.poll.Registered? && s' == s.(poll := HasRead(s.poll.head, s.q.usedIdx, |s.completed|))
    ensures PollsInv(s')
  {
    assert LogOk(s') by { LogKept(s, s'); }
  }

  lemma IrqPolls(s: System, s': System)
    requires PollsInv(s)
    requires || (s.irq && !s.irqThread && s' == s.(irq := false, irqThread := true))
             || (s.irqThread && s' == s.(woken := s.woken + s.q.wakers, irqThread := false))
    ensures PollsInv(s')
  {
    assert LogOk(s') by { LogKept(s, s'); }
  }

  /** Reading the index, and taking and delivering an interrupt, move no request. */
  lemma QuietKeeps(s: System, s': System, step: Step)
    requires Inv(s) && NextStep(s, s', step) && (step.PollRead? || step.IrqTake? || step.IrqWake?)
    ensures Inv(s')
  {
    SameQueue(s, s');
    if step.PollRead? {
      ReadPolls(s, s');
    } else {
      IrqPolls(s, s');
    }
  }

  lemma StepKeeps(s: System, s': System, step: Step)
    requires Inv(s) && NextStep(s, s', step)
    ensures Inv(s')
  {
    match step
    case Send(chain) => SendKeeps(s, s', chain);
    case PollRegister(head) => RegisterKeeps(s, s', head);
    case PollFinish(path) =>
      if PollOutcome(s.q, s.poll.head, s.poll.index).Ready? {
        ReadyKeeps(s, s', path);
      } else {
        PendingKeeps(s, s', path);
      }
    case DeviceTake => TakeKeeps(s, s');
    case DevicePublish(head, written) => PublishKeeps(s, s', head, written);
    case _ => QuietKeeps(s, s', step);
  }
}
