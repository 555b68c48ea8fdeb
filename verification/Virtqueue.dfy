/**
 The split virtqueue of virtio-core: the memory the driver and the device share, the
 steps either side takes, and what every interleaving of those steps keeps.

 Sixteen-bit ring indices are kept as the code keeps them (modulo 65536); beside them
 the system state carries the unbounded history, which no step reads back into memory.
 */
module Virtqueue {
  import opened Bits
  import opened Counting
  import opened Rings

  // ---- Memory ----

  datatype Flags = Flags(next: bool, writeOnly: bool, indirect: bool)

  datatype Buffer = Buffer(addr: nat, size: nat, flags: Flags)

  datatype Descriptor = Descriptor(addr: nat, size: nat, flags: Flags, next: nat)

  datatype UsedElement = UsedElement(index: nat, written: nat)

  /** `free` is the queue of free descriptors, popped at the front and pushed at the back. */
  datatype Queue = Queue(
    n: nat,
    table: seq<Descriptor>,
    free: seq<nat>,
    avail: seq<nat>,
    availIdx: nat,
    used: seq<UsedElement>,
    usedIdx: nat,
    usedHead: nat,
    wakers: set<nat>)

  ghost predicate Shape(q: Queue) {
    && IsPow2(q.n) && q.n <= 32768
    && |q.table| == |q.avail| == |q.used| == q.n
    && q.availIdx < 0x1_0000 && q.usedIdx < 0x1_0000 && q.usedHead < 0x1_0000
  }

  /** A 16-bit index plus one. */
  function Step16(index: nat): nat {
    (index + 1) % 0x1_0000
  }

  /** What ChainBuilder hands to `send`: NEXT on every buffer but the last. */
  ghost predicate WellFormedChain(chain: seq<Buffer>) {
    |chain| > 0 && forall i :: 0 <= i < |chain| ==> (chain[i].flags.next <==> i < |chain| - 1)
  }

  function DescriptorFor(chain: seq<Buffer>, ds: seq<nat>, i: nat): Descriptor
    requires i < |chain| == |ds|
  {
    Descriptor(chain[i].addr, chain[i].size % 0x1_0000_0000, chain[i].flags, if i + 1 < |ds| then ds[i + 1] else 0)
  }

  /** `after` holds the chain in the descriptors `ds` and is `before` elsewhere. */
  ghost predicate ChainWritten(before: seq<Descriptor>, after: seq<Descriptor>, ds: seq<nat>, chain: seq<Buffer>)
    requires |ds| == |chain|
  {
    && |after| == |before|
    && (forall i :: 0 <= i < |ds| ==> ds[i] < |after| && after[ds[i]] == DescriptorFor(chain, ds, i))
    && (forall d :: 0 <= d < |before| && d !in ds ==> after[d] == before[d])
  }

  /** `path` is the list of descriptors met by following NEXT from its first entry. */
  ghost predicate IsWalk(table: seq<Descriptor>, path: seq<nat>) {
    && |path| > 0
    && (forall i :: 0 <= i < |path| ==> path[i] < |table|)
    && (forall i :: 0 <= i < |path| - 1 ==> table[path[i]].flags.next && table[path[i]].next == path[i + 1])
    && !table[path[|path| - 1]].flags.next
  }

  /** The memory effect of `send`. */
  ghost predicate SendMemory(q: Queue, q': Queue, chain: seq<Buffer>)
    requires Shape(q)
  {
    && 0 < |chain| <= |q.free|
    && ChainWritten(q.table, q'.table, q.free[..|chain|], chain)
    && q' == q.(
         table := q'.table,
         free := q.free[|chain|..],
         avail := q.avail[Slot(q.n, q.availIdx) := q.free[0]],
         availIdx := Step16(q.availIdx))
  }

  datatype Outcome = Pending | Ready(written: nat)

  /** What `poll` decides for the request `head` once it has read used index `index`. */
  function PollOutcome(q: Queue, head: nat, index: nat): Outcome
    requires q.n > 0 && |q.used| == q.n
  {
    if index == q.usedHead then Pending
    else
      var element := q.used[Slot(q.n, (index - 1) % 0x1_0000)];
      if element.index == head then Ready(element.written) else Pending
  }

  /** The memory effect of the rest of `poll`; `path` is the chain it recycles. */
  ghost predicate PollMemory(q: Queue, q': Queue, head: nat, index: nat, path: seq<nat>)
    requires q.n > 0 && |q.used| == q.n
  {
    match PollOutcome(q, head, index)
    case Pending => q' == q
    case Ready(_) =>
      && IsWalk(q.table, path) && path[0] == head
      && q' == q.(free := q.free + path, wakers := q.wakers - {head}, usedHead := index)
  }

  // ---- System ----

  /** Where an outstanding request is: offered at a ring position, held by the device, or returned. */
  datatype Phase = Offered(pos: nat) | Held | Done(pos: nat, written: nat)

  datatype Request = Request(descs: seq<nat>, buffers: seq<Buffer>, phase: Phase)

  /** How far the poll in progress has come; `seen` counts the used entries published when it read the index. */
  datatype Poll = Idle | Registered(head: nat) | HasRead(head: nat, index: nat, seen: nat)

  datatype Completion = Completion(pos: int, head: nat, written: nat)

  /**
   `offers` lists every head ever made available, `completed` every used entry ever
   published; `taken` and `accepted` count the offers the device consumed and the used
   entries up to the last Ready. `waiting` maps a request whose last poll was
   Pending to the count of used entries that poll saw.
   */
  datatype System = System(
    q: Queue,
    requests: map<nat, Request>,
    offers: seq<nat>,
    taken: nat,
    completed: seq<UsedElement>,
    accepted: nat,
    log: seq<Completion>,
    poll: Poll,
    waiting: map<nat, nat>,
    woken: set<nat>,
    irq: bool,
    irqThread: bool)

  datatype Step =
    | Send(chain: seq<Buffer>)
    | PollRegister(head: nat)
    | PollRead
    | PollFinish(path: seq<nat>)
    | DeviceTake
    | DevicePublish(head: nat, written: nat)
    | IrqTake
    | IrqWake

  ghost predicate Init(s: System, n: nat) {
    && IsPow2(n) && n <= 32768
    && Shape(s.q) && s.q.n == n
    && |s.q.free| == n && (forall i :: 0 <= i < n ==> s.q.free[i] == i)
    && s.q.availIdx == s.q.usedIdx == s.q.usedHead == 0 && s.q.wakers == {}
    && s == System(s.q, map[], [], 0, [], 0, [], Idle, map[], {}, false, false)
  }

  ghost predicate SendStep(s: System, s': System, chain: seq<Buffer>)
    requires Shape(s.q)
  {
    && s.poll.Idle? && WellFormedChain(chain)
    && SendMemory(s.q, s'.q, chain)
    && s' == s.(
         q := s'.q,
         requests := s.requests[s.q.free[0] := Request(s.q.free[..|chain|], chain, Offered(|s.offers|))],
         offers := s.offers + [s.q.free[0]])
  }

  ghost predicate RegisterStep(s: System, s': System, head: nat) {
    && s.poll.Idle? && head in s.requests
    && s' == s.(
         q := s.q.(wakers := s.q.wakers + {head}),
         poll := Registered(head),
         waiting := s.waiting - {head},
         woken := s.woken - {head})
  }

  ghost predicate FinishStep(s: System, s': System, path: seq<nat>)
    requires Shape(s.q)
  {
    && s.poll.HasRead?
    && var head := s.poll.head;
    && PollMemory(s.q, s'.q, head, s.poll.index, path)
    && match PollOutcome(s.q, head, s.poll.index)
       case Pending =>
         s' == s.(q := s'.q, poll := Idle, waiting := s.waiting[head := s.poll.seen])
       case Ready(written) =>
         s' == s.(
           q := s'.q,
           requests := s.requests - {head},
           accepted := s.poll.seen,
           log := s.log + [Completion(s.poll.seen - 1, head, written)],
           poll := Idle)
  }

  /** The device takes the oldest available entry, whatever request it names. */
  ghost predicate TakeStep(s: System, s': System)
    requires Shape(s.q)
  {
    && s.taken < |s.offers|
    && var head := s.q.avail[Slot(s.q.n, s.taken)];
    && head in s.requests
    && s' == s.(
         requests := s.requests[head := s.requests[head].(phase := Held)],
         taken := s.taken + 1)
  }

  ghost predicate PublishStep(s: System, s': System, head: nat, written: nat)
    requires Shape(s.q)
  {
    && head in s.requests && s.requests[head].phase.Held?
    && s' == s.(
         q := s.q.(
           used := s.q.used[Slot(s.q.n, s.q.usedIdx) := UsedElement(head, written)],
           usedIdx := Step16(s.q.usedIdx)),
         requests := s.requests[head := s.requests[head].(phase := Done(|s.completed|, written))],
         completed := s.completed + [UsedElement(head, written)],
         irq := true)
  }

  ghost predicate NextStep(s: System, s': System, step: Step)
    requires Shape(s.q)
  {
    match step
    case Send(chain) => SendStep(s, s', chain)
    case PollRegister(head) => RegisterStep(s, s', head)
    case PollRead => s.poll.Registered? && s' == s.(poll := HasRead(s.poll.head, s.q.usedIdx, |s.completed|))
    case PollFinish(path) => FinishStep(s, s', path)
    case DeviceTake => TakeStep(s, s')
    case DevicePublish(head, written) => PublishStep(s, s', head, written)
    case IrqTake => s.irq && !s.irqThread && s' == s.(irq := false, irqThread := true)
    case IrqWake => s.irqThread && s' == s.(woken := s.woken + s.q.wakers, irqThread := false)
  }

  // ---- Invariant ----

  ghost predicate Numbers(s: System) {
    && Shape(s.q)
    && s.q.availIdx == |s.offers| % 0x1_0000
    && s.q.usedIdx == |s.completed| % 0x1_0000
    && s.q.usedHead == s.accepted % 0x1_0000
    && s.taken <= |s.offers| && s.accepted <= |s.completed|
    && RingHolds(s.q.avail, s.offers, s.taken)
    && RingHolds(s.q.used, s.completed, s.accepted)
  }

  ghost predicate Owned(requests: map<nat, Request>, d: nat) {
    exists h :: h in requests && d in requests[h].descs
  }

  /** Every descriptor is free or on exactly one outstanding chain, once. */
  ghost predicate Partition(n: nat, free: seq<nat>, requests: map<nat, Request>) {
    && Distinct(free)
    && (forall d :: d in free ==> d < n)
    && (forall h :: h in requests ==> OwnChain(n, free, h, requests[h].descs))
    && (forall h, g, d :: h in requests && g in requests && h != g && d in requests[h].descs ==> d !in requests[g].descs)
    && (forall d: nat :: d < n ==> d in free || Owned(requests, d))
  }

  ghost predicate OwnChain(n: nat, free: seq<nat>, h: nat, ds: seq<nat>) {
    |ds| > 0 && ds[0] == h && Distinct(ds) && forall d :: d in ds ==> d < n && d !in free
  }

  /** The descriptor table holds the request's buffers along its chain. */
  ghost predicate Stored(table: seq<Descriptor>, r: Request) {
    && |r.descs| == |r.buffers| && WellFormedChain(r.buffers)
    && forall i :: 0 <= i < |r.descs| ==>
         r.descs[i] < |table| && table[r.descs[i]] == DescriptorFor(r.buffers, r.descs, i)
  }

  ghost predicate AllStored(table: seq<Descriptor>, requests: map<nat, Request>) {
    forall h :: h in requests ==> Stored(table, requests[h])
  }

  /** The unconsumed offers are exactly the requests in phase Offered, at their positions. */
  ghost predicate AvailWindow(requests: map<nat, Request>, offers: seq<nat>, taken: nat) {
    && (forall i :: taken <= i < |offers| ==> offers[i] in requests && requests[offers[i]].phase == Offered(i))
    && (forall h :: h in requests && requests[h].phase.Offered? ==>
          taken <= requests[h].phase.pos < |offers| && offers[requests[h].phase.pos] == h)
  }

  /** The used entries published since the last Ready are outstanding completions, at their positions. */
  ghost predicate UsedWindow(requests: map<nat, Request>, completed: seq<UsedElement>, accepted: nat) {
    && (forall j :: accepted <= j < |completed| ==>
          completed[j].index in requests && requests[completed[j].index].phase == Done(j, completed[j].written))
    && (forall h :: h in requests && requests[h].phase.Done? ==>
          && requests[h].phase.pos < |completed|
          && completed[requests[h].phase.pos] == UsedElement(h, requests[h].phase.written))
  }

  ghost predicate WakeDue(s: System, head: nat) {
    head in s.woken || s.irq || s.irqThread
  }

  ghost predicate Polling(s: System) {
    && (!s.poll.Idle? ==> s.poll.head in s.requests && s.poll.head in s.q.wakers && s.poll.head !in s.waiting)
    && (s.poll.HasRead? ==>
          && s.accepted <= s.poll.seen <= |s.completed|
          && s.poll.index == s.poll.seen % 0x1_0000
          && (|s.completed| > s.poll.seen ==> WakeDue(s, s.poll.head)))
    && (forall h :: h in s.waiting ==>
          && h in s.requests && h in s.q.wakers && s.waiting[h] <= |s.completed|
          && (|s.completed| > s.waiting[h] ==> WakeDue(s, h)))
  }

  ghost predicate LogOk(s: System) {
    && (forall i, j :: 0 <= i < j < |s.log| ==> s.log[i].pos < s.log[j].pos)
    && (forall i :: 0 <= i < |s.log| ==>
          && 0 <= s.log[i].pos < s.accepted <= |s.completed|
          && s.completed[s.log[i].pos] == UsedElement(s.log[i].head, s.log[i].written))
  }

  ghost predicate ChainsInv(s: System) {
    Partition(s.q.n, s.q.free, s.requests) && AllStored(s.q.table, s.requests)
  }

  ghost predicate WindowsInv(s: System) {
    AvailWindow(s.requests, s.offers, s.taken) && UsedWindow(s.requests, s.completed, s.accepted)
  }

  ghost predicate PollsInv(s: System) {
    Polling(s) && LogOk(s)
  }

  ghost predicate Inv(s: System) {
    Numbers(s) && ChainsInv(s) && WindowsInv(s) && PollsInv(s)
  }

  // ---- Counting ----

  /** Outstanding requests never outnumber the descriptors that are not free. */
  lemma RequestsFit(n: nat, free: seq<nat>, requests: map<nat, Request>)
    requires Partition(n, free, requests)
    ensures |requests| + |free| <= n
  {
    forall h | h in requests.Keys
      ensures h < n && h !in free
    {
      assert OwnChain(n, free, h, requests[h].descs);
      assert requests[h].descs[0] in requests[h].descs;
    }
    KeysBesideList(n, requests.Keys, free);
  }

  lemma AvailCount(requests: map<nat, Request>, offers: seq<nat>, taken: nat)
    requires taken <= |offers| && AvailWindow(requests, offers, taken)
    ensures |offers| - taken <= |requests|
  {
    var heads := offers[taken..];
    forall k | 0 <= k < |heads|
      ensures heads[k] in requests && requests[heads[k]].phase == Offered(taken + k)
    {
    }
    DistinctBound(heads, requests.Keys);
  }

  /**
   The used entries published since the last Ready, plus any requests the device still
   holds, are different outstanding requests.
   */
  lemma UsedCount(requests: map<nat, Request>, completed: seq<UsedElement>, accepted: nat, held: set<nat>)
    requires accepted <= |completed| && UsedWindow(requests, completed, accepted)
    requires forall h :: h in held ==> h in requests && !requests[h].phase.Done?
    ensures |completed| - accepted + |held| <= |requests|
  {
    var heads := UsedHeads(requests, completed, accepted);
    forall k | 0 <= k < |heads| ensures heads[k] in requests.Keys - held {
      assert requests[heads[k]].phase.Done?;
    }
    DistinctBound(heads, requests.Keys - held);
    assert held <= requests.Keys;
    assert |requests.Keys - held| == |requests.Keys| - |held|;
  }

  lemma UsedHeads(requests: map<nat, Request>, completed: seq<UsedElement>, accepted: nat) returns (heads: seq<nat>)
    requires accepted <= |completed| && UsedWindow(requests, completed, accepted)
    ensures |heads| == |completed| - accepted && Distinct(heads)
    ensures forall k :: 0 <= k < |heads| ==> heads[k] in requests && requests[heads[k]].phase.Done?
  {
    heads := seq<nat>(|completed| - accepted, k requires 0 <= k < |completed| - accepted => completed[accepted + k].index);
    forall k | 0 <= k < |heads|
      ensures heads[k] in requests && requests[heads[k]].phase == Done(accepted + k, completed[accepted + k].written)
    {
    }
  }

  /** A 16-bit ring index picks the slot of the unbounded one. */
  lemma IndexSlot(n: nat, x: nat)
    requires IsPow2(n) && n <= 32768
    ensures Slot(n, x % 0x1_0000) == Slot(n, x)
  {
    Pow2Constants();
    Pow2Divides(n, 0x1_0000);
    ModMod(x, n, 0x1_0000);
    SlotMod(n, x);
    SlotMod(n, x % 0x1_0000);
  }

  /** Writing at a 16-bit index and stepping the index is writing the next entry of the history. */
  lemma RingAdvance<T>(ring: seq<T>, index: nat, log: seq<T>, lo: nat, x: T)
    requires RingHolds(ring, log, lo) && IsPow2(|ring|) && |ring| <= 32768
    requires index == |log| % 0x1_0000 && |log| < lo + |ring|
    ensures RingHolds(ring[Slot(|ring|, index) := x], log + [x], lo)
    ensures Step16(index) == |log + [x]| % 0x1_0000
  {
    SuccMod(|log|, 0x1_0000);
    IndexSlot(|ring|, |log|);
    RingPush(ring, log, lo, x);
  }
}
