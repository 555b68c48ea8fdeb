/**
 The transmit descriptor ring of the e1000 and ixgbe drivers against a device that reports
 frames done at any moment, in any order, also while the driver is looking for room.
 */
module TxRing {
  import opened Bits
  import opened Common
  import opened Rings
  import opened NicBuffers

  /** The longest packet a card sends as it is. */
  function Limit(card: Card): nat {
    if card.E1000? then BUFFER_SIZE - 1 else BUFFER_SIZE
  }

  /**
   The length the device finds: e1000 keeps one byte less than the buffer, ixgbe puts the caller's length as it is into a
   word whose low 16 bits are the length.
   */
  function DescriptorLength(card: Card, size: nat): nat {
    match card
    case E1000 => Min(size, BUFFER_SIZE - 1)
    case Ixgbe => size % 0x1_0000
  }

  datatype Ring = Ring(
    card: Card,
    n: nat,
    done: seq<bool>,
    length: seq<nat>,
    data: seq<seq<byte>>,
    free: nat,
    index: nat,
    clean: nat,
    tail: nat)

  ghost predicate Shape(t: Ring) {
    && IsPow2(t.n) && t.n > 1
    && |t.done| == |t.length| == |t.data| == t.n && (forall i :: 0 <= i < t.n ==> |t.data[i]| == BUFFER_SIZE)
    && t.index < t.n && t.clean < t.n
  }

  /** What a descriptor names: the bytes of its buffer, and how many more lie behind the buffer's end. */
  datatype Named = Named(inside: seq<byte>, beyond: nat)

  function NamedBy(length: nat, buffer: seq<byte>): Named {
    Named(buffer[..Min(length, |buffer|)], length - Min(length, |buffer|))
  }

  function NamedAt(t: Ring, i: nat): Named
    requires Shape(t) && i < t.n
  {
    NamedBy(t.length[i], t.data[i])
  }

  /** What a caller's packet comes to on a card. */
  function NamedFor(card: Card, packet: seq<byte>): Named {
    var length := DescriptorLength(card, |packet|);
    Named(packet[..Min(length, BUFFER_SIZE)], length - Min(length, BUFFER_SIZE))
  }

  /** What the device sent: bytes of the buffer, then whatever memory it found behind it. */
  datatype Frame = Frame(inside: seq<byte>, outside: seq<byte>)

  ghost predicate Carries(frame: Frame, named: Named) {
    frame.inside == named.inside && |frame.outside| == named.beyond
  }

  /** One pass of the cleaning loop, and whether the loop is left after it. */
  function CleanPass(t: Ring): (Ring, bool)
    requires Shape(t)
  {
    if t.done[t.clean] then
      (t.(clean := Slot(t.n, t.clean + 1), free := t.free + 1), t.free + 1 >= t.n)
    else
      (t, t.free > 0 || t.free >= t.n)
  }

  /** The device marks a descriptor done. */
  function Marked(t: Ring, i: nat): Ring
    requires Shape(t)
  {
    t.(done := if i < t.n then t.done[i := true] else t.done)
  }

  /** The cleaning loop while the device marks `reports` done, one before each pass; true when it leaves with room. */
  function Reclaimed(t: Ring, reports: seq<nat>): (Ring, bool)
    requires Shape(t)
    decreases |reports|
  {
    if reports == [] then (t, false)
    else
      var (t', leave) := CleanPass(Marked(t, reports[0]));
      if leave then (t', true) else Reclaimed(t', reports[1..])
  }

  /** The loop is only left with room in the ring, and not before all is free or the oldest frame in flight is not done. */
  lemma {:induction false} ReclaimedHasRoom(t: Ring, reports: seq<nat>)
    requires Shape(t)
    ensures var (u, found) := Reclaimed(t, reports);
            found ==> u.free > 0 && (u.free >= u.n || (u.clean < |u.done| && !u.done[u.clean]))
    decreases |reports|
  {
    if reports != [] {
      var (t', leave) := CleanPass(Marked(t, reports[0]));
      if !leave {
        ReclaimedHasRoom(t', reports[1..]);
      }
    }
  }

  /** Writing the packet into the next descriptor. */
  function Refilled(t: Ring, packet: seq<byte>): Ring
    requires Shape(t) && t.free > 0
  {
    var i := Min(|packet|, BUFFER_SIZE);
    t.(data := t.data[t.index := packet[..i] + t.data[t.index][i..]],
       length := t.length[t.index := DescriptorLength(t.card, |packet|)],
       done := t.done[t.index := false],
       index := Slot(t.n, t.index + 1),
       free := t.free - 1,
       tail := Slot(t.n, t.index + 1))
  }

  ghost predicate FillMemory(t: Ring, t': Ring, packet: seq<byte>)
    requires Shape(t)
  {
    t.free > 0 && t' == Refilled(t, packet)
  }

  // ---- System ----

  /** Where the driver is in `write_packet`. */
  datatype Pc = Idle | Cleaning(packet: seq<byte>) | Filling(packet: seq<byte>)

  /**
   `sent` lists every packet written, `counts` the byte counts reported to the callers, `cleaned` counts the packets
   reclaimed, `fetched` the descriptors the device has taken, `wire` holds each frame the device reported done.
   */
  datatype System = System(
    t: Ring,
    sent: seq<seq<byte>>,
    counts: seq<nat>,
    cleaned: nat,
    fetched: nat,
    wire: map<nat, Frame>,
    pc: Pc)

  datatype Step = Start(packet: seq<byte>) | Clean | Fill | Fetch | Report(frame: nat, outside: seq<byte>)

  ghost predicate Init(s: System, n: nat) {
    && Shape(s.t) && s.t.n == n && s.t.free == n && s.t.index == s.t.clean == s.t.tail == 0
    && s == System(s.t, [], [], 0, 0, map[], Idle)
  }

  ghost predicate CleanStep(s: System, s': System)
    requires Shape(s.t)
  {
    && s.pc.Cleaning?
    && var (t, leave) := CleanPass(s.t);
       s' == s.(
         t := t,
         cleaned := if s.t.done[s.t.clean] then s.cleaned + 1 else s.cleaned,
         pc := if leave then Filling(s.pc.packet) else s.pc)
  }

  /** The device sees a descriptor to take: its head is not at the tail it was told. */
  ghost predicate SeesWork(s: System)
    requires Shape(s.t)
  {
    Slot(s.t.n, s.fetched) != s.t.tail
  }

  /** The device has sent what a descriptor it took names, and says so. */
  ghost predicate ReportStep(s: System, s': System, frame: nat, outside: seq<byte>)
    requires Shape(s.t)
  {
    && s.cleaned <= frame < s.fetched && frame !in s.wire
    && var named := NamedAt(s.t, Slot(s.t.n, frame));
    && |outside| == named.beyond
    && s' == s.(
         t := s.t.(done := s.t.done[Slot(s.t.n, frame) := true]),
         wire := s.wire[frame := Frame(named.inside, outside)])
  }

  ghost predicate NextStep(s: System, s': System, step: Step)
    requires Shape(s.t)
  {
    match step
    case Start(packet) =>
      s.pc.Idle? && s' == s.(pc := if s.t.free == 0 then Cleaning(packet) else Filling(packet))
    case Clean => CleanStep(s, s')
    case Fill =>
      && s.pc.Filling? && FillMemory(s.t, s'.t, s.pc.packet)
      && s' == s.(
           t := s'.t, sent := s.sent + [s.pc.packet], counts := s.counts + [Min(|s.pc.packet|, BUFFER_SIZE)], pc := Idle)
    case Fetch => SeesWork(s) && s' == s.(fetched := s.fetched + 1)
    case Report(frame, outside) => ReportStep(s, s', frame, outside)
  }

  // ---- Invariant ----

  ghost predicate Counters(t: Ring, sent: nat, cleaned: nat) {
    && Shape(t)
    && cleaned <= sent <= cleaned + t.n
    && t.free == t.n - (sent - cleaned)
    && t.index == Slot(t.n, sent)
    && t.clean == Slot(t.n, cleaned)
  }

  /** Outstanding descriptors are done exactly when the device reported their frame; reclaimed frames were all reported. */
  ghost predicate Reported(done: seq<bool>, lo: nat, hi: nat, wire: map<nat, Frame>) {
    && |done| > 0
    && (forall k :: lo <= k < hi ==> (done[Slot(|done|, k)] <==> k in wire))
    && (forall k :: 0 <= k < lo ==> k in wire)
    && (forall k :: k in wire ==> k < hi)
  }

  /** The descriptors from frame `lo` on name what was sent. */
  ghost predicate Holds(t: Ring, sent: seq<seq<byte>>, lo: nat)
    requires Shape(t)
  {
    forall k :: lo <= k < |sent| ==> NamedAt(t, Slot(t.n, k)) == NamedFor(t.card, sent[k])
  }

  ghost predicate RingInv(t: Ring, sent: seq<seq<byte>>, cleaned: nat, wire: map<nat, Frame>) {
    && Counters(t, |sent|, cleaned)
    && Reported(t.done, cleaned, |sent|, wire)
    && Holds(t, sent, cleaned)
  }

  ghost predicate LogsOk(card: Card, sent: seq<seq<byte>>, counts: seq<nat>, wire: map<nat, Frame>) {
    && (forall k :: k in wire ==> k < |sent| && Carries(wire[k], NamedFor(card, sent[k])))
    && |counts| == |sent| && (forall k :: 0 <= k < |sent| ==> counts[k] == Min(|sent[k]|, BUFFER_SIZE))
  }

  /** The tail is the slot after the last packet written, and the device has taken nothing beyond it. */
  ghost predicate HandedOver(t: Ring, sent: nat, cleaned: nat, fetched: nat, wire: map<nat, Frame>)
    requires t.n > 0
  {
    && t.tail == Slot(t.n, sent) && cleaned <= fetched <= sent
    && forall k :: k in wire ==> k < fetched
  }

  ghost predicate Inv(s: System) {
    && RingInv(s.t, s.sent, s.cleaned, s.wire)
    && (s.pc.Cleaning? ==> s.t.free < s.t.n)
    && (s.pc.Filling? ==> s.t.free > 0)
    && LogsOk(s.t.card, s.sent, s.counts, s.wire)
    && HandedOver(s.t, |s.sent|, s.cleaned, s.fetched, s.wire)
  }

  lemma CleanRing(t: Ring, t': Ring, sent: seq<seq<byte>>, cleaned: nat, wire: map<nat, Frame>)
    requires RingInv(t, sent, cleaned, wire) && t.free < t.n && t.done[t.clean]
    requires t' == t.(clean := Slot(t.n, t.clean + 1), free := t.free + 1)
    ensures RingInv(t', sent, cleaned + 1, wire)
  {
    SlotSucc(t.n, cleaned);
    ReclaimOne(t.done, cleaned, |sent|, wire);
  }

  /** What a pass does, case by case. */
  ghost predicate CleanCases(s: System, s': System)
    requires Shape(s.t)
  {
    && s'.sent == s.sent && s'.wire == s.wire && s'.counts == s.counts && s'.t.card == s.t.card
    && s'.fetched == s.fetched && s'.t.tail == s.t.tail && s'.t.n == s.t.n
    && if s.t.done[s.t.clean]
       then s'.t == s.t.(clean := Slot(s.t.n, s.t.clean + 1), free := s.t.free + 1) && s'.cleaned == s.cleaned + 1
       else s'.t == s.t && s'.cleaned == s.cleaned
  }

  lemma CleanIsCases(s: System, s': System)
    requires Shape(s.t) && s.t.free < s.t.n && CleanStep(s, s')
    ensures CleanCases(s, s') && (s'.pc.Cleaning? ==> s'.t.free < s'.t.n) && (s'.pc.Filling? ==> s'.t.free > 0)
  {
  }

  lemma CasesRing(s: System, s': System)
    requires RingInv(s.t, s.sent, s.cleaned, s.wire) && s.t.free < s.t.n && CleanCases(s, s')
    ensures RingInv(s'.t, s'.sent, s'.cleaned, s'.wire)
  {
    if s.t.done[s.t.clean] {
      CleanRing(s.t, s'.t, s.sent, s.cleaned, s.wire);
    }
  }

  lemma CleanKeeps(s: System, s': System)
    requires Inv(s) && CleanStep(s, s')
    ensures Inv(s')
  {
    CleanIsCases(s, s');
    CasesRing(s, s');
    CleanHanded(s, s');
  }

  lemma CleanHanded(s: System, s': System)
    requires RingInv(s.t, s.sent, s.cleaned, s.wire) && s.t.free < s.t.n && CleanCases(s, s')
    requires HandedOver(s.t, |s.sent|, s.cleaned, s.fetched, s.wire)
    ensures HandedOver(s'.t, |s'.sent|, s'.cleaned, s'.fetched, s'.wire)
  {
    assert s.t.done[s.t.clean] ==> s.cleaned in s.wire;
  }

  lemma ReclaimOne(done: seq<bool>, lo: nat, hi: nat, wire: map<nat, Frame>)
    requires Reported(done, lo, hi, wire) && lo < hi && done[Slot(|done|, lo)]
    ensures Reported(done, lo + 1, hi, wire)
  {
  }

  lemma FillDone(done: seq<bool>, lo: nat, hi: nat, wire: map<nat, Frame>)
    requires Reported(done, lo, hi, wire) && lo <= hi < lo + |done|
    ensures Reported(done[Slot(|done|, hi) := false], lo, hi + 1, wire)
  {
    forall k | lo <= k < hi
      ensures Slot(|done|, k) != Slot(|done|, hi)
    {
      SlotsApart(|done|, k, hi);
    }
  }

  lemma FillCounters(t: Ring, t': Ring, sent: nat, cleaned: nat, packet: seq<byte>)
    requires Counters(t, sent, cleaned) && FillMemory(t, t', packet)
    ensures Counters(t', sent + 1, cleaned)
  {
    SlotSucc(t.n, sent);
  }

  lemma FillNamed(t: Ring, t': Ring, packet: seq<byte>)
    requires Shape(t) && FillMemory(t, t', packet)
    ensures Shape(t') && NamedAt(t', t.index) == NamedFor(t.card, packet)
  {
    var i, length := Min(|packet|, BUFFER_SIZE), DescriptorLength(t.card, |packet|);
    var buffer := packet[..i] + t.data[t.index][i..];
    assert buffer[..Min(length, BUFFER_SIZE)] == packet[..Min(length, BUFFER_SIZE)];
  }

  lemma FillHolds(t: Ring, t': Ring, sent: seq<seq<byte>>, cleaned: nat, packet: seq<byte>)
    requires Counters(t, |sent|, cleaned) && Holds(t, sent, cleaned) && FillMemory(t, t', packet) && Shape(t')
    requires NamedAt(t', t.index) == NamedFor(t.card, packet)
    ensures Holds(t', sent + [packet], cleaned)
  {
    forall k | cleaned <= k < |sent| + 1 ensures NamedAt(t', Slot(t.n, k)) == NamedFor(t.card, (sent + [packet])[k]) {
      if k < |sent| {
        SlotsApart(t.n, k, |sent|);
        assert NamedAt(t', Slot(t.n, k)) == NamedAt(t, Slot(t.n, k));
      }
    }
  }

  lemma FillRing(t: Ring, t': Ring, sent: seq<seq<byte>>, cleaned: nat, wire: map<nat, Frame>, packet: seq<byte>)
    requires RingInv(t, sent, cleaned, wire) && FillMemory(t, t', packet)
    ensures RingInv(t', sent + [packet], cleaned, wire)
  {
    FillCounters(t, t', |sent|, cleaned, packet);
    FillDone(t.done, cleaned, |sent|, wire);
    FillNamed(t, t', packet);
    FillHolds(t, t', sent, cleaned, packet);
  }

  lemma FillKeeps(s: System, s': System)
    requires Inv(s) && NextStep(s, s', Fill)
    ensures Inv(s')
  {
    FillRing(s.t, s'.t, s.sent, s.cleaned, s.wire, s.pc.packet);
    SlotSucc(s.t.n, |s.sent|);
  }

  /** The device sees work exactly when there is some and it is not a whole ring of it. */
  lemma SeesIff(s: System)
    requires Inv(s)
    ensures SeesWork(s) <==> s.fetched < |s.sent| && |s.sent| != s.fetched + s.t.n
  {
    if s.fetched < |s.sent| < s.fetched + s.t.n {
      SlotsApart(s.t.n, s.fetched, |s.sent|);
    }
  }

  lemma FetchKeeps(s: System, s': System)
    requires Inv(s) && NextStep(s, s', Fetch)
    ensures Inv(s')
  {
    SeesIff(s);
  }

  lemma ReportDone(done: seq<bool>, lo: nat, hi: nat, wire: map<nat, Frame>, k: nat, frame: Frame)
    requires Reported(done, lo, hi, wire) && lo <= k < hi <= lo + |done|
    ensures Reported(done[Slot(|done|, k) := true], lo, hi, wire[k := frame])
  {
    var n := |done|;
    forall j | lo <= j < hi && j != k ensures Slot(n, j) != Slot(n, k) {
      if j < k { SlotsApart(n, j, k); } else { SlotsApart(n, k, j); }
    }
  }

  lemma ReportRing(s: System, s': System, frame: nat, outside: seq<byte>)
    requires RingInv(s.t, s.sent, s.cleaned, s.wire) && s.fetched <= |s.sent| && ReportStep(s, s', frame, outside)
    ensures RingInv(s'.t, s'.sent, s'.cleaned, s'.wire)
  {
    ReportDone(s.t.done, s.cleaned, |s.sent|, s.wire, frame, s'.wire[frame]);
    assert Shape(s'.t) && Holds(s'.t, s.sent, s.cleaned);
  }

  lemma ReportKeeps(s: System, s': System, frame: nat, outside: seq<byte>)
    requires Inv(s) && ReportStep(s, s', frame, outside)
    ensures Inv(s')
  {
    ReportRing(s, s', frame, outside);
    assert NamedAt(s.t, Slot(s.t.n, frame)) == NamedFor(s.t.card, s.sent[frame]);
  }

  // ---- Runs ----

  ghost predicate StepAt(states: seq<System>, steps: seq<Step>, i: nat)
    requires i < |steps| < |states|
  {
    Shape(states[i].t) && NextStep(states[i], states[i + 1], steps[i])
  }

  ghost predicate Run(states: seq<System>, steps: seq<Step>, n: nat) {
    && |states| == |steps| + 1 && Init(states[0], n)
    && forall i {:trigger StepAt(states, steps, i)} :: 0 <= i < |steps| ==> StepAt(states, steps, i)
  }

  lemma StepKeeps(s: System, s': System, step: Step)
    requires Inv(s) && NextStep(s, s', step)
    ensures Inv(s') && s'.t.n == s.t.n && s'.t.card == s.t.card
  {
    match step
    case Start(packet) =>
    case Clean => CleanKeeps(s, s');
    case Fill => FillKeeps(s, s');
    case Fetch => FetchKeeps(s, s');
    case Report(frame, outside) => ReportKeeps(s, s', frame, outside);
  }

  lemma {:induction false} RunKeepsInv(states: seq<System>, steps: seq<Step>, n: nat, k: nat)
    requires Run(states, steps, n) && k < |states|
    ensures Inv(states[k]) && states[k].t.n == n && states[k].t.card == states[0].t.card
  {
    if k > 0 {
      RunKeepsInv(states, steps, n, k - 1);
      assert StepAt(states, steps, k - 1);
      StepKeeps(states[k - 1], states[k], steps[k - 1]);
    }
  }

  /**
   In every run the next slot is the clean slot plus the frames in flight, the free count
   stays within the ring, and every frame the device reported carried what its descriptor
   named of the caller's bytes.
   */
  lemma TransmitAccounts(states: seq<System>, steps: seq<Step>, n: nat, k: nat)
    requires Run(states, steps, n) && k < |states|
    ensures var s := states[k];
            && s.t.free <= n
            && s.t.index == (s.t.clean + (n - s.t.free)) % n
            && (forall f :: f in s.wire ==> f < |s.sent| && Carries(s.wire[f], NamedFor(s.t.card, s.sent[f])))
  {
    RunKeepsInv(states, steps, n, k);
    var s := states[k];
    SlotAdd(n, s.cleaned, n - s.t.free);
  }

  lemma {:induction false} SlotAdd(n: nat, i: nat, d: nat)
    requires n > 0
    ensures Slot(n, i + d) == (Slot(n, i) + d) % n
    decreases i
  {
    if i < n {
      SlotMod(n, i + d);
    } else {
      SlotAdd(n, i - n, d);
      assert Slot(n, i + d) == Slot(n, i - n + d);
    }
  }

  /**
   No descriptor or buffer is rewritten too early: when `write_packet` fills a slot, the
   frame that last used it has been reported done.
   */
  lemma SlotWasReported(states: seq<System>, steps: seq<Step>, n: nat, k: nat)
    requires Run(states, steps, n) && k < |steps| && steps[k].Fill?
    ensures var s := states[k];
            && s.t.index == Slot(n, |s.sent|)
            && forall f :: 0 <= f < |s.sent| && Slot(n, f) == s.t.index ==> f in s.wire
  {
    RunKeepsInv(states, steps, n, k);
    assert StepAt(states, steps, k);
    var s := states[k];
    forall f | 0 <= f < |s.sent| && Slot(n, f) == s.t.index
      ensures f in s.wire
    {
      if s.cleaned <= f {
        SlotsApart(n, f, |s.sent|);
      }
    }
  }

  /** The packet and nothing else. */
  ghost predicate Whole(frame: Frame, packet: seq<byte>) {
    frame.inside == packet && frame.outside == []
  }

  lemma NamedWholeIff(card: Card, packet: seq<byte>, frame: Frame)
    requires Carries(frame, NamedFor(card, packet))
    ensures Whole(frame, packet) <==> |packet| <= Limit(card)
    ensures |frame.inside| + |frame.outside| == Min(|packet|, BUFFER_SIZE) <==>
              |packet| <= Limit(card) || (card.Ixgbe? && |packet| % 0x1_0000 == BUFFER_SIZE)
    ensures frame.outside != [] <==> card.Ixgbe? && |packet| % 0x1_0000 > BUFFER_SIZE
  {
    if |packet| <= Limit(card) {
      assert packet[..|packet|] == packet;
    }
  }

  /**
   Exactly which packets go out as they are. In every run, for every frame reported done, the wire carried the caller's
   packet and nothing else if and only if the packet is not longer than the card's limit; the count the caller was told is
   the number of bytes sent exactly then, and on ixgbe also when the low 16 bits of the length come to a full buffer; and
   memory outside the buffer is sent exactly on ixgbe when these bits come to more.
   */
  lemma SentWholeIff(states: seq<System>, steps: seq<Step>, n: nat, k: nat, f: nat)
    requires Run(states, steps, n) && k < |states| && f in states[k].wire
    ensures var s := states[k];
            && f < |s.sent| == |s.counts|
            && (Whole(s.wire[f], s.sent[f]) <==> |s.sent[f]| <= if s.t.card.E1000? then 16383 else 16384)
            && (s.counts[f] == |s.wire[f].inside| + |s.wire[f].outside| <==>
                  if s.t.card.E1000? then |s.sent[f]| <= 16383 else |s.sent[f]| <= 16384 || |s.sent[f]| % 0x1_0000 == 16384)
            && (s.wire[f].outside != [] <==> s.t.card.Ixgbe? && |s.sent[f]| % 0x1_0000 > 16384)
  {
    RunKeepsInv(states, steps, n, k);
    var s := states[k];
    NamedWholeIff(s.t.card, s.sent[f], s.wire[f]);
  }

  // ---- What the device is told ----

  /** A ring is wedged when all its descriptors are full and none has been taken: the tail has come round to the head. */
  ghost predicate Wedged(s: System) {
    |s.sent| == s.fetched + s.t.n
  }

  /**
   In every run the tail is the slot after the last packet handed over, the device has taken packets in order and none that
   was not handed over, and it sees one to take exactly when there is one and the ring is not wedged.
   */
  lemma TailTells(states: seq<System>, steps: seq<Step>, n: nat, k: nat)
    requires Run(states, steps, n) && k < |states|
    ensures var s := states[k];
            && s.t.tail == |s.sent| % n && s.fetched <= |s.sent| <= s.fetched + n
            && (forall f :: f in s.wire ==> f < s.fetched)
            && (s.fetched % n != s.t.tail <==> s.fetched < |s.sent| && !Wedged(s))
  {
    RunKeepsInv(states, steps, n, k);
    SeesIff(states[k]);
    SlotMod(n, |states[k].sent|);
    SlotMod(n, states[k].fetched);
  }

  lemma WedgedStep(s: System, s': System, step: Step)
    requires Inv(s) && Wedged(s) && NextStep(s, s', step)
    ensures Wedged(s') && s'.sent == s.sent && s'.fetched == s.fetched
  {
    SeesIff(s);
    assert s.cleaned == s.fetched && s.t.free == 0 && s.cleaned !in s.wire;
    assert !s.t.done[s.t.clean];
  }

  /** A wedged ring stays so: no packet of it is ever taken and no other is ever written. */
  lemma {:induction false} WedgedForever(states: seq<System>, steps: seq<Step>, n: nat, k: nat, j: nat)
    requires Run(states, steps, n) && k <= j < |states| && Wedged(states[k])
    ensures Wedged(states[j]) && states[j].sent == states[k].sent && states[j].fetched == states[k].fetched
    decreases j - k
  {
    if k < j {
      WedgedForever(states, steps, n, k, j - 1);
      RunKeepsInv(states, steps, n, j - 1);
      assert StepAt(states, steps, j - 1);
      WedgedStep(states[j - 1], states[j], steps[j - 1]);
    }
  }

  /** One run goes on from another. */
  ghost predicate Continues(states: seq<System>, steps: seq<Step>, states': seq<System>, steps': seq<Step>, n: nat) {
    Run(states', steps', n) && states <= states' && steps <= steps'
  }

  lemma ContinueStep(states: seq<System>, steps: seq<Step>, n: nat, s': System, step: Step)
    requires Run(states, steps, n) && Shape(states[|steps|].t) && NextStep(states[|steps|], s', step)
    ensures Continues(states, steps, states + [s'], steps + [step], n)
  {
    var states', steps' := states + [s'], steps + [step];
    forall i: nat | i < |steps'| ensures StepAt(states', steps', i) {
      if i < |steps| {
        assert StepAt(states, steps, i) && states'[i + 1] == states[i + 1] && steps'[i] == steps[i];
      }
    }
  }

  lemma {:induction false} FetchAll(states: seq<System>, steps: seq<Step>, n: nat)
    returns (states': seq<System>, steps': seq<Step>)
    requires Run(states, steps, n) && !Wedged(states[|steps|])
    ensures Continues(states, steps, states', steps', n) && states'[|steps'|].sent == states[|steps|].sent
    ensures states'[|steps'|].fetched == |states[|steps|].sent|
    decreases |states[|steps|].sent| - states[|steps|].fetched
  {
    var s := states[|steps|];
    assert Inv(s) && s.t.n == n by { RunKeepsInv(states, steps, n, |steps|); }
    if s.fetched == |s.sent| {
      states', steps' := states, steps;
    } else {
      SeesIff(s);
      var s' := s.(fetched := s.fetched + 1);
      ContinueStep(states, steps, n, s', Fetch);
      assert (states + [s'])[|steps| + 1] == s';
      states', steps' := FetchAll(states + [s'], steps + [Fetch], n);
    }
  }

  ghost predicate TakenAt(states: seq<System>, j: nat, count: nat) {
    j < |states| && states[j].fetched >= count
  }

  /** Exactly when everything handed over can still be taken: in some continuation it is, if and only if the ring is not wedged. */
  lemma TakenIff(states: seq<System>, steps: seq<Step>, n: nat)
    requires Run(states, steps, n)
    ensures (exists states', steps', j :: Continues(states, steps, states', steps', n) && TakenAt(states', j, |states[|steps|].sent|)) <==>
            !Wedged(states[|steps|])
  {
    var s := states[|steps|];
    if Wedged(s) {
      RunKeepsInv(states, steps, n, |steps|);
      forall states', steps', j | Continues(states, steps, states', steps', n) && 0 <= j < |states'|
        ensures !TakenAt(states', j, |s.sent|)
      {
        NeverTaken(states', steps', n, |steps|, j);
      }
    } else {
      var states', steps' := FetchAll(states, steps, n);
      assert TakenAt(states', |steps'|, |s.sent|);
    }
  }

  lemma {:induction false} FetchedRises(states: seq<System>, steps: seq<Step>, n: nat, j: nat, k: nat)
    requires Run(states, steps, n) && j <= k < |states|
    ensures states[j].fetched <= states[k].fetched
    decreases k - j
  {
    if j < k {
      FetchedRises(states, steps, n, j, k - 1);
      assert StepAt(states, steps, k - 1);
    }
  }

  lemma NeverTaken(states: seq<System>, steps: seq<Step>, n: nat, k: nat, j: nat)
    requires Run(states, steps, n) && k < |states| && j < |states| && Wedged(states[k])
    ensures states[j].fetched < |states[k].sent|
  {
    RunKeepsInv(states, steps, n, k);
    if j < k {
      FetchedRises(states, steps, n, j, k);
    } else {
      WedgedForever(states, steps, n, k, j);
    }
  }

  // ---- Runs that show the failures ----

  /** A ring as start-up leaves it. */
  function Fresh(card: Card, n: nat): Ring {
    var buffer := seq(BUFFER_SIZE, _ => 0);
    Ring(card, n, seq(n, _ => false), seq(n, _ => 0), seq(n, _ => buffer), n, 0, 0, 0)
  }

  ghost function Begun(s: System, packet: seq<byte>): System {
    s.(pc := Filling(packet))
  }

  ghost function Written(s: System, packet: seq<byte>): System
    requires Shape(s.t) && s.t.free > 0
  {
    s.(t := Refilled(s.t, packet), sent := s.sent + [packet], counts := s.counts + [Min(|packet|, BUFFER_SIZE)], pc := Idle)
  }

  /** With room in the ring a packet can be written. */
  lemma WriteMore(states: seq<System>, steps: seq<Step>, n: nat, packet: seq<byte>)
    returns (states': seq<System>, steps': seq<Step>)
    requires Run(states, steps, n) && states[|steps|].pc.Idle? && Shape(states[|steps|].t) && states[|steps|].t.free > 0
    ensures Run(states', steps', n) && states'[|steps'|] == Written(states[|steps|], packet)
  {
    var s := states[|steps|];
    ContinueStep(states, steps, n, Begun(s, packet), Start(packet));
    var begun, so := states + [Begun(s, packet)], steps + [Start(packet)];
    assert begun[|so|] == Begun(s, packet);
    assert Written(Begun(s, packet), packet) == Written(s, packet);
    ContinueStep(begun, so, n, Written(s, packet), Fill);
    states', steps' := begun + [Written(s, packet)], so + [Fill];
  }

  /** A run that writes the packets one after another, none of them taken meanwhile. */
  lemma {:induction false} WriteAll(card: Card, n: nat, packets: seq<seq<byte>>)
    returns (states: seq<System>, steps: seq<Step>)
    requires IsPow2(n) && n > 1 && |packets| <= n
    ensures Run(states, steps, n)
    ensures var s := states[|steps|];
            s.sent == packets && s.fetched == s.cleaned == 0 && s.wire == map[] && s.pc.Idle? && s.t.card == card
  {
    if packets == [] {
      states, steps := [System(Fresh(card, n), [], [], 0, 0, map[], Idle)], [];
    } else {
      var m := |packets| - 1;
      var before, so := WriteAll(card, n, packets[..m]);
      assert Inv(before[|so|]) && before[|so|].t.n == n by { RunKeepsInv(before, so, n, |so|); }
      states, steps := WriteMore(before, so, n, packets[m]);
      assert packets == packets[..m] + [packets[m]];
    }
  }

  /** On either card a ring can be wedged: a ringful of packets written before the device takes the first. */
  lemma WedgedIsReachable(card: Card, n: nat, packets: seq<seq<byte>>)
    returns (states: seq<System>, steps: seq<Step>)
    requires IsPow2(n) && n > 1 && |packets| == n
    ensures Run(states, steps, n) && Wedged(states[|steps|]) && states[|steps|].sent == packets
    ensures states[|steps|].t.card == card && states[|steps|].pc.Idle?
  {
    states, steps := WriteAll(card, n, packets);
    RunKeepsInv(states, steps, n, |steps|);
  }

  lemma TakeFirst(states: seq<System>, steps: seq<Step>, packet: seq<byte>, outside: seq<byte>)
    returns (states': seq<System>, steps': seq<Step>)
    requires Run(states, steps, 2)
    requires var s := states[|steps|]; s.sent == [packet] && s.fetched == s.cleaned == 0 && s.wire == map[]
    requires |outside| == NamedFor(states[|steps|].t.card, packet).beyond
    ensures Run(states', steps', 2) && 0 in states'[|steps'|].wire && states'[|steps'|].sent == [packet]
    ensures states'[|steps'|].t.card == states[|steps|].t.card
  {
    var s := states[|steps|];
    assert Inv(s) && s.t.n == 2 by { RunKeepsInv(states, steps, 2, |steps|); }
    SeesIff(s);
    var s1 := s.(fetched := 1);
    ContinueStep(states, steps, 2, s1, Fetch);
    var taken, so := states + [s1], steps + [Fetch];
    assert taken[|so|] == s1 && NamedAt(s.t, 0) == NamedFor(s.t.card, packet);
    var s2 := s1.(t := s1.t.(done := s1.t.done[0 := true]), wire := s1.wire[0 := Frame(NamedAt(s.t, 0).inside, outside)]);
    ContinueStep(taken, so, 2, s2, Report(0, outside));
    states', steps' := taken + [s2], so + [Report(0, outside)];
    assert states'[|steps'|] == s2;
  }

  /** Both failures of a packet happen: one byte too long for the card, sent and reported. */
  lemma TooLongIsReachable(card: Card, packet: seq<byte>, outside: seq<byte>)
    returns (states: seq<System>, steps: seq<Step>)
    requires |packet| == Limit(card) + 1 && |outside| == (if card.E1000? then 0 else 1)
    ensures Run(states, steps, 2) && 0 in states[|steps|].wire && states[|steps|].sent == [packet]
    ensures states[|steps|].t.card == card && !Whole(states[|steps|].wire[0], packet)
  {
    assert IsPow2(2);
    states, steps := WriteAll(card, 2, [packet]);
    states, steps := TakeFirst(states, steps, packet, outside);
    SentWholeIff(states, steps, 2, |steps|, 0);
  }

  // ---- Driver ----

  class TxDriver {
    const card: Card
    const n: nat
    const done: array<bool>
    const length: array<nat>
    const data: array<seq<byte>>
    var free: nat
    var index: nat
    var clean: nat
    var tail: nat

    ghost function Memory(): Ring
      reads this, done, length, data
    {
      Ring(card, n, done[..], length[..], data[..], free, index, clean, tail)
    }

    constructor (card: Card, n: nat)
      requires IsPow2(n) && n > 1
      ensures Shape(Memory()) && this.card == card && this.n == n && free == n && index == clean == tail == 0
      ensures fresh(done) && fresh(length) && fresh(data)
    {
      this.card, this.n := card, n;
      done := new bool[n](_ => false);
      length := new nat[n](_ => 0);
      data := new seq<byte>[n](_ => seq(BUFFER_SIZE, _ => 0));
      free, index, clean, tail := n, 0, 0, 0;
    }

    /**
     The search for room. `reports` lists the descriptors the device marks done before each
     pass; the loop gives up only when that list ends, where the source would go on spinning.
     */
    method Reclaim(reports: seq<nat>) returns (found: bool)
      requires Shape(Memory())
      modifies this`free, this`clean, done
      ensures Shape(Memory()) && (Memory(), found) == Reclaimed(old(Memory()), reports)
    {
      var pass := 0;
      found := false;
      while pass < |reports| && !found
        invariant 0 <= pass <= |reports| && Shape(Memory())
        invariant Reclaimed(old(Memory()), reports) ==
                  if found then (Memory(), true) else Reclaimed(Memory(), reports[pass..])
      {
        assert reports[pass..][0] == reports[pass] && reports[pass..][1..] == reports[pass + 1..];
        found := ReclaimPass(reports[pass]);
        pass := pass + 1;
      }
    }

    /** One pass: true when the loop is left. */
    method ReclaimPass(report: nat) returns (leave: bool)
      requires Shape(Memory())
      modifies this`free, this`clean, done
      ensures Shape(Memory()) && (Memory(), leave) == CleanPass(old(Marked(Memory(), report)))
    {
      if report < n {
        done[report] := true;
      }
      if done[clean] {
        WrapRingNext(clean, n);
        clean := WrapRing(clean, n);
        free := free + 1;
      } else if free > 0 {
        return true;
      }
      return free >= n;
    }

    /** Copies the packet into the next buffer, readies its descriptor and moves the tail. */
    method Fill(buf: seq<byte>) returns (count: nat)
      requires Shape(Memory()) && free > 0
      modifies this, data, length, done
      ensures FillMemory(old(Memory()), Memory(), buf) && count == Min(|buf|, BUFFER_SIZE)
    {
      var i := Min(|buf|, BUFFER_SIZE);
      data[index] := buf[..i] + data[index][i..];
      done[index] := false;
      length[index] := DescriptorLength(card, |buf|);
      WrapRingNext(index, n);
      index := WrapRing(index, n);
      free := free - 1;
      tail := index;
      count := i;
    }

    /** Looks for room only when the ring is full, then sends; `None` stands for still spinning. */
    method WritePacket(buf: seq<byte>, reports: seq<nat>) returns (count: Option<nat>)
      requires Shape(Memory())
      modifies this, data, length, done
      ensures var (t, found) := if old(free) == 0 then Reclaimed(old(Memory()), reports) else (old(Memory()), true);
              if found then Shape(t) && FillMemory(t, Memory(), buf) && count == Some(Min(|buf|, BUFFER_SIZE))
              else Memory() == t && count == None
    {
      if free == 0 {
        ReclaimedHasRoom(Memory(), reports);
        var found := Reclaim(reports);
        if !found {
          return None;
        }
      }
      var i := Fill(buf);
      return Some(i);
    }
  }
}
