/**
 The RTL8139 receive path: the device lays records (status, size, payload, checksum) one
 after the other in a circular byte buffer, and the driver's reader is its inverse.
 */
module Rtl8139 {
  import opened Bits
  import opened Common

  const RX_BUFFER_SIZE := 0x1_0000

  datatype Errno = EIO

  type Reply = Result<Option<seq<byte>>, Errno>

  /** A record as the device writes it. The stored size counts the four checksum bytes. */
  datatype Record = Record(status: nat, payload: seq<byte>, crc: seq<byte>)

  ghost predicate ValidRecord(rec: Record) {
    rec.status < 0x1_0000 && |rec.crc| == 4 && |rec.payload| + 4 < 0x1_0000
  }

  function Lo(x: nat): byte { x % 256 }

  function Hi(x: nat): byte { x / 256 % 256 }

  function Raw(rec: Record): seq<byte> {
    var size := |rec.payload| + 4;
    [Lo(rec.status), Hi(rec.status), Lo(size), Hi(size)] + rec.payload + rec.crc
  }

  function RoundUp4(x: nat): nat { (x + 3) / 4 * 4 }

  /** The room a record takes: padded to a multiple of four. */
  function Room(rec: Record): nat {
    RoundUp4(8 + |rec.payload|)
  }

  function TotalRoom(recs: seq<Record>): nat {
    if recs == [] then 0 else TotalRoom(recs[..|recs| - 1]) + Room(recs[|recs| - 1])
  }

  // ---- Driver view ----

  datatype Memory = Memory(ring: seq<byte>, receiveI: nat, capr: nat, bufe: bool)

  ghost predicate Shape(m: Memory) {
    |m.ring| == RX_BUFFER_SIZE && m.receiveI < RX_BUFFER_SIZE
  }

  function Rx(m: Memory, offset: nat): byte
    requires Shape(m)
  {
    m.ring[(m.receiveI + offset) % 0x1_0000]
  }

  function RxStatus(m: Memory): nat
    requires Shape(m)
  {
    Rx(m, 0) + 256 * Rx(m, 1)
  }

  function RxSize(m: Memory): nat
    requires Shape(m)
  {
    Rx(m, 2) + 256 * Rx(m, 3)
  }

  function SatSub4(size: nat): nat { if size < 4 then 0 else size - 4 }

  function RxBytes(m: Memory, count: nat): (s: seq<byte>)
    requires Shape(m)
    ensures |s| == count
    ensures forall i :: 0 <= i < count ==> s[i] == Rx(m, 4 + i)
  {
    seq(count, i requires 0 <= i < count => Rx(m, 4 + i))
  }

  /** The effect of `read_packet` with a caller's buffer of `size` bytes. */
  ghost predicate ReadMemory(m: Memory, m': Memory, size: nat, reply: Reply)
    requires Shape(m)
  {
    if m.bufe then reply == Success(None) && m' == m
    else
      && reply == (if RxStatus(m) % 2 == 1 then Success(Some(RxBytes(m, Min(size, SatSub4(RxSize(m)))))) else Failure(EIO))
      && m' == m.(
           receiveI := RoundUp4(m.receiveI + 4 + RxSize(m)) % 0x1_0000,
           capr := (RoundUp4(m.receiveI + 4 + RxSize(m)) % 0x1_0000 - 16) % 0x1_0000)
  }

  // ---- System ----

  /**
   `cbr` is the device's own write pointer. `read` and `unread` are the records the driver has taken and those still in
   the buffer; `sizes` and `replies` its calls.
   */
  datatype System = System(
    m: Memory,
    cbr: nat,
    read: seq<Record>,
    unread: seq<Record>,
    sizes: seq<nat>,
    replies: seq<Reply>)

  datatype Step = Store(rec: Record) | Read(size: nat)

  /** The device's idea of the driver's position, from the register the driver writes. */
  function ReadPointer(capr: nat): nat {
    (capr + 16) % 0x1_0000
  }

  /** How much of the buffer the device takes to be in use. */
  function InUse(cbr: nat, capr: nat): nat {
    (cbr - ReadPointer(capr)) % 0x1_0000
  }

  ghost predicate Init(s: System) {
    Shape(s.m) && s == System(Memory(s.m.ring, 0, 0xFFF0, true), 0, [], [], [], [])
  }

  /** `raw` laid over the ring from position `pos` on, wrapping round. */
  function Overlay(ring: seq<byte>, pos: nat, raw: seq<byte>): (r: seq<byte>)
    requires |ring| == RX_BUFFER_SIZE
    ensures |r| == RX_BUFFER_SIZE
  {
    seq(RX_BUFFER_SIZE, p requires 0 <= p < RX_BUFFER_SIZE =>
      if (p - pos) % 0x1_0000 < |raw| then raw[(p - pos) % 0x1_0000] else ring[p])
  }

  /** The device stores a record at its pointer if that does not fill the buffer, which would make it look empty. */
  ghost predicate StoreStep(s: System, s': System, rec: Record)
    requires Shape(s.m)
  {
    && ValidRecord(rec) && InUse(s.cbr, s.m.capr) + Room(rec) < 0x1_0000
    && var cbr := (s.cbr + Room(rec)) % 0x1_0000;
       s' == s.(
         m := s.m.(ring := Overlay(s.m.ring, s.cbr, Raw(rec)), bufe := cbr == ReadPointer(s.m.capr)),
         cbr := cbr,
         unread := s.unread + [rec])
  }

  /** A read, after which the device's empty bit follows from its pointer and the register the driver wrote. */
  ghost predicate ReadStep(s: System, s': System, size: nat)
    requires Shape(s.m)
  {
    if s.m.bufe then s' == s
    else
      && |s'.replies| == |s.replies| + 1
      && ReadMemory(s.m, s'.m.(bufe := false), size, s'.replies[|s.replies|])
      && var taken := Min(1, |s.unread|);
         s' == System(
           s'.m.(bufe := s.cbr == ReadPointer(s'.m.capr)),
           s.cbr,
           s.read + s.unread[..taken],
           s.unread[taken..],
           s.sizes + [size],
           s.replies + [s'.replies[|s.replies|]])
  }

  ghost predicate NextStep(s: System, s': System, step: Step)
    requires Shape(s.m)
  {
    match step
    case Store(rec) => StoreStep(s, s', rec)
    case Read(size) => ReadStep(s, s', size)
  }

  // ---- Invariant ----

  /** The bytes of `raw` stand at distance `off` from the read position. */
  ghost predicate Holds(m: Memory, off: nat, raw: seq<byte>)
    requires Shape(m)
  {
    forall i :: 0 <= i < |raw| ==> Rx(m, off + i) == raw[i]
  }

  /** The unread records stand one after the other from the read position on. */
  ghost predicate Laid(m: Memory, recs: seq<Record>)
    requires Shape(m)
    decreases |recs|
  {
    recs == [] ||
    var n := |recs| - 1;
    && Laid(m, recs[..n])
    && ValidRecord(recs[n]) && Holds(m, TotalRoom(recs[..n]), Raw(recs[n]))
  }

  /** What the caller should get for a record: its payload cut to the buffer, or an I/O error. */
  function Expected(rec: Record, size: nat): Reply {
    if rec.status % 2 == 1 then Success(Some(rec.payload[..Min(size, |rec.payload|)])) else Failure(EIO)
  }

  /** The memory holds exactly the unread records, with the registers where they belong. */
  ghost predicate MemInv(m: Memory, recs: seq<Record>) {
    RegistersOk(m, recs == []) && TotalRoom(recs) < RX_BUFFER_SIZE && Laid(m, recs)
  }

  ghost predicate RegistersOk(m: Memory, empty: bool) {
    Shape(m) && m.receiveI % 4 == 0 && m.capr == (m.receiveI - 16) % 0x1_0000 && m.bufe == empty
  }

  /** The device writes where the unread records end. */
  ghost predicate PointerOk(cbr: nat, receiveI: nat, recs: seq<Record>) {
    cbr == (receiveI + TotalRoom(recs)) % 0x1_0000
  }

  ghost predicate RepliesOk(read: seq<Record>, sizes: seq<nat>, replies: seq<Reply>) {
    |sizes| == |replies| == |read| && forall k :: 0 <= k < |read| ==> replies[k] == Expected(read[k], sizes[k])
  }

  lemma ReplyOne(read: seq<Record>, sizes: seq<nat>, replies: seq<Reply>, rec: Record, size: nat)
    requires RepliesOk(read, sizes, replies)
    ensures RepliesOk(read + [rec], sizes + [size], replies + [Expected(rec, size)])
  {
  }

  ghost predicate Inv(s: System) {
    && MemInv(s.m, s.unread) && PointerOk(s.cbr, s.m.receiveI, s.unread)
    && RepliesOk(s.read, s.sizes, s.replies)
  }

  // ---- The reader inverts the writer ----

  lemma {:induction false} TotalRoomFirst(recs: seq<Record>)
    requires recs != []
    ensures TotalRoom(recs) == Room(recs[0]) + TotalRoom(recs[1..])
  {
    var n := |recs| - 1;
    if n > 0 {
      TotalRoomFirst(recs[..n]);
      assert recs[..n][1..] == recs[1..][..n - 1] && recs[1..][n - 1] == recs[n];
    } else {
      assert recs[..n] == [] && recs[1..] == [];
    }
  }

  /** The first unread record is read back exactly. */
  lemma {:induction false} FirstHolds(m: Memory, recs: seq<Record>)
    requires Shape(m) && Laid(m, recs) && recs != []
    ensures ValidRecord(recs[0]) && Holds(m, 0, Raw(recs[0]))
  {
    var n := |recs| - 1;
    if n > 0 {
      FirstHolds(m, recs[..n]);
    }
  }

  lemma ParseRecord(m: Memory, rec: Record, size: nat)
    requires Shape(m) && ValidRecord(rec) && Holds(m, 0, Raw(rec))
    ensures RxStatus(m) == rec.status && RxSize(m) == |rec.payload| + 4
    ensures RxBytes(m, Min(size, SatSub4(RxSize(m)))) == rec.payload[..Min(size, |rec.payload|)]
  {
    var raw := Raw(rec);
    assert Rx(m, 0 + 0) == raw[0] && Rx(m, 0 + 1) == raw[1] && Rx(m, 0 + 2) == raw[2] && Rx(m, 0 + 3) == raw[3];
    var n := Min(size, |rec.payload|);
    forall i | 0 <= i < n
      ensures Rx(m, 4 + i) == rec.payload[i]
    {
      assert Rx(m, 0 + (4 + i)) == raw[4 + i];
    }
  }

  /** Moving the read position on by a record's room moves every later record nearer by that much. */
  lemma HoldsMoved(m: Memory, m': Memory, step: nat, off: nat, raw: seq<byte>)
    requires Shape(m) && Shape(m') && m'.ring == m.ring && m'.receiveI == (m.receiveI + step) % 0x1_0000
    requires Holds(m, step + off, raw)
    ensures Holds(m', off, raw)
  {
    forall i | 0 <= i < |raw|
      ensures Rx(m', off + i) == raw[i]
    {
      assert Rx(m, (step + off) + i) == raw[i];
      ModAdd(m.receiveI + step, off + i);
    }
  }

  lemma ModAdd(a: nat, b: nat)
    ensures (a % 0x1_0000 + b) % 0x1_0000 == (a + b) % 0x1_0000
  {
  }

  lemma {:induction false} LaidMoved(m: Memory, m': Memory, recs: seq<Record>)
    requires Shape(m) && Shape(m') && recs != [] && Laid(m, recs)
    requires m'.ring == m.ring && m'.receiveI == (m.receiveI + Room(recs[0])) % 0x1_0000
    ensures Laid(m', recs[1..])
    decreases |recs|
  {
    var n := |recs| - 1;
    if n > 0 {
      LaidMoved(m, m', recs[..n]);
      assert recs[1..][..n - 1] == recs[..n][1..];
      TotalRoomFirst(recs[..n]);
      HoldsMoved(m, m', Room(recs[0]), TotalRoom(recs[1..][..n - 1]), Raw(recs[n]));
    }
  }

  /** `m'` is `m` with `raw` stored at distance `pos` from the read position. */
  ghost predicate StoredAt(m: Memory, m': Memory, pos: nat, raw: seq<byte>)
    requires Shape(m)
  {
    m'.ring == Overlay(m.ring, m.receiveI + pos, raw) && m'.receiveI == m.receiveI
  }

  /** Storing a record beyond the unread ones, within one turn of the buffer, leaves them alone. */
  lemma OverlayAway(m: Memory, m': Memory, pos: nat, raw: seq<byte>, off: nat, kept: seq<byte>)
    requires Shape(m) && Shape(m') && StoredAt(m, m', pos, raw)
    requires pos + |raw| <= RX_BUFFER_SIZE && off + |kept| <= pos && Holds(m, off, kept)
    ensures Holds(m', off, kept)
  {
    forall i | 0 <= i < |kept|
      ensures Rx(m', off + i) == kept[i]
    {
      assert Rx(m, off + i) == kept[i];
      Distance(m.receiveI, off + i, pos);
    }
  }

  lemma Distance(base: nat, i: nat, pos: nat)
    requires base < RX_BUFFER_SIZE && i < RX_BUFFER_SIZE && pos <= RX_BUFFER_SIZE
    ensures ((base + i) % 0x1_0000 - (base + pos)) % 0x1_0000 == if i < pos then i - pos + RX_BUFFER_SIZE else i - pos
  {
  }

  lemma OverlayThere(m: Memory, m': Memory, pos: nat, raw: seq<byte>)
    requires Shape(m) && Shape(m') && StoredAt(m, m', pos, raw) && pos + |raw| <= RX_BUFFER_SIZE
    ensures Holds(m', pos, raw)
  {
    forall i | 0 <= i < |raw|
      ensures Rx(m', pos + i) == raw[i]
    {
      Distance(m.receiveI, pos + i, pos);
    }
  }

  lemma {:induction false} LaidKept(m: Memory, m': Memory, pos: nat, raw: seq<byte>, recs: seq<Record>)
    requires Shape(m) && Shape(m') && StoredAt(m, m', pos, raw)
    requires Laid(m, recs) && TotalRoom(recs) <= pos && pos + |raw| <= RX_BUFFER_SIZE
    ensures Laid(m', recs)
  {
    if recs != [] {
      var n := |recs| - 1;
      LaidKept(m, m', pos, raw, recs[..n]);
      OverlayAway(m, m', pos, raw, TotalRoom(recs[..n]), Raw(recs[n]));
    }
  }

  lemma LaidSnoc(m: Memory, recs: seq<Record>, rec: Record)
    requires Shape(m) && Laid(m, recs) && ValidRecord(rec) && Holds(m, TotalRoom(recs), Raw(rec))
    ensures Laid(m, recs + [rec]) && TotalRoom(recs + [rec]) == TotalRoom(recs) + Room(rec)
  {
    assert (recs + [rec])[..|recs|] == recs;
  }

  // ---- Steps and runs ----

  lemma StoreMem(m: Memory, m': Memory, recs: seq<Record>, rec: Record)
    requires MemInv(m, recs) && ValidRecord(rec) && TotalRoom(recs) + Room(rec) < RX_BUFFER_SIZE
    requires Shape(m') && StoredAt(m, m', TotalRoom(recs), Raw(rec)) && m'.capr == m.capr && !m'.bufe
    ensures MemInv(m', recs + [rec])
  {
    RawFits(rec);
    StoreLaid(m, m', recs, rec);
    SameRegisters(m, m', recs == [], recs + [rec] == []);
  }

  lemma SameRegisters(m: Memory, m': Memory, empty: bool, empty': bool)
    requires RegistersOk(m, empty) && Shape(m') && m'.receiveI == m.receiveI && m'.capr == m.capr && m'.bufe == empty'
    ensures RegistersOk(m', empty')
  {
  }

  lemma RawFits(rec: Record)
    requires ValidRecord(rec)
    ensures |Raw(rec)| <= Room(rec)
  {
  }

  lemma StoreLaid(m: Memory, m': Memory, recs: seq<Record>, rec: Record)
    requires Shape(m) && Shape(m') && Laid(m, recs) && ValidRecord(rec)
    requires StoredAt(m, m', TotalRoom(recs), Raw(rec)) && TotalRoom(recs) + |Raw(rec)| <= RX_BUFFER_SIZE
    ensures Laid(m', recs + [rec]) && TotalRoom(recs + [rec]) == TotalRoom(recs) + Room(rec)
  {
    var pos, raw := TotalRoom(recs), Raw(rec);
    LaidKept(m, m', pos, raw, recs);
    OverlayThere(m, m', pos, raw);
    LaidSnoc(m', recs, rec);
  }

  /** Only the position modulo the buffer size matters. */
  lemma OverlayMod(ring: seq<byte>, pos: nat, raw: seq<byte>)
    requires |ring| == RX_BUFFER_SIZE
    ensures Overlay(ring, pos % 0x1_0000, raw) == Overlay(ring, pos, raw)
  {
    forall p | 0 <= p < RX_BUFFER_SIZE ensures Overlay(ring, pos % 0x1_0000, raw)[p] == Overlay(ring, pos, raw)[p] {
      SubMod(p, pos);
    }
  }

  lemma SubMod(p: nat, pos: nat)
    ensures (p - pos % 0x1_0000) % 0x1_0000 == (p - pos) % 0x1_0000
  {
  }

  lemma CaprBack(receiveI: nat)
    requires receiveI < RX_BUFFER_SIZE
    ensures ReadPointer((receiveI - 16) % 0x1_0000) == receiveI
  {
  }

  lemma PointerBack(receiveI: nat, room: nat)
    requires receiveI < RX_BUFFER_SIZE && room < RX_BUFFER_SIZE
    ensures ((receiveI + room) % 0x1_0000 - receiveI) % 0x1_0000 == room
    ensures (receiveI + room) % 0x1_0000 == receiveI <==> room == 0
  {
  }

  /** What the device works out from CAPR is right: how much is in use, and whether anything is. */
  lemma {:induction false} DeviceKnows(m: Memory, cbr: nat, recs: seq<Record>)
    requires Shape(m) && m.capr == (m.receiveI - 16) % 0x1_0000 && TotalRoom(recs) < RX_BUFFER_SIZE
    requires PointerOk(cbr, m.receiveI, recs)
    ensures InUse(cbr, m.capr) == TotalRoom(recs) && (cbr == ReadPointer(m.capr) <==> recs == [])
  {
    CaprBack(m.receiveI);
    PointerBack(m.receiveI, TotalRoom(recs));
  }

  lemma PointerStores(cbr: nat, cbr': nat, receiveI: nat, recs: seq<Record>, rec: Record)
    requires PointerOk(cbr, receiveI, recs) && cbr' == (cbr + Room(rec)) % 0x1_0000
    ensures PointerOk(cbr', receiveI, recs + [rec])
  {
    assert (recs + [rec])[..|recs|] == recs;
    ModAdd(receiveI + TotalRoom(recs), Room(rec));
  }

  lemma StoreKeeps(s: System, s': System, rec: Record)
    requires Inv(s) && StoreStep(s, s', rec)
    ensures Inv(s') && s'.read + s'.unread == s.read + s.unread + [rec]
  {
    DeviceKnows(s.m, s.cbr, s.unread);
    PointerStores(s.cbr, s'.cbr, s.m.receiveI, s.unread, rec);
    StoreRoom(s.unread, rec);
    DeviceKnows(s'.m, s'.cbr, s'.unread);
    OverlayMod(s.m.ring, s.m.receiveI + TotalRoom(s.unread), Raw(rec));
    StoreMem(s.m, s'.m, s.unread, rec);
  }

  lemma StoreRoom(recs: seq<Record>, rec: Record)
    ensures TotalRoom(recs + [rec]) == TotalRoom(recs) + Room(rec)
  {
    assert (recs + [rec])[..|recs|] == recs;
  }

  /** Where a read leaves the registers. */
  lemma ReadRegisters(m: Memory, m': Memory, payload: nat)
    requires Shape(m) && m.receiveI % 4 == 0 && RxSize(m) == payload + 4
    requires m'.ring == m.ring && m'.receiveI == RoundUp4(m.receiveI + 4 + RxSize(m)) % 0x1_0000
    requires m'.capr == (RoundUp4(m.receiveI + 4 + RxSize(m)) % 0x1_0000 - 16) % 0x1_0000
    ensures RegistersOk(m', m'.bufe) && m'.receiveI == (m.receiveI + RoundUp4(8 + payload)) % 0x1_0000
  {
    AlignedStep(m.receiveI, payload);
  }

  lemma ReadMem(m: Memory, m': Memory, recs: seq<Record>, size: nat, reply: Reply)
    requires MemInv(m, recs) && recs != [] && ReadMemory(m, m'.(bufe := false), size, reply)
    ensures RegistersOk(m', m'.bufe) && m'.ring == m.ring && m'.receiveI == (m.receiveI + Room(recs[0])) % 0x1_0000
    ensures reply == Expected(recs[0], size)
  {
    FirstHolds(m, recs);
    ParseRecord(m, recs[0], size);
    ReadRegisters(m, m', |recs[0].payload|);
  }

  lemma ReadLaid(m: Memory, m': Memory, recs: seq<Record>)
    requires Shape(m) && Shape(m') && recs != [] && Laid(m, recs)
    requires m'.ring == m.ring && m'.receiveI == (m.receiveI + Room(recs[0])) % 0x1_0000
    ensures TotalRoom(recs[1..]) + Room(recs[0]) == TotalRoom(recs) && Laid(m', recs[1..])
  {
    LaidMoved(m, m', recs);
    TotalRoomFirst(recs);
  }

  lemma PointerReads(cbr: nat, receiveI: nat, receiveI': nat, recs: seq<Record>)
    requires PointerOk(cbr, receiveI, recs) && recs != [] && receiveI' == (receiveI + Room(recs[0])) % 0x1_0000
    requires TotalRoom(recs[1..]) + Room(recs[0]) == TotalRoom(recs)
    ensures PointerOk(cbr, receiveI', recs[1..])
  {
    ModAdd(receiveI + Room(recs[0]), TotalRoom(recs[1..]));
  }

  lemma ReadBuffer(m: Memory, m': Memory, cbr: nat, recs: seq<Record>)
    requires MemInv(m, recs) && recs != [] && PointerOk(cbr, m.receiveI, recs)
    requires RegistersOk(m', m'.bufe) && m'.ring == m.ring && m'.receiveI == (m.receiveI + Room(recs[0])) % 0x1_0000
    requires m'.bufe == (cbr == ReadPointer(m'.capr))
    ensures MemInv(m', recs[1..]) && PointerOk(cbr, m'.receiveI, recs[1..])
  {
    ReadLaid(m, m', recs);
    PointerReads(cbr, m.receiveI, m'.receiveI, recs);
    DeviceKnows(m', cbr, recs[1..]);
  }

  /** What a read does to the lists. */
  lemma ReadLists(s: System, s': System, size: nat)
    requires Shape(s.m) && !s.m.bufe && s.unread != [] && ReadStep(s, s', size)
    ensures ReadMemory(s.m, s'.m.(bufe := false), size, s'.replies[|s.replies|])
    ensures s'.cbr == s.cbr && s'.m.bufe == (s.cbr == ReadPointer(s'.m.capr))
    ensures s'.read == s.read + [s.unread[0]] && s'.unread == s.unread[1..]
    ensures s'.sizes == s.sizes + [size] && s'.replies == s.replies + [s'.replies[|s.replies|]]
  {
    assert s.unread[..1] == [s.unread[0]];
  }

  lemma ReadKeeps(s: System, s': System, size: nat)
    requires Inv(s) && ReadStep(s, s', size)
    ensures Inv(s') && s'.read + s'.unread == s.read + s.unread
  {
    if !s.m.bufe {
      ReadLists(s, s', size);
      ReadMem(s.m, s'.m, s.unread, size, s'.replies[|s.replies|]);
      ReadBuffer(s.m, s'.m, s.cbr, s.unread);
      ReplyOne(s.read, s.sizes, s.replies, s.unread[0], size);
      assert s.unread == [s.unread[0]] + s.unread[1..];
    }
  }

  /** From a 4-aligned position, rounding the end of the record up is adding its room. */
  lemma AlignedStep(r: nat, payload: nat)
    requires r % 4 == 0
    ensures RoundUp4(r + 4 + (payload + 4)) == r + RoundUp4(8 + payload)
    ensures RoundUp4(r + 4 + (payload + 4)) % 0x1_0000 % 4 == 0
  {
    var q := r / 4;
    assert (r + 4 + (payload + 4) + 3) / 4 == q + (8 + payload + 3) / 4;
    FourTimes(q + (8 + payload + 3) / 4);
  }

  lemma FourTimes(z: nat)
    ensures 4 * z % 0x1_0000 % 4 == 0
  {
  }

  ghost predicate StepAt(states: seq<System>, steps: seq<Step>, i: nat)
    requires i < |steps| < |states|
  {
    Shape(states[i].m) && NextStep(states[i], states[i + 1], steps[i])
  }

  ghost predicate Run(states: seq<System>, steps: seq<Step>) {
    && |states| == |steps| + 1 && Init(states[0])
    && forall i {:trigger StepAt(states, steps, i)} :: 0 <= i < |steps| ==> StepAt(states, steps, i)
  }

  /** The records the device stores in the first `k` steps, in order. */
  ghost function StoredBy(steps: seq<Step>, k: nat): seq<Record>
    requires k <= |steps|
  {
    if k == 0 then []
    else if steps[k - 1].Store? then StoredBy(steps, k - 1) + [steps[k - 1].rec] else StoredBy(steps, k - 1)
  }

  lemma {:induction false} RunKeepsInv(states: seq<System>, steps: seq<Step>, k: nat)
    requires Run(states, steps) && k < |states|
    ensures Inv(states[k]) && states[k].read + states[k].unread == StoredBy(steps, k)
  {
    if k > 0 {
      RunKeepsInv(states, steps, k - 1);
      assert StepAt(states, steps, k - 1);
      match steps[k - 1]
      case Store(rec) => StoreKeeps(states[k - 1], states[k], rec);
      case Read(size) => ReadKeeps(states[k - 1], states[k], size);
    }
  }

  lemma PointerStep(s: System, s': System, step: Step)
    requires Shape(s.m) && NextStep(s, s', step)
    ensures s'.cbr == if step.Store? then (s.cbr + Room(step.rec)) % 0x1_0000 else s.cbr
  {
  }

  /** The device's pointer is the room of everything it ever stored, modulo the buffer size. */
  lemma {:induction false} PointerCounts(states: seq<System>, steps: seq<Step>, k: nat)
    requires Run(states, steps) && k < |states|
    ensures states[k].cbr == TotalRoom(StoredBy(steps, k)) % 0x1_0000
  {
    if k > 0 {
      PointerCounts(states, steps, k - 1);
      assert StepAt(states, steps, k - 1);
      PointerStep(states[k - 1], states[k], steps[k - 1]);
      if steps[k - 1].Store? {
        var stored := StoredBy(steps, k - 1);
        StoreRoom(stored, steps[k - 1].rec);
        ModAdd(TotalRoom(stored), Room(steps[k - 1].rec));
      }
    }
  }

  /**
   Over every run without overrun the driver returns exactly the payloads the device
   wrote, in order, cut to the caller's buffers, with an I/O error for each bad status;
   its position stays aligned and in range, CAPR stays sixteen bytes behind it, and the
   device, which knows only its own pointer and CAPR, shows the buffer empty when it is.
   */
  lemma ReceiveInverts(states: seq<System>, steps: seq<Step>, k: nat)
    requires Run(states, steps) && k < |states|
    ensures var s, stored := states[k], StoredBy(steps, k);
            && |s.replies| == |s.sizes| <= |stored|
            && (forall i :: 0 <= i < |s.replies| ==>
                  if stored[i].status % 2 == 1
                  then
                    && s.replies[i].Success? && s.replies[i].value.Some? && s.replies[i].value.value <= stored[i].payload
                    && |s.replies[i].value.value| == (if |stored[i].payload| <= s.sizes[i] then |stored[i].payload| else s.sizes[i])
                  else s.replies[i] == Failure(EIO))
            && s.m.receiveI % 4 == 0 && s.m.receiveI < RX_BUFFER_SIZE
            && s.m.capr == (s.m.receiveI - 16) % 0x1_0000
            && (s.m.bufe <==> |s.replies| == |stored|)
            && s.cbr == TotalRoom(stored) % 0x1_0000
  {
    RunKeepsInv(states, steps, k);
    PointerCounts(states, steps, k);
    var s := states[k];
    forall i | 0 <= i < |s.replies| ensures s.replies[i] == Expected(StoredBy(steps, k)[i], s.sizes[i]) {
      assert (s.read + s.unread)[i] == s.read[i];
    }
  }

  // ---- Driver ----

  class RtlDriver {
    const ring: array<byte>
    var receiveI: nat
    var capr: nat
    var bufe: bool

    ghost function Mem(): Memory
      reads this, ring
    {
      Memory(ring[..], receiveI, capr, bufe)
    }

    constructor ()
      ensures Shape(Mem()) && receiveI == 0 && fresh(ring)
    {
      ring := new byte[RX_BUFFER_SIZE](_ => 0);
      receiveI, capr, bufe := 0, 0xFFF0, true;
    }

    /** A byte of the buffer at a 16-bit distance from the read position. */
    method ReadByte(offset: nat) returns (b: byte)
      requires Shape(Mem()) && offset < 0x1_0000
      ensures b == Rx(Mem(), offset)
    {
      b := ring[(receiveI + offset) % 0x1_0000];
    }

    method Word(offset: nat) returns (x: nat)
      requires Shape(Mem()) && offset + 1 < 0x1_0000
      ensures x == Rx(Mem(), offset) + 256 * Rx(Mem(), offset + 1) && x < 0x1_0000
    {
      var lo := ReadByte(offset);
      var hi := ReadByte(offset + 1);
      x := (lo as int) + 256 * (hi as int);
    }

    method NextRead() returns (size: nat)
      requires Shape(Mem())
      ensures size == if !bufe && RxStatus(Mem()) % 2 == 1 then SatSub4(RxSize(Mem())) else 0
    {
      if bufe {
        return 0;
      }
      var rxsts := Word(0);
      var sizeWithCrc := Word(2);
      return if rxsts % 2 == 1 then SatSub4(sizeWithCrc) else 0;
    }

    /** Copies the payload of the record at the read position, as far as the buffer goes. */
    method CopyPayload(buf: array<byte>, size: nat) returns (i: nat)
      requires Shape(Mem()) && buf != ring && size < 0x1_0000 - 4
      modifies buf
      ensures i == Min(buf.Length, size) && buf[..i] == RxBytes(Mem(), i) && buf[i..] == old(buf[i..])
    {
      ghost var m := Mem();
      i := 0;
      while i < buf.Length && i < size
        invariant 0 <= i <= buf.Length && i <= size && Mem() == m
        invariant forall k :: 0 <= k < i ==> buf[k] == Rx(m, 4 + k)
        invariant forall k :: i <= k < buf.Length ==> buf[k] == old(buf[k])
      {
        buf[i] := ReadByte(4 + i);
        i := i + 1;
      }
    }

    /** Moves past a record and tells the device. */
    method Advance(size: nat)
      requires Shape(Mem())
      modifies this`receiveI, this`capr
      ensures Mem() == old(Mem()).(
                receiveI := RoundUp4(old(receiveI) + 4 + size) % 0x1_0000,
                capr := (RoundUp4(old(receiveI) + 4 + size) % 0x1_0000 - 16) % 0x1_0000)
    {
      receiveI := RoundUp4(receiveI + 4 + size) % 0x1_0000;
      capr := (receiveI - 16) % 0x1_0000;
    }

    /** Reads the record at the read position into the caller's buffer and moves past it. */
    method ReadPacket(buf: array<byte>) returns (r: Result<Option<nat>, Errno>)
      requires Shape(Mem()) && buf != ring
      modifies this`receiveI, this`capr, buf
      ensures Shape(Mem())
      ensures r.Success? && r.value.Some? ==> r.value.value <= buf.Length
      ensures ReadMemory(old(Mem()), Mem(), buf.Length,
                match r
                case Failure(e) => Failure(e)
                case Success(None) => Success(None)
                case Success(Some(n)) => Success(Some(buf[..n])))
      ensures r.Success? && r.value.Some? ==> buf[r.value.value..] == old(buf[r.value.value..])
    {
      if bufe {
        return Success(None);
      }
      var rxsts := Word(0);
      var sizeWithCrc := Word(2);
      if rxsts % 2 == 1 {
        var i := CopyPayload(buf, SatSub4(sizeWithCrc));
        r := Success(Some(i));
      } else {
        r := Failure(EIO);
      }
      Advance(sizeWithCrc);
    }
  }
}
