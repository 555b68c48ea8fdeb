/**
 The receive descriptor ring of the e1000 and ixgbe drivers: the device fills buffers and
 marks them done, the driver drains them in order and hands them back through the tail.
 */
module RxRing {
  import opened Bits
  import opened Common
  import opened Rings
  import opened NicBuffers

  /** `done` and `eop` are the DD and EOP status bits of each descriptor; clearing the status clears DD. */
  datatype Ring = Ring(
    card: Card,
    n: nat,
    done: seq<bool>,
    eop: seq<bool>,
    length: seq<nat>,
    data: seq<seq<byte>>,
    index: nat,
    tail: nat)

  ghost predicate Shape(r: Ring) {
    && IsPow2(r.n) && r.n > 1
    && |r.done| == |r.eop| == r.n && BuffersOk(r.n, r.length, r.data)
    && r.index < r.n && r.tail < r.n
  }

  function Truncated(frame: seq<byte>, size: nat): seq<byte> {
    frame[..Min(|frame|, size)]
  }

  /** The frame in descriptor `i`. */
  function FrameAt(r: Ring, i: nat): seq<byte>
    requires Shape(r) && i < r.n
  {
    r.data[i][..r.length[i]]
  }

  /** The ixgbe driver panics on a frame that does not end in its descriptor; e1000 takes the piece for a frame. */
  predicate ReadPanics(r: Ring)
    requires Shape(r)
  {
    r.card.Ixgbe? && r.done[r.index] && !r.eop[r.index]
  }

  /** The effect of `read_packet` with a caller's buffer of `size` bytes. */
  ghost predicate ReadMemory(r: Ring, r': Ring, size: nat, packet: Option<seq<byte>>)
    requires Shape(r)
  {
    if r.done[r.index]
    then
      && packet == Some(Truncated(FrameAt(r, r.index), size))
      && r' == r.(done := r.done[r.index := false], tail := r.index, index := Slot(r.n, r.index + 1))
    else packet == None && r' == r
  }

  // ---- System ----

  /**
   `head` is the device's head register; `frames` is every frame, or piece of one, it ever stored and `ends` whether the
   frame ended there; `delivered` is every packet returned.
   */
  datatype System = System(
    r: Ring,
    head: nat,
    frames: seq<seq<byte>>,
    ends: seq<bool>,
    sizes: seq<nat>,
    delivered: seq<seq<byte>>)

  datatype Step = Receive(frame: seq<byte>, end: bool) | Read(size: nat)

  ghost predicate Init(s: System, n: nat) {
    && Shape(s.r) && s.r.n == n && s.r.index == 0 && s.r.tail == n - 1
    && (forall i :: 0 <= i < n ==> !s.r.done[i])
    && s == System(s.r, 0, [], [], [], [])
  }

  /** The device stores a frame at its head unless the head has caught up with the tail. */
  ghost predicate ReceiveStep(s: System, s': System, frame: seq<byte>, end: bool)
    requires Shape(s.r)
  {
    && s.head != s.r.tail && s.head < s.r.n && |frame| <= BUFFER_SIZE
    && s' == s.(
         r := s.r.(
           done := s.r.done[s.head := true],
           eop := s.r.eop[s.head := end],
           length := s.r.length[s.head := |frame|],
           data := s.r.data[s.head := frame + s.r.data[s.head][|frame|..]]),
         head := Slot(s.r.n, s.head + 1),
         frames := s.frames + [frame],
         ends := s.ends + [end])
  }

  ghost predicate NextStep(s: System, s': System, step: Step)
    requires Shape(s.r)
  {
    match step
    case Receive(frame, end) => ReceiveStep(s, s', frame, end)
    case Read(size) =>
      !ReadPanics(s.r) &&
      if s.r.done[s.r.index]
      then
        && var packet := Truncated(FrameAt(s.r, s.r.index), size);
        && ReadMemory(s.r, s'.r, size, Some(packet))
        && s' == s.(r := s'.r, sizes := s.sizes + [size], delivered := s.delivered + [packet])
      else ReadMemory(s.r, s'.r, size, None) && s' == s.(r := s'.r)
  }

  // ---- Invariant ----

  /** Descriptors are done exactly in the window from the next frame to read up to the device's head. */
  ghost predicate DoneWindow(done: seq<bool>, lo: nat, hi: nat) {
    |done| > 0 && forall k :: lo <= k < lo + |done| ==> (done[Slot(|done|, k)] <==> k < hi)
  }

  ghost predicate RingInv(r: Ring, head: nat, frames: seq<seq<byte>>, read: nat) {
    && Shape(r)
    && read <= |frames| < read + r.n
    && r.index == Slot(r.n, read)
    && head == Slot(r.n, |frames|)
    && r.tail == Slot(r.n, read + r.n - 1)
    && DoneWindow(r.done, read, |frames|)
    && RingHolds(Frames(r.n, r.length, r.data), frames, read)
  }

  ghost predicate DeliveredOk(frames: seq<seq<byte>>, sizes: seq<nat>, delivered: seq<seq<byte>>) {
    && |sizes| == |delivered| <= |frames|
    && (forall k :: 0 <= k < |delivered| ==> delivered[k] == Truncated(frames[k], sizes[k]))
  }

  ghost predicate Inv(s: System) {
    && |s.ends| == |s.frames| && RingHolds(s.r.eop, s.ends, |s.delivered|)
    && RingInv(s.r, s.head, s.frames, |s.delivered|)
    && DeliveredOk(s.frames, s.sizes, s.delivered)
  }

  /** Every later entry of a ringful is in another slot, and a turn later the slot comes round again. */
  lemma SlotTurn(n: nat, i: nat)
    requires n > 0
    ensures Slot(n, i + n) == Slot(n, i)
  {
  }

  lemma DoneSet(done: seq<bool>, lo: nat, hi: nat)
    requires DoneWindow(done, lo, hi) && lo <= hi < lo + |done|
    ensures DoneWindow(done[Slot(|done|, hi) := true], lo, hi + 1)
  {
    forall k | lo <= k < lo + |done| && k != hi
      ensures Slot(|done|, k) != Slot(|done|, hi)
    {
      if k < hi { SlotsApart(|done|, k, hi); } else { SlotsApart(|done|, hi, k); }
    }
  }

  lemma DoneClear(done: seq<bool>, lo: nat, hi: nat)
    requires DoneWindow(done, lo, hi) && lo < hi <= lo + |done|
    ensures DoneWindow(done[Slot(|done|, lo) := false], lo + 1, hi)
  {
    var n := |done|;
    SlotTurn(n, lo);
    forall k | lo < k < lo + n
      ensures Slot(n, k) != Slot(n, lo)
    {
      SlotsApart(n, lo, k);
    }
  }

  lemma ReceiveRing(s: System, s': System, frame: seq<byte>, end: bool)
    requires RingInv(s.r, s.head, s.frames, |s.delivered|) && ReceiveStep(s, s', frame, end)
    ensures RingInv(s'.r, s'.head, s'.frames, |s'.delivered|) && |s.frames| < |s.delivered| + s.r.n - 1
  {
    var n, read, written := s.r.n, |s.delivered|, |s.frames|;
    assert written != read + n - 1;
    DoneSet(s.r.done, read, written);
    FrameUpdate(n, s.r.length, s.r.data, s.head, frame, frame + s.r.data[s.head][|frame|..]);
    RingPush(Frames(s.r.n, s.r.length, s.r.data), s.frames, read, frame);
    SlotSucc(n, written);
  }

  lemma ReceiveKeeps(s: System, s': System, frame: seq<byte>, end: bool)
    requires Inv(s) && ReceiveStep(s, s', frame, end)
    ensures Inv(s')
  {
    ReceiveRing(s, s', frame, end);
    RingPush(s.r.eop, s.ends, |s.delivered|, end);
  }

  lemma ReadRing(r: Ring, r': Ring, head: nat, frames: seq<seq<byte>>, read: nat)
    requires RingInv(r, head, frames, read) && r.done[r.index]
    requires r' == r.(done := r.done[r.index := false], tail := r.index, index := Slot(r.n, r.index + 1))
    ensures RingInv(r', head, frames, read + 1)
    ensures read < |frames| && FrameAt(r, r.index) == frames[read]
  {
    ReadFrame(r, frames, read);
    DoneClear(r.done, read, |frames|);
    SlotSucc(r.n, read);
    SlotTurn(r.n, read);
    assert Shape(r') && Frames(r'.n, r'.length, r'.data) == Frames(r.n, r.length, r.data);
  }

  lemma DeliverOne(frames: seq<seq<byte>>, sizes: seq<nat>, delivered: seq<seq<byte>>, size: nat)
    requires DeliveredOk(frames, sizes, delivered) && |delivered| < |frames|
    ensures DeliveredOk(frames, sizes + [size], delivered + [Truncated(frames[|delivered|], size)])
  {
  }

  lemma ReadKeeps(s: System, s': System, size: nat)
    requires Inv(s) && NextStep(s, s', Read(size))
    ensures Inv(s')
  {
    if s.r.done[s.r.index] {
      ReadRing(s.r, s'.r, s.head, s.frames, |s.delivered|);
      RingDrop(s.r.eop, s.ends, |s.delivered|);
      DeliverOne(s.frames, s.sizes, s.delivered, size);
    }
  }

  /** A done bit at the driver's index means the next frame is there. */
  lemma ReadFrame(r: Ring, frames: seq<seq<byte>>, read: nat)
    requires Shape(r) && r.index == Slot(r.n, read) && r.done[r.index]
    requires DoneWindow(r.done, read, |frames|) && RingHolds(Frames(r.n, r.length, r.data), frames, read)
    ensures read < |frames| && FrameAt(r, r.index) == frames[read]
  {
    assert Frames(r.n, r.length, r.data)[r.index] == FrameAt(r, r.index);
  }

  // ---- Runs ----

  ghost predicate StepAt(states: seq<System>, steps: seq<Step>, i: nat)
    requires i < |steps| < |states|
  {
    Shape(states[i].r) && NextStep(states[i], states[i + 1], steps[i])
  }

  ghost predicate Run(states: seq<System>, steps: seq<Step>, n: nat) {
    && |states| == |steps| + 1 && Init(states[0], n)
    && forall i {:trigger StepAt(states, steps, i)} :: 0 <= i < |steps| ==> StepAt(states, steps, i)
  }

  lemma {:induction false} RunKeepsInv(states: seq<System>, steps: seq<Step>, n: nat, k: nat)
    requires Run(states, steps, n) && k < |states|
    ensures Inv(states[k]) && states[k].r.n == n && states[k].r.card == states[0].r.card
  {
    if k == 0 {
      SlotTurn(n, 0);
    } else {
      RunKeepsInv(states, steps, n, k - 1);
      assert StepAt(states, steps, k - 1);
      match steps[k - 1]
      case Receive(frame, end) => ReceiveKeeps(states[k - 1], states[k], frame, end);
      case Read(size) => ReadKeeps(states[k - 1], states[k], size);
    }
  }

  /**
   The ring is a queue: in every run the packets returned are the device's frames, in
   order, once each, cut only to the caller's buffer; the tail stays one slot behind the
   next descriptor to read; and the done bits mark exactly the frames not yet read.
   */
  lemma ReceiveIsFifo(states: seq<System>, steps: seq<Step>, n: nat, k: nat)
    requires Run(states, steps, n) && k < |states|
    ensures var s := states[k];
            && Shape(s.r) && s.r.n == n
            && |s.delivered| == |s.sizes| <= |s.frames| < |s.delivered| + n
            && (forall i :: 0 <= i < |s.delivered| ==>
                  && s.delivered[i] <= s.frames[i]
                  && |s.delivered[i]| == if |s.frames[i]| <= s.sizes[i] then |s.frames[i]| else s.sizes[i])
            && s.r.tail == (s.r.index + n - 1) % n
            && (forall i :: |s.delivered| <= i < |s.delivered| + n ==> (s.r.done[Slot(n, i)] <==> i < |s.frames|))
            && (forall i :: |s.delivered| <= i < |s.frames| ==> FrameAt(s.r, Slot(n, i)) == s.frames[i])
  {
    RunKeepsInv(states, steps, n, k);
    var s := states[k];
    TailBehind(n, |s.delivered|);
    forall i | |s.delivered| <= i < |s.frames|
      ensures FrameAt(s.r, Slot(n, i)) == s.frames[i]
    {
      assert Frames(s.r.n, s.r.length, s.r.data)[Slot(n, i)] == s.frames[i];
    }
  }

  /** A read panics exactly when the oldest unread piece is on ixgbe and does not end its frame. */
  lemma ReadPanicsIff(states: seq<System>, steps: seq<Step>, n: nat, k: nat)
    requires Run(states, steps, n) && k < |states|
    ensures var s := states[k];
            && Shape(s.r) && |s.ends| == |s.frames|
            && (ReadPanics(s.r) <==>
                  s.r.card.Ixgbe? && |s.delivered| < |s.frames| && !s.ends[|s.delivered|])
  {
    RunKeepsInv(states, steps, n, k);
  }

  /** A ring of two as start-up leaves it. */
  function Fresh(card: Card): Ring {
    var buffer := seq(BUFFER_SIZE, _ => 0);
    Ring(card, 2, [false, false], [false, false], [0, 0], [buffer, buffer], 0, 1)
  }

  /** One piece that does not end its frame, stored by an ixgbe device, and the next read panics. */
  lemma PieceStopsDriver(piece: seq<byte>) returns (states: seq<System>, steps: seq<Step>)
    requires |piece| <= BUFFER_SIZE
    ensures Run(states, steps, 2) && steps == [Receive(piece, false)]
    ensures Shape(states[1].r) && ReadPanics(states[1].r)
  {
    var s := System(Fresh(Ixgbe), 0, [], [], [], []);
    var r := s.r.(
      done := s.r.done[0 := true],
      eop := s.r.eop[0 := false],
      length := s.r.length[0 := |piece|],
      data := s.r.data[0 := piece + s.r.data[0][|piece|..]]);
    var s' := System(r, 1, [piece], [false], [], []);
    states, steps := [s, s'], [Receive(piece, false)];
    assert Init(s, 2) && ReceiveStep(s, s', piece, false);
    assert StepAt(states, steps, 0);
    RunKeepsInv(states, steps, 2, 1);
  }

  lemma TailBehind(n: nat, read: nat)
    requires n > 1
    ensures Slot(n, read + n - 1) == (Slot(n, read) + n - 1) % n
  {
    var r := read % n;
    SlotMod(n, read);
    SlotMod(n, read + n - 1);
    assert read == n * (read / n) + r;
    if r == 0 {
      DivModUnique(read + n - 1, n, read / n, n - 1);
      DivModUnique(n - 1, n, 0, n - 1);
    } else {
      assert read + n - 1 == n * (read / n + 1) + (r - 1);
      DivModUnique(read + n - 1, n, read / n + 1, r - 1);
      DivModUnique(r + n - 1, n, 1, r - 1);
    }
  }

  // ---- Driver ----

  datatype Outcome = Nothing | Got(count: nat) | Panic

  class RxDriver {
    const card: Card
    const n: nat
    const done: array<bool>
    const eop: array<bool>
    const length: array<nat>
    const data: array<seq<byte>>
    var index: nat
    var tail: nat

    ghost function Memory(): Ring
      reads this, done, eop, length, data
    {
      Ring(card, n, done[..], eop[..], length[..], data[..], index, tail)
    }

    ghost predicate Valid()
      reads this, done, eop, length, data
    {
      Shape(Memory()) && done != eop
    }

    /** Ring part of initialisation: nothing done, and every descriptor but one given to the device. */
    constructor (card: Card, n: nat)
      requires IsPow2(n) && n > 1
      ensures Valid() && this.card == card && this.n == n && index == 0 && tail == n - 1
      ensures forall i :: 0 <= i < n ==> !done[i]
      ensures fresh(done) && fresh(eop) && fresh(length) && fresh(data)
    {
      this.card, this.n := card, n;
      done := new bool[n](_ => false);
      eop := new bool[n](_ => false);
      length := new nat[n](_ => 0);
      data := new seq<byte>[n](_ => seq(BUFFER_SIZE, _ => 0));
      index, tail := 0, n - 1;
    }

    /** The length of the next frame, or 0; `None` is the panic. */
    method AvailableForRead() returns (size: Option<nat>)
      requires Valid()
      ensures size.None? <==> ReadPanics(Memory())
      ensures size.Some? ==> size.value == if done[index] then |FrameAt(Memory(), index)| else 0
    {
      if done[index] {
        if card.Ixgbe? && !eop[index] {
          return None;
        }
        return Some(length[index]);
      }
      return Some(0);
    }

    /** Copies the next frame out, hands its descriptor back and moves on. */
    method ReadPacket(buf: array<byte>) returns (r: Outcome)
      requires Valid()
      modifies this, done, buf
      ensures Valid()
      ensures r.Panic? <==> old(ReadPanics(Memory()))
      ensures !r.Panic? ==>
                ReadMemory(old(Memory()), Memory(), buf.Length, if r.Got? then Some(buf[..Min(r.count, buf.Length)]) else None)
      ensures r.Got? ==> r.count <= buf.Length && buf[r.count..] == old(buf[r.count..])
    {
      if !done[index] {
        return Nothing;
      }
      if card.Ixgbe? && !eop[index] {
        return Panic;
      }
      done[index] := false;
      ghost var frame := old(FrameAt(Memory(), index));
      var i := Min(buf.Length, length[index]);
      forall k | 0 <= k < i {
        buf[k] := data[index][k];
      }
      assert buf[..i] == Truncated(frame, buf.Length);
      tail := index;
      WrapRingNext(index, n);
      index := WrapRing(index, n);
      return Got(i);
    }
  }
}
