/**
 * The network scheme: calls that cannot be answered yet are kept in `blocked` and tried again at the start of each tick.
 * Every step is total, so any list of steps is a run; packets may arrive between any two of them.
 */
module NetworkScheme {
  import opened Bits
  import opened Common

  /** The scheme's own errors, and those the adapter gives, which are passed on. */
  datatype Errno = EACCES | EBADF | EINTR | EINVAL | EWOULDBLOCK | Adapter(code: nat)

  datatype Handle = Data | Mac

  datatype Path = DataPath | MacPath | OtherPath

  /**
   * What the adapter has for `read_packet`: a packet, an error it reports once, or one it panics on, as ixgbe does on a
   * piece that does not end its frame.
   */
  datatype Incoming = Packet(bytes: seq<byte>) | Broken(code: nat) | Fatal

  datatype Op =
    | Open(uid: nat, path: Path)
    | Read(handle: nat, length: nat, offset: nat, nonblock: bool)
    | Write(target: nat, written: Result<nat, nat>)
    | Query(queried: nat)
    | Close(closed: nat)

  /** `number` is the position of the call in the order the socket delivered it. */
  datatype CallRequest = CallRequest(number: nat, id: nat, op: Op)

  datatype Reply = Opened(fd: nat) | Received(packet: seq<byte>) | Address(mac: seq<byte>) | Done(count: nat) | Failed(errno: Errno)

  datatype Request = Call(id: nat, op: Op) | SendFd | Cancellation(cancelled: nat)

  datatype Outcome = Answered(reply: Reply) | Blocks | Panics

  /** The handles and the adapter's receive queue. */
  datatype Device = Device(handles: map<nat, Handle>, nextId: nat, rx: seq<Incoming>, mac: seq<byte>)

  function TakePacket(incoming: Incoming, length: nat): Reply
    requires !incoming.Fatal?
  {
    match incoming
    case Packet(bytes) => Received(bytes[..Min(length, |bytes|)])
    case Broken(code) => Failed(Adapter(code))
  }

  /** The adapter panics when it looks at what came first. */
  predicate FatalNext(rx: seq<Incoming>) {
    rx != [] && rx[0].Fatal?
  }

  /** What the adapter says can be read at once: the length of the next packet, nothing for an error. */
  function Available(rx: seq<Incoming>): nat {
    if rx != [] && rx[0].Packet? then |rx[0].bytes| else 0
  }

  /** One call against the scheme; only a read of a data handle takes a packet, and only such a read can block. */
  function Dispatch(d: Device, op: Op): (Device, Outcome) {
    match op
    case Open(uid, path) =>
      if uid != 0 then
        (d, Answered(Failed(EACCES)))
      else if path.OtherPath? then
        (d, Answered(Failed(EINVAL)))
      else
        var handle := if path.DataPath? then Data else Mac;
        (d.(nextId := d.nextId + 1, handles := d.handles[d.nextId + 1 := handle]), Answered(Opened(d.nextId + 1)))
    case Read(h, length, offset, nonblock) =>
      if h !in d.handles then
        (d, Answered(Failed(EBADF)))
      else if d.handles[h].Mac? then
        if offset > |d.mac| then
          (d, Panics)
        else
          (d, Answered(Address(d.mac[offset..offset + Min(length, |d.mac| - offset)])))
      else if FatalNext(d.rx) then
        (d, Panics)
      else if d.rx != [] then
        (d.(rx := d.rx[1..]), Answered(TakePacket(d.rx[0], length)))
      else if nonblock then
        (d, Answered(Failed(EWOULDBLOCK)))
      else
        (d, Blocks)
    case Write(h, written) =>
      if h !in d.handles then
        (d, Answered(Failed(EBADF)))
      else if d.handles[h].Mac? then
        (d, Answered(Failed(EINVAL)))
      else
        (d, Answered(if written.Success? then Done(written.value) else Failed(Adapter(written.error))))
    case Query(h) =>
      (d, Answered(if h in d.handles then Done(0) else Failed(EBADF)))
    case Close(h) =>
      if h in d.handles then
        (d.(handles := d.handles - {h}), Answered(Done(0)))
      else
        (d, Answered(Failed(EBADF)))
  }

  // ---- What a call is answered with, from the handle and the device alone ----

  /** Opening is for root, and gives a number no open handle has. */
  lemma OpenIs(d: Device, uid: nat, path: Path)
    requires forall h :: h in d.handles ==> h <= d.nextId
    ensures var (e, out) := Dispatch(d, Open(uid, path));
            && (out == Answered(Failed(EACCES)) <==> uid != 0)
            && (out == Answered(Failed(EINVAL)) <==> uid == 0 && path.OtherPath?)
            && (uid == 0 && !path.OtherPath? ==>
                  exists h :: h !in d.handles && out == Answered(Opened(h)) &&
                    e.handles == d.handles[h := if path.DataPath? then Data else Mac] && e.nextId >= h && e.rx == d.rx)
            && (out.Answered? && out.reply.Failed? ==> e == d)
  {
    assert d.nextId + 1 !in d.handles;
  }

  /** A read of the address gives its bytes from the offset on, as far as the buffer goes. */
  lemma AddressIs(d: Device, op: Op)
    requires op.Read? && op.handle in d.handles && d.handles[op.handle].Mac? && op.offset <= |d.mac|
    ensures var (e, out) := Dispatch(d, op);
            && e == d && out.Answered? && out.reply.Address?
            && |out.reply.mac| == (if op.offset + op.length <= |d.mac| then op.length else |d.mac| - op.offset)
            && (forall i :: 0 <= i < |out.reply.mac| ==> out.reply.mac[i] == d.mac[op.offset + i])
  {
  }

  /** With nothing received a read of a data handle would block: EWOULDBLOCK is for those who said not to. */
  lemma WouldBlockIff(d: Device, op: Op)
    ensures Dispatch(d, op).1 == Answered(Failed(EWOULDBLOCK)) <==>
              op.Read? && op.handle in d.handles && d.handles[op.handle].Data? && d.rx == [] && op.nonblock
    ensures Dispatch(d, op).1.Blocks? <==>
              op.Read? && op.handle in d.handles && d.handles[op.handle].Data? && d.rx == [] && !op.nonblock
  {
  }

  /** What came first goes to a read of a data handle, cut to its buffer, and is gone. */
  lemma ReceiveIs(d: Device, op: Op)
    requires op.Read? && op.handle in d.handles && d.handles[op.handle].Data? && d.rx != []
    ensures var (e, out) := Dispatch(d, op);
            match d.rx[0]
            case Packet(bytes) =>
              && out.Answered? && out.reply.Received? && out.reply.packet <= bytes && e == d.(rx := d.rx[1..])
              && |out.reply.packet| == (if |bytes| <= op.length then |bytes| else op.length)
            case Broken(code) => out == Answered(Failed(Adapter(code))) && e == d.(rx := d.rx[1..])
            case Fatal => out.Panics?
  {
  }

  /** A write is what the adapter makes of it, and only for data handles. */
  lemma WriteIs(d: Device, op: Op)
    requires op.Write? && op.target in d.handles
    ensures var (e, out) := Dispatch(d, op);
            && e == d
            && match d.handles[op.target]
               case Mac => out == Answered(Failed(EINVAL))
               case Data =>
                 match op.written
                 case Success(count) => out == Answered(Done(count))
                 case Failure(code) => out == Answered(Failed(Adapter(code)))
  {
  }

  /** The handle a call goes through. */
  function HandleIn(op: Op): Option<nat> {
    match op
    case Open(_, _) => None
    case Read(h, _, _, _) => Some(h)
    case Write(h, _) => Some(h)
    case Query(h) => Some(h)
    case Close(h) => Some(h)
  }

  /** Exactly the calls through a handle that is not open fail with EBADF, and change nothing. */
  lemma BadHandleIff(d: Device, op: Op)
    ensures Dispatch(d, op).1 == Answered(Failed(EBADF)) <==> HandleIn(op).Some? && HandleIn(op).value !in d.handles
    ensures Dispatch(d, op).1 == Answered(Failed(EBADF)) ==> Dispatch(d, op).0 == d
  {
  }

  /** The calls that only look at a handle, and closing one, give 0. */
  lemma PlainIs(d: Device, op: Op)
    requires (op.Query? || op.Close?) && HandleIn(op).value in d.handles
    ensures Dispatch(d, op).1 == Answered(Done(0)) && (op.Query? ==> Dispatch(d, op).0 == d)
  {
  }

  /** Closing makes just that handle a bad one; no other call does. */
  lemma CloseIs(d: Device, op: Op, h: nat)
    requires h in d.handles && h <= d.nextId
    ensures h !in Dispatch(d, op).0.handles <==> op == Close(h)
    ensures h in Dispatch(d, op).0.handles ==> Dispatch(d, op).0.handles[h] == d.handles[h]
  {
  }

  // ---- The state machine ----

  datatype Phase = Idle | Scanning(i: nat) | Serving | Dead

  /** An arrival, the call that got it, and where its answer stands in the list of answers. */
  datatype Delivery = Delivery(call: CallRequest, incoming: Incoming, at: nat)

  /**
   * `answered[k]` got `replies[k]`. `taken`, `received` and `deliveries` record every call taken from the socket, every
   * arrival and every arrival handed to a call; `lost` holds the call whose handling brought the process down.
   */
  datatype State = State(
    device: Device,
    blocked: seq<CallRequest>,
    phase: Phase,
    answered: seq<CallRequest>,
    replies: seq<Reply>,
    taken: seq<CallRequest>,
    received: seq<Incoming>,
    deliveries: seq<Delivery>,
    lost: seq<CallRequest>)

  datatype Step = Arrive(incoming: Incoming) | Begin | Scan | Serve(request: Request) | End

  function Remove(s: seq<CallRequest>, i: nat): seq<CallRequest>
    requires i < |s|
  {
    s[..i] + s[i + 1..]
  }

  function Answer(s: State, call: CallRequest, reply: Reply): State {
    s.(answered := s.answered + [call], replies := s.replies + [reply])
  }

  /** The device after a call, with the arrival it took written down. */
  function After(s: State, d: Device, call: CallRequest): State {
    if |d.rx| < |s.device.rx| then
      s.(device := d, deliveries := s.deliveries + [Delivery(call, s.device.rx[0], |s.answered|)])
    else
      s.(device := d)
  }

  /** What becomes of the `i`-th blocked call, given how the scheme handled it. */
  function Rescan(s: State, i: nat, d: Device, out: Outcome): State
    requires i < |s.blocked|
  {
    var call := s.blocked[i];
    match out
    case Answered(reply) => Answer(After(s, d, call), call, reply).(blocked := Remove(s.blocked, i))
    case Blocks => s.(phase := Scanning(i + 1))
    case Panics => s.(blocked := Remove(s.blocked, i), lost := [call], phase := Dead)
  }

  function ScanStep(s: State, i: nat): State
    requires i < |s.blocked|
  {
    var (d, out) := Dispatch(s.device, s.blocked[i].op);
    Rescan(s, i, d, out)
  }

  /** What becomes of a new call. */
  function Accept(s: State, call: CallRequest, d: Device, out: Outcome): State {
    var s := s.(taken := s.taken + [call]);
    match out
    case Answered(reply) => Answer(After(s, d, call), call, reply)
    case Blocks => s.(blocked := s.blocked + [call])
    case Panics => s.(lost := [call], phase := Dead)
  }

  function ServeCall(s: State, call: CallRequest): State {
    var (d, out) := Dispatch(s.device, call.op);
    Accept(s, call, d, out)
  }

  /** The first blocked call with the given id, or the length of the list. */
  function Position(blocked: seq<CallRequest>, id: nat): (i: nat)
    ensures i <= |blocked|
    ensures i < |blocked| ==> blocked[i].id == id
    ensures forall j :: 0 <= j < i ==> blocked[j].id != id
  {
    if blocked == [] || blocked[0].id == id then 0 else 1 + Position(blocked[1..], id)
  }

  function CancelStep(s: State, id: nat): State {
    var i := Position(s.blocked, id);
    if i < |s.blocked| then
      Answer(s, s.blocked[i], Failed(EINTR)).(blocked := Remove(s.blocked, i))
    else
      s
  }

  function ServeStep(s: State, request: Request): State {
    match request
    case Call(id, op) => ServeCall(s, CallRequest(|s.taken|, id, op))
    case SendFd => s
    case Cancellation(id) => CancelStep(s, id)
  }

  function Next(s: State, step: Step): State {
    match step
    case Arrive(incoming) =>
      s.(device := s.device.(rx := s.device.rx + [incoming]), received := s.received + [incoming])
    case Begin => if s.phase.Idle? then s.(phase := Scanning(0)) else s
    case Scan =>
      if !s.phase.Scanning? then s
      else if s.phase.i < |s.blocked| then ScanStep(s, s.phase.i)
      else s.(phase := Serving)
    case Serve(request) => if s.phase.Serving? then ServeStep(s, request) else s
    case End =>
      if !s.phase.Serving? then s else if FatalNext(s.device.rx) then s.(phase := Dead) else s.(phase := Idle)
  }

  function Start(mac: seq<byte>): State {
    State(Device(map[], 0, [], mac), [], Idle, [], [], [], [], [], [])
  }

  function Exec(mac: seq<byte>, steps: seq<Step>): State {
    if steps == [] then Start(mac) else Next(Exec(mac, steps[..|steps| - 1]), steps[|steps| - 1])
  }

  // ---- Every call is in exactly one place ----

  ghost predicate Numbered(taken: seq<CallRequest>) {
    forall k :: 0 <= k < |taken| ==> taken[k].number == k
  }

  ghost predicate Ascending(calls: seq<CallRequest>, bound: nat) {
    && (forall i, j :: 0 <= i < j < |calls| ==> calls[i].number < calls[j].number)
    && (forall i :: 0 <= i < |calls| ==> calls[i].number < bound)
  }

  /** A call that is kept is a blocking read of a data handle, possibly closed since. */
  ghost predicate Blockable(call: CallRequest, d: Device) {
    && call.op.Read? && !call.op.nonblock && call.op.handle <= d.nextId
    && (call.op.handle in d.handles ==> d.handles[call.op.handle].Data?)
  }

  ghost predicate DeviceOk(d: Device) {
    forall h :: h in d.handles ==> h <= d.nextId
  }

  ghost predicate Placed(s: State) {
    multiset(s.answered) + multiset(s.blocked) + multiset(s.lost) == multiset(s.taken)
  }

  ghost predicate CallsOk(s: State) {
    && Numbered(s.taken) && |s.answered| == |s.replies| && Placed(s)
    && Ascending(s.blocked, |s.taken|)
    && (s.phase.Scanning? ==> s.phase.i <= |s.blocked|)
    && (s.lost != [] ==> s.phase.Dead?)
  }

  ghost predicate BlockedOk(s: State) {
    && DeviceOk(s.device)
    && (forall i :: 0 <= i < |s.blocked| ==> Blockable(s.blocked[i], s.device))
  }

  /** Arrivals are handed out in order, each to one call. */
  ghost predicate RxOk(s: State) {
    && |s.deliveries| <= |s.received| && s.device.rx == s.received[|s.deliveries|..]
    && (forall i :: 0 <= i < |s.deliveries| ==> s.deliveries[i].incoming == s.received[i])
  }

  /** The call that got an arrival was answered with it, cut to the caller's buffer. */
  ghost predicate Handed(v: Delivery, answered: seq<CallRequest>, replies: seq<Reply>) {
    && v.at < |answered| && v.at < |replies| && answered[v.at] == v.call && v.call.op.Read?
    && !v.incoming.Fatal? && replies[v.at] == TakePacket(v.incoming, v.call.op.length)
  }

  ghost predicate HandedOk(s: State) {
    forall i :: 0 <= i < |s.deliveries| ==> Handed(s.deliveries[i], s.answered, s.replies)
  }

  ghost predicate Inv(s: State) {
    CallsOk(s) && BlockedOk(s) && RxOk(s) && HandedOk(s)
  }

  lemma RemoveOne(s: seq<CallRequest>, i: nat)
    requires i < |s|
    ensures multiset(s) == multiset(Remove(s, i)) + multiset([s[i]])
  {
    assert s == s[..i] + [s[i]] + s[i + 1..];
  }

  lemma RemoveAscending(s: seq<CallRequest>, i: nat, bound: nat)
    requires i < |s| && Ascending(s, bound)
    ensures Ascending(Remove(s, i), bound)
  {
  }

  lemma AppendNumbered(s: seq<CallRequest>, call: CallRequest)
    requires Numbered(s) && call.number == |s|
    ensures Numbered(s + [call])
  {
  }

  lemma AppendAscending(s: seq<CallRequest>, call: CallRequest)
    requires Ascending(s, call.number)
    ensures Ascending(s, call.number + 1) && Ascending(s + [call], call.number + 1)
  {
  }

  lemma DispatchKeeps(s: State, op: Op)
    requires BlockedOk(s)
    ensures var (d, out) := Dispatch(s.device, op);
            BlockedOk(s.(device := d)) && (out.Blocks? ==> forall n, id :: Blockable(CallRequest(n, id, op), d))
  {
  }

  lemma ScanKeeps(s: State, i: nat, d: Device, out: Outcome)
    requires CallsOk(s) && s.phase == Scanning(i) && i < |s.blocked|
    ensures CallsOk(Rescan(s, i, d, out))
  {
    RemoveOne(s.blocked, i);
    RemoveAscending(s.blocked, i, |s.taken|);
  }

  lemma AcceptPlaces(s: State, call: CallRequest, d: Device, out: Outcome)
    requires Placed(s) && s.lost == []
    ensures Placed(Accept(s, call, d, out))
  {
    assert multiset(s.taken + [call]) == multiset(s.taken) + multiset([call]);
  }

  lemma AcceptKeeps(s: State, call: CallRequest, d: Device, out: Outcome)
    requires CallsOk(s) && s.phase.Serving? && call.number == |s.taken|
    ensures CallsOk(Accept(s, call, d, out))
  {
    AcceptPlaces(s, call, d, out);
    AppendNumbered(s.taken, call);
    AppendAscending(s.blocked, call);
  }

  lemma CancelKeeps(s: State, id: nat)
    requires CallsOk(s) && s.phase.Serving?
    ensures CallsOk(CancelStep(s, id))
  {
    var i := Position(s.blocked, id);
    if i < |s.blocked| {
      RemoveOne(s.blocked, i);
      RemoveAscending(s.blocked, i, |s.taken|);
    }
  }

  lemma CallsKept(s: State, step: Step)
    requires CallsOk(s)
    ensures CallsOk(Next(s, step))
  {
    if step.Scan? && s.phase.Scanning? && s.phase.i < |s.blocked| {
      var (d, out) := Dispatch(s.device, s.blocked[s.phase.i].op);
      ScanKeeps(s, s.phase.i, d, out);
    } else if step.Serve? && s.phase.Serving? {
      match step.request
      case Call(id, op) =>
        var (d, out) := Dispatch(s.device, op);
        AcceptKeeps(s, CallRequest(|s.taken|, id, op), d, out);
      case SendFd =>
      case Cancellation(id) => CancelKeeps(s, id);
    }
  }

  lemma BlockedKept(s: State, step: Step)
    requires BlockedOk(s)
    ensures BlockedOk(Next(s, step))
  {
    if step.Scan? && s.phase.Scanning? && s.phase.i < |s.blocked| {
      DispatchKeeps(s, s.blocked[s.phase.i].op);
    } else if step.Serve? && s.phase.Serving? && step.request.Call? {
      DispatchKeeps(s, step.request.op);
    }
  }

  lemma AfterKeepsRx(s: State, op: Op, call: CallRequest)
    requires RxOk(s)
    ensures RxOk(After(s, Dispatch(s.device, op).0, call))
  {
  }

  lemma RxKept(s: State, step: Step)
    requires RxOk(s)
    ensures RxOk(Next(s, step))
  {
    if step.Scan? && s.phase.Scanning? && s.phase.i < |s.blocked| {
      AfterKeepsRx(s, s.blocked[s.phase.i].op, s.blocked[s.phase.i]);
    } else if step.Serve? && s.phase.Serving? && step.request.Call? {
      var call := CallRequest(|s.taken|, step.request.id, step.request.op);
      AfterKeepsRx(s.(taken := s.taken + [call]), call.op, call);
    }
  }

  /** A call that shortens the receive queue is a read, answered with the first arrival. */
  lemma DispatchHands(d: Device, op: Op)
    requires |Dispatch(d, op).0.rx| < |d.rx|
    ensures op.Read? && !FatalNext(d.rx) && Dispatch(d, op).1 == Answered(TakePacket(d.rx[0], op.length))
  {
  }

  lemma HandedKept(s: State, step: Step)
    requires HandedOk(s) && |s.answered| == |s.replies|
    ensures HandedOk(Next(s, step))
  {
    var t := Next(s, step);
    forall i | 0 <= i < |t.deliveries| ensures Handed(t.deliveries[i], t.answered, t.replies) {
      if i < |s.deliveries| {
        assert Handed(s.deliveries[i], s.answered, s.replies);
      } else if step.Scan? {
        DispatchHands(s.device, s.blocked[s.phase.i].op);
      } else {
        DispatchHands(s.device, step.request.op);
      }
    }
  }

  lemma {:induction false} RunKeepsInv(mac: seq<byte>, steps: seq<Step>)
    ensures Inv(Exec(mac, steps))
  {
    if steps != [] {
      var before := Exec(mac, steps[..|steps| - 1]);
      RunKeepsInv(mac, steps[..|steps| - 1]);
      CallsKept(before, steps[|steps| - 1]);
      BlockedKept(before, steps[|steps| - 1]);
      RxKept(before, steps[|steps| - 1]);
      HandedKept(before, steps[|steps| - 1]);
    }
  }

  lemma {:induction false} OnceIn(calls: seq<CallRequest>, k: nat)
    requires Numbered(calls) && k < |calls|
    ensures multiset(calls)[calls[k]] == 1
  {
    var c := calls[k];
    assert calls == calls[..k] + [c] + calls[k + 1..];
    assert c !in calls[..k] && c !in calls[k + 1..];
  }

  /**
   * In every run every call taken from the socket is answered once, blocked once, or was the one the process
   * died on, and in only one of these places; nothing else is ever answered or kept.
   */
  lemma AnsweredOrBlocked(mac: seq<byte>, steps: seq<Step>)
    ensures var s := Exec(mac, steps);
            && (forall k :: 0 <= k < |s.taken| ==>
                  multiset(s.answered)[s.taken[k]] + multiset(s.blocked)[s.taken[k]] + multiset(s.lost)[s.taken[k]] == 1)
            && (forall c :: c in s.answered || c in s.blocked ==> c in s.taken)
  {
    RunKeepsInv(mac, steps);
    var s := Exec(mac, steps);
    forall k | 0 <= k < |s.taken|
      ensures multiset(s.answered)[s.taken[k]] + multiset(s.blocked)[s.taken[k]] + multiset(s.lost)[s.taken[k]] == 1
    {
      OnceIn(s.taken, k);
    }
    forall c | c in s.answered || c in s.blocked ensures c in s.taken {
      assert c in multiset(s.answered) + multiset(s.blocked) + multiset(s.lost);
    }
  }

  /** The number has been given out and is no longer good. */
  ghost predicate Closed(d: Device, h: nat) {
    h <= d.nextId && h !in d.handles
  }

  /** A number once given out and closed is never good again. */
  lemma {:induction false} ClosedForever(mac: seq<byte>, steps: seq<Step>, k: nat, h: nat)
    requires k <= |steps| && Closed(Exec(mac, steps[..k]).device, h)
    ensures Closed(Exec(mac, steps).device, h)
    decreases |steps|
  {
    if k == |steps| {
      assert steps[..k] == steps;
    } else {
      var n := |steps| - 1;
      var before := Exec(mac, steps[..n]);
      assert steps[..n][..k] == steps[..k];
      ClosedForever(mac, steps[..n], k, h);
      StaysClosed(before, steps[n], h);
      assert Exec(mac, steps) == Next(before, steps[n]);
    }
  }

  lemma DispatchStaysClosed(d: Device, op: Op, h: nat)
    requires Closed(d, h)
    ensures Closed(Dispatch(d, op).0, h)
  {
  }

  lemma StaysClosed(s: State, step: Step, h: nat)
    requires Closed(s.device, h)
    ensures Closed(Next(s, step).device, h)
  {
    if step.Scan? && s.phase.Scanning? && s.phase.i < |s.blocked| {
      DispatchStaysClosed(s.device, s.blocked[s.phase.i].op, h);
    } else if step.Serve? && s.phase.Serving? && step.request.Call? {
      DispatchStaysClosed(s.device, step.request.op, h);
    }
  }

  /** The call is a read of an open handle of the given kind. */
  predicate Reads(d: Device, op: Op, kind: Handle) {
    op.Read? && op.handle in d.handles && d.handles[op.handle] == kind
  }

  /**
   * The process dies on a new read of the address past its end, and, when the adapter panics on what came first, on any
   * read of a data handle, new or blocked, and at the end of the tick; on nothing else.
   */
  lemma DiesIff(mac: seq<byte>, steps: seq<Step>, step: Step)
    requires !Exec(mac, steps).phase.Dead?
    ensures var s := Exec(mac, steps);
            Next(s, step).phase.Dead? <==>
              match step
              case Serve(Call(_, op)) =>
                && s.phase.Serving?
                && ((Reads(s.device, op, Mac) && op.offset > |s.device.mac|) || (Reads(s.device, op, Data) && FatalNext(s.device.rx)))
              case Scan =>
                && s.phase.Scanning? && s.phase.i < |s.blocked| && FatalNext(s.device.rx)
                && s.blocked[s.phase.i].op.Read? && s.blocked[s.phase.i].op.handle in s.device.handles
              case End => s.phase.Serving? && FatalNext(s.device.rx)
              case _ => false
  {
    RunKeepsInv(mac, steps);
    var s := Exec(mac, steps);
    if step.Scan? && s.phase.Scanning? && s.phase.i < |s.blocked| {
      assert Blockable(s.blocked[s.phase.i], s.device);
    }
  }

  /** It happens without any call: what the adapter panics on arrives, and the next tick does not end. */
  lemma FatalTickDies(mac: seq<byte>) returns (steps: seq<Step>)
    ensures Exec(mac, steps).phase.Dead? && Exec(mac, steps).taken == []
  {
    steps := [Arrive(Fatal), Begin, Scan, End];
    assert steps[..3] == [Arrive(Fatal), Begin, Scan] && steps[..3][..2] == [Arrive(Fatal), Begin];
    assert steps[..3][..2][..1] == [Arrive(Fatal)] && [Arrive(Fatal)][..0] == [];
    assert Exec(mac, [Arrive(Fatal)]).device.rx == [Fatal];
    assert Exec(mac, [Arrive(Fatal), Begin]) == Exec(mac, [Arrive(Fatal)]).(phase := Scanning(0));
  }

  /** It happens: the address opened, then read from beyond its end. */
  lemma AddressReadDies(mac: seq<byte>) returns (steps: seq<Step>)
    ensures Exec(mac, steps).phase.Dead?
  {
    steps := [Begin, Scan, Serve(Call(1, Open(0, MacPath))), Serve(Call(2, Read(1, 6, |mac| + 1, false)))];
    assert steps[..3] == [Begin, Scan, Serve(Call(1, Open(0, MacPath)))];
    assert steps[..3][..2] == [Begin, Scan] && [Begin, Scan][..1] == [Begin] && [Begin][..0] == [];
    assert Exec(mac, [Begin]) == Start(mac).(phase := Scanning(0));
    assert Exec(mac, [Begin, Scan]) == Start(mac).(phase := Serving);
    assert Exec(mac, steps[..3]).device == Device(map[1 := Mac], 1, [], mac);
  }

  lemma NeverInterrupted(d: Device, op: Op)
    ensures Dispatch(d, op).1 != Answered(Failed(EINTR))
  {
  }

  /** What a step adds to the answers: at most one, and it is EINTR for cancellations only. */
  ghost predicate Interrupts(s: State, t: State, call: CallRequest) {
    t.answered == s.answered + [call] && t.replies == s.replies + [Failed(EINTR)]
  }

  lemma ScanNoEintr(s: State, i: nat, d: Device, out: Outcome, call: CallRequest)
    requires i < |s.blocked| && out != Answered(Failed(EINTR))
    ensures !Interrupts(s, Rescan(s, i, d, out), call)
  {
    if out.Answered? {
      assert Rescan(s, i, d, out).replies[|s.replies|] == out.reply;
    }
  }

  lemma ServeNoEintr(s: State, c: CallRequest, d: Device, out: Outcome, call: CallRequest)
    requires out != Answered(Failed(EINTR))
    ensures !Interrupts(s, Accept(s, c, d, out), call)
  {
    if out.Answered? {
      assert Accept(s, c, d, out).replies[|s.replies|] == out.reply;
    }
  }

  lemma CancelEintr(s: State, id: nat, call: CallRequest)
    ensures var i := Position(s.blocked, id);
            Interrupts(s, CancelStep(s, id), call) <==> i < |s.blocked| && s.blocked[i] == call
  {
    var t := CancelStep(s, id);
    if Interrupts(s, t, call) {
      assert |t.answered| == |s.answered| + 1 && t.answered[|s.answered|] == call;
    }
  }

  /** EINTR is the answer to the oldest call blocked under a cancelled id, and to no other call. */
  lemma EintrIffCancelled(s: State, step: Step, call: CallRequest)
    ensures Interrupts(s, Next(s, step), call) <==>
              && s.phase.Serving? && step.Serve? && step.request.Cancellation?
              && Position(s.blocked, step.request.cancelled) < |s.blocked|
              && s.blocked[Position(s.blocked, step.request.cancelled)] == call
  {
    if step.Scan? && s.phase.Scanning? && s.phase.i < |s.blocked| {
      var (d, out) := Dispatch(s.device, s.blocked[s.phase.i].op);
      NeverInterrupted(s.device, s.blocked[s.phase.i].op);
      ScanNoEintr(s, s.phase.i, d, out, call);
    } else if step.Serve? && s.phase.Serving? {
      match step.request
      case Call(id, op) =>
        var (d, out) := Dispatch(s.device, op);
        NeverInterrupted(s.device, op);
        ServeNoEintr(s, CallRequest(|s.taken|, id, op), d, out, call);
      case SendFd =>
      case Cancellation(id) => CancelEintr(s, id, call);
    }
  }

  // ---- Packets in order ----

  /** Nothing arrives while a tick is under way. */
  ghost predicate Quiet(mac: seq<byte>, steps: seq<Step>) {
    steps == [] ||
      (var n := |steps| - 1;
       Quiet(mac, steps[..n]) && (steps[n].Arrive? ==> Exec(mac, steps[..n]).phase.Idle?))
  }

  ghost predicate Drained(s: State) {
    && (s.phase.Scanning? && s.phase.i > 0 ==> s.device.rx == [])
    && (s.phase.Serving? && s.blocked != [] ==> s.device.rx == [])
  }

  ghost predicate Below(deliveries: seq<Delivery>, bound: nat) {
    forall i :: 0 <= i < |deliveries| ==> deliveries[i].call.number < bound
  }

  ghost predicate Rising(deliveries: seq<Delivery>) {
    forall i, j :: 0 <= i < j < |deliveries| ==> deliveries[i].call.number < deliveries[j].call.number
  }

  ghost predicate OrderOk(s: State) {
    && Rising(s.deliveries) && Below(s.deliveries, |s.taken|)
    && (forall j :: 0 <= j < |s.blocked| ==> Below(s.deliveries, s.blocked[j].number))
  }

  /** How a call leaves the receive queue. */
  ghost predicate TakesFirst(d: Device, e: Device, out: Outcome) {
    && (e.rx == d.rx || (d.rx != [] && e.rx == d.rx[1..]))
    && (out.Blocks? ==> d.rx == [])
  }

  lemma DispatchTakes(d: Device, op: Op)
    ensures TakesFirst(d, Dispatch(d, op).0, Dispatch(d, op).1)
  {
  }

  lemma QuietScan(s: State, i: nat, d: Device, out: Outcome)
    requires Ascending(s.blocked, |s.taken|) && Drained(s) && OrderOk(s) && TakesFirst(s.device, d, out)
    requires s.phase == Scanning(i) && i < |s.blocked|
    ensures Drained(Rescan(s, i, d, out)) && OrderOk(Rescan(s, i, d, out))
  {
  }

  lemma QuietAccept(s: State, call: CallRequest, d: Device, out: Outcome)
    requires Drained(s) && OrderOk(s) && TakesFirst(s.device, d, out)
    requires s.phase.Serving? && call.number == |s.taken|
    ensures Drained(Accept(s, call, d, out)) && OrderOk(Accept(s, call, d, out))
  {
  }

  lemma QuietStep(s: State, step: Step)
    requires CallsOk(s) && Drained(s) && OrderOk(s) && (step.Arrive? ==> s.phase.Idle?)
    ensures Drained(Next(s, step)) && OrderOk(Next(s, step))
  {
    if step.Scan? && s.phase.Scanning? && s.phase.i < |s.blocked| {
      var op := s.blocked[s.phase.i].op;
      DispatchTakes(s.device, op);
      QuietScan(s, s.phase.i, Dispatch(s.device, op).0, Dispatch(s.device, op).1);
    } else if step.Serve? && s.phase.Serving? && step.request.Call? {
      var op := step.request.op;
      DispatchTakes(s.device, op);
      QuietAccept(s, CallRequest(|s.taken|, step.request.id, op), Dispatch(s.device, op).0, Dispatch(s.device, op).1);
    }
  }

  lemma {:induction false} QuietRun(mac: seq<byte>, steps: seq<Step>)
    requires Quiet(mac, steps)
    ensures Drained(Exec(mac, steps)) && OrderOk(Exec(mac, steps))
  {
    if steps != [] {
      var n := |steps| - 1;
      QuietRun(mac, steps[..n]);
      RunKeepsInv(mac, steps[..n]);
      QuietStep(Exec(mac, steps[..n]), steps[n]);
    }
  }

  /**
   * The k-th arrival goes to the k-th call that got one; when nothing arrives during a tick, these calls are in the order
   * in which they came, and a tick that is over has left no packet while a call is blocked.
   */
  lemma PacketsInOrder(mac: seq<byte>, steps: seq<Step>)
    ensures RxOk(Exec(mac, steps)) && HandedOk(Exec(mac, steps))
    ensures Quiet(mac, steps) ==> Rising(Exec(mac, steps).deliveries)
    ensures Quiet(mac, steps) && Exec(mac, steps).phase.Serving? && Exec(mac, steps).blocked != [] ==>
              Exec(mac, steps).device.rx == []
  {
    RunKeepsInv(mac, steps);
    if Quiet(mac, steps) {
      QuietRun(mac, steps);
    }
  }

  /**
   * A step that hands out an arrival serves the oldest of the calls then waiting for one exactly when it is the scan at its
   * first entry, or a new call that finds nothing blocked.
   */
  lemma OldestFirstIff(mac: seq<byte>, steps: seq<Step>, step: Step)
    requires |Next(Exec(mac, steps), step).deliveries| > |Exec(mac, steps).deliveries|
    ensures var s, t := Exec(mac, steps), Next(Exec(mac, steps), step);
            BeforeAll(t.deliveries[|s.deliveries|].call.number, t.blocked) <==>
            (s.phase == Scanning(0) || s.blocked == [])
  {
    var s := Exec(mac, steps);
    assert CallsOk(s) by { RunKeepsInv(mac, steps); }
    if step.Scan? {
      ScanHands(s, s.phase.i);
    } else {
      ServeHands(s, CallRequest(|s.taken|, step.request.id, step.request.op));
    }
  }

  ghost predicate BeforeAll(number: nat, blocked: seq<CallRequest>) {
    forall j :: 0 <= j < |blocked| ==> number < blocked[j].number
  }

  lemma ScanHands(s: State, i: nat)
    requires Ascending(s.blocked, |s.taken|) && i < |s.blocked| && |ScanStep(s, i).deliveries| > |s.deliveries|
    ensures ScanStep(s, i).deliveries[|s.deliveries|].call == s.blocked[i]
    ensures BeforeAll(s.blocked[i].number, ScanStep(s, i).blocked) <==> i == 0
  {
    DispatchHands(s.device, s.blocked[i].op);
    var left := ScanStep(s, i).blocked;
    assert left == Remove(s.blocked, i);
    if i > 0 {
      assert left[0] == s.blocked[0];
    }
  }

  lemma ServeHands(s: State, call: CallRequest)
    requires Ascending(s.blocked, call.number) && |ServeCall(s, call).deliveries| > |s.deliveries|
    ensures ServeCall(s, call).deliveries[|s.deliveries|].call == call
    ensures BeforeAll(call.number, ServeCall(s, call).blocked) <==> s.blocked == []
  {
    DispatchHands(s.device, call.op);
    assert ServeCall(s, call).blocked == s.blocked;
    if s.blocked != [] {
      assert s.blocked[0].number < call.number;
    }
  }

  lemma ExecNext(mac: seq<byte>, steps: seq<Step>, step: Step)
    ensures Exec(mac, steps + [step]) == Next(Exec(mac, steps), step)
  {
    assert (steps + [step])[..|steps|] == steps;
  }

  /** Two calls on one data handle: the first is blocked when the second comes. */
  lemma BlockedReader(mac: seq<byte>) returns (steps: seq<Step>)
    ensures var s := Exec(mac, steps);
            && s.phase.Serving? && s.device.handles == map[1 := Data] && s.device.rx == [] && s.deliveries == []
            && |s.blocked| == 1 && s.blocked[0].op == Read(1, 1500, 0, false)
  {
    steps := [Begin, Scan, Serve(Call(10, Open(0, DataPath))), Serve(Call(11, Read(1, 1500, 0, false)))];
    assert steps[..3] == [Begin, Scan, Serve(Call(10, Open(0, DataPath)))];
    assert steps[..3][..2] == [Begin, Scan] && [Begin, Scan][..1] == [Begin] && [Begin][..0] == [];
    assert Exec(mac, [Begin]) == Start(mac).(phase := Scanning(0));
    assert Exec(mac, [Begin, Scan]) == Start(mac).(phase := Serving);
    assert Exec(mac, steps[..3]).device == Device(map[1 := Data], 1, [], mac);
  }

  lemma NewReadTakes(s: State, p: Incoming, id: nat)
    requires s.phase.Serving? && s.device.handles == map[1 := Data] && s.device.rx == [] && !p.Fatal?
    ensures var t := Next(Next(s, Arrive(p)), Serve(Call(id, Read(1, 1500, 0, false))));
            && t.deliveries == s.deliveries + [Delivery(CallRequest(|s.taken|, id, Read(1, 1500, 0, false)), p, |s.answered|)]
            && t.blocked == s.blocked && t.phase == Serving && t.device == s.device
  {
  }

  lemma BlockedReadTakes(s: State, p: Incoming)
    requires s.phase.Serving? && s.device.handles == map[1 := Data] && s.device.rx == [] && !p.Fatal?
    requires s.blocked != [] && s.blocked[0].op == Read(1, 1500, 0, false)
    ensures Next(Next(Next(Next(s, Arrive(p)), End), Begin), Scan).deliveries ==
            s.deliveries + [Delivery(s.blocked[0], p, |s.answered|)]
  {
  }

  /** Without quiet ticks order can be lost: a packet that arrives while new calls are taken goes past a blocked call. */
  lemma MidTickArrivalOvertakes(mac: seq<byte>, first: Incoming, second: Incoming) returns (steps: seq<Step>)
    requires !first.Fatal? && !second.Fatal?
    ensures !Rising(Exec(mac, steps).deliveries)
  {
    var a := BlockedReader(mac);
    var s := Exec(mac, a);
    assert s.blocked[0].number < |s.taken| by { RunKeepsInv(mac, a); }
    var read := Serve(Call(12, Read(1, 1500, 0, false)));
    ExecNext(mac, a, Arrive(first));
    ExecNext(mac, a + [Arrive(first)], read);
    NewReadTakes(s, first, 12);
    var b := a + [Arrive(first)] + [read];
    var t := Exec(mac, b);
    ExecNext(mac, b, Arrive(second));
    ExecNext(mac, b + [Arrive(second)], End);
    ExecNext(mac, b + [Arrive(second)] + [End], Begin);
    ExecNext(mac, b + [Arrive(second)] + [End] + [Begin], Scan);
    BlockedReadTakes(t, second);
    steps := b + [Arrive(second)] + [End] + [Begin] + [Scan];
    var v := Exec(mac, steps).deliveries;
    assert v[0].call.number == |s.taken| && v[1].call == s.blocked[0];
  }
}
