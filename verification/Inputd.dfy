/**
 The input daemon: producers' bytes are routed to the consumers of the active virtual
 terminal, terminals are switched, and displays are handed from early to real drivers.
 */
module Inputd {
  import opened Bits
  import opened Common

  datatype VtEventKind = Activate | Deactivate | Resize

  datatype VtEvent = VtEvent(kind: VtEventKind, vt: nat, width: nat, height: nat, stride: nat)

  /**
   `events` and `listens` say whether the owner asked for read events, `notified` and
   `told` whether it has been sent one for what is pending.
   */
  datatype Handle =
    | Producer
    | Consumer(pending: seq<byte>, needsHandoff: bool, notified: bool, events: bool, vt: nat)
    | Display(queue: seq<VtEvent>, told: bool, listens: bool, device: string, early: bool)
    | Control

  datatype State = State(
    handles: map<nat, Handle>,
    nextId: nat,
    nextVt: nat,
    vts: map<nat, string>,
    superKey: bool,
    active: Option<nat>,
    hasNew: bool,
    handoffTo: Option<string>)

  /** What a producer's buffer decodes to, event by event. */
  datatype Input = Key(scancode: nat, pressed: bool) | Size(width: nat, height: nat) | Other

  datatype Request =
    | OpenProducer
    | OpenConsumer(target: Option<nat>)
    | OpenEarly(device: string)
    | OpenHandle(device: string)
    | OpenControl
    | OpenOther
    | Read(id: nat, size: nat)
    | Write(id: nat, buf: seq<byte>, inputs: seq<Input>, newVt: nat)
    | Fevent(id: nat, read: bool)
    | Close

  datatype Reply = Value(n: nat) | Data(bytes: seq<byte>) | Events(list: seq<VtEvent>) | EINVAL | ESTALE

  const VT_EVENT_SIZE := 32
  const VT_ACTIVATE_SIZE := 8

  // ---- Switching ----

  function Queued(h: Handle, e: VtEvent): Handle
    requires h.Display?
  {
    h.(queue := h.queue + [e], told := false)
  }

  function VtEventOf(kind: VtEventKind, vt: nat): VtEvent {
    VtEvent(kind, vt, 0, 0, 0)
  }

  /** A display hears of the terminal that leaves it and of the one that comes to it. */
  function SwitchHandle(h: Handle, vts: map<nat, string>, from: Option<nat>, to: nat): Handle
    requires to in vts
  {
    if !h.Display? then h
    else
      var left := if from.Some? && from.value in vts && vts[from.value] == h.device
                  then Queued(h, VtEventOf(Deactivate, from.value)) else h;
      if vts[to] == h.device then Queued(left, VtEventOf(Activate, to)) else left
  }

  function Switched(s: State, vt: nat): State {
    if s.active == Some(vt) || vt !in s.vts then s
    else s.(handles := map id | id in s.handles :: SwitchHandle(s.handles[id], s.vts, s.active, vt), active := Some(vt))
  }

  // ---- Producer writes ----

  /** The terminal a key selects: super with F1 to F12. */
  function KeyTarget(superKey: bool, scancode: nat): Option<nat> {
    if !superKey then None
    else if 0x3B <= scancode <= 0x44 then Some(scancode - 0x3A)
    else if scancode == 0x57 then Some(11)
    else if scancode == 0x58 then Some(12)
    else None
  }

  function ResizeHandle(h: Handle, vts: map<nat, string>, active: nat, width: nat, height: nat): Handle {
    if h.Display? && active in vts && vts[active] == h.device
    then Queued(h, VtEvent(Resize, active, width, height, width)) else h
  }

  predicate HasDisplay(handles: map<nat, Handle>) {
    exists id :: id in handles && handles[id].Display?
  }

  /** One input event; `None` is the panic of a resize with displays but no active terminal. */
  function AfterInput(s: State, e: Input): Option<State> {
    match e
    case Key(scancode, pressed) =>
      if KeyTarget(s.superKey, scancode).Some? then Some(Switched(s, KeyTarget(s.superKey, scancode).value))
      else if scancode == 0x5B then Some(s.(superKey := pressed))
      else Some(s)
    case Size(width, height) =>
      if s.active.Some? then
        Some(s.(handles := map id | id in s.handles :: ResizeHandle(s.handles[id], s.vts, s.active.value, width, height)))
      else if HasDisplay(s.handles) then None
      else Some(s)
    case Other => Some(s)
  }

  function AfterInputs(s: State, inputs: seq<Input>): Option<State> {
    if inputs == [] then Some(s)
    else
      match AfterInputs(s, inputs[..|inputs| - 1])
      case None => None
      case Some(t) => AfterInput(t, inputs[|inputs| - 1])
  }

  function RouteHandle(h: Handle, active: nat, buf: seq<byte>): Handle {
    if h.Consumer? && h.vt == active then h.(pending := h.pending + buf, notified := false) else h
  }

  function Routed(s: State, buf: seq<byte>): Option<State> {
    match s.active
    case None => None
    case Some(vt) => Some(s.(handles := map id | id in s.handles :: RouteHandle(s.handles[id], vt, buf)))
  }

  predicate Swallowed(buf: seq<byte>) {
    |buf| == 1 && buf[0] > 0xf4
  }

  function Produced(s: State, buf: seq<byte>, inputs: seq<Input>): Option<State> {
    if Swallowed(buf) then Some(s)
    else
      match AfterInputs(s, inputs)
      case None => None
      case Some(t) => Routed(t, buf)
  }

  // ---- Requests ----

  function WithHandle(s: State, h: Handle): State {
    s.(handles := s.handles[s.nextId := h], nextId := s.nextId + 1)
  }

  function Opened(s: State, h: Handle): Option<(State, Reply)> {
    Some((WithHandle(s, h), Value(s.nextId)))
  }

  function ReadHandle(s: State, id: nat, size: nat): (State, Reply)
    requires id in s.handles
  {
    match s.handles[id]
    case Consumer(pending, needsHandoff, _, _, _) =>
      if needsHandoff then (s.(handles := s.handles[id := s.handles[id].(needsHandoff := false)]), ESTALE)
      else
        var copy := Min(|pending|, size);
        (s.(handles := s.handles[id := s.handles[id].(pending := pending[copy..])]), Data(pending[..copy]))
    case Display(queue, _, _, device, _) =>
      if size == 0 then (s.(vts := s.vts[s.nextVt := device], nextVt := s.nextVt + 1), Value(s.nextVt))
      else if size % VT_EVENT_SIZE == 0 then
        var copy := Min(|queue|, size / VT_EVENT_SIZE);
        (s.(handles := s.handles[id := s.handles[id].(queue := queue[copy..])]), Events(queue[..copy]))
      else (s, EINVAL)
    case Producer => (s, EINVAL)
    case Control => (s, EINVAL)
  }

  function WriteHandle(s: State, id: nat, buf: seq<byte>, inputs: seq<Input>, target: nat): Option<(State, Reply)>
    requires id in s.handles
  {
    match s.handles[id]
    case Control => if |buf| == VT_ACTIVATE_SIZE then Some((Switched(s, target), Value(|buf|))) else Some((s, EINVAL))
    case Producer =>
      (match Produced(s, buf, inputs)
       case None => None
       case Some(t) => Some((t, Value(|buf|))))
    case Consumer(_, _, _, _, _) => Some((s, EINVAL))
    case Display(_, _, _, _, _) => Some((s, EINVAL))
  }

  function FeventHandle(s: State, id: nat, read: bool): (State, Reply) {
    if id !in s.handles then (s, EINVAL)
    else if s.handles[id].Consumer? then
      (s.(handles := s.handles[id := s.handles[id].(events := read, notified := false)]), Value(0))
    else if s.handles[id].Display? then
      (s.(handles := s.handles[id := s.handles[id].(listens := read, told := false)]), Value(0))
    else (s, EINVAL)
  }

  /** The scheme's answer to a request; `None` is a panic. */
  function Answer(s: State, req: Request): Option<(State, Reply)> {
    match req
    case OpenProducer => Opened(s, Producer)
    case OpenConsumer(target) =>
      if target.None? then Some((s.(nextId := s.nextId + 1), EINVAL))
      else Opened(s, Consumer([], false, false, false, target.value))
    case OpenEarly(device) => Opened(s, Display([], false, false, device, true))
    case OpenHandle(device) =>
      var queue := if s.active.Some? then [VtEventOf(Activate, s.active.value)] else [];
      Opened(s.(handoffTo := Some(device)), Display(queue, false, false, device, false))
    case OpenControl => Opened(s, Control)
    case OpenOther => Some((s.(nextId := s.nextId + 1), EINVAL))
    case Read(id, size) => if id in s.handles then Some(ReadHandle(s, id, size)) else Some((s, EINVAL))
    case Write(id, buf, inputs, target) =>
      var t := s.(hasNew := true);
      if id in t.handles then WriteHandle(t, id, buf, inputs, target) else Some((t, EINVAL))
    case Fevent(id, read) => Some(FeventHandle(s, id, read))
    case Close => Some((s, Value(0)))
  }

  // ---- After each request ----

  predicate IsEarly(handles: map<nat, Handle>, device: string) {
    exists id :: id in handles && handles[id].Display? && handles[id].early && handles[id].device == device
  }

  function HandedVts(s: State): set<nat> {
    set v | v in s.vts && IsEarly(s.handles, s.vts[v])
  }

  function HandoffHandle(h: Handle, vts: set<nat>): Handle {
    if h.Consumer? && h.vt in vts then h.(needsHandoff := true, notified := false) else h
  }

  /** A newly opened real display takes over every terminal of the early displays. */
  function HandedOff(s: State): State {
    match s.handoffTo
    case None => s
    case Some(device) =>
      var vts := HandedVts(s);
      s.(
        vts := map v | v in s.vts :: if v in vts then device else s.vts[v],
        hasNew := s.hasNew || vts != {},
        handles := map id | id in s.handles :: HandoffHandle(s.handles[id], vts),
        handoffTo := None)
  }

  /** A consumer the notification loop has to look at. */
  predicate Considered(h: Handle) {
    h.Consumer? && (h.needsHandoff || h.pending != []) && !h.notified && h.events
  }

  /** A read event is due: to a consumer of the active terminal or after a handoff, or to a display with events. */
  predicate Due(h: Handle, active: Option<nat>) {
    || (Considered(h) && (h.needsHandoff || active == Some(h.vt)))
    || (h.Display? && h.queue != [] && !h.told && h.listens)
  }

  function NotifyHandle(h: Handle, active: Option<nat>): Handle {
    if !Due(h, active) then h
    else if h.Consumer? then h.(notified := true)
    else if h.Display? then h.(told := true)
    else h
  }

  /** The loop reads the active terminal for every consumer it considers; with none active that panics. */
  predicate NotifyPanics(s: State) {
    s.hasNew && s.active.None? && exists id :: id in s.handles && Considered(s.handles[id])
  }

  function Notified(s: State): Option<State> {
    if NotifyPanics(s) then None
    else if s.hasNew then Some(s.(handles := map id | id in s.handles :: NotifyHandle(s.handles[id], s.active)))
    else Some(s)
  }

  /** The handles a turn sends a read event to. */
  function PostedBy(s: State, req: Request): set<nat> {
    match Answer(s.(hasNew := false), req)
    case None => {}
    case Some((t, _)) =>
      var u := HandedOff(t);
      set id | id in u.handles && u.hasNew && Due(u.handles[id], u.active)
  }

  /** One turn of the daemon's loop. */
  function Turn(s: State, req: Request): Option<(State, Reply)> {
    match Answer(s.(hasNew := false), req)
    case None => None
    case Some((t, reply)) =>
      match Notified(HandedOff(t))
      case None => None
      case Some(u) => Some((u, reply))
  }
}
