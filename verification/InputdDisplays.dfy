/** What the displays are told in every run of the input daemon: which terminal of theirs is shown, and its size. */
module InputdDisplays {
  import opened Common
  import opened Inputd
  import opened InputdRuns

  ghost predicate IsDisplay(s: State, id: nat) {
    id in s.handles && s.handles[id].Display?
  }

  ghost predicate OnDevice(vts: map<nat, string>, vt: Option<nat>, device: string) {
    vt.Some? && vt.value in vts && vts[vt.value] == device
  }

  // ---- The events a request is worth to a display ----

  /** A switch: the terminal that leaves the display, then the one that comes to it. */
  ghost function SwitchEvents(vts: map<nat, string>, from: Option<nat>, to: nat, device: string): seq<VtEvent> {
    if from == Some(to) || to !in vts then []
    else
      (if OnDevice(vts, from, device) then [VtEvent(Deactivate, from.value, 0, 0, 0)] else []) +
      (if OnDevice(vts, Some(to), device) then [VtEvent(Activate, to, 0, 0, 0)] else [])
  }

  /** One input event: a switch by key, or a new size for the display of the active terminal. */
  ghost function InputEvents(s: State, e: Input, device: string): seq<VtEvent> {
    match e
    case Key(scancode, _) =>
      var target := KeyTarget(s.superKey, scancode);
      if target.Some? then SwitchEvents(s.vts, s.active, target.value, device) else []
    case Size(width, height) =>
      if OnDevice(s.vts, s.active, device) then [VtEvent(Resize, s.active.value, width, height, width)] else []
    case Other => []
  }

  ghost function BatchEvents(s: State, inputs: seq<Input>, device: string): seq<VtEvent> {
    if inputs == [] then []
    else
      var n := |inputs| - 1;
      BatchEvents(s, inputs[..n], device) +
      if AfterInputs(s, inputs[..n]).Some? then InputEvents(AfterInputs(s, inputs[..n]).value, inputs[n], device) else []
  }

  /** What a request is worth to a display that is open. */
  ghost function RequestEvents(s: State, req: Request, device: string): seq<VtEvent> {
    if !(req.Write? && req.id in s.handles) then []
    else if s.handles[req.id].Control? && |req.buf| == VT_ACTIVATE_SIZE then SwitchEvents(s.vts, s.active, req.newVt, device)
    else if Produces(s, req) then BatchEvents(s.(hasNew := true), req.inputs, device)
    else []
  }

  /** What a display driver is told first: the active terminal, wherever it is; an early display nothing. */
  ghost function OpeningEvents(s: State, req: Request): seq<VtEvent> {
    if req.OpenHandle? && s.active.Some? then [VtEvent(Activate, s.active.value, 0, 0, 0)] else []
  }

  /** The events of a turn for handle `id`. */
  ghost function TurnEvents(s: State, req: Request, id: nat): seq<VtEvent> {
    if IsDisplay(s, id) then RequestEvents(s, req, s.handles[id].device)
    else if id !in s.handles && id == s.nextId then OpeningEvents(s, req)
    else []
  }

  function TakenEvents(req: Request, reply: Reply, id: nat): seq<VtEvent> {
    if req.Read? && req.id == id && reply.Events? then reply.list else []
  }

  // ---- One turn, seen by one display ----

  /** The handle is still the same display, with the events added; if there are any it has yet to be told. */
  ghost predicate Gains(h: Handle, g: Handle, events: seq<VtEvent>) {
    h.Display? && g == h.(queue := h.queue + events, told := h.told && events == [])
  }

  /** What one switch does to every handle. */
  lemma SwitchGains(s: State, vt: nat, id: nat)
    requires id in s.handles
    ensures id in Switched(s, vt).handles
    ensures var h, g := s.handles[id], Switched(s, vt).handles[id];
            if h.Display? then Gains(h, g, SwitchEvents(s.vts, s.active, vt, h.device)) else g == h
  {
    if s.handles[id].Display? {
      var h := s.handles[id];
      assert h.queue + [] == h.queue;
      if OnDevice(s.vts, s.active, h.device) && OnDevice(s.vts, Some(vt), h.device) && s.active != Some(vt) {
        var left, comes := VtEvent(Deactivate, s.active.value, 0, 0, 0), VtEvent(Activate, vt, 0, 0, 0);
        assert h.queue + [left] + [comes] == h.queue + ([left] + [comes]);
      }
    }
  }

  lemma InputGains(s: State, e: Input, id: nat)
    requires IsDisplay(s, id) && AfterInput(s, e).Some?
    ensures var t := AfterInput(s, e).value;
            id in t.handles && Gains(s.handles[id], t.handles[id], InputEvents(s, e, s.handles[id].device))
  {
    match e
    case Key(scancode, _) =>
      if KeyTarget(s.superKey, scancode).Some? {
        SwitchGains(s, KeyTarget(s.superKey, scancode).value, id);
      }
    case _ =>
  }

  lemma GainsMore(h: Handle, g: Handle, k: Handle, a: seq<VtEvent>, b: seq<VtEvent>)
    requires Gains(h, g, a) && Gains(g, k, b)
    ensures Gains(h, k, a + b)
  {
  }

  lemma {:induction false} BatchGains(s: State, inputs: seq<Input>, id: nat)
    requires IsDisplay(s, id) && AfterInputs(s, inputs).Some?
    ensures var t := AfterInputs(s, inputs).value;
            id in t.handles && Gains(s.handles[id], t.handles[id], BatchEvents(s, inputs, s.handles[id].device))
  {
    if inputs != [] {
      var n := |inputs| - 1;
      BatchGains(s, inputs[..n], id);
      var t := AfterInputs(s, inputs[..n]).value;
      InputGains(t, inputs[n], id);
      GainsMore(s.handles[id], t.handles[id], AfterInputs(s, inputs).value.handles[id],
                BatchEvents(s, inputs[..n], s.handles[id].device), InputEvents(t, inputs[n], s.handles[id].device));
    }
  }

  lemma WriteGains(s: State, req: Request, id: nat)
    requires req.Write? && IsDisplay(s, id) && Answer(s, req).Some?
    ensures var t := Answer(s, req).value.0;
            id in t.handles && Gains(s.handles[id], t.handles[id], RequestEvents(s, req, s.handles[id].device))
  {
    var s1 := s.(hasNew := true);
    if req.id in s.handles && s.handles[req.id].Control? {
      SwitchGains(s1, req.newVt, id);
    } else if req.id in s.handles && s.handles[req.id].Producer? && !Swallowed(req.buf) {
      BatchGains(s1, req.inputs, id);
    }
  }

  lemma ReadGains(s: State, req: Request, id: nat)
    requires req.Read? && req.id in s.handles && IsDisplay(s, id)
    ensures var (t, reply) := ReadHandle(s, req.id, req.size);
            && IsDisplay(t, id) && t.handles[id].device == s.handles[id].device && t.handles[id].early == s.handles[id].early
            && s.handles[id].queue == TakenEvents(req, reply, id) + t.handles[id].queue
  {
  }

  /** What answering does to a display that is open. */
  lemma AnswerDisplay(s: State, req: Request, id: nat)
    requires Inv(s) && IsDisplay(s, id) && Answer(s, req).Some?
    ensures var (t, reply) := Answer(s, req).value;
            && IsDisplay(t, id) && t.handles[id].device == s.handles[id].device && t.handles[id].early == s.handles[id].early
            && s.handles[id].queue + RequestEvents(s, req, s.handles[id].device) == TakenEvents(req, reply, id) + t.handles[id].queue
  {
    if req.Write? {
      WriteGains(s, req, id);
    } else if req.Read? && req.id in s.handles {
      ReadGains(s, req, id);
    }
  }

  lemma RequestIgnoresNew(s: State, req: Request, device: string)
    ensures RequestEvents(s.(hasNew := false), req, device) == RequestEvents(s, req, device)
  {
    assert s.(hasNew := false).(hasNew := true) == s.(hasNew := true);
  }

  /** Handoff and notification leave a display's events alone. */
  lemma RestKeepsDisplay(t: State, id: nat)
    requires Notified(HandedOff(t)).Some? && id in t.handles
    ensures var u := Notified(HandedOff(t)).value;
            && id in u.handles && u.handles[id].Display? == t.handles[id].Display?
            && (t.handles[id].Display? ==>
                  u.handles[id].queue == t.handles[id].queue && u.handles[id].device == t.handles[id].device &&
                  u.handles[id].early == t.handles[id].early)
  {
  }

  /** One turn of the daemon as a display sees it: no event is lost, doubled or reordered. */
  lemma TurnDisplay(s: State, req: Request, id: nat)
    requires Inv(s) && IsDisplay(s, id) && Turn(s, req).Some?
    ensures var (u, reply) := Turn(s, req).value;
            && IsDisplay(u, id) && u.handles[id].device == s.handles[id].device && u.handles[id].early == s.handles[id].early
            && s.handles[id].queue + TurnEvents(s, req, id) == TakenEvents(req, reply, id) + u.handles[id].queue
  {
    var s0 := s.(hasNew := false);
    assert Inv(s0) by { InvMoves(s, s0); }
    AnswerDisplay(s0, req, id);
    RequestIgnoresNew(s, req, s.handles[id].device);
    RestKeepsDisplay(Answer(s0, req).value.0, id);
  }

  /** A handle that was not there: what it was opened as, and its first events. */
  lemma TurnOpens(s: State, req: Request, id: nat)
    requires Inv(s) && id !in s.handles && Turn(s, req).Some?
    ensures var (u, reply) := Turn(s, req).value;
            && (id in u.handles <==>
                  && id == s.nextId
                  && (req.OpenProducer? || (req.OpenConsumer? && req.target.Some?) || req.OpenEarly? || req.OpenHandle? || req.OpenControl?))
            && (id in u.handles ==> reply == Value(id))
            && (id in u.handles ==>
                  match req
                  case OpenProducer => u.handles[id].Producer?
                  case OpenConsumer(target) => u.handles[id] == Consumer([], false, false, false, target.value)
                  case OpenEarly(device) => u.handles[id] == Display([], false, false, device, true)
                  case OpenHandle(device) => u.handles[id] == Display(OpeningEvents(s, req), false, false, device, false)
                  case _ => u.handles[id].Control?)
            && TakenEvents(req, reply, id) == []
  {
    var s0 := s.(hasNew := false);
    AnswerOpens(s0, req, id);
    var t := Answer(s0, req).value.0;
    if id in t.handles {
      NewKept(t, id);
    }
  }

  lemma NewKept(t: State, id: nat)
    requires Notified(HandedOff(t)).Some? && id in t.handles && (t.handles[id].Consumer? ==> t.handoffTo.None?)
    requires !Owed(t.handles[id], t.active)
    ensures Notified(HandedOff(t)).value.handles[id] == t.handles[id]
  {
  }

  lemma AnswerOpens(s: State, req: Request, id: nat)
    requires Inv(s) && id !in s.handles && Answer(s, req).Some?
    ensures var (t, reply) := Answer(s, req).value;
            && (id in t.handles <==>
                  && id == s.nextId
                  && (req.OpenProducer? || (req.OpenConsumer? && req.target.Some?) || req.OpenEarly? || req.OpenHandle? || req.OpenControl?))
            && (id in t.handles ==> reply == Value(id) && !Owed(t.handles[id], t.active) && (t.handles[id].Consumer? ==> t.handoffTo.None?))
            && (id in t.handles ==>
                  match req
                  case OpenProducer => t.handles[id].Producer?
                  case OpenConsumer(target) => t.handles[id] == Consumer([], false, false, false, target.value)
                  case OpenEarly(device) => t.handles[id] == Display([], false, false, device, true)
                  case OpenHandle(device) => t.handles[id] == Display(OpeningEvents(s, req), false, false, device, false)
                  case _ => t.handles[id].Control?)
            && TakenEvents(req, reply, id) == []
  {
    if req.Write? {
      WriteKeys(s, req);
    }
  }

  lemma WriteKeys(s: State, req: Request)
    requires req.Write? && Answer(s, req).Some?
    ensures Answer(s, req).value.0.handles.Keys == s.handles.Keys
  {
    var s1 := s.(hasNew := true);
    if req.id in s.handles && s.handles[req.id].Control? {
      SwitchedAlike(s1, req.newVt);
    } else if req.id in s.handles && s.handles[req.id].Producer? && !Swallowed(req.buf) {
      AfterInputsAlike(s1, req.inputs);
    }
  }

  // ---- Events over runs ----

  /** The events display `id` has read in the first `k` turns. */
  function EventsRead(reqs: seq<Request>, replies: seq<Reply>, k: nat, id: nat): seq<VtEvent>
    requires k <= |reqs| == |replies|
  {
    if k == 0 then [] else EventsRead(reqs, replies, k - 1, id) + TakenEvents(reqs[k - 1], replies[k - 1], id)
  }

  /** The events the first `k` turns were worth to handle `id`. */
  ghost function EventsFor(states: seq<State>, reqs: seq<Request>, k: nat, id: nat): seq<VtEvent>
    requires k <= |reqs| < |states|
  {
    if k == 0 then [] else EventsFor(states, reqs, k - 1, id) + TurnEvents(states[k - 1], reqs[k - 1], id)
  }

  ghost predicate DisplayAccounts(states: seq<State>, reqs: seq<Request>, replies: seq<Reply>, k: nat, id: nat)
    requires k <= |reqs| == |replies| && |reqs| < |states|
  {
    var read, events := EventsRead(reqs, replies, k, id), EventsFor(states, reqs, k, id);
    && (IsDisplay(states[k], id) ==> read + states[k].handles[id].queue == events)
    && (id !in states[k].handles && id >= states[k].nextId ==> read == [] && events == [])
  }

  lemma CarryEvents(read: seq<VtEvent>, queue: seq<VtEvent>, arriving: seq<VtEvent>, taken: seq<VtEvent>, left: seq<VtEvent>)
    requires queue + arriving == taken + left
    ensures read + taken + left == read + queue + arriving
  {
    assert read + taken + left == read + (taken + left);
    assert read + queue + arriving == read + (queue + arriving);
  }

  lemma DisplayAccountsStep(states: seq<State>, reqs: seq<Request>, replies: seq<Reply>, k: nat, id: nat)
    requires 0 < k <= |reqs| == |replies| && |reqs| < |states|
    requires Inv(states[k - 1]) && StepAt(states, reqs, replies, k - 1) && DisplayAccounts(states, reqs, replies, k - 1, id)
    ensures DisplayAccounts(states, reqs, replies, k, id)
  {
    var s, u, req, reply := states[k - 1], states[k], reqs[k - 1], replies[k - 1];
    if id !in s.handles {
      TurnOpens(s, req, id);
      NumbersRise(s, req);
    } else if IsDisplay(s, id) {
      TurnDisplay(s, req, id);
      CarryEvents(EventsRead(reqs, replies, k - 1, id), s.handles[id].queue, TurnEvents(s, req, id), TakenEvents(req, reply, id),
                  u.handles[id].queue);
    } else {
      KindStays(s, req, id);
    }
  }

  predicate IsOpen(req: Request) {
    req.OpenProducer? || req.OpenConsumer? || req.OpenEarly? || req.OpenHandle? || req.OpenControl? || req.OpenOther?
  }

  lemma NumbersRise(s: State, req: Request)
    requires Turn(s, req).Some?
    ensures Turn(s, req).value.0.nextId == s.nextId + if IsOpen(req) then 1 else 0
  {
    AnswerNumbers(s.(hasNew := false), req);
  }

  lemma AnswerNumbers(s: State, req: Request)
    requires Answer(s, req).Some?
    ensures Answer(s, req).value.0.nextId == s.nextId + if IsOpen(req) then 1 else 0
  {
    if req.Write? {
      WriteNumbers(s, req);
    }
  }

  lemma WriteNumbers(s: State, req: Request)
    requires req.Write? && Answer(s, req).Some?
    ensures Answer(s, req).value.0.nextId == s.nextId
  {
    if req.id in s.handles && s.handles[req.id].Producer? && !Swallowed(req.buf) {
      AfterInputsAlike(s.(hasNew := true), req.inputs);
    }
  }

  /** A handle that is no display does not become one. */
  lemma KindStays(s: State, req: Request, id: nat)
    requires Inv(s) && id in s.handles && !s.handles[id].Display? && Turn(s, req).Some?
    ensures id in Turn(s, req).value.0.handles && !Turn(s, req).value.0.handles[id].Display?
  {
    var s0 := s.(hasNew := false);
    var t := Answer(s0, req).value.0;
    assert id in t.handles && !t.handles[id].Display? by { AnswerKindStays(s0, req, id); }
    RestKeepsDisplay(t, id);
  }

  lemma AnswerKindStays(s: State, req: Request, id: nat)
    requires id in s.handles && id < s.nextId && !s.handles[id].Display? && Answer(s, req).Some?
    ensures id in Answer(s, req).value.0.handles && !Answer(s, req).value.0.handles[id].Display?
  {
    var s1 := s.(hasNew := true);
    if req.Write? && req.id in s.handles && s.handles[req.id].Control? {
      SwitchGains(s1, req.newVt, id);
    } else if req.Write? && req.id in s.handles && s.handles[req.id].Producer? && !Swallowed(req.buf) {
      AfterInputsAlike(s1, req.inputs);
      assert Alike(s.handles[id], AfterInputs(s1, req.inputs).value.handles[id]);
    }
  }

  lemma {:induction false} RunDisplayAccounts(states: seq<State>, reqs: seq<Request>, replies: seq<Reply>, k: nat, id: nat)
    requires Run(states, reqs, replies) && k < |states|
    ensures DisplayAccounts(states, reqs, replies, k, id)
  {
    if k > 0 {
      RunDisplayAccounts(states, reqs, replies, k - 1, id);
      assert Inv(states[k - 1]) by { RunKeepsInv(states, reqs, replies, k - 1); }
      assert StepAt(states, reqs, replies, k - 1);
      DisplayAccountsStep(states, reqs, replies, k, id);
    }
  }

  /**
   In every run, what a display has read of its events, followed by what is pending, is exactly what the switches, the
   sizes and its own opening were worth to it, in order.
   */
  lemma EventsConserved(states: seq<State>, reqs: seq<Request>, replies: seq<Reply>, k: nat, id: nat)
    requires Run(states, reqs, replies) && k < |states| && IsDisplay(states[k], id)
    ensures EventsRead(reqs, replies, k, id) + states[k].handles[id].queue == EventsFor(states, reqs, k, id)
  {
    RunDisplayAccounts(states, reqs, replies, k, id);
  }

  // ---- Following the events gives the terminal shown ----

  /** The terminal a display driver takes to be shown after the events. */
  ghost function Replay(events: seq<VtEvent>): Option<nat> {
    if events == [] then None
    else
      var last := events[|events| - 1];
      match last.kind
      case Activate => Some(last.vt)
      case Deactivate => None
      case Resize => Replay(events[..|events| - 1])
  }

  /** The events say something about what is shown. */
  ghost predicate Tells(events: seq<VtEvent>) {
    exists i :: 0 <= i < |events| && !events[i].kind.Resize?
  }

  lemma {:induction false} ReplayAppends(a: seq<VtEvent>, b: seq<VtEvent>)
    ensures Replay(a + b) == if Tells(b) then Replay(b) else Replay(a)
  {
    if b == [] {
      assert a + b == a;
    } else {
      var n := |b| - 1;
      ReplayAppends(a, b[..n]);
      assert (a + b)[..|a| + n] == a + b[..n];
      assert b[n].kind.Resize? && Tells(b) ==> Tells(b[..n]) by {
        if i :| 0 <= i < |b| && !b[i].kind.Resize? {
          assert i < n ==> b[..n][i] == b[i];
        }
      }
      assert Tells(b[..n]) ==> Tells(b) by {
        if i :| 0 <= i < n && !b[..n][i].kind.Resize? {
          assert b[i] == b[..n][i];
        }
      }
    }
  }

  /** The terminal shown on a device: the active one if it is there. */
  ghost function Shown(s: State, device: string): Option<nat> {
    if OnDevice(s.vts, s.active, device) then s.active else None
  }

  /** The events lead from one terminal shown to the other; without any that tell, nothing has changed. */
  ghost predicate Leads(events: seq<VtEvent>, before: Option<nat>, after: Option<nat>) {
    after == if Tells(events) then Replay(events) else before
  }

  lemma LeadsOn(a: seq<VtEvent>, b: seq<VtEvent>, x: Option<nat>, y: Option<nat>, z: Option<nat>)
    requires Leads(a, x, y) && Leads(b, y, z)
    ensures Leads(a + b, x, z)
  {
    ReplayAppends(a, b);
    if i :| 0 <= i < |a + b| && !(a + b)[i].kind.Resize? {
      assert if i < |a| then a[i] == (a + b)[i] else b[i - |a|] == (a + b)[i];
    }
    if i :| 0 <= i < |a| && !a[i].kind.Resize? {
      assert (a + b)[i] == a[i];
    }
    if i :| 0 <= i < |b| && !b[i].kind.Resize? {
      assert (a + b)[|a| + i] == b[i];
    }
  }

  lemma SwitchLeads(s: State, vt: nat, device: string)
    ensures Leads(SwitchEvents(s.vts, s.active, vt, device), Shown(s, device), Shown(Switched(s, vt), device))
  {
    var events := SwitchEvents(s.vts, s.active, vt, device);
    if events != [] {
      assert !events[0].kind.Resize?;
    }
  }

  lemma InputLeads(s: State, e: Input, device: string)
    requires AfterInput(s, e).Some?
    ensures Leads(InputEvents(s, e, device), Shown(s, device), Shown(AfterInput(s, e).value, device))
  {
    if e.Key? && KeyTarget(s.superKey, e.scancode).Some? {
      SwitchLeads(s, KeyTarget(s.superKey, e.scancode).value, device);
    }
  }

  lemma {:induction false} BatchLeads(s: State, inputs: seq<Input>, device: string)
    requires AfterInputs(s, inputs).Some?
    ensures Leads(BatchEvents(s, inputs, device), Shown(s, device), Shown(AfterInputs(s, inputs).value, device))
  {
    if inputs != [] {
      var n := |inputs| - 1;
      BatchLeads(s, inputs[..n], device);
      var t := AfterInputs(s, inputs[..n]).value;
      InputLeads(t, inputs[n], device);
      LeadsOn(BatchEvents(s, inputs[..n], device), InputEvents(t, inputs[n], device),
              Shown(s, device), Shown(t, device), Shown(AfterInputs(s, inputs).value, device));
    }
  }

  lemma AnswerLeads(s: State, req: Request, device: string)
    requires Inv(s) && Answer(s, req).Some? && !req.OpenHandle?
    ensures Leads(RequestEvents(s, req, device), Shown(s, device), Shown(Answer(s, req).value.0, device))
  {
    if req.Write? {
      WriteLeads(s, req, device);
    } else {
      QuietLeads(s, req, device);
    }
  }

  lemma WriteLeads(s: State, req: Request, device: string)
    requires req.Write? && Answer(s, req).Some?
    ensures Leads(RequestEvents(s, req, device), Shown(s, device), Shown(Answer(s, req).value.0, device))
  {
    var s1 := s.(hasNew := true);
    if req.id in s.handles && s.handles[req.id].Control? && |req.buf| == VT_ACTIVATE_SIZE {
      SwitchLeads(s1, req.newVt, device);
    } else if Produces(s, req) {
      BatchLeads(s1, req.inputs, device);
    }
  }

  lemma QuietLeads(s: State, req: Request, device: string)
    requires Inv(s) && !req.Write? && !req.OpenHandle? && Answer(s, req).Some?
    ensures Shown(Answer(s, req).value.0, device) == Shown(s, device) && RequestEvents(s, req, device) == []
  {
  }

  /** Every turn that opens no display driver tells each display of just what changes on it. */
  lemma TurnLeads(s: State, req: Request, device: string)
    requires Inv(s) && Turn(s, req).Some? && !req.OpenHandle?
    ensures Leads(RequestEvents(s, req, device), Shown(s, device), Shown(Turn(s, req).value.0, device))
  {
    var s0 := s.(hasNew := false);
    assert Inv(s0) by { InvMoves(s, s0); }
    RequestIgnoresNew(s, req, device);
    AnswerLeads(s0, req, device);
    AnswerHandoff(s0, req);
  }

  /** Display `id` has been told what is shown on it. */
  ghost predicate InStep(states: seq<State>, reqs: seq<Request>, k: nat, id: nat)
    requires k <= |reqs| < |states| && IsDisplay(states[k], id)
  {
    Replay(EventsFor(states, reqs, k, id)) == Shown(states[k], states[k].handles[id].device)
  }

  ghost predicate NoDriverOpened(reqs: seq<Request>, k: nat, m: nat)
    requires k <= m <= |reqs|
  {
    forall i :: k <= i < m ==> !reqs[i].OpenHandle?
  }

  /** One of the turns from `k` to `m` told display `id` of a switch. */
  ghost predicate ToldSince(states: seq<State>, reqs: seq<Request>, k: nat, m: nat, id: nat)
    requires k <= m <= |reqs| < |states|
  {
    exists i :: k <= i < m && Tells(TurnEvents(states[i], reqs[i], id))
  }

  /**
   Between handoffs: replaying every event ever queued to a display gives the active terminal if that is on its device, and
   none otherwise, if and only if it did at the beginning or the display has been told of a switch since.
   */
  lemma {:induction false} InStepIff(states: seq<State>, reqs: seq<Request>, replies: seq<Reply>, k: nat, m: nat, id: nat)
    requires Run(states, reqs, replies) && k <= m < |states| && IsDisplay(states[k], id) && NoDriverOpened(reqs, k, m)
    ensures IsDisplay(states[m], id) && states[m].handles[id].device == states[k].handles[id].device
    ensures InStep(states, reqs, m, id) <==> InStep(states, reqs, k, id) || ToldSince(states, reqs, k, m, id)
    decreases m - k
  {
    if k < m {
      InStepIff(states, reqs, replies, k, m - 1, id);
      InStepTurn(states, reqs, replies, m - 1, id);
      ToldMore(states, reqs, k, m, id);
    }
  }

  lemma ToldMore(states: seq<State>, reqs: seq<Request>, k: nat, m: nat, id: nat)
    requires k < m <= |reqs| < |states|
    ensures ToldSince(states, reqs, k, m, id) <==>
            ToldSince(states, reqs, k, m - 1, id) || Tells(TurnEvents(states[m - 1], reqs[m - 1], id))
  {
  }

  lemma InStepTurn(states: seq<State>, reqs: seq<Request>, replies: seq<Reply>, k: nat, id: nat)
    requires Run(states, reqs, replies) && k < |reqs| && IsDisplay(states[k], id) && !reqs[k].OpenHandle?
    ensures IsDisplay(states[k + 1], id) && states[k + 1].handles[id].device == states[k].handles[id].device
    ensures InStep(states, reqs, k + 1, id) <==> InStep(states, reqs, k, id) || Tells(TurnEvents(states[k], reqs[k], id))
  {
    var s, req := states[k], reqs[k];
    assert Inv(s) by { RunKeepsInv(states, reqs, replies, k); }
    assert Turn(s, req) == Some((states[k + 1], replies[k])) by { assert StepAt(states, reqs, replies, k); }
    TurnDisplay(s, req, id);
    TurnLeads(s, req, s.handles[id].device);
    ReplayAppends(EventsFor(states, reqs, k, id), TurnEvents(s, req, id));
  }

  /** The active terminal is on an early display. */
  ghost predicate ActiveEarly(s: State) {
    s.active.Some? && s.active.value in s.vts && IsEarly(s.handles, s.vts[s.active.value])
  }

  /** Terminals on early displays move to the driver that is opened, and no others do. */
  lemma HandoffMoves(s: State, device: string)
    requires Inv(s) && Turn(s, OpenHandle(device)).Some?
    ensures var u := Turn(s, OpenHandle(device)).value.0;
            && u.active == s.active && u.vts.Keys == s.vts.Keys
            && (forall v :: v in s.vts ==> u.vts[v] == if IsEarly(s.handles, s.vts[v]) then device else s.vts[v])
            && (forall d :: IsEarly(u.handles, d) <==> IsEarly(s.handles, d))
  {
    var s0 := s.(hasNew := false);
    assert Inv(s0) by { InvMoves(s, s0); }
    AnswerHandoff(s0, OpenHandle(device));
    var t := Answer(s0, OpenHandle(device)).value.0;
    var u := Notified(HandedOff(t)).value;
    forall d ensures IsEarly(u.handles, d) <==> IsEarly(t.handles, d) {
      if id :| id in t.handles && t.handles[id].Display? && t.handles[id].early && t.handles[id].device == d {
        RestKeepsDisplay(t, id);
      }
      if id :| id in u.handles && u.handles[id].Display? && u.handles[id].early && u.handles[id].device == d {
        assert id in t.handles;
        RestKeepsDisplay(t, id);
      }
    }
  }

  /** After a handoff no terminal is left on an early display, unless the driver goes by the name of one and took terminals over. */
  lemma NoneLeftEarlyIff(s: State, device: string)
    requires Inv(s) && Turn(s, OpenHandle(device)).Some?
    ensures var u := Turn(s, OpenHandle(device)).value.0;
            (forall v :: v in u.vts ==> !IsEarly(u.handles, u.vts[v])) <==>
            (IsEarly(s.handles, device) ==> forall v :: v in s.vts ==> !IsEarly(s.handles, s.vts[v]))
  {
    HandoffMoves(s, device);
    var u := Turn(s, OpenHandle(device)).value.0;
    if IsEarly(s.handles, device) {
      if v :| v in s.vts && IsEarly(s.handles, s.vts[v]) {
        assert v in u.vts && u.vts[v] == device;
      }
    }
  }

  /** A display is in step when it is opened exactly if it was then told what is shown on it. */
  lemma OpenedInStepIff(states: seq<State>, reqs: seq<Request>, replies: seq<Reply>, k: nat)
    requires Run(states, reqs, replies) && k < |reqs| && (reqs[k].OpenEarly? || reqs[k].OpenHandle?)
    ensures var s, id := states[k], states[k].nextId;
            && IsDisplay(states[k + 1], id) && states[k + 1].handles[id].device == reqs[k].device
            && (InStep(states, reqs, k + 1, id) <==>
                  if reqs[k].OpenEarly? then !OnDevice(s.vts, s.active, reqs[k].device)
                  else s.active.None? || ActiveEarly(s) || OnDevice(s.vts, s.active, reqs[k].device))
  {
    var s, req, id := states[k], reqs[k], states[k].nextId;
    assert Inv(s) by { RunKeepsInv(states, reqs, replies, k); }
    assert Turn(s, req) == Some((states[k + 1], replies[k])) by { assert StepAt(states, reqs, replies, k); }
    assert id !in s.handles;
    RunDisplayAccounts(states, reqs, replies, k, id);
    TurnOpens(s, req, id);
    var first := OpeningEvents(s, req);
    assert EventsFor(states, reqs, k + 1, id) == first;
    assert Replay(first) == if req.OpenHandle? then s.active else None;
    if req.OpenHandle? {
      HandoffMoves(s, req.device);
    } else {
      TurnLeads(s, req, req.device);
    }
  }

  /** A display in step falls out of step in a handoff exactly when that takes the active terminal from it or gives it to it. */
  lemma HandoffInStepIff(states: seq<State>, reqs: seq<Request>, replies: seq<Reply>, k: nat, id: nat)
    requires Run(states, reqs, replies) && k < |reqs| && reqs[k].OpenHandle? && IsDisplay(states[k], id) && InStep(states, reqs, k, id)
    ensures IsDisplay(states[k + 1], id)
    ensures var s := states[k];
            var device := s.handles[id].device;
            InStep(states, reqs, k + 1, id) <==>
              !(ActiveEarly(s) && OnDevice(s.vts, s.active, device) != (reqs[k].device == device))
  {
    var s, req := states[k], reqs[k];
    assert Inv(s) by { RunKeepsInv(states, reqs, replies, k); }
    assert Turn(s, req) == Some((states[k + 1], replies[k])) by { assert StepAt(states, reqs, replies, k); }
    TurnDisplay(s, req, id);
    HandoffMoves(s, req.device);
    assert EventsFor(states, reqs, k + 1, id) == EventsFor(states, reqs, k, id);
  }

  /** It happens: an early display that shows the active terminal is not told when a driver takes this over. */
  lemma HandoffLeavesBehind() returns (states: seq<State>, reqs: seq<Request>, replies: seq<Reply>)
    ensures Run(states, reqs, replies) && IsDisplay(states[|reqs|], 0) && !InStep(states, reqs, |reqs|, 0)
  {
    states, reqs, replies := ActiveWaitingReached();
    var k, s := |reqs|, states[|reqs|];
    var driver := s.handles[0].device + "b";
    NeverPanicsOnceActive(s, OpenHandle(driver));
    var (u, reply) := Turn(s, OpenHandle(driver)).value;
    RunMore(states, reqs, replies, OpenHandle(driver), u, reply);
    states, reqs, replies := states + [u], reqs + [OpenHandle(driver)], replies + [reply];
    OpenedInStepIff(states, reqs, replies, 0);
    InStepIff(states, reqs, replies, 1, k, 0);
    assert ActiveEarly(s) && driver != s.handles[0].device;
    HandoffInStepIff(states, reqs, replies, k, 0);
  }

  // ---- Keys ----

  const F_KEYS := [0x3B, 0x3C, 0x3D, 0x3E, 0x3F, 0x40, 0x41, 0x42, 0x43, 0x44, 0x57, 0x58]

  /** The super key after a batch is down exactly if its last event there was a press, or there was none and it was down before. */
  lemma {:induction false} BatchSuper(s: State, inputs: seq<Input>)
    requires AfterInputs(s, inputs).Some?
    ensures AfterInputs(s, inputs).value.superKey == SuperAfter(s.superKey, inputs)
  {
    if inputs != [] {
      BatchSuper(s, inputs[..|inputs| - 1]);
    }
  }

  /** With the super key down, the twelve function keys select terminals 1 to 12; nothing else selects any. */
  lemma KeySelects(superKey: bool, scancode: nat, vt: nat)
    ensures KeyTarget(superKey, scancode) == Some(vt) <==> superKey && 1 <= vt <= 12 && F_KEYS[vt - 1] == scancode
  {
  }
}
