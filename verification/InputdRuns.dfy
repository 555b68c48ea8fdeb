/** What every run of the input daemon keeps: terminals, routed bytes and handoffs. */
module InputdRuns {
  import opened Bits
  import opened Common
  import opened Inputd

  // ---- What handle updates leave alone ----

  /** Same kind, same terminal or device; a consumer's bytes and handoff mark are untouched. */
  ghost predicate Alike(h: Handle, g: Handle) {
    match h
    case Producer => g.Producer?
    case Control => g.Control?
    case Consumer(pending, needsHandoff, _, _, vt) =>
      g.Consumer? && g.pending == pending && g.needsHandoff == needsHandoff && g.vt == vt
    case Display(_, _, _, device, early) => g.Display? && g.device == device && g.early == early
  }

  ghost predicate AllAlike(a: map<nat, Handle>, b: map<nat, Handle>) {
    a.Keys == b.Keys && forall id :: id in a ==> Alike(a[id], b[id])
  }

  lemma AlikeTrans(a: map<nat, Handle>, b: map<nat, Handle>, c: map<nat, Handle>)
    requires AllAlike(a, b) && AllAlike(b, c)
    ensures AllAlike(a, c)
  {
    forall id | id in a ensures Alike(a[id], c[id]) {
      assert Alike(a[id], b[id]) && Alike(b[id], c[id]);
    }
  }

  lemma SwitchedAlike(s: State, vt: nat)
    ensures AllAlike(s.handles, Switched(s, vt).handles)
    ensures Switched(s, vt).vts == s.vts && (Switched(s, vt).active == s.active || (Switched(s, vt).active == Some(vt) && vt in s.vts))
  {
  }

  lemma AfterInputAlike(s: State, e: Input)
    requires AfterInput(s, e).Some?
    ensures var t := AfterInput(s, e).value;
            && AllAlike(s.handles, t.handles)
            && t == s.(handles := t.handles, superKey := t.superKey, active := t.active)
            && (t.active == s.active || (t.active.Some? && t.active.value in s.vts))
  {
    match e
    case Key(scancode, _) =>
      if KeyTarget(s.superKey, scancode).Some? {
        SwitchedAlike(s, KeyTarget(s.superKey, scancode).value);
      }
    case _ =>
  }

  lemma {:induction false} AfterInputsAlike(s: State, inputs: seq<Input>)
    requires AfterInputs(s, inputs).Some?
    ensures var t := AfterInputs(s, inputs).value;
            && AllAlike(s.handles, t.handles)
            && t == s.(handles := t.handles, superKey := t.superKey, active := t.active)
            && (t.active == s.active || (t.active.Some? && t.active.value in s.vts))
  {
    if inputs != [] {
      var n := |inputs| - 1;
      AfterInputsAlike(s, inputs[..n]);
      var t := AfterInputs(s, inputs[..n]).value;
      AfterInputAlike(t, inputs[n]);
      AlikeTrans(s.handles, t.handles, AfterInputs(s, inputs).value.handles);
    }
  }

  lemma NotifiedAlike(s: State)
    requires Notified(s).Some?
    ensures AllAlike(s.handles, Notified(s).value.handles)
    ensures Notified(s).value == s.(handles := Notified(s).value.handles)
  {
  }

  // ---- One turn, seen by one consumer ----

  ghost predicate IsConsumer(s: State, id: nat) {
    id in s.handles && s.handles[id].Consumer?
  }

  /** The bytes a request routes to consumers of terminal `vt`; `after` is the active terminal once it is handled. */
  function Arriving(s: State, req: Request, after: Option<nat>, vt: nat): seq<byte> {
    if && req.Write? && req.id in s.handles && s.handles[req.id].Producer?
       && !(|req.buf| == 1 && req.buf[0] > 0xf4) && after == Some(vt)
    then req.buf else []
  }

  function Taken(req: Request, reply: Reply, id: nat): seq<byte> {
    if req.Read? && req.id == id && reply.Data? then reply.bytes else []
  }

  /** Opening a real display hands consumer `id` off when its terminal is on an early display. */
  ghost predicate HandsOff(s: State, req: Request, id: nat) {
    && req.OpenHandle? && IsConsumer(s, id)
    && s.handles[id].vt in s.vts && IsEarly(s.handles, s.vts[s.handles[id].vt])
  }

  /** What answering a request does to a consumer that exists, before handoff and notification. */
  ghost predicate ConsumerStep(s: State, req: Request, t: State, reply: Reply, id: nat)
    requires IsConsumer(s, id)
  {
    && IsConsumer(t, id)
    && var h, g := s.handles[id], t.handles[id];
    && g.vt == h.vt
    && h.pending + Arriving(s, req, t.active, h.vt) == Taken(req, reply, id) + g.pending
    && (if req.Read? && req.id == id
        then !g.needsHandoff && (reply.ESTALE? <==> h.needsHandoff) && (reply.ESTALE? || reply.Data?)
        else g.needsHandoff == h.needsHandoff)
  }

  lemma WriteConsumer(s: State, req: Request, id: nat)
    requires req.Write? && IsConsumer(s, id) && Answer(s, req).Some?
    ensures var (t, reply) := Answer(s, req).value; ConsumerStep(s, req, t, reply, id)
  {
    var s1 := s.(hasNew := true);
    if req.id in s.handles {
      match s.handles[req.id]
      case Control => SwitchedAlike(s1, req.newVt); assert Alike(s.handles[id], Switched(s1, req.newVt).handles[id]);
      case Producer =>
        if !Swallowed(req.buf) {
          AfterInputsAlike(s1, req.inputs);
          var t := AfterInputs(s1, req.inputs).value;
          assert Alike(s.handles[id], t.handles[id]);
        }
      case _ =>
    }
  }

  lemma ReadConsumer(s: State, id: nat, size: nat, other: nat)
    requires IsConsumer(s, id) && other in s.handles
    ensures var (t, reply) := ReadHandle(s, other, size); ConsumerStep(s, Read(other, size), t, reply, id)
  {
    if other == id {
      var pending := s.handles[id].pending;
      var copy := Min(|pending|, size);
      assert pending == pending[..copy] + pending[copy..];
    }
  }

  lemma AnswerConsumer(s: State, req: Request, id: nat)
    requires IsConsumer(s, id) && id < s.nextId && Answer(s, req).Some?
    ensures var (t, reply) := Answer(s, req).value; ConsumerStep(s, req, t, reply, id)
  {
    if req.Write? {
      WriteConsumer(s, req, id);
    } else if req.Read? && req.id in s.handles {
      ReadConsumer(s, id, req.size, req.id);
    }
  }

  // ---- Invariant ----

  ghost predicate DeviceOpen(handles: map<nat, Handle>, device: string) {
    exists id :: id in handles && handles[id].Display? && handles[id].device == device
  }

  /** The active terminal exists, every terminal is on an open display, and numbers are never reused. */
  ghost predicate Inv(s: State) {
    && (s.active.Some? ==> s.active.value in s.vts)
    && (forall v :: v in s.vts ==> DeviceOpen(s.handles, s.vts[v]))
    && (forall v :: v in s.vts ==> v < s.nextVt)
    && (forall id :: id in s.handles ==> id < s.nextId)
    && s.handoffTo.None?
  }

  ghost predicate OpenInv(s: State) {
    && Inv(s.(handoffTo := None))
    && (s.handoffTo.Some? ==> DeviceOpen(s.handles, s.handoffTo.value))
  }

  /** Every display handle stays open with its device. */
  ghost predicate DisplaysKept(a: map<nat, Handle>, b: map<nat, Handle>) {
    forall id :: id in a && a[id].Display? ==> id in b && b[id].Display? && b[id].device == a[id].device
  }

  lemma DeviceStays(a: map<nat, Handle>, b: map<nat, Handle>, device: string)
    requires DeviceOpen(a, device) && DisplaysKept(a, b)
    ensures DeviceOpen(b, device)
  {
    var id :| id in a && a[id].Display? && a[id].device == device;
    assert id in b && b[id].Display? && b[id].device == device;
  }

  lemma InvMoves(s: State, t: State)
    requires Inv(s) && DisplaysKept(s.handles, t.handles)
    requires t.vts == s.vts && t.nextVt == s.nextVt && t.handoffTo.None?
    requires t.active.Some? ==> t.active.value in t.vts
    requires forall id :: id in t.handles ==> id < t.nextId
    ensures Inv(t)
  {
    forall v | v in t.vts ensures DeviceOpen(t.handles, t.vts[v]) {
      DeviceStays(s.handles, t.handles, t.vts[v]);
    }
  }

  lemma AlikeDisplays(a: map<nat, Handle>, b: map<nat, Handle>)
    requires AllAlike(a, b)
    ensures DisplaysKept(a, b)
  {
    forall id | id in a && a[id].Display? ensures id in b && b[id].Display? && b[id].device == a[id].device {
      assert Alike(a[id], b[id]);
    }
  }

  lemma WriteInv(s: State, req: Request)
    requires Inv(s) && req.Write? && Answer(s, req).Some?
    ensures Inv(Answer(s, req).value.0)
  {
    var s1, t := s.(hasNew := true), Answer(s, req).value.0;
    if req.id in s.handles && s.handles[req.id].Control? {
      SwitchedAlike(s1, req.newVt);
      AlikeDisplays(s.handles, t.handles);
    } else if req.id in s.handles && s.handles[req.id].Producer? && !Swallowed(req.buf) {
      AfterInputsAlike(s1, req.inputs);
      var u := AfterInputs(s1, req.inputs).value;
      AlikeDisplays(s.handles, u.handles);
      assert DisplaysKept(u.handles, t.handles);
    }
    InvMoves(s, t);
  }

  lemma OpenedInv(s: State, t: State, h: Handle)
    requires Inv(s) && t == WithHandle(s, h)
    ensures Inv(t) && t.handles[s.nextId] == h
  {
    InvMoves(s, t);
  }

  lemma UpdateInv(s: State, id: nat, h: Handle)
    requires Inv(s) && id in s.handles
    requires s.handles[id].Display? ==> h.Display? && h.device == s.handles[id].device
    ensures Inv(s.(handles := s.handles[id := h]))
  {
    InvMoves(s, s.(handles := s.handles[id := h]));
  }

  lemma NewVtInv(s: State, id: nat)
    requires Inv(s) && id in s.handles && s.handles[id].Display?
    ensures Inv(s.(vts := s.vts[s.nextVt := s.handles[id].device], nextVt := s.nextVt + 1))
  {
    assert DeviceOpen(s.handles, s.handles[id].device);
  }

  lemma ReadInv(s: State, id: nat, size: nat)
    requires Inv(s) && id in s.handles
    ensures Inv(ReadHandle(s, id, size).0) && ReadHandle(s, id, size).0.handoffTo.None?
  {
    match s.handles[id]
    case Consumer(pending, needsHandoff, _, _, _) =>
      if needsHandoff {
        UpdateInv(s, id, s.handles[id].(needsHandoff := false));
      } else {
        UpdateInv(s, id, s.handles[id].(pending := pending[Min(|pending|, size)..]));
      }
    case Display(queue, _, _, _, _) =>
      if size == 0 {
        NewVtInv(s, id);
      } else {
        UpdateInv(s, id, s.handles[id].(queue := queue[Min(|queue|, size / VT_EVENT_SIZE)..]));
      }
    case _ =>
  }

  lemma OpenHandleInv(s: State, device: string)
    requires Inv(s)
    ensures OpenInv(Answer(s, OpenHandle(device)).value.0)
  {
    var t := Answer(s, OpenHandle(device)).value.0;
    var h := t.handles[s.nextId];
    OpenedInv(s, WithHandle(s, h), h);
    assert t.(handoffTo := None) == WithHandle(s, h);
    assert DeviceOpen(t.handles, device) by { assert t.handles[s.nextId].Display?; }
  }

  lemma FeventInv(s: State, id: nat, read: bool)
    requires Inv(s)
    ensures Inv(FeventHandle(s, id, read).0)
  {
    if id in s.handles && s.handles[id].Consumer? {
      UpdateInv(s, id, s.handles[id].(events := read, notified := false));
    } else if id in s.handles && s.handles[id].Display? {
      UpdateInv(s, id, s.handles[id].(listens := read, told := false));
    }
  }

  lemma OpenInvariant(s: State, req: Request)
    requires Inv(s) && (req.OpenProducer? || req.OpenConsumer? || req.OpenEarly? || req.OpenControl? || req.OpenOther?)
    ensures Inv(Answer(s, req).value.0)
  {
    var t := Answer(s, req).value.0;
    if req.OpenOther? || (req.OpenConsumer? && req.target.None?) {
      InvMoves(s, t);
    } else {
      OpenedInv(s, t, t.handles[s.nextId]);
    }
  }

  lemma AnswerInv(s: State, req: Request)
    requires Inv(s) && Answer(s, req).Some?
    ensures OpenInv(Answer(s, req).value.0)
  {
    match req
    case Write(_, _, _, _) => WriteInv(s, req);
    case Read(id, size) => if id in s.handles { ReadInv(s, id, size); }
    case OpenHandle(device) => OpenHandleInv(s, device);
    case Fevent(id, read) => FeventInv(s, id, read);
    case Close =>
    case _ => OpenInvariant(s, req);
  }

  lemma HandoffInv(s: State)
    requires OpenInv(s)
    ensures Inv(HandedOff(s)) && DisplaysKept(s.handles, HandedOff(s).handles)
    ensures HandedOff(s).active == s.active
  {
    var t := HandedOff(s);
    forall v | v in t.vts ensures DeviceOpen(t.handles, t.vts[v]) {
      assert DeviceOpen(s.handles, t.vts[v]);
      DeviceStays(s.handles, t.handles, t.vts[v]);
    }
  }

  lemma TurnInv(s: State, req: Request)
    requires Inv(s) && Turn(s, req).Some?
    ensures Inv(Turn(s, req).value.0)
  {
    var s0 := s.(hasNew := false);
    InvMoves(s, s0);
    AnswerInv(s0, req);
    var t := Answer(s0, req).value.0;
    HandoffInv(t);
    NotifiedAlike(HandedOff(t));
    AlikeDisplays(HandedOff(t).handles, Notified(HandedOff(t)).value.handles);
    InvMoves(HandedOff(t), Notified(HandedOff(t)).value);
  }

  // ---- A turn, seen by a consumer ----

  /** Answering sets up a handoff only for a newly opened display, and changes neither terminals nor early displays then. */
  lemma AnswerHandoff(s: State, req: Request)
    requires Inv(s) && Answer(s, req).Some?
    ensures var t := Answer(s, req).value.0;
            && (t.handoffTo.Some? <==> req.OpenHandle?)
            && (req.OpenHandle? ==> t.vts == s.vts && forall device :: IsEarly(t.handles, device) <==> IsEarly(s.handles, device))
  {
    var t := Answer(s, req).value.0;
    if req.Write? {
      WriteInv(s, req);
    } else if req.Read? {
      if req.id in s.handles { ReadInv(s, req.id, req.size); }
    } else if req.OpenHandle? {
      forall device
        ensures IsEarly(t.handles, device) <==> IsEarly(s.handles, device)
      {
        if id :| id in s.handles && s.handles[id].Display? && s.handles[id].early && s.handles[id].device == device {
          assert id in t.handles && t.handles[id] == s.handles[id];
        }
        if id :| id in t.handles && t.handles[id].Display? && t.handles[id].early && t.handles[id].device == device {
          assert id in s.handles && t.handles[id] == s.handles[id];
        }
      }
    }
  }

  /** One turn of the daemon as a consumer sees it. */
  lemma TurnConsumer(s: State, req: Request, id: nat)
    requires Inv(s) && IsConsumer(s, id) && Turn(s, req).Some?
    ensures var (u, reply) := Turn(s, req).value;
            var h := s.handles[id];
            && IsConsumer(u, id) && u.handles[id].vt == h.vt
            && h.pending + Arriving(s, req, u.active, h.vt) == Taken(req, reply, id) + u.handles[id].pending
            && (u.handles[id].needsHandoff <==> HandsOff(s, req, id) || (h.needsHandoff && !(req.Read? && req.id == id)))
            && (req.Read? && req.id == id ==> (reply.ESTALE? <==> h.needsHandoff) && (reply.ESTALE? || reply.Data?))
  {
    var s0 := s.(hasNew := false);
    InvMoves(s, s0);
    AnswerConsumer(s0, req, id);
    AnswerHandoff(s0, req);
    var (t, reply) := Answer(s0, req).value;
    NotifiedAlike(HandedOff(t));
    assert Alike(HandedOff(t).handles[id], Notified(HandedOff(t)).value.handles[id]);
    HandoffSeen(s0, t, req, id);
  }

  lemma HandoffSeen(s: State, t: State, req: Request, id: nat)
    requires IsConsumer(s, id) && IsConsumer(t, id) && t.handles[id].vt == s.handles[id].vt
    requires t.handoffTo.Some? <==> req.OpenHandle?
    requires req.OpenHandle? ==> t.vts == s.vts && forall device :: IsEarly(t.handles, device) <==> IsEarly(s.handles, device)
    ensures IsConsumer(HandedOff(t), id)
    ensures var g := HandedOff(t).handles[id];
            && g.vt == t.handles[id].vt && g.pending == t.handles[id].pending
            && g.needsHandoff == (t.handles[id].needsHandoff || HandsOff(s, req, id))
  {
  }

  /** Handles keep their kind, and a new consumer starts empty. */
  lemma TurnKinds(s: State, req: Request, id: nat)
    requires Inv(s) && Turn(s, req).Some?
    ensures var (u, reply) := Turn(s, req).value;
            && (id in s.handles ==> id in u.handles && (u.handles[id].Consumer? <==> s.handles[id].Consumer?))
            && (id !in s.handles && IsConsumer(u, id) ==> u.handles[id].pending == [] && !u.handles[id].needsHandoff)
            && (id !in s.handles ==> Taken(req, reply, id) == [])
  {
    var s0 := s.(hasNew := false);
    var (t, reply) := Answer(s0, req).value;
    AnswerKinds(s0, req, id);
    NotifiedAlike(HandedOff(t));
    assert id in HandedOff(t).handles ==> Alike(HandedOff(t).handles[id], Notified(HandedOff(t)).value.handles[id]);
  }

  lemma AnswerKinds(s: State, req: Request, id: nat)
    requires s.handoffTo.None? && (forall j :: j in s.handles ==> j < s.nextId) && Answer(s, req).Some?
    ensures var (t, reply) := Answer(s, req).value;
            && (id in s.handles ==> id in t.handles && (t.handles[id].Consumer? <==> s.handles[id].Consumer?))
            && (id !in s.handles && IsConsumer(t, id) ==>
                  t.handles[id].pending == [] && !t.handles[id].needsHandoff && t.handoffTo.None?)
            && (id !in s.handles ==> Taken(req, reply, id) == [])
  {
    if req.Write? {
      var s1 := s.(hasNew := true);
      if req.id in s.handles && s.handles[req.id].Control? {
        SwitchedAlike(s1, req.newVt);
        assert id in s.handles ==> Alike(s.handles[id], Switched(s1, req.newVt).handles[id]);
      } else if req.id in s.handles && s.handles[req.id].Producer? && !Swallowed(req.buf) {
        AfterInputsAlike(s1, req.inputs);
        var u := AfterInputs(s1, req.inputs).value;
        assert id in s.handles ==> Alike(s.handles[id], u.handles[id]);
      }
    }
  }

  // ---- Runs ----

  ghost predicate Init(s: State) {
    s == State(map[], 0, 1, map[], false, None, false, None)
  }

  ghost predicate StepAt(states: seq<State>, reqs: seq<Request>, replies: seq<Reply>, i: nat)
    requires i < |reqs| == |replies| < |states|
  {
    Turn(states[i], reqs[i]) == Some((states[i + 1], replies[i]))
  }

  ghost predicate Run(states: seq<State>, reqs: seq<Request>, replies: seq<Reply>) {
    && |states| == |reqs| + 1 && |replies| == |reqs| && Init(states[0])
    && forall i {:trigger StepAt(states, reqs, replies, i)} :: 0 <= i < |reqs| ==> StepAt(states, reqs, replies, i)
  }

  lemma RunMore(states: seq<State>, reqs: seq<Request>, replies: seq<Reply>, req: Request, u: State, reply: Reply)
    requires Run(states, reqs, replies) && Turn(states[|reqs|], req) == Some((u, reply))
    ensures Run(states + [u], reqs + [req], replies + [reply])
  {
    forall i: nat | i < |reqs + [req]| ensures StepAt(states + [u], reqs + [req], replies + [reply], i) {
      assert i < |reqs| ==> StepAt(states, reqs, replies, i);
    }
  }

  /** The bytes consumer `id` has read in the first `k` turns. */
  function ReadSoFar(reqs: seq<Request>, replies: seq<Reply>, k: nat, id: nat): seq<byte>
    requires k <= |reqs| == |replies|
  {
    if k == 0 then [] else ReadSoFar(reqs, replies, k - 1, id) + Taken(reqs[k - 1], replies[k - 1], id)
  }

  /** The producer buffers accepted in the first `k` turns while `id`'s terminal was the active one after the batch's own switches. */
  ghost function RoutedSoFar(states: seq<State>, reqs: seq<Request>, k: nat, id: nat): seq<byte>
    requires k <= |reqs| < |states|
  {
    if k == 0 then []
    else
      RoutedSoFar(states, reqs, k - 1, id) +
      if IsConsumer(states[k - 1], id)
      then Arriving(states[k - 1], reqs[k - 1], states[k].active, states[k - 1].handles[id].vt) else []
  }

  /** A handoff of `id`'s terminal has happened since `id` last read. */
  ghost predicate HandoffSince(states: seq<State>, reqs: seq<Request>, k: nat, id: nat)
    requires k <= |reqs| < |states|
  {
    k > 0 &&
    (HandsOff(states[k - 1], reqs[k - 1], id) ||
     (!(reqs[k - 1].Read? && reqs[k - 1].id == id) && HandoffSince(states, reqs, k - 1, id)))
  }

  lemma {:induction false} RunKeepsInv(states: seq<State>, reqs: seq<Request>, replies: seq<Reply>, k: nat)
    requires Run(states, reqs, replies) && k < |states|
    ensures Inv(states[k])
  {
    if k > 0 {
      RunKeepsInv(states, reqs, replies, k - 1);
      assert Turn(states[k - 1], reqs[k - 1]) == Some((states[k], replies[k - 1])) by {
        assert StepAt(states, reqs, replies, k - 1);
      }
      TurnInv(states[k - 1], reqs[k - 1]);
    }
  }

  ghost predicate Accounts(states: seq<State>, reqs: seq<Request>, replies: seq<Reply>, k: nat, id: nat)
    requires k <= |reqs| == |replies| && |reqs| < |states|
  {
    var read, routed := ReadSoFar(reqs, replies, k, id), RoutedSoFar(states, reqs, k, id);
    && (IsConsumer(states[k], id) ==>
          read + states[k].handles[id].pending == routed &&
          (states[k].handles[id].needsHandoff <==> HandoffSince(states, reqs, k, id)))
    && (id !in states[k].handles ==> read == [] && routed == [] && !HandoffSince(states, reqs, k, id))
  }

  lemma {:induction false} RunAccounts(states: seq<State>, reqs: seq<Request>, replies: seq<Reply>, k: nat, id: nat)
    requires Run(states, reqs, replies) && k < |states|
    ensures Accounts(states, reqs, replies, k, id)
  {
    if k > 0 {
      RunAccounts(states, reqs, replies, k - 1, id);
      RunKeepsInv(states, reqs, replies, k - 1);
      assert StepAt(states, reqs, replies, k - 1);
      AccountsStep(states, reqs, replies, k, id);
    }
  }

  lemma AccountsStep(states: seq<State>, reqs: seq<Request>, replies: seq<Reply>, k: nat, id: nat)
    requires 0 < k <= |reqs| == |replies| && |reqs| < |states|
    requires Inv(states[k - 1]) && StepAt(states, reqs, replies, k - 1) && Accounts(states, reqs, replies, k - 1, id)
    ensures Accounts(states, reqs, replies, k, id)
  {
    var s, u, req, reply := states[k - 1], states[k], reqs[k - 1], replies[k - 1];
    TurnKinds(s, req, id);
    if IsConsumer(s, id) {
      TurnConsumer(s, req, id);
      var h := s.handles[id];
      CarryOn(ReadSoFar(reqs, replies, k - 1, id), h.pending, Arriving(s, req, u.active, h.vt), Taken(req, reply, id),
              u.handles[id].pending);
    }
  }

  lemma CarryOn(read: seq<byte>, pending: seq<byte>, arriving: seq<byte>, taken: seq<byte>, left: seq<byte>)
    requires pending + arriving == taken + left
    ensures read + taken + left == read + pending + arriving
  {
    assert read + taken + left == read + (taken + left);
    assert read + pending + arriving == read + (pending + arriving);
  }

  /**
   No byte is lost, duplicated or reordered: what a consumer has read, followed by what is
   pending, is exactly what producers wrote while its terminal was active.
   */
  lemma BytesConserved(states: seq<State>, reqs: seq<Request>, replies: seq<Reply>, k: nat, id: nat)
    requires Run(states, reqs, replies) && k < |states| && IsConsumer(states[k], id)
    ensures ReadSoFar(reqs, replies, k, id) + states[k].handles[id].pending == RoutedSoFar(states, reqs, k, id)
  {
    RunAccounts(states, reqs, replies, k, id);
  }

  /** A consumer's read fails with ESTALE exactly when a handoff happened since its last read, and gives data otherwise. */
  lemma StaleOncePerHandoff(states: seq<State>, reqs: seq<Request>, replies: seq<Reply>, k: nat, id: nat)
    requires Run(states, reqs, replies) && k < |reqs| && IsConsumer(states[k], id)
    requires reqs[k].Read? && reqs[k].id == id
    ensures if HandoffSince(states, reqs, k, id) then replies[k].ESTALE? else replies[k].Data?
    ensures !HandoffSince(states, reqs, k + 1, id)
  {
    RunAccounts(states, reqs, replies, k, id);
    RunKeepsInv(states, reqs, replies, k);
    assert StepAt(states, reqs, replies, k);
    TurnConsumer(states[k], reqs[k], id);
  }

  /** In every run the active terminal exists and every terminal is on an open display. */
  lemma TerminalsExist(states: seq<State>, reqs: seq<Request>, replies: seq<Reply>, k: nat)
    requires Run(states, reqs, replies) && k < |states|
    ensures states[k].active.Some? ==> states[k].active.value in states[k].vts
    ensures forall v :: v in states[k].vts ==> DeviceOpen(states[k].handles, states[k].vts[v])
  {
    RunKeepsInv(states, reqs, replies, k);
  }

  /** A notification that is not a panic leaves nothing due, and tells no one twice. */
  lemma NothingLeftDue(s: State, id: nat)
    requires s.hasNew && Notified(s).Some? && id in s.handles
    ensures var h := Notified(s).value.handles[id];
            !Due(h, s.active) && (h != s.handles[id] <==> Due(s.handles[id], s.active))
  {
  }

  // ---- Who has been told ----

  /** The handle's owner asked for read events and has something it would be told about. */
  ghost predicate Owed(h: Handle, active: Option<nat>) {
    match h
    case Consumer(pending, needsHandoff, _, events, vt) => events && (needsHandoff || (pending != [] && active == Some(vt)))
    case Display(queue, _, listens, _, _) => listens && queue != []
    case _ => false
  }

  /** The handle's owner has been sent a read event for what it has. */
  ghost predicate Told(h: Handle) {
    match h
    case Consumer(_, _, notified, _, _) => notified
    case Display(_, told, _, _, _) => told
    case _ => true
  }

  /** The turn goes on to the notification loop: after every write, and when a display takes over some terminal. */
  ghost predicate Announces(s: State, req: Request) {
    req.Write? || (req.OpenHandle? && exists v :: v in s.vts && IsEarly(s.handles, s.vts[v]))
  }

  /** The owner of `id` has asked for events since the last turn that went on to the notification loop. */
  ghost predicate AskedSince(states: seq<State>, reqs: seq<Request>, k: nat, id: nat)
    requires k <= |reqs| < |states|
  {
    && k > 0 && !Announces(states[k - 1], reqs[k - 1])
    && ((reqs[k - 1].Fevent? && reqs[k - 1].id == id) || AskedSince(states, reqs, k - 1, id))
  }

  lemma WriteHasNew(s: State, req: Request)
    requires req.Write? && Answer(s, req).Some?
    ensures Answer(s, req).value.0.hasNew
  {
    var s1 := s.(hasNew := true);
    if req.id in s.handles && s.handles[req.id].Producer? && !Swallowed(req.buf) {
      AfterInputsAlike(s1, req.inputs);
    }
  }

  lemma AnnouncesIff(s: State, req: Request)
    requires Inv(s) && !s.hasNew && Answer(s, req).Some?
    ensures HandedOff(Answer(s, req).value.0).hasNew <==> Announces(s, req)
  {
    AnswerHandoff(s, req);
    if req.Write? {
      WriteHasNew(s, req);
    } else if req.OpenHandle? {
      OpenHasNew(s, Answer(s, req).value.0, req.device);
    }
  }

  /** What a request other than a write leaves of a handle whose owner does not ask. */
  ghost predicate Unasked(h: Handle, g: Handle) {
    match h
    case Consumer(pending, needsHandoff, notified, events, vt) =>
      && g.Consumer? && g.notified == notified && g.events == events && g.vt == vt
      && (g.needsHandoff ==> needsHandoff) && (g.pending != [] ==> pending != [])
    case Display(queue, told, listens, _, _) =>
      g.Display? && g.told == told && g.listens == listens && (g.queue != [] ==> queue != [])
    case _ => g == h
  }

  lemma QuietRead(s: State, req: Request, id: nat)
    requires req.Read? && req.id in s.handles && id in s.handles
    ensures var t := ReadHandle(s, req.id, req.size).0;
            t.active == s.active && id in t.handles && Unasked(s.handles[id], t.handles[id])
  {
  }

  /** A request other than a write changes a handle only when its owner reads or asks. */
  lemma QuietAnswer(s: State, req: Request, id: nat)
    requires Inv(s) && !req.Write? && id in s.handles
    ensures var t := Answer(s, req).value.0;
            && t.active == s.active && id in t.handles
            && if req.Fevent? && req.id == id then Owed(t.handles[id], t.active) ==> !Told(t.handles[id])
               else Unasked(s.handles[id], t.handles[id])
  {
    if req.Read? && req.id in s.handles {
      QuietRead(s, req, id);
    }
  }

  lemma QuietNew(s: State, req: Request, id: nat)
    requires !req.Write? && id !in s.handles && id in Answer(s, req).value.0.handles
    ensures !Owed(Answer(s, req).value.0.handles[id], Answer(s, req).value.0.active)
  {
  }

  lemma QuietHandoff(t: State)
    requires !HandedOff(t).hasNew
    ensures HandedOff(t).handles == t.handles && HandedOff(t).active == t.active
  {
    if t.handoffTo.Some? {
      assert HandedVts(t) == {};
    }
  }

  lemma QuietTurn(s: State, req: Request, id: nat)
    requires Inv(s) && Turn(s, req).Some? && !Announces(s, req)
    requires var u := Turn(s, req).value.0; id in u.handles && Owed(u.handles[id], u.active)
    ensures var u := Turn(s, req).value.0;
            if req.Fevent? && req.id == id then !Told(u.handles[id])
            else id in s.handles && Owed(s.handles[id], s.active) && Told(u.handles[id]) == Told(s.handles[id])
  {
    var s0 := s.(hasNew := false);
    assert Inv(s0) by { InvMoves(s, s0); }
    assert Announces(s0, req) <==> Announces(s, req);
    AnnouncesIff(s0, req);
    var t := Answer(s0, req).value.0;
    QuietHandoff(t);
    assert Turn(s, req).value.0 == HandedOff(t);
    if id in s.handles {
      QuietAnswer(s0, req, id);
    } else {
      QuietNew(s0, req, id);
    }
  }

  lemma LoudTurn(s: State, req: Request, id: nat)
    requires Inv(s) && Turn(s, req).Some? && Announces(s, req)
    requires var u := Turn(s, req).value.0; id in u.handles && Owed(u.handles[id], u.active)
    ensures Told(Turn(s, req).value.0.handles[id])
  {
    var s0 := s.(hasNew := false);
    assert Inv(s0) by { InvMoves(s, s0); }
    assert Announces(s0, req) <==> Announces(s, req);
    AnnouncesIff(s0, req);
    NothingLeftDue(HandedOff(Answer(s0, req).value.0), id);
  }

  /**
   Exactly who waits untold: in every run, a consumer that asked for read events and has a handoff or, on the active
   terminal, bytes to read, or a display that asked and has events, has not been told of them if and only if it asked again
   since the daemon last announced anything. Asking clears the mark and announces nothing.
   */
  lemma {:induction false} UntoldIff(states: seq<State>, reqs: seq<Request>, replies: seq<Reply>, k: nat, id: nat)
    requires Run(states, reqs, replies) && k < |states| && id in states[k].handles
    requires Owed(states[k].handles[id], states[k].active)
    ensures !Told(states[k].handles[id]) <==> AskedSince(states, reqs, k, id)
  {
    if k > 0 {
      var s, req := states[k - 1], reqs[k - 1];
      assert Inv(s) by { RunKeepsInv(states, reqs, replies, k - 1); }
      assert StepAt(states, reqs, replies, k - 1);
      if Announces(s, req) {
        LoudTurn(s, req, id);
      } else {
        QuietTurn(s, req, id);
        if !(req.Fevent? && req.id == id) {
          UntoldIff(states, reqs, replies, k - 1, id);
        }
      }
    }
  }

  // ---- Panics ----

  /** The super key after a batch of events. */
  function SuperAfter(superKey: bool, inputs: seq<Input>): bool {
    if inputs == [] then
      superKey
    else
      match inputs[|inputs| - 1]
      case Key(scancode, pressed) =>
        if scancode == 0x5B then pressed else SuperAfter(superKey, inputs[..|inputs| - 1])
      case _ => SuperAfter(superKey, inputs[..|inputs| - 1])
  }

  ghost predicate NoResize(inputs: seq<Input>, n: nat)
    requires n <= |inputs|
  {
    forall j :: 0 <= j < n ==> !inputs[j].Size?
  }

  /** Event `i` selects an existing terminal, and no resize came before it if a display is open. */
  ghost predicate SelectsAt(s: State, inputs: seq<Input>, i: nat)
    requires i < |inputs|
  {
    && inputs[i].Key?
    && var target := KeyTarget(SuperAfter(s.superKey, inputs[..i]), inputs[i].scancode);
    && target.Some? && target.value in s.vts
    && (HasDisplay(s.handles) ==> NoResize(inputs, i))
  }

  ghost predicate Selects(s: State, inputs: seq<Input>) {
    exists i :: 0 <= i < |inputs| && SelectsAt(s, inputs, i)
  }

  lemma SelectsMore(s: State, inputs: seq<Input>)
    requires inputs != []
    ensures Selects(s, inputs) <==> Selects(s, inputs[..|inputs| - 1]) || SelectsAt(s, inputs, |inputs| - 1)
  {
    var n := |inputs| - 1;
    forall i | 0 <= i < n ensures SelectsAt(s, inputs, i) <==> SelectsAt(s, inputs[..n], i) {
      assert inputs[..n][..i] == inputs[..i];
    }
  }

  lemma InputActive(s: State, e: Input)
    requires s.active.Some?
    ensures AfterInput(s, e).Some? && AfterInput(s, e).value.active.Some?
  {
  }

  lemma InputIdle(s: State, e: Input)
    requires s.active.None?
    ensures AfterInput(s, e).None? <==> e.Size? && HasDisplay(s.handles)
    ensures AfterInput(s, e).Some? && AfterInput(s, e).value.active.None? ==>
              AfterInput(s, e).value == s.(superKey := if e.Key? && e.scancode == 0x5B then e.pressed else s.superKey)
    ensures AfterInput(s, e).Some? ==>
              (AfterInput(s, e).value.active.Some? <==>
                 e.Key? && KeyTarget(s.superKey, e.scancode).Some? && KeyTarget(s.superKey, e.scancode).value in s.vts)
  {
  }

  /**
   A batch with nothing active before it: it leaves a terminal active exactly when one of its events selects one in time;
   otherwise it panics on a resize if a display is open, and is only remembered for the super key if not.
   */
  lemma {:induction false} BatchIdle(s: State, inputs: seq<Input>)
    requires s.active.None?
    ensures var r := AfterInputs(s, inputs);
            if Selects(s, inputs) then r.Some? && r.value.active.Some?
            else if HasDisplay(s.handles) && !NoResize(inputs, |inputs|) then r.None?
            else r == Some(s.(superKey := SuperAfter(s.superKey, inputs)))
  {
    if inputs != [] {
      var n := |inputs| - 1;
      var before, e := inputs[..n], inputs[n];
      BatchIdle(s, before);
      SelectsMore(s, inputs);
      if Selects(s, before) {
        InputActive(AfterInputs(s, before).value, e);
      } else if AfterInputs(s, before).Some? {
        InputIdle(AfterInputs(s, before).value, e);
      }
    }
  }

  lemma {:induction false} InputsKeepActive(s: State, inputs: seq<Input>)
    requires s.active.Some?
    ensures AfterInputs(s, inputs).Some? && AfterInputs(s, inputs).value.active.Some?
  {
    if inputs != [] {
      InputsKeepActive(s, inputs[..|inputs| - 1]);
    }
  }

  /** Once a terminal is active no request can make the daemon panic, and one stays active. */
  lemma NeverPanicsOnceActive(s: State, req: Request)
    requires s.active.Some?
    ensures Turn(s, req).Some? && Turn(s, req).value.0.active.Some?
  {
    var s0 := s.(hasNew := false);
    if req.Write? {
      InputsKeepActive(s0.(hasNew := true), req.inputs);
    }
    assert Answer(s0, req).Some? && Answer(s0, req).value.0.active.Some?;
  }

  /** A consumer the notification loop would look at. */
  ghost predicate SomeConsidered(handles: map<nat, Handle>) {
    exists id :: id in handles && Considered(handles[id])
  }

  /** A producer's events and bytes, as opposed to a single byte that is swallowed. */
  ghost predicate Produces(s: State, req: Request) {
    req.Write? && req.id in s.handles && s.handles[req.id].Producer? && !(|req.buf| == 1 && req.buf[0] > 0xf4)
  }

  /** A control write that activates an existing terminal. */
  ghost predicate Activates(s: State, req: Request) {
    && req.Write? && req.id in s.handles && s.handles[req.id].Control?
    && |req.buf| == VT_ACTIVATE_SIZE && req.newVt in s.vts
  }

  /** When a request brings the daemon down. */
  ghost predicate Fatal(s: State, req: Request) {
    && s.active.None?
    && match req
       case OpenHandle(device) =>
         (exists v :: v in s.vts && IsEarly(s.handles, s.vts[v])) && exists id :: Alarmed(s, device, id)
       case Write(_, _, inputs, _) =>
         if Produces(s, req) then !Selects(s, inputs) else !Activates(s, req) && SomeConsidered(s.handles)
       case _ => false
  }

  lemma ProducePanicsIff(s: State, req: Request)
    requires s.active.None? && Produces(s, req)
    ensures Turn(s, req).None? <==> !Selects(s, req.inputs)
  {
    var t := s.(hasNew := true);
    BatchIdle(t, req.inputs);
    forall i | 0 <= i < |req.inputs| ensures SelectsAt(t, req.inputs, i) <==> SelectsAt(s, req.inputs, i) {
    }
    assert s.(hasNew := false).(hasNew := true) == t;
    if Selects(s, req.inputs) {
      assert Answer(s.(hasNew := false), req).Some? && Answer(s.(hasNew := false), req).value.0.active.Some?;
    }
  }

  lemma WritePanicsIff(s: State, req: Request)
    requires s.active.None? && s.handoffTo.None? && req.Write? && !Produces(s, req)
    ensures Turn(s, req).None? <==> !Activates(s, req) && SomeConsidered(s.handles)
  {
    var t := s.(hasNew := true);
    assert s.(hasNew := false).(hasNew := true) == t;
    if Activates(s, req) {
      assert Answer(s.(hasNew := false), req).value.0.active.Some?;
    } else {
      assert Answer(s.(hasNew := false), req).value.0 == t;
      assert NotifyPanics(t) <==> SomeConsidered(s.handles);
    }
  }

  /** Exactly which requests bring the daemon down, for every request and every state of a run. */
  lemma TurnPanicsIff(states: seq<State>, reqs: seq<Request>, replies: seq<Reply>, k: nat, req: Request)
    requires Run(states, reqs, replies) && k < |states|
    ensures Turn(states[k], req).None? <==> Fatal(states[k], req)
  {
    var s := states[k];
    RunKeepsInv(states, reqs, replies, k);
    if s.active.Some? {
      NeverPanicsOnceActive(s, req);
    } else if req.OpenHandle? {
      OpenHandlePanicsIff(s, req.device);
    } else if Produces(s, req) {
      ProducePanicsIff(s, req);
    } else if req.Write? {
      WritePanicsIff(s, req);
    } else {
      OtherNeverPanics(s, req);
    }
  }

  lemma OtherNeverPanics(s: State, req: Request)
    requires s.handoffTo.None? && !req.Write? && !req.OpenHandle?
    ensures Turn(s, req).Some?
  {
    var t := Answer(s.(hasNew := false), req).value.0;
    assert !t.hasNew && t.handoffTo.None?;
  }

  /** Two bytes from a producer before any terminal is active are enough. */
  lemma ProducerBeforeActivationPanics() returns (states: seq<State>, reqs: seq<Request>, replies: seq<Reply>)
    ensures Run(states, reqs, replies) && Turn(states[|reqs|], Write(0, [0, 0], [], 0)).None?
  {
    var s0 := State(map[], 0, 1, map[], false, None, false, None);
    var s1 := s0.(handles := map[0 := Producer], nextId := 1);
    states, reqs, replies := [s0, s1], [OpenProducer], [Value(0)];
    assert StepAt(states, reqs, replies, 0);
    ProducePanicsIff(s1, Write(0, [0, 0], [], 0));
  }

  /** An early display with a terminal, and a consumer on it that asked for events; nothing is active. */
  function EarlyWaiting(): State {
    State(
      map[0 := Display([], false, false, "a", true), 1 := Consumer([], false, false, true, 1)],
      2, 2, map[1 := "a"], false, None, false, None)
  }

  lemma EarlyWaitingReached() returns (states: seq<State>, reqs: seq<Request>, replies: seq<Reply>)
    ensures Run(states, reqs, replies) && states[|reqs|] == EarlyWaiting()
    ensures reqs == [OpenEarly("a"), Read(0, 0), OpenConsumer(Some(1)), Fevent(1, true)]
  {
    var s0 := State(map[], 0, 1, map[], false, None, false, None);
    var s1 := s0.(handles := map[0 := Display([], false, false, "a", true)], nextId := 1);
    var s2 := s1.(vts := map[1 := "a"], nextVt := 2);
    var s3 := s2.(handles := s2.handles[1 := Consumer([], false, false, false, 1)], nextId := 2);
    assert s3.handles[1 := Consumer([], false, false, true, 1)] == EarlyWaiting().handles;
    states := [s0, s1, s2, s3, EarlyWaiting()];
    reqs := [OpenEarly("a"), Read(0, 0), OpenConsumer(Some(1)), Fevent(1, true)];
    replies := [Value(0), Value(1), Value(1), Value(0)];
    assert StepAt(states, reqs, replies, 0) && StepAt(states, reqs, replies, 1);
    assert StepAt(states, reqs, replies, 2) && StepAt(states, reqs, replies, 3);
  }

  /**
   Before that it can: a real display opened while a consumer waits on an early display's
   terminal makes the notification loop read an active terminal that is not there.
   */
  lemma HandoffBeforeActivationPanics() returns (states: seq<State>, reqs: seq<Request>, replies: seq<Reply>)
    ensures Run(states, reqs, replies) && Turn(states[|reqs|], OpenHandle("b")).None?
  {
    states, reqs, replies := EarlyWaitingReached();
    var s := EarlyWaiting();
    var t := Answer(s, OpenHandle("b")).value.0;
    assert s.(hasNew := false) == s;
    assert IsEarly(t.handles, "a") by { assert t.handles[0].Display?; }
    assert 1 in HandedVts(t);
    assert Considered(HandedOff(t).handles[1]);
    assert NotifyPanics(HandedOff(t));
  }

  /**
   Opening a real display panics the daemon exactly when no terminal is active, some
   terminal is on an early display, and a consumer that asked for events is on such a
   terminal or already has something unannounced.
   */
  lemma OpenHandlePanicsIff(s: State, device: string)
    requires Inv(s)
    ensures Turn(s, OpenHandle(device)).None? <==>
              && s.active.None?
              && (exists v :: v in s.vts && IsEarly(s.handles, s.vts[v]))
              && exists id :: Alarmed(s, device, id)
  {
    var s0 := s.(hasNew := false);
    var t := Answer(s0, OpenHandle(device)).value.0;
    InvMoves(s, s0);
    AnswerHandoff(s0, OpenHandle(device));
    OpenHasNew(s, t, device);
    forall id
      ensures id in HandedOff(t).handles && Considered(HandedOff(t).handles[id]) <==> Alarmed(s, device, id)
    {
      OpenConsidered(s, t, device, id);
    }
  }

  /** A consumer the notification loop will look at once the display is opened. */
  ghost predicate Alarmed(s: State, device: string, id: nat) {
    IsConsumer(s, id) && s.handles[id].events && (HandsOff(s, OpenHandle(device), id) || Considered(s.handles[id]))
  }

  lemma OpenHasNew(s: State, t: State, device: string)
    requires t.vts == s.vts && t.handoffTo.Some? && !t.hasNew
    requires forall d :: IsEarly(t.handles, d) <==> IsEarly(s.handles, d)
    ensures HandedOff(t).hasNew <==> exists v :: v in s.vts && IsEarly(s.handles, s.vts[v])
  {
    if v :| v in s.vts && IsEarly(s.handles, s.vts[v]) { assert v in HandedVts(t); }
    if v :| v in HandedVts(t) { assert v in s.vts && IsEarly(s.handles, s.vts[v]); }
  }

  lemma OpenConsidered(s: State, t: State, device: string, id: nat)
    requires t.vts == s.vts && t.handoffTo.Some?
    requires forall d :: IsEarly(t.handles, d) <==> IsEarly(s.handles, d)
    requires forall j :: j in s.handles ==> j in t.handles && t.handles[j] == s.handles[j]
    requires forall j :: j in t.handles && j !in s.handles ==> t.handles[j].Display?
    ensures id in HandedOff(t).handles && Considered(HandedOff(t).handles[id]) <==> Alarmed(s, device, id)
  {
    assert IsConsumer(s, id) && s.handles[id].vt in s.vts ==>
      (s.handles[id].vt in HandedVts(t) <==> IsEarly(s.handles, s.vts[s.handles[id].vt]));
  }

  /** A control write that activates a terminal leaves every handle of its kind. */
  lemma ActivatingTurn(s: State, req: Request)
    requires s.handoffTo.None? && Activates(s, req) && s.active.None?
    ensures Turn(s, req).Some?
    ensures var u := Turn(s, req).value.0; u.active == Some(req.newVt) && u.vts == s.vts && AllAlike(s.handles, u.handles)
  {
    var s1 := s.(hasNew := true);
    assert s.(hasNew := false).(hasNew := true) == s1;
    SwitchedAlike(s1, req.newVt);
    var t := Switched(s1, req.newVt);
    NotifiedAlike(t);
    AlikeTrans(s.handles, t.handles, Notified(t).value.handles);
  }

  lemma ProducingTurn(s: State, req: Request, id: nat)
    requires Inv(s) && Produces(s, req) && req.inputs == [] && IsConsumer(s, id) && s.active == Some(s.handles[id].vt)
    ensures Turn(s, req).Some?
    ensures var u := Turn(s, req).value.0;
            IsConsumer(u, id) && u.active == Some(u.handles[id].vt) && u.handles[id].pending == s.handles[id].pending + req.buf
  {
    NeverPanicsOnceActive(s, req);
    TurnConsumer(s, req, id);
    var u := Turn(s, req).value.0;
    assert u.active == s.active;
    assert Taken(req, Turn(s, req).value.1, id) == [] && [] + u.handles[id].pending == u.handles[id].pending;
  }

  lemma AskingTurn(s: State, id: nat)
    requires Inv(s) && IsConsumer(s, id) && s.handles[id].pending != [] && s.active == Some(s.handles[id].vt)
    ensures Turn(s, Fevent(id, true)).Some?
    ensures var u := Turn(s, Fevent(id, true)).value.0;
            IsConsumer(u, id) && Owed(u.handles[id], u.active) && !u.handles[id].notified
  {
  }

  /** Wherever the consumer of the active terminal is sent bytes, it can ask for events and not be told. */
  lemma AskingUntold(states: seq<State>, reqs: seq<Request>, replies: seq<Reply>, write: Request, id: nat)
    returns (states': seq<State>, reqs': seq<Request>, replies': seq<Reply>)
    requires Run(states, reqs, replies)
    requires var s := states[|reqs|];
             && Produces(s, write) && write.inputs == [] && write.buf != []
             && IsConsumer(s, id) && s.active == Some(s.handles[id].vt)
    ensures Run(states', reqs', replies') && states <= states' && reqs' == reqs + [write, Fevent(id, true)]
    ensures var s := states'[|reqs'|]; IsConsumer(s, id) && Owed(s.handles[id], s.active) && !s.handles[id].notified
  {
    RunKeepsInv(states, reqs, replies, |reqs|);
    ProducingTurn(states[|reqs|], write, id);
    var (t, reply) := Turn(states[|reqs|], write).value;
    RunMore(states, reqs, replies, write, t, reply);
    var ss, rs, ps := states + [t], reqs + [write], replies + [reply];
    RunKeepsInv(ss, rs, ps, |rs|);
    AskingTurn(t, id);
    var (u, last) := Turn(t, Fevent(id, true)).value;
    RunMore(ss, rs, ps, Fevent(id, true), u, last);
    states', reqs', replies' := ss + [u], rs + [Fevent(id, true)], ps + [last];
  }

  /** The same with a control handle and a producer. */
  function EarlyEquipped(): State {
    var s := EarlyWaiting();
    s.(handles := s.handles[2 := Control][3 := Producer], nextId := 4)
  }

  lemma EarlyEquippedReached() returns (states: seq<State>, reqs: seq<Request>, replies: seq<Reply>)
    ensures Run(states, reqs, replies) && states[|reqs|] == EarlyEquipped()
    ensures |reqs| > 1 && reqs[0] == OpenEarly("a") && forall i :: 0 <= i < |reqs| ==> !reqs[i].OpenHandle?
  {
    states, reqs, replies := EarlyWaitingReached();
    var s := EarlyWaiting();
    var a := s.(handles := s.handles[2 := Control], nextId := 3);
    assert Turn(s, OpenControl) == Some((a, Value(2)));
    RunMore(states, reqs, replies, OpenControl, a, Value(2));
    states, reqs, replies := states + [a], reqs + [OpenControl], replies + [Value(2)];
    var b := EarlyEquipped();
    assert Turn(a, OpenProducer) == Some((b, Value(3)));
    RunMore(states, reqs, replies, OpenProducer, b, Value(3));
    states, reqs, replies := states + [b], reqs + [OpenProducer], replies + [Value(3)];
  }

  const ACTIVATE_FIRST := Write(2, [0, 0, 0, 0, 0, 0, 0, 0], [], 1)

  /** And there is such a run: the early display's terminal made active, with a consumer on it and a producer. */
  lemma ActiveWaitingReached() returns (states: seq<State>, reqs: seq<Request>, replies: seq<Reply>)
    ensures Run(states, reqs, replies) && |reqs| > 1 && reqs[0] == OpenEarly("a") && forall i :: 0 <= i < |reqs| ==> !reqs[i].OpenHandle?
    ensures var s := states[|reqs|]; Produces(s, Write(3, [0, 0], [], 0)) && IsConsumer(s, 1) && s.active == Some(s.handles[1].vt)
    ensures var s := states[|reqs|];
            && 0 in s.handles && s.handles[0].Display? && s.handles[0].early
            && s.active.Some? && s.active.value in s.vts && s.vts[s.active.value] == s.handles[0].device
  {
    states, reqs, replies := EarlyEquippedReached();
    var b := EarlyEquipped();
    ActivatingTurn(b, ACTIVATE_FIRST);
    var (c, reply) := Turn(b, ACTIVATE_FIRST).value;
    assert Alike(b.handles[0], c.handles[0]) && Alike(b.handles[1], c.handles[1]) && Alike(b.handles[3], c.handles[3]);
    RunMore(states, reqs, replies, ACTIVATE_FIRST, c, reply);
    states, reqs, replies := states + [c], reqs + [ACTIVATE_FIRST], replies + [reply];
  }
}
