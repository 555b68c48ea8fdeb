/** The input daemon as an object whose methods mutate its tables, proved against the turns of module Inputd. */
module InputdDriver {
  import opened Bits
  import opened Common
  import opened Inputd
  import opened InputdRuns
  import opened InputdDisplays

  class InputScheme {
    var handles: map<nat, Handle>
    var nextId: nat
    var nextVt: nat
    var vts: map<nat, string>
    var superKey: bool
    var active: Option<nat>
    var hasNew: bool
    var handoffTo: Option<string>
    /** The turns so far. */
    ghost var states: seq<Inputd.State>
    ghost var reqs: seq<Request>
    ghost var replies: seq<Reply>

    /** The object stands at the end of a run of the daemon. */
    ghost predicate Valid()
      reads this
    {
      Run(states, reqs, replies) && states[|reqs|] == State()
    }

    ghost function State(): Inputd.State
      reads this
    {
      Inputd.State(handles, nextId, nextVt, vts, superKey, active, hasNew, handoffTo)
    }

    constructor ()
      ensures Valid() && reqs == []
    {
      handles, nextId, nextVt, vts := map[], 0, 1, map[];
      superKey, active, hasNew, handoffTo := false, None, false, None;
      states, reqs, replies := [Inputd.State(map[], 0, 1, map[], false, None, false, None)], [], [];
    }

    /** Visits every handle once and replaces it. */
    method UpdateAll(f: Handle -> Handle)
      modifies this`handles
      ensures handles == map id | id in old(handles) :: f(old(handles)[id])
    {
      var todo := handles.Keys;
      while todo != {}
        invariant todo <= handles.Keys == old(handles).Keys
        invariant forall id :: id in handles ==> handles[id] == if id in todo then old(handles)[id] else f(old(handles)[id])
        decreases todo
      {
        var id :| id in todo;
        handles := handles[id := f(handles[id])];
        todo := todo - {id};
      }
    }

    /** Tells the displays concerned and makes the terminal active; unknown terminals are ignored. */
    method SwitchVt(newActive: nat)
      modifies this`handles, this`active
      ensures State() == Switched(old(State()), newActive)
      ensures active == if newActive in vts then Some(newActive) else old(active)
      ensures handles.Keys == old(handles.Keys)
      ensures forall id :: id in handles ==>
                if handles[id].Display?
                then Gains(old(handles[id]), handles[id], SwitchEvents(vts, old(active), newActive, handles[id].device))
                else handles[id] == old(handles[id])
    {
      ghost var was := State();
      forall id | id in handles ensures id in Switched(was, newActive).handles &&
                                        var h, g := handles[id], Switched(was, newActive).handles[id];
                                        if h.Display? then Gains(h, g, SwitchEvents(vts, active, newActive, h.device)) else g == h
      {
        SwitchGains(was, newActive, id);
      }
      if active == Some(newActive) {
        return;
      }
      if newActive !in vts {
        return;
      }
      var known, from := vts, active;
      UpdateAll(h => if newActive in known then SwitchHandle(h, known, from, newActive) else h);
      active := Some(newActive);
    }

    /** One input event; false stands for a panic. */
    method HandleInput(e: Input) returns (ok: bool)
      modifies this`handles, this`active, this`superKey
      ensures ok <==> AfterInput(old(State()), e).Some?
      ensures ok ==> State() == AfterInput(old(State()), e).value
    {
      match e
      case Key(scancode, pressed) =>
        var target := KeyTarget(superKey, scancode);
        if target.Some? {
          SwitchVt(target.value);
        } else if scancode == 0x5B {
          superKey := pressed;
        }
        return true;
      case Size(width, height) =>
        if active.None? {
          return !HasDisplay(handles);
        }
        var known, vt := vts, active.value;
        UpdateAll(h => ResizeHandle(h, known, vt, width, height));
        return true;
      case Other => return true;
    }

    /** A producer's write: switch on its key events, then route the whole buffer to the active terminal. */
    method Produce(buf: seq<byte>, inputs: seq<Input>) returns (ok: bool)
      modifies this`handles, this`active, this`superKey
      ensures ok <==> Produced(old(State()), buf, inputs).Some?
      ensures ok ==> State() == Produced(old(State()), buf, inputs).value
    {
      if Swallowed(buf) {
        return true;
      }
      var i := 0;
      assert inputs[..0] == [];
      while i < |inputs|
        invariant 0 <= i <= |inputs| && AfterInputs(old(State()), inputs[..i]) == Some(State())
      {
        assert inputs[..i + 1][..i] == inputs[..i];
        ok := HandleInput(inputs[i]);
        if !ok {
          PanicStays(old(State()), inputs, i + 1);
          return;
        }
        i := i + 1;
      }
      assert inputs[..|inputs|] == inputs;
      if active.None? {
        return false;
      }
      var vt := active.value;
      UpdateAll(h => RouteHandle(h, vt, buf));
      return true;
    }

    method InsertHandle(h: Handle) returns (reply: Reply)
      modifies this`handles, this`nextId
      ensures Some((State(), reply)) == Opened(old(State()), h)
    {
      var fd := nextId;
      nextId := nextId + 1;
      handles := handles[fd := h];
      return Value(fd);
    }

    method Open(req: Request) returns (reply: Reply)
      requires IsOpen(req)
      modifies this`handles, this`nextId, this`handoffTo
      ensures Answer(old(State()), req) == Some((State(), reply))
    {
      if req.OpenProducer? {
        reply := InsertHandle(Producer);
      } else if req.OpenConsumer? && req.target.Some? {
        reply := InsertHandle(Consumer([], false, false, false, req.target.value));
      } else if req.OpenEarly? {
        reply := InsertHandle(Display([], false, false, req.device, true));
      } else if req.OpenHandle? {
        handoffTo := Some(req.device);
        var queue := if active.Some? then [VtEventOf(Activate, active.value)] else [];
        reply := InsertHandle(Display(queue, false, false, req.device, false));
      } else if req.OpenControl? {
        reply := InsertHandle(Control);
      } else {
        nextId := nextId + 1;
        reply := EINVAL;
      }
    }

    /** Reads of a consumer drain its bytes or report a handoff; reads of a display drain its events or make a terminal. */
    method ReadFrom(id: nat, size: nat) returns (reply: Reply)
      requires id in handles
      modifies this`handles, this`vts, this`nextVt
      ensures (State(), reply) == ReadHandle(old(State()), id, size)
    {
      match handles[id]
      case Consumer(pending, needsHandoff, _, _, _) =>
        if needsHandoff {
          handles := handles[id := handles[id].(needsHandoff := false)];
          return ESTALE;
        }
        var copy := Min(|pending|, size);
        handles := handles[id := handles[id].(pending := pending[copy..])];
        return Data(pending[..copy]);
      case Display(queue, _, _, device, _) =>
        if size == 0 {
          var vt := nextVt;
          nextVt := nextVt + 1;
          vts := vts[vt := device];
          return Value(vt);
        } else if size % VT_EVENT_SIZE == 0 {
          var copy := Min(|queue|, size / VT_EVENT_SIZE);
          handles := handles[id := handles[id].(queue := queue[copy..])];
          return Events(queue[..copy]);
        }
        return EINVAL;
      case Producer => return EINVAL;
      case Control => return EINVAL;
    }

    /** `None` stands for a panic. */
    method WriteTo(id: nat, buf: seq<byte>, inputs: seq<Input>, newVt: nat) returns (reply: Option<Reply>)
      modifies this`handles, this`active, this`superKey, this`hasNew
      ensures match Answer(old(State()), Write(id, buf, inputs, newVt))
              case None => reply == None
              case Some((t, r)) => reply == Some(r) && State() == t
    {
      hasNew := true;
      if id !in handles {
        return Some(EINVAL);
      }
      match handles[id]
      case Control =>
        if |buf| != VT_ACTIVATE_SIZE {
          return Some(EINVAL);
        }
        SwitchVt(newVt);
        return Some(Value(|buf|));
      case Producer =>
        var ok := Produce(buf, inputs);
        return if ok then Some(Value(|buf|)) else None;
      case _ => return Some(EINVAL);
    }

    /** The pending handoff, if any: terminals of early displays move, their consumers are marked. */
    method PerformHandoff()
      modifies this`handles, this`vts, this`hasNew, this`handoffTo
      ensures State() == HandedOff(old(State()))
    {
      if handoffTo.None? {
        return;
      }
      var display := handoffTo.value;
      handoffTo := None;
      var handed := set v | v in vts && IsEarly(handles, vts[v]);
      vts := map v | v in vts :: if v in handed then display else vts[v];
      if handed != {} {
        hasNew := true;
      }
      UpdateAll(h => HandoffHandle(h, handed));
    }

    /** Sends the read events that are due, each to its handle; `ok` is false for a panic. */
    method Notify() returns (ok: bool, posted: set<nat>)
      modifies this`handles
      ensures ok <==> Notified(old(State())).Some?
      ensures ok ==> State() == Notified(old(State())).value
      ensures ok ==> forall id :: id in posted <==> hasNew && id in old(handles) && Due(old(handles)[id], active)
    {
      posted := {};
      if !hasNew {
        return true, {};
      }
      if active.None? && exists id :: id in handles && Considered(handles[id]) {
        return false, {};
      }
      var todo := handles.Keys;
      while todo != {}
        invariant todo <= handles.Keys == old(handles).Keys
        invariant forall id :: id in handles ==>
                    handles[id] == if id in todo then old(handles)[id] else NotifyHandle(old(handles)[id], active)
        invariant forall id :: id in posted <==> id in old(handles) && id !in todo && Due(old(handles)[id], active)
        decreases todo
      {
        var id :| id in todo;
        if Due(handles[id], active) {
          posted := posted + {id};
          handles := handles[id := NotifyHandle(handles[id], active)];
        }
        todo := todo - {id};
      }
      return true, posted;
    }

    method SetEvents(id: nat, read: bool) returns (reply: Reply)
      modifies this`handles
      ensures (State(), reply) == FeventHandle(old(State()), id, read)
    {
      if id !in handles {
        return EINVAL;
      }
      match handles[id]
      case Consumer(_, _, _, _, _) =>
        handles := handles[id := handles[id].(events := read, notified := false)];
        return Value(0);
      case Display(_, _, _, _, _) =>
        handles := handles[id := handles[id].(listens := read, told := false)];
        return Value(0);
      case _ => return EINVAL;
    }

    /** The answer to a request; `None` stands for a panic. */
    method AnswerTo(req: Request) returns (reply: Option<Reply>)
      modifies this`handles, this`nextId, this`nextVt, this`vts, this`superKey, this`active, this`hasNew, this`handoffTo
      ensures match Answer(old(State()), req)
              case None => reply == None
              case Some((t, r)) => reply == Some(r) && State() == t
    {
      match req {
        case Write(id, buf, inputs, newVt) =>
          reply := WriteTo(id, buf, inputs, newVt);
        case Read(id, size) =>
          if id in handles {
            var r := ReadFrom(id, size);
            reply := Some(r);
          } else {
            reply := Some(EINVAL);
          }
        case Fevent(id, read) =>
          var r := SetEvents(id, read);
          reply := Some(r);
        case Close => reply := Some(Value(0));
        case _ =>
          var r := Open(req);
          reply := Some(r);
      }
    }

    /** One turn of the daemon's loop; `None` stands for a panic. */
    method TakeTurn(req: Request) returns (reply: Option<Reply>, posted: set<nat>)
      modifies this`handles, this`nextId, this`nextVt, this`vts, this`superKey, this`active, this`hasNew, this`handoffTo
      ensures match Turn(old(State()), req)
              case None => reply == None
              case Some((u, r)) => reply == Some(r) && State() == u
      ensures reply.Some? ==> posted == PostedBy(old(State()), req)
    {
      hasNew, posted := false, {};
      reply := AnswerTo(req);
      if reply.None? {
        return;
      }
      PerformHandoff();
      var ok;
      ok, posted := Notify();
      if !ok {
        reply := None;
      }
    }

    /** A turn goes on with the object's run, or brings the daemon down exactly when the request is fatal. */
    method Serve(req: Request) returns (reply: Option<Reply>, posted: set<nat>)
      requires Valid()
      modifies this
      ensures reply.None? <==> Fatal(old(State()), req)
      ensures reply.Some? ==> Valid() && reqs == old(reqs) + [req] && replies == old(replies) + [reply.value]
      ensures reply.Some? ==> posted == PostedBy(old(State()), req)
    {
      TurnPanicsIff(states, reqs, replies, |reqs|, req);
      reply, posted := TakeTurn(req);
      if reply.Some? {
        RunMore(states, reqs, replies, req, State(), reply.value);
        states, reqs, replies := states + [State()], reqs + [req], replies + [reply.value];
      }
    }
  }

  /** Once an event of a batch has panicked, the batch has. */
  lemma {:induction false} PanicStays(s: Inputd.State, inputs: seq<Input>, n: nat)
    requires n <= |inputs| && AfterInputs(s, inputs[..n]).None?
    ensures AfterInputs(s, inputs).None?
    decreases |inputs|
  {
    if n < |inputs| {
      var m := |inputs| - 1;
      assert inputs[..m][..n] == inputs[..n];
      PanicStays(s, inputs[..m], n);
    } else {
      assert inputs[..n] == inputs;
    }
  }
}
