/** Read events of the input daemon: who has asked for them, and who is sent one, in every run. */
module InputdNotices {
  import opened Common
  import opened Inputd
  import opened InputdRuns
  import opened InputdDisplays

  /** The owner is to be told. */
  ghost predicate Asks(h: Handle) {
    match h
    case Consumer(_, _, _, events, _) => events
    case Display(_, _, listens, _, _) => listens
    case _ => false
  }

  /** What the request says, if it is one of the owner of `id`, about wanting events. */
  function Asked(req: Request, id: nat): Option<bool> {
    if req.Fevent? && req.id == id then Some(req.read) else None
  }

  // ---- What answering a request does to one handle ----

  lemma InputKeepsOthers(s: State, e: Input, id: nat)
    requires id in s.handles && !s.handles[id].Display? && AfterInput(s, e).Some?
    ensures id in AfterInput(s, e).value.handles && AfterInput(s, e).value.handles[id] == s.handles[id]
  {
    if e.Key? && KeyTarget(s.superKey, e.scancode).Some? {
      SwitchGains(s, KeyTarget(s.superKey, e.scancode).value, id);
    }
  }

  lemma {:induction false} BatchKeepsOthers(s: State, inputs: seq<Input>, id: nat)
    requires id in s.handles && !s.handles[id].Display? && AfterInputs(s, inputs).Some?
    ensures id in AfterInputs(s, inputs).value.handles && AfterInputs(s, inputs).value.handles[id] == s.handles[id]
  {
    if inputs != [] {
      var n := |inputs| - 1;
      BatchKeepsOthers(s, inputs[..n], id);
      InputKeepsOthers(AfterInputs(s, inputs[..n]).value, inputs[n], id);
    }
  }

  /** Something new has come to the handle: bytes or a handoff to a consumer, events to a display. */
  ghost predicate Refreshed(s: State, req: Request, after: Option<nat>, id: nat)
    requires id in s.handles
  {
    match s.handles[id]
    case Consumer(_, _, _, _, vt) => (Produces(s, req) && after == Some(vt)) || HandsOff(s, req, id)
    case Display(_, _, _, _, _) => TurnEvents(s, req, id) != []
    case _ => false
  }

  /** What is left of a handle's marks: `g` after the request, `h` before. */
  ghost predicate Marked(h: Handle, g: Handle, asked: Option<bool>, refreshed: bool) {
    match h
    case Consumer(_, _, notified, events, _) =>
      && g.Consumer? && g.events == (if asked.Some? then asked.value else events)
      && g.notified == (notified && asked.None? && !refreshed)
    case Display(_, told, listens, _, _) =>
      && g.Display? && g.listens == (if asked.Some? then asked.value else listens)
      && g.told == (told && asked.None? && !refreshed)
    case _ => g == h
  }

  lemma WriteMarks(s: State, req: Request, id: nat)
    requires req.Write? && id in s.handles && Answer(s, req).Some?
    ensures var t := Answer(s, req).value.0;
            id in t.handles && Marked(s.handles[id], t.handles[id], None, Refreshed(s, req, t.active, id))
  {
    var s1 := s.(hasNew := true);
    if s.handles[id].Display? {
      WriteGains(s, req, id);
    } else if req.id in s.handles && s.handles[req.id].Control? {
      SwitchGains(s1, req.newVt, id);
    } else if Produces(s, req) {
      BatchKeepsOthers(s1, req.inputs, id);
    }
  }

  lemma ReadMarks(s: State, req: Request, id: nat)
    requires req.Read? && req.id in s.handles && id in s.handles
    ensures var t := ReadHandle(s, req.id, req.size).0; id in t.handles && Marked(s.handles[id], t.handles[id], None, false)
  {
  }

  /** Marks after the request is answered; a handoff that it asks for is still to come. */
  lemma AnswerMarks(s: State, req: Request, id: nat)
    requires Inv(s) && id in s.handles && Answer(s, req).Some?
    ensures var t := Answer(s, req).value.0;
            && id in t.handles
            && Marked(s.handles[id], t.handles[id], Asked(req, id), Refreshed(s, req, t.active, id) && !HandsOff(s, req, id))
  {
    if req.Write? {
      WriteMarks(s, req, id);
    } else if req.Read? && req.id in s.handles {
      ReadMarks(s, req, id);
    } else {
      OtherMarks(s, req, id);
    }
  }

  lemma OtherMarks(s: State, req: Request, id: nat)
    requires Inv(s) && id in s.handles && !req.Write? && (req.Read? ==> req.id !in s.handles)
    ensures Answer(s, req).Some? && id in Answer(s, req).value.0.handles
    ensures Marked(s.handles[id], Answer(s, req).value.0.handles[id], Asked(req, id), false)
  {
    if req.Fevent? {
      FeventMarks(s, req, id);
    } else {
      assert Answer(s, req).value.0.handles[id] == s.handles[id];
    }
  }

  lemma FeventMarks(s: State, req: Request, id: nat)
    requires id in s.handles && req.Fevent?
    ensures var t := FeventHandle(s, req.id, req.read).0;
            id in t.handles && Marked(s.handles[id], t.handles[id], Asked(req, id), false)
  {
  }

  lemma HandoffMarks(s: State, req: Request, id: nat)
    requires Inv(s) && id in s.handles && Answer(s, req).Some?
    ensures var t := Answer(s, req).value.0;
            && id in HandedOff(t).handles && HandedOff(t).active == t.active
            && Marked(s.handles[id], HandedOff(t).handles[id], Asked(req, id), Refreshed(s, req, t.active, id))
  {
    AnswerMarks(s, req, id);
    AnswerHandoff(s, req);
    var t := Answer(s, req).value.0;
    if IsConsumer(s, id) {
      AnswerConsumer(s, req, id);
      HandoffSeen(s, t, req, id);
    }
  }

  // ---- One turn ----

  /** Whom a turn sends a read event: with everything announced, exactly those that asked and have something, and were not told or have something new. */
  lemma PostedIff(s: State, req: Request, id: nat)
    requires Inv(s) && id in s.handles && Turn(s, req).Some?
    ensures var u := Turn(s, req).value.0;
            && id in u.handles
            && (id in PostedBy(s, req) <==>
                  && Announces(s, req) && Owed(u.handles[id], u.active)
                  && (!Told(s.handles[id]) || Refreshed(s, req, u.active, id)))
  {
    var s0 := s.(hasNew := false);
    assert Inv(s0) by { InvMoves(s, s0); }
    assert Announces(s0, req) <==> Announces(s, req);
    AnnouncesIff(s0, req);
    HandoffMarks(s0, req, id);
    RefreshedSame(s, req, Answer(s0, req).value.0.active, id);
  }

  lemma RefreshedSame(s: State, req: Request, after: Option<nat>, id: nat)
    requires id in s.handles
    ensures Refreshed(s.(hasNew := false), req, after, id) <==> Refreshed(s, req, after, id)
  {
    if s.handles[id].Display? {
      RequestIgnoresNew(s, req, s.handles[id].device);
    }
  }

  /** A handle opened in a turn is not sent an event in it. */
  lemma NewNotPosted(s: State, req: Request, id: nat)
    requires Inv(s) && id !in s.handles && Turn(s, req).Some?
    ensures id !in PostedBy(s, req)
  {
    var s0 := s.(hasNew := false);
    assert Inv(s0) by { InvMoves(s, s0); }
    AnswerOpens(s0, req, id);
  }

  lemma TurnAsks(s: State, req: Request, id: nat)
    requires Inv(s) && id in s.handles && Turn(s, req).Some?
    ensures var u := Turn(s, req).value.0;
            && id in u.handles && (s.handles[id].Consumer? || s.handles[id].Display? <==> u.handles[id].Consumer? || u.handles[id].Display?)
            && (s.handles[id].Consumer? || s.handles[id].Display? ==>
                  (Asks(u.handles[id]) <==> if Asked(req, id).Some? then Asked(req, id).value else Asks(s.handles[id])))
  {
    var s0 := s.(hasNew := false);
    assert Inv(s0) by { InvMoves(s, s0); }
    HandoffMarks(s0, req, id);
  }

  // ---- Replies ----

  /** What each request on a handle is answered with, besides a consumer's reads. */
  lemma TurnReplies(s: State, req: Request)
    requires Turn(s, req).Some? && (req.Read? || req.Write? || req.Fevent?)
    ensures var reply := Turn(s, req).value.1;
            if req.id !in s.handles then reply.EINVAL?
            else
              match s.handles[req.id]
              case Consumer(_, _, _, _, _) =>
                if req.Write? then reply.EINVAL? else if req.Fevent? then reply == Value(0) else reply.ESTALE? || reply.Data?
              case Display(queue, _, _, _, _) =>
                if req.Write? then reply.EINVAL?
                else if req.Fevent? then reply == Value(0)
                else if req.size == 0 then reply == Value(s.nextVt)
                else if req.size % 32 != 0 then reply.EINVAL?
                else reply.Events? && reply.list <= queue && (|reply.list| * 32 == req.size || (reply.list == queue && |queue| * 32 <= req.size))
              case Control =>
                if req.Write? && |req.buf| == 8 then reply == Value(8) else reply.EINVAL?
              case Producer =>
                if req.Write? then reply == Value(|req.buf|) else reply.EINVAL?
  {
  }

  /** Opening what there is not, or a consumer of no terminal, is an error; closing anything is not, and changes nothing. */
  lemma OtherReplies(s: State, req: Request)
    requires Inv(s) && Turn(s, req).Some? && (req.OpenOther? || req == OpenConsumer(None) || req.Close?)
    ensures var (u, reply) := Turn(s, req).value;
            && (if req.Close? then reply == Value(0) else reply.EINVAL?)
            && u.handles == s.handles && u.vts == s.vts && u.active == s.active
  {
  }

  /** An empty read of a display makes a terminal on it, under a number no terminal has had. */
  lemma NewTerminal(s: State, id: nat)
    requires Inv(s) && IsDisplay(s, id)
    ensures Turn(s, Read(id, 0)).Some?
    ensures var (u, reply) := Turn(s, Read(id, 0)).value;
            && reply == Value(s.nextVt) && s.nextVt !in s.vts && u.nextVt > s.nextVt
            && u.vts == s.vts[s.nextVt := s.handles[id].device] && u.handles == s.handles && u.active == s.active
  {
  }

  // ---- Runs ----

  /** What the owner of `id` said last, in the first `k` turns, about wanting events. */
  ghost predicate LastAsked(states: seq<State>, reqs: seq<Request>, k: nat, id: nat)
    requires k <= |reqs| < |states|
  {
    && k > 0
    && var asked := Asked(reqs[k - 1], id);
       if id in states[k - 1].handles && asked.Some? then asked.value else LastAsked(states, reqs, k - 1, id)
  }

  /** In every run a consumer or display is to be told exactly if it asked to be when it last said anything about it. */
  lemma {:induction false} AskedLast(states: seq<State>, reqs: seq<Request>, replies: seq<Reply>, k: nat, id: nat)
    requires Run(states, reqs, replies) && k < |states|
    ensures id in states[k].handles && (states[k].handles[id].Consumer? || states[k].handles[id].Display?) ==>
              (Asks(states[k].handles[id]) <==> LastAsked(states, reqs, k, id))
    ensures id !in states[k].handles ==> !LastAsked(states, reqs, k, id)
  {
    if k > 0 {
      var s, req := states[k - 1], reqs[k - 1];
      AskedLast(states, reqs, replies, k - 1, id);
      assert Inv(s) by { RunKeepsInv(states, reqs, replies, k - 1); }
      assert Turn(s, req) == Some((states[k], replies[k - 1])) by { assert StepAt(states, reqs, replies, k - 1); }
      if id in s.handles {
        TurnAsks(s, req, id);
      } else {
        TurnOpens(s, req, id);
      }
    }
  }
}
