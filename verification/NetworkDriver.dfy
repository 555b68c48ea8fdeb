/** The scheme as the driver holds it; `steps` records the run it has made, so every statement about runs is about the object. */
module NetworkDriver {
  import opened Bits
  import opened Common
  import opened NetworkScheme

  /** The requests a run has served. */
  ghost function Requests(steps: seq<Step>): seq<Request> {
    if steps == [] then
      []
    else
      var n := |steps| - 1;
      Requests(steps[..n]) + if steps[n].Serve? then [steps[n].request] else []
  }

  /** One run goes on from another, serving the given requests, and is quiet if `quiet` and the other was. */
  ghost predicate Continues(mac: seq<byte>, was: seq<Step>, now: seq<Step>, served: seq<Request>, quiet: bool) {
    was <= now && Requests(now) == Requests(was) + served && (quiet && Quiet(mac, was) ==> Quiet(mac, now))
  }

  lemma ContinuesStep(mac: seq<byte>, was: seq<Step>, now: seq<Step>, served: seq<Request>, quiet: bool, step: Step)
    requires Continues(mac, was, now, served, quiet) && !step.Serve?
    requires quiet && step.Arrive? ==> Exec(mac, now).phase.Idle?
    ensures Continues(mac, was, now + [step], served, quiet)
  {
    assert (now + [step])[..|now|] == now;
  }

  lemma ContinuesServe(mac: seq<byte>, was: seq<Step>, now: seq<Step>, served: seq<Request>, quiet: bool, request: Request)
    requires Continues(mac, was, now, served, quiet)
    ensures Continues(mac, was, now + [Serve(request)], served + [request], quiet)
  {
    assert (now + [Serve(request)])[..|now|] == now;
  }

  lemma ContinuesTrans(mac: seq<byte>, a: seq<Step>, b: seq<Step>, c: seq<Step>, first: seq<Request>, second: seq<Request>,
                       quiet: bool)
    requires Continues(mac, a, b, first, quiet) && Continues(mac, b, c, second, quiet)
    ensures Continues(mac, a, c, first + second, quiet)
  {
  }

  lemma ContinuesPrefix(mac: seq<byte>, a: seq<Step>, b: seq<Step>, c: seq<Step>, requests: seq<Request>, k: nat, quiet: bool)
    requires k < |requests|
    requires Continues(mac, a, b, requests[..k], quiet) && Continues(mac, b, c, [], quiet)
    ensures Continues(mac, a, c + [Serve(requests[k])], requests[..k + 1], quiet)
  {
    ContinuesTrans(mac, a, b, c, requests[..k], [], quiet);
    assert requests[..k] + [] == requests[..k];
    ContinuesServe(mac, a, c, requests[..k], quiet, requests[k]);
    assert requests[..k] + [requests[k]] == requests[..k + 1];
  }

  class NetScheme {
    const mac: seq<byte>
    var handles: map<nat, Handle>
    var nextId: nat
    var rx: seq<Incoming>
    var blocked: seq<CallRequest>
    var answered: seq<CallRequest>
    var replies: seq<Reply>
    var calls: nat
    var alive: bool
    ghost var steps: seq<Step>
    ghost var state: State

    ghost predicate Valid()
      reads this
    {
      && state == Exec(mac, steps) && state.device == Device(handles, nextId, rx, mac) && state.blocked == blocked
      && state.answered == answered && state.replies == replies && |state.taken| == calls
      && (state.phase.Dead? <==> !alive)
    }

    constructor (mac: seq<byte>)
      ensures Valid() && this.mac == mac && alive && steps == [] && blocked == [] && answered == []
    {
      this.mac := mac;
      handles, nextId, rx, blocked, answered, replies, calls, alive := map[], 0, [], [], [], [], 0, true;
      steps, state := [], Start(mac);
    }

    ghost method Record(step: Step)
      requires state == Exec(mac, steps)
      modifies `steps, `state
      ensures steps == old(steps) + [step] && state == Exec(mac, steps) == Next(old(state), step)
    {
      ExecNext(mac, steps, step);
      steps, state := steps + [step], Next(state, step);
    }

    /** One call of the scheme: `xopen`, `read`, `write`, `close` and the calls that only look at the handle. */
    method HandleCall(op: Op) returns (out: Outcome)
      modifies `handles, `nextId, `rx
      ensures (Device(handles, nextId, rx, mac), out) == Dispatch(old(Device(handles, nextId, rx, mac)), op)
    {
      match op
      case Open(uid, path) =>
        if uid != 0 {
          return Answered(Failed(EACCES));
        }
        if path.OtherPath? {
          return Answered(Failed(EINVAL));
        }
        nextId := nextId + 1;
        handles := handles[nextId := if path.DataPath? then Data else Mac];
        out := Answered(Opened(nextId));
      case Read(h, length, offset, nonblock) =>
        if h !in handles {
          return Answered(Failed(EBADF));
        }
        if handles[h].Mac? {
          if offset > |mac| {
            return Panics;
          }
          var data := mac[offset..];
          var i := Min(length, |data|);
          assert data[..i] == mac[offset..offset + i];
          return Answered(Address(data[..i]));
        }
        if rx == [] {
          return if nonblock then Answered(Failed(EWOULDBLOCK)) else Blocks;
        }
        if rx[0].Fatal? {
          return Panics;
        }
        out := Answered(TakePacket(rx[0], length));
        rx := rx[1..];
      case Write(h, written) =>
        if h !in handles {
          return Answered(Failed(EBADF));
        }
        if handles[h].Mac? {
          return Answered(Failed(EINVAL));
        }
        out := Answered(if written.Success? then Done(written.value) else Failed(Adapter(written.error)));
      case Query(h) =>
        out := Answered(if h in handles then Done(0) else Failed(EBADF));
      case Close(h) =>
        if h !in handles {
          return Answered(Failed(EBADF));
        }
        handles := handles - {h};
        out := Answered(Done(0));
    }

    method ReceiveOne(incoming: Incoming)
      requires Valid()
      modifies `rx, `steps, `state
      ensures Valid() && state.phase == old(state.phase) && rx == old(rx) + [incoming]
      ensures steps == old(steps) + [Arrive(incoming)]
    {
      rx := rx + [incoming];
      Record(Arrive(incoming));
    }

    /** What the hardware receives; between ticks, or during one. */
    method Receive(more: seq<Incoming>)
      requires Valid()
      modifies `rx, `steps, `state
      ensures Valid() && state.phase == old(state.phase) && rx == old(rx) + more
      ensures Continues(mac, old(steps), steps, [], more == [] || state.phase.Idle?)
    {
      ghost var quiet := more == [] || state.phase.Idle?;
      for k := 0 to |more|
        invariant Valid() && state.phase == old(state.phase) && rx == old(rx) + more[..k]
        invariant Continues(mac, old(steps), steps, [], quiet)
      {
        ContinuesStep(mac, old(steps), steps, [], quiet, Arrive(more[k]));
        assert more[..k] + [more[k]] == more[..k + 1];
        ReceiveOne(more[k]);
      }
    }

    /** Tries the `i`-th blocked call again; it is removed if it could be answered. */
    method ScanOne(i: nat) returns (next: nat)
      requires Valid() && state.phase == Scanning(i) && i < |blocked|
      modifies this
      ensures Valid() && steps == old(steps) + [Scan] && next <= |blocked| && |blocked| - next < |old(blocked)| - i
      ensures alive ==> state.phase == Scanning(next)
    {
      Record(Scan);
      var out := HandleCall(blocked[i].op);
      next := i;
      match out {
        case Answered(reply) =>
          answered, replies := answered + [blocked[i]], replies + [reply];
          blocked := Remove(blocked, i);
        case Blocks =>
          next := i + 1;
        case Panics =>
          blocked := Remove(blocked, i);
          alive := false;
      }
    }

    /** Tries every blocked call again, in order, unless the process dies on one. */
    method ScanBlocked(arrivals: nat -> seq<Incoming>, ghost quiet: bool)
      requires Valid() && state.phase == Scanning(0)
      requires quiet ==> forall k :: arrivals(k) == []
      modifies this
      ensures Valid() && (alive ==> state.phase == Serving && Continues(mac, old(steps), steps, [], quiet))
    {
      var i: nat := 0;
      var turn := 0;
      while i < |blocked| && alive
        invariant i <= |blocked| && Valid() && (alive ==> state.phase == Scanning(i))
        invariant Continues(mac, old(steps), steps, [], quiet)
        decreases |blocked| - i
      {
        ghost var before := steps;
        Receive(arrivals(turn));
        turn := turn + 1;
        ContinuesTrans(mac, old(steps), before, steps, [], [], quiet);
        ContinuesStep(mac, old(steps), steps, [], quiet, Scan);
        i := ScanOne(i);
      }
      if alive {
        ContinuesStep(mac, old(steps), steps, [], quiet, Scan);
        Record(Scan);
      }
    }

    /** The position of the first blocked call with the id, or the length. */
    method FindBlocked(id: nat) returns (i: nat)
      ensures i == Position(blocked, id)
    {
      i := 0;
      while i < |blocked| && blocked[i].id != id
        invariant i <= |blocked| && forall j :: 0 <= j < i ==> blocked[j].id != id
      {
        i := i + 1;
      }
    }

    method Cancel(id: nat)
      requires Valid() && state.phase == Serving
      modifies this
      ensures Valid() && steps == old(steps) + [Serve(Cancellation(id))] && state.phase == Serving && alive
    {
      Record(Serve(Cancellation(id)));
      var i := FindBlocked(id);
      if i < |blocked| {
        answered, replies := answered + [blocked[i]], replies + [Failed(EINTR)];
        blocked := Remove(blocked, i);
      }
    }

    method NewCall(id: nat, op: Op)
      requires Valid() && state.phase == Serving
      modifies this
      ensures Valid() && steps == old(steps) + [Serve(Call(id, op))] && (state.phase == Serving || !alive)
    {
      Record(Serve(Call(id, op)));
      var call := CallRequest(calls, id, op);
      calls := calls + 1;
      var out := HandleCall(op);
      match out {
        case Answered(reply) =>
          answered, replies := answered + [call], replies + [reply];
        case Blocks =>
          blocked := blocked + [call];
        case Panics =>
          alive := false;
      }
    }

    /** One request from the socket. */
    method ServeOne(request: Request)
      requires Valid() && state.phase == Serving
      modifies this
      ensures Valid() && steps == old(steps) + [Serve(request)] && (state.phase == Serving || !alive)
    {
      match request {
        case Call(id, op) => NewCall(id, op);
        case SendFd => Record(Serve(SendFd));
        case Cancellation(id) => Cancel(id);
      }
    }

    /** Takes requests from the socket until there are none left. */
    method ServeAll(requests: seq<Request>, arrivals: nat -> seq<Incoming>, ghost quiet: bool)
      requires Valid() && state.phase == Serving
      requires quiet ==> forall k :: arrivals(k) == []
      modifies this
      ensures Valid() && (alive ==> state.phase == Serving && Continues(mac, old(steps), steps, requests, quiet))
    {
      var k := 0;
      while k < |requests| && alive
        invariant k <= |requests| && Valid() && (alive ==> state.phase == Serving)
        invariant Continues(mac, old(steps), steps, requests[..k], quiet)
      {
        ghost var before := steps;
        Receive(arrivals(k));
        ContinuesPrefix(mac, old(steps), before, steps, requests, k, quiet);
        ServeOne(requests[k]);
        k := k + 1;
      }
    }

    /**
     * One tick: the blocked calls first, then the new requests, unless the process dies on the way. Returns the handles
     * told that there is something to read.
     */
    method Tick(requests: seq<Request>, early: nat -> seq<Incoming>, late: nat -> seq<Incoming>, ghost quiet: bool)
      returns (notify: set<nat>)
      requires Valid() && state.phase == Idle
      requires quiet ==> (forall k :: early(k) == []) && (forall k :: late(k) == [])
      modifies this
      ensures Valid()
      ensures alive ==> state.phase == Idle && Continues(mac, old(steps), steps, requests, quiet)
      ensures alive ==> notify == if rx != [] && rx[0].Packet? && rx[0].bytes != [] then handles.Keys else {}
    {
      ContinuesStep(mac, old(steps), steps, [], quiet, Begin);
      Record(Begin);
      ghost var begun := steps;
      ScanBlocked(early, quiet);
      if !alive {
        return {};
      }
      ContinuesTrans(mac, old(steps), begun, steps, [], [], quiet);
      ghost var scanned := steps;
      ServeAll(requests, late, quiet);
      if !alive {
        return {};
      }
      ContinuesTrans(mac, old(steps), scanned, steps, [], requests, quiet);
      ContinuesStep(mac, old(steps), steps, [] + requests, quiet, End);
      Record(End);
      if rx != [] && rx[0].Fatal? {
        alive := false;
        return {};
      }
      notify := if Available(rx) > 0 then handles.Keys else {};
    }
  }
}
