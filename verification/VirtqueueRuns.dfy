/** What holds in every run of the virtqueue: any interleaving of driver, device and interrupt steps. */
module VirtqueueRuns {
  import opened Rings
  import opened Virtqueue
  import opened VirtqueueSteps

  ghost predicate Run(states: seq<System>, steps: seq<Step>, n: nat) {
    && |states| == |steps| + 1
    && Init(states[0], n)
    && forall i {:trigger StepAt(states, steps, i)} :: 0 <= i < |steps| ==> StepAt(states, steps, i)
  }

  ghost predicate StepAt(states: seq<System>, steps: seq<Step>, i: nat)
    requires i < |steps| < |states|
  {
    Shape(states[i].q) && NextStep(states[i], states[i + 1], steps[i])
  }

  lemma {:induction false} RunKeepsInv(states: seq<System>, steps: seq<Step>, n: nat, k: nat)
    requires Run(states, steps, n) && k < |states|
    ensures Inv(states[k]) && states[k].q.n == n
  {
    if k == 0 {
      var s := states[0];
      forall d: nat | d < n ensures d in s.q.free {
        assert s.q.free[d] == d;
      }
      assert Inv(s);
    } else {
      RunKeepsInv(states, steps, n, k - 1);
      assert StepAt(states, steps, k - 1);
      StepKeeps(states[k - 1], states[k], steps[k - 1]);
    }
  }

  /** No descriptor is ever lost or duplicated, and every recycling walk ends with its own chain. */
  lemma DescriptorsConserved(states: seq<System>, steps: seq<Step>, n: nat, k: nat)
    requires Run(states, steps, n) && k < |states|
    ensures var s := states[k];
            && Partition(n, s.q.free, s.requests)
            && (forall h, path :: h in s.requests && IsWalk(s.q.table, path) && path[0] == h ==> path == s.requests[h].descs)
            && (forall h :: h in s.requests ==> IsWalk(s.q.table, s.requests[h].descs))
  {
    RunKeepsInv(states, steps, n, k);
    var s := states[k];
    forall h | h in s.requests ensures IsWalk(s.q.table, s.requests[h].descs) {
      assert Stored(s.q.table, s.requests[h]);
    }
    forall h, path | h in s.requests && IsWalk(s.q.table, path) && path[0] == h
      ensures path == s.requests[h].descs
    {
      assert Stored(s.q.table, s.requests[h]) && OwnChain(n, s.q.free, h, s.requests[h].descs);
      WalkUnique(s.q.table, path, s.requests[h].descs);
    }
  }

  /**
   A used entry is accepted at most once, in publication order, and a Ready result is
   the written length the device published there, on runs of any length.
   */
  lemma NoEntryAcceptedTwice(states: seq<System>, steps: seq<Step>, n: nat, k: nat)
    requires Run(states, steps, n) && k < |states|
    ensures var s := states[k];
            && |s.completed| - s.accepted <= n
            && (forall i, j :: 0 <= i < j < |s.log| ==> s.log[i].pos < s.log[j].pos)
            && (forall i :: 0 <= i < |s.log| ==>
                  && 0 <= s.log[i].pos < |s.completed|
                  && s.completed[s.log[i].pos] == UsedElement(s.log[i].head, s.log[i].written))
  {
    RunKeepsInv(states, steps, n, k);
    UsedBound(states[k]);
  }

  /** Whatever path the device walks from an outstanding head, it reads the caller's buffers in order and stops. */
  lemma DeviceReadsChain(states: seq<System>, steps: seq<Step>, n: nat, k: nat, h: nat, path: seq<nat>)
    requires Run(states, steps, n) && k < |states|
    requires h in states[k].requests && IsWalk(states[k].q.table, path) && path[0] == h
    ensures var s := states[k];
            var buffers := s.requests[h].buffers;
            && |path| == |buffers|
            && forall i :: 0 <= i < |path| ==>
                 && s.q.table[path[i]].addr == buffers[i].addr
                 && s.q.table[path[i]].size == buffers[i].size % 0x1_0000_0000
                 && s.q.table[path[i]].flags == buffers[i].flags
  {
    DescriptorsConserved(states, steps, n, k);
    RunKeepsInv(states, steps, n, k);
    assert Stored(states[k].q.table, states[k].requests[h]);
  }

  /** The slot the device reads next always holds the head of an outstanding request it has not seen. */
  lemma DeviceFindsOffer(states: seq<System>, steps: seq<Step>, n: nat, k: nat)
    requires Run(states, steps, n) && k < |states| && states[k].taken < |states[k].offers|
    ensures Shape(states[k].q) && states[k].q.n == n
    ensures var s := states[k];
            var h := s.q.avail[Slot(n, s.taken)];
            h == s.offers[s.taken] && h in s.requests && s.requests[h].phase == Offered(s.taken)
  {
    RunKeepsInv(states, steps, n, k);
  }

  /** Written descriptors form the walk of the chain exactly when NEXT is on all buffers but the last. */
  lemma WalkIffWellFormed(before: seq<Descriptor>, after: seq<Descriptor>, ds: seq<nat>, chain: seq<Buffer>)
    requires |ds| == |chain| > 0 && ChainWritten(before, after, ds, chain)
    ensures IsWalk(after, ds) <==> WellFormedChain(chain)
  {
    if IsWalk(after, ds) {
      WalkIsChain(before, after, ds, chain);
    }
    if WellFormedChain(chain) {
      ChainIsWalk(before, after, ds, chain);
    }
  }

  lemma WalkIsChain(before: seq<Descriptor>, after: seq<Descriptor>, ds: seq<nat>, chain: seq<Buffer>)
    requires |ds| == |chain| > 0 && ChainWritten(before, after, ds, chain) && IsWalk(after, ds)
    ensures WellFormedChain(chain)
  {
    forall i | 0 <= i < |chain| ensures chain[i].flags.next <==> i < |chain| - 1 {
      assert after[ds[i]] == DescriptorFor(chain, ds, i);
    }
  }

  lemma ChainIsWalk(before: seq<Descriptor>, after: seq<Descriptor>, ds: seq<nat>, chain: seq<Buffer>)
    requires |ds| == |chain| > 0 && ChainWritten(before, after, ds, chain) && WellFormedChain(chain)
    ensures IsWalk(after, ds)
  {
    forall i | 0 <= i < |ds| ensures after[ds[i]].flags.next <==> i < |ds| - 1 {
      assert after[ds[i]] == DescriptorFor(chain, ds, i);
    }
  }

  // ---- Wake-ups ----

  /** A Pending request is owed a wake as soon as the device publishes anything it has not seen. */
  lemma WakeNeverLost(states: seq<System>, steps: seq<Step>, n: nat, k: nat, h: nat)
    requires Run(states, steps, n) && k < |states| && h in states[k].waiting
    ensures |states[k].completed| > states[k].waiting[h] ==> WakeDue(states[k], h)
  {
    RunKeepsInv(states, steps, n, k);
  }

  /** One request at a time, as virtio-blkd and virtio-gpud use their queues. */
  ghost predicate SoloRun(states: seq<System>, steps: seq<Step>, n: nat) {
    Run(states, steps, n) && forall i :: 0 <= i < |steps| && steps[i].Send? ==> states[i].requests == map[]
  }

  ghost predicate SoloInv(s: System) {
    && (forall h, g :: h in s.requests && g in s.requests ==> h == g)
    && (forall h :: h in s.requests && s.requests[h].phase.Done? ==> s.accepted <= s.requests[h].phase.pos)
    && (forall h :: h in s.waiting ==> s.waiting[h] == s.accepted)
  }

  lemma SoloReady(s: System)
    requires Inv(s) && SoloInv(s) && s.poll.HasRead? && s.poll.seen > s.accepted
    ensures PollOutcome(s.q, s.poll.head, s.poll.index).Ready?
  {
    PollExact(s);
    assert s.completed[s.poll.seen - 1].index in s.requests;
  }

  lemma SoloFinish(s: System, s': System, path: seq<nat>)
    requires Inv(s) && SoloInv(s) && FinishStep(s, s', path) && Polling(s')
    ensures SoloInv(s')
  {
    if s.poll.seen > s.accepted {
      SoloReady(s);
      assert s'.requests == map[];
    } else {
      PollExact(s);
    }
  }

  lemma SoloStep(s: System, s': System, step: Step)
    requires Inv(s) && SoloInv(s) && NextStep(s, s', step) && Polling(s') && !step.PollFinish?
    requires step.Send? ==> s.requests == map[]
    ensures SoloInv(s')
  {
  }

  lemma {:induction false} SoloRunKeeps(states: seq<System>, steps: seq<Step>, n: nat, k: nat)
    requires SoloRun(states, steps, n) && k < |states|
    ensures SoloInv(states[k])
  {
    if k > 0 {
      SoloRunKeeps(states, steps, n, k - 1);
      SoloAt(states, steps, n, k);
    }
  }

  lemma SoloAt(states: seq<System>, steps: seq<Step>, n: nat, k: nat)
    requires SoloRun(states, steps, n) && 0 < k < |states| && SoloInv(states[k - 1])
    ensures SoloInv(states[k])
  {
    var s, s', step := states[k - 1], states[k], steps[k - 1];
    RunKeepsInv(states, steps, n, k - 1);
    RunKeepsInv(states, steps, n, k);
    assert StepAt(states, steps, k - 1);
    if step.PollFinish? {
      SoloFinish(s, s', step.path);
    } else {
      SoloStep(s, s', step);
    }
  }

  /** With one request outstanding, a completed request is never left Pending without a wake given or still due. */
  lemma SoloNoLostWake(states: seq<System>, steps: seq<Step>, n: nat, k: nat, h: nat)
    requires SoloRun(states, steps, n) && k < |states|
    requires h in states[k].waiting && h in states[k].requests && states[k].requests[h].phase.Done?
    ensures WakeDue(states[k], h)
  {
    SoloRunKeeps(states, steps, n, k);
    RunKeepsInv(states, steps, n, k);
  }

  /** With one request outstanding, a poll that reads the index after completion returns the device's length. */
  lemma SoloCompletes(states: seq<System>, steps: seq<Step>, n: nat, k: nat)
    requires SoloRun(states, steps, n) && k < |states| && states[k].poll.HasRead?
    requires var s := states[k];
             && s.poll.head in s.requests
             && s.requests[s.poll.head].phase.Done? && s.requests[s.poll.head].phase.pos < s.poll.seen
    ensures Shape(states[k].q)
    ensures var s := states[k];
            PollOutcome(s.q, s.poll.head, s.poll.index) == Ready(s.requests[s.poll.head].phase.written)
  {
    SoloRunKeeps(states, steps, n, k);
    RunKeepsInv(states, steps, n, k);
    var s := states[k];
    SoloReady(s);
    PollExact(s);
  }

  // ---- Several requests outstanding ----

  ghost predicate IsDone(s: System, h: nat) {
    h in s.requests && s.requests[h].phase.Done?
  }

  /** The poll under way read the used index when this request's entry was the newest. */
  ghost predicate Noticed(s: System, h: nat)
    requires IsDone(s, h)
  {
    s.poll.HasRead? && s.poll.head == h && s.poll.seen == s.requests[h].phase.pos + 1
  }

  /** Completed, but a later entry has been published and no poll caught it in time. */
  ghost predicate Stranded(s: System, h: nat) {
    IsDone(s, h) && s.requests[h].phase.pos + 1 < |s.completed| && !Noticed(s, h)
  }

  lemma StrandedSend(s: System, s': System, chain: seq<Buffer>, h: nat)
    requires Inv(s) && SendStep(s, s', chain) && h in s.requests
    ensures h in s'.requests && s'.requests[h] == s.requests[h]
  {
    HeadsNotFree(s.q.n, s.q.free, s.requests);
    assert s.q.free[0] in s.q.free;
  }

  lemma StrandedTake(s: System, s': System, h: nat)
    requires Inv(s) && TakeStep(s, s') && IsDone(s, h)
    ensures h in s'.requests && s'.requests[h] == s.requests[h]
  {
    assert s.q.avail[Slot(s.q.n, s.taken)] == s.offers[s.taken];
  }

  /** What the poll under way will say, told from the history. */
  ghost predicate Decides(s: System)
    requires Shape(s.q) && s.poll.HasRead? && s.poll.head in s.requests
  {
    var o, phase := PollOutcome(s.q, s.poll.head, s.poll.index), s.requests[s.poll.head].phase;
    && (o.Ready? <==> phase.Done? && phase.pos == s.poll.seen - 1 && s.poll.seen > s.accepted)
    && (o.Ready? ==> phase == Done(s.poll.seen - 1, o.written))
  }

  lemma PollDecides(s: System)
    requires Inv(s) && s.poll.HasRead?
    ensures s.poll.head in s.requests && Decides(s)
  {
    PollExact(s);
  }

  lemma StrandedFinish(s: System, s': System, path: seq<nat>, h: nat)
    requires Shape(s.q) && FinishStep(s, s', path) && s.poll.head in s.requests && Decides(s) && Stranded(s, h)
    ensures Stranded(s', h) && s'.requests[h] == s.requests[h]
  {
  }

  lemma StrandedOther(s: System, s': System, step: Step, h: nat)
    requires Shape(s.q) && Stranded(s, h) && NextStep(s, s', step)
    requires !step.PollFinish? && !step.Send? && !step.DeviceTake?
    ensures Stranded(s', h) && s'.requests[h] == s.requests[h]
  {
  }

  lemma StrandedStep(s: System, s': System, step: Step, h: nat)
    requires Inv(s) && NextStep(s, s', step) && Stranded(s, h)
    ensures Stranded(s', h) && s'.requests[h] == s.requests[h]
  {
    match step
    case PollFinish(path) =>
      PollDecides(s);
      StrandedFinish(s, s', path, h);
    case Send(chain) => StrandedSend(s, s', chain, h);
    case DeviceTake => StrandedTake(s, s', h);
    case _ => StrandedOther(s, s', step, h);
  }

  /** A stranded request stays outstanding, and stranded, for ever; its descriptors are never recycled. */
  lemma {:induction false} StrandedForever(states: seq<System>, steps: seq<Step>, n: nat, k: nat, m: nat, h: nat)
    requires Run(states, steps, n) && k <= m < |states| && Stranded(states[k], h)
    ensures Stranded(states[m], h) && states[m].requests[h] == states[k].requests[h]
  {
    if m > k {
      StrandedForever(states, steps, n, k, m - 1, h);
      RunKeepsInv(states, steps, n, m - 1);
      assert StepAt(states, steps, m - 1);
      StrandedStep(states[m - 1], states[m], steps[m - 1], h);
    }
  }

  /** The entry last accepted is no outstanding request's. */
  ghost predicate NoneAccepted(s: System) {
    forall h :: IsDone(s, h) ==> s.requests[h].phase.pos + 1 != s.accepted
  }

  lemma NoneAcceptedFinish(s: System, s': System, path: seq<nat>)
    requires Shape(s.q) && UsedWindow(s.requests, s.completed, s.accepted) && NoneAccepted(s)
    requires FinishStep(s, s', path) && s.poll.head in s.requests && Decides(s)
    ensures NoneAccepted(s')
  {
  }

  lemma NoneAcceptedOther(s: System, s': System, step: Step)
    requires Shape(s.q) && s.accepted <= |s.completed| && NoneAccepted(s) && NextStep(s, s', step) && !step.PollFinish?
    ensures NoneAccepted(s')
  {
  }

  lemma NoneAcceptedStep(s: System, s': System, step: Step)
    requires Inv(s) && NoneAccepted(s) && NextStep(s, s', step)
    ensures NoneAccepted(s')
  {
    if step.PollFinish? {
      PollDecides(s);
      NoneAcceptedFinish(s, s', step.path);
    } else {
      NoneAcceptedOther(s, s', step);
    }
  }

  lemma {:induction false} NoneAcceptedRun(states: seq<System>, steps: seq<Step>, n: nat, k: nat)
    requires Run(states, steps, n) && k < |states|
    ensures NoneAccepted(states[k])
  {
    if k > 0 {
      NoneAcceptedRun(states, steps, n, k - 1);
      RunKeepsInv(states, steps, n, k - 1);
      assert StepAt(states, steps, k - 1);
      NoneAcceptedStep(states[k - 1], states[k], steps[k - 1]);
    }
  }

  /** In every run each waker kept is that of an outstanding request: a Ready poll takes its own away. */
  lemma {:induction false} WakersOutstanding(states: seq<System>, steps: seq<Step>, n: nat, k: nat)
    requires Run(states, steps, n) && k < |states|
    ensures states[k].q.wakers <= states[k].requests.Keys
  {
    if k > 0 {
      WakersOutstanding(states, steps, n, k - 1);
      assert Polling(states[k - 1]) by { RunKeepsInv(states, steps, n, k - 1); }
      assert StepAt(states, steps, k - 1);
      WakersStep(states[k - 1], states[k], steps[k - 1]);
    }
  }

  lemma WakersStep(s: System, s': System, step: Step)
    requires Shape(s.q) && Polling(s) && NextStep(s, s', step) && s.q.wakers <= s.requests.Keys
    ensures s'.q.wakers <= s'.requests.Keys
  {
  }

  /** One run goes on from another. */
  ghost predicate Continues(states: seq<System>, steps: seq<Step>, states': seq<System>, steps': seq<Step>, n: nat) {
    Run(states', steps', n) && states <= states' && steps <= steps'
  }

  /** Step `i` finishes a poll of `h` as Ready with the given length. */
  ghost predicate ReadyAt(states: seq<System>, steps: seq<Step>, i: nat, h: nat, written: nat) {
    && i < |steps| < |states| && steps[i].PollFinish? && Shape(states[i].q)
    && states[i].poll.HasRead? && states[i].poll.head == h
    && PollOutcome(states[i].q, h, states[i].poll.index) == Ready(written)
  }

  /** A step from the last state makes the run longer. */
  lemma ContinueStep(states: seq<System>, steps: seq<Step>, n: nat, s': System, step: Step)
    requires Run(states, steps, n) && Shape(states[|steps|].q) && NextStep(states[|steps|], s', step)
    ensures Run(states + [s'], steps + [step], n)
  {
    var states', steps' := states + [s'], steps + [step];
    forall i: nat | i < |steps'| ensures StepAt(states', steps', i) {
      assert states'[i] == states[i];
      if i < |steps| {
        assert StepAt(states, steps, i) && states'[i + 1] == states[i + 1] && steps'[i] == steps[i];
      } else {
        assert states'[i + 1] == s' && steps'[i] == step;
      }
    }
  }

  /** How far the poll under way is from one that notices `h`. */
  ghost function PollsAhead(s: System, h: nat): nat
    requires IsDone(s, h)
  {
    match s.poll
    case Idle => 2
    case Registered(g) => if g == h then 1 else 4
    case HasRead(_, _, _) => if Noticed(s, h) then 0 else 3
  }

  ghost function Finished(s: System, path: seq<nat>): System
    requires Shape(s.q) && s.poll.HasRead?
  {
    match PollOutcome(s.q, s.poll.head, s.poll.index)
    case Pending => s.(poll := Idle, waiting := s.waiting[s.poll.head := s.poll.seen])
    case Ready(written) =>
      s.(q := s.q.(free := s.q.free + path, wakers := s.q.wakers - {s.poll.head}, usedHead := s.poll.index),
         requests := s.requests - {s.poll.head},
         accepted := s.poll.seen,
         log := s.log + [Completion(s.poll.seen - 1, s.poll.head, written)],
         poll := Idle)
  }

  lemma FinishWalks(s: System, path: seq<nat>)
    requires Shape(s.q) && ChainsInv(s) && s.poll.HasRead?
    requires s.poll.head in s.requests && path == s.requests[s.poll.head].descs
    ensures FinishStep(s, Finished(s, path), path)
  {
    assert Stored(s.q.table, s.requests[s.poll.head]) && OwnChain(s.q.n, s.q.free, s.poll.head, path);
  }

  lemma FinishNears(s: System, path: seq<nat>, h: nat)
    requires Shape(s.q) && s.poll.HasRead? && s.poll.head in s.requests && Decides(s) && IsDone(s, h) && !Noticed(s, h)
    ensures var s' := Finished(s, path);
            && IsDone(s', h) && s'.requests[h] == s.requests[h] && s'.completed == s.completed && s'.poll.Idle?
  {
  }

  /** The next step towards a poll that notices `h`: finish the poll under way, or make one. */
  lemma Approach(s: System, h: nat) returns (s': System, step: Step)
    requires Inv(s) && IsDone(s, h) && !Noticed(s, h) && s.requests[h].phase.pos + 1 == |s.completed|
    ensures NextStep(s, s', step) && s'.completed == s.completed
    ensures IsDone(s', h) && s'.requests[h] == s.requests[h] && PollsAhead(s', h) < PollsAhead(s, h)
  {
    if s.poll.HasRead? {
      var path := s.requests[s.poll.head].descs;
      step, s' := PollFinish(path), Finished(s, path);
      PollDecides(s);
      FinishWalks(s, path);
      FinishNears(s, path, h);
    } else {
      s', step := Look(s, h);
    }
  }

  lemma Look(s: System, h: nat) returns (s': System, step: Step)
    requires Shape(s.q) && IsDone(s, h) && !s.poll.HasRead? && s.requests[h].phase.pos + 1 == |s.completed|
    ensures NextStep(s, s', step) && s'.completed == s.completed
    ensures IsDone(s', h) && s'.requests[h] == s.requests[h] && PollsAhead(s', h) < PollsAhead(s, h)
  {
    if s.poll.Idle? {
      step := PollRegister(h);
      s' := s.(
        q := s.q.(wakers := s.q.wakers + {h}), poll := Registered(h), waiting := s.waiting - {h}, woken := s.woken - {h});
    } else {
      step := PollRead;
      s' := s.(poll := HasRead(s.poll.head, s.q.usedIdx, |s.completed|));
    }
  }

  lemma NoticedIsReady(s: System, h: nat)
    requires Inv(s) && NoneAccepted(s) && IsDone(s, h) && Noticed(s, h)
    ensures PollOutcome(s.q, h, s.poll.index) == Ready(s.requests[h].phase.written)
    ensures NextStep(s, Finished(s, s.requests[h].descs), PollFinish(s.requests[h].descs))
  {
    PollDecides(s);
    FinishWalks(s, s.requests[h].descs);
  }

  /** A request whose entry is the newest, or was when the poll under way looked, can be polled to Ready. */
  lemma {:induction false} PollToReady(states: seq<System>, steps: seq<Step>, n: nat, h: nat)
    returns (states': seq<System>, steps': seq<Step>, i: nat)
    requires Run(states, steps, n) && IsDone(states[|steps|], h) && !Stranded(states[|steps|], h)
    ensures Continues(states, steps, states', steps', n)
    ensures |steps| <= i && ReadyAt(states', steps', i, h, states[|steps|].requests[h].phase.written)
    decreases PollsAhead(states[|steps|], h)
  {
    if Noticed(states[|steps|], h) {
      assert Inv(states[|steps|]) && NoneAccepted(states[|steps|]) by {
        RunKeepsInv(states, steps, n, |steps|);
        NoneAcceptedRun(states, steps, n, |steps|);
      }
      states', steps', i := FinishReady(states, steps, n, h);
    } else {
      var nearer, so := ApproachRun(states, steps, n, h);
      states', steps', i := PollToReady(nearer, so, n, h);
    }
  }

  /** The run with the next step towards that poll. */
  lemma ApproachRun(states: seq<System>, steps: seq<Step>, n: nat, h: nat)
    returns (states': seq<System>, steps': seq<Step>)
    requires Run(states, steps, n)
    requires var s := states[|steps|]; IsDone(s, h) && !Stranded(s, h) && !Noticed(s, h)
    ensures Continues(states, steps, states', steps', n)
    ensures var s, s' := states[|steps|], states'[|steps'|];
            && IsDone(s', h) && !Stranded(s', h) && s'.requests[h] == s.requests[h]
            && PollsAhead(s', h) < PollsAhead(s, h)
  {
    var s := states[|steps|];
    assert Inv(s) by { RunKeepsInv(states, steps, n, |steps|); }
    var s', step := Approach(s, h);
    ContinueStep(states, steps, n, s', step);
    states', steps' := states + [s'], steps + [step];
    assert states'[|steps'|] == s';
  }

  lemma FinishReady(states: seq<System>, steps: seq<Step>, n: nat, h: nat)
    returns (states': seq<System>, steps': seq<Step>, i: nat)
    requires Run(states, steps, n)
    requires var s := states[|steps|]; Inv(s) && NoneAccepted(s) && IsDone(s, h) && Noticed(s, h)
    ensures Continues(states, steps, states', steps', n)
    ensures |steps| <= i && ReadyAt(states', steps', i, h, states[|steps|].requests[h].phase.written)
  {
    var s := states[|steps|];
    var path := s.requests[h].descs;
    NoticedIsReady(s, h);
    ContinueStep(states, steps, n, Finished(s, path), PollFinish(path));
    states', steps', i := states + [Finished(s, path)], steps + [PollFinish(path)], |steps|;
    assert states'[i] == s && steps'[i] == PollFinish(path);
  }

  /**
   Exactly which completed requests can still be polled to Ready: some continuation of a run gives `h` its length if
   and only if `h` is not stranded.
   */
  lemma CompletesIff(states: seq<System>, steps: seq<Step>, n: nat, h: nat)
    requires Run(states, steps, n) && IsDone(states[|steps|], h)
    ensures (exists states', steps', i ::
               && Continues(states, steps, states', steps', n) && |steps| <= i
               && ReadyAt(states', steps', i, h, states[|steps|].requests[h].phase.written))
            <==> !Stranded(states[|steps|], h)
  {
    if Stranded(states[|steps|], h) {
      forall states', steps', i: nat, w | Continues(states, steps, states', steps', n) && |steps| <= i
        ensures !ReadyAt(states', steps', i, h, w)
      {
        if i < |steps'| {
          StrandedForever(states', steps', n, |steps|, i, h);
          StrandedAt(states', steps', n, i, h, w);
        }
      }
    } else {
      var states', steps', i := PollToReady(states, steps, n, h);
    }
  }

  lemma StrandedAt(states: seq<System>, steps: seq<Step>, n: nat, i: nat, h: nat, w: nat)
    requires Run(states, steps, n) && i < |steps| && Stranded(states[i], h)
    ensures !ReadyAt(states, steps, i, h, w)
  {
    RunKeepsInv(states, steps, n, i);
    if states[i].poll.HasRead? {
      PollDecides(states[i]);
    }
  }

  ghost predicate Reachable(s: System, n: nat) {
    exists states, steps :: Run(states, steps, n) && states[|states| - 1] == s
  }

  lemma ReachStep(s: System, s': System, step: Step, n: nat)
    requires Reachable(s, n) && Shape(s.q) && NextStep(s, s', step)
    ensures Reachable(s', n)
  {
    var states, steps :| Run(states, steps, n) && states[|states| - 1] == s;
    ContinueStep(states, steps, n, s', step);
    assert (states + [s'])[|states|] == s';
  }

  /** Two one-buffer requests on a queue of two. */
  function TwoOffered(): System {
    var b := Buffer(0, 1, Flags(false, false, false));
    var d, e := Descriptor(0, 1, Flags(false, false, false), 0), UsedElement(0xFFFF_FFFF, 0);
    System(Queue(2, [d, d], [], [0, 1], 2, [e, e], 0, 0, {}),
           map[0 := Request([0], [b], Offered(0)), 1 := Request([1], [b], Offered(1))],
           [0, 1], 0, [], 0, [], Idle, map[], {}, false, false)
  }

  /** The same with only the first sent. */
  function OneOffered(): System {
    var s := TwoOffered();
    s.(q := s.q.(free := [1], avail := [0, 0xFFFF], availIdx := 1), requests := map[0 := s.requests[0]], offers := [0])
  }

  function NothingOffered(): System {
    var s := OneOffered();
    s.(q := s.q.(free := [0, 1], avail := [0xFFFF, 0xFFFF], availIdx := 0), requests := map[], offers := [])
  }

  lemma NothingOfferedReachable()
    ensures Reachable(NothingOffered(), 2)
  {
    assert Run([NothingOffered()], [], 2);
  }

  lemma OneOfferedReachable()
    ensures Reachable(OneOffered(), 2)
  {
    NothingOfferedReachable();
    FirstOffered(NothingOffered(), OneOffered());
    ReachStep(NothingOffered(), OneOffered(), Send([OneOffered().requests[0].buffers[0]]), 2);
  }

  lemma FirstOffered(s: System, s': System)
    requires s == NothingOffered() && s' == OneOffered()
    ensures Shape(s.q) && SendStep(s, s', [s'.requests[0].buffers[0]])
  {
    assert s.q.free[..1] == [0] && s.requests[0 := s'.requests[0]] == s'.requests && s.offers + [0] == s'.offers;
  }

  lemma TwoOfferedReachable()
    ensures Reachable(TwoOffered(), 2)
  {
    OneOfferedReachable();
    var s1, s2 := OneOffered(), TwoOffered();
    var b := s2.requests[1].buffers[0];
    assert SendStep(s1, s2, [b]) by {
      assert s1.q.free[..1] == [1] && s1.requests[1 := s2.requests[1]] == s2.requests && s1.offers + [1] == s2.offers;
    }
    ReachStep(s1, s2, Send([b]), 2);
  }

  /** The device has completed both, the first offered first. */
  function BothDone(): System {
    var s, u0, u1 := TwoOffered(), UsedElement(0, 5), UsedElement(1, 6);
    s.(q := s.q.(used := [u0, u1], usedIdx := 2),
       requests := map[0 := s.requests[0].(phase := Done(0, 5)), 1 := s.requests[1].(phase := Done(1, 6))],
       taken := 2, completed := [u0, u1], irq := true)
  }

  /** The device holds both. */
  function BothHeld(): System {
    var s := TwoOffered();
    s.(requests := map[0 := s.requests[0].(phase := Held), 1 := s.requests[1].(phase := Held)], taken := 2)
  }

  lemma BothHeldReachable()
    ensures Reachable(BothHeld(), 2)
  {
    TwoOfferedReachable();
    var s2, s4 := TwoOffered(), BothHeld();
    var s3 := s2.(requests := s2.requests[0 := s2.requests[0].(phase := Held)], taken := 1);
    ReachStep(s2, s3, DeviceTake, 2);
    assert s3.requests[1 := s3.requests[1].(phase := Held)] == s4.requests;
    ReachStep(s3, s4, DeviceTake, 2);
  }

  lemma BothDoneReachable()
    ensures Reachable(BothDone(), 2)
  {
    BothHeldReachable();
    var s4, s6 := BothHeld(), BothDone();
    var s5 := s4.(
      q := s4.q.(used := s4.q.used[0 := s6.completed[0]], usedIdx := 1),
      requests := s4.requests[0 := s6.requests[0]], completed := [s6.completed[0]], irq := true);
    assert PublishStep(s4, s5, 0, 5) by {
      assert s4.completed + [s6.completed[0]] == s5.completed;
    }
    ReachStep(s4, s5, DevicePublish(0, 5), 2);
    assert PublishStep(s5, s6, 1, 6) by {
      assert s5.requests[1 := s6.requests[1]] == s6.requests && s5.completed + [s6.completed[1]] == s6.completed;
    }
    ReachStep(s5, s6, DevicePublish(1, 6), 2);
  }

  /** Overtaking happens: on a queue of two both requests are completed before either is polled, and the first is stranded. */
  lemma OvertakingIsReachable()
    ensures exists s :: Reachable(s, 2) && Stranded(s, 0)
  {
    BothDoneReachable();
    assert Stranded(BothDone(), 0);
  }
}
