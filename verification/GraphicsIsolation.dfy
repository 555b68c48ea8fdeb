/**
 Terminals do not interfere: what a terminal that is never activated does leaves no trace on any
 framebuffer of a run. Without its steps the run goes on as before, with other handle numbers.
 */
module GraphicsIsolation {
  import opened ConsoleDraw
  import opened Graphics

  /** The step is one of terminal `v`: it names it, or a handle of it. */
  ghost predicate StepOf(s: State, step: Step, v: nat) {
    match step
    case Activate(vt) => vt == v
    case Deactivate(vt) => vt == v
    case Open(vt, _) => vt == v
    case Store(vt, _, _, _, _) => vt == v
    case Fsync(id) => HandleOf(s, id, v)
    case Write(id, _) => HandleOf(s, id, v)
    case Close(id) => HandleOf(s, id, v)
  }

  ghost predicate HandleOf(s: State, id: nat, v: nat) {
    id in s.handles && s.handles[id].vt == v
  }

  /** The same step in both states, up to the number of the handle it goes through. */
  ghost predicate SameStep(s: State, step: Step, q: State, step': Step) {
    match step
    case Fsync(id) => step'.Fsync? && SameHandle(s, id, q, step'.id)
    case Write(id, damage) => step'.Write? && step'.damage == damage && SameHandle(s, id, q, step'.id)
    case Close(id) => step'.Close? && SameHandle(s, id, q, step'.id)
    case _ => step' == step
  }

  /** Both numbers name a handle of the same terminal on the same display, or neither names one. */
  ghost predicate SameHandle(s: State, id: nat, q: State, id': nat) {
    (id in s.handles <==> id' in q.handles) && (id in s.handles ==> q.handles[id'] == s.handles[id])
  }

  ghost predicate NextOf(t: System, t': System, step: Step) {
    Shape(t.s) && |t.dirty| == |t.s.displays| && NextStep(t, t', step)
  }

  // ---- The two runs side by side ----

  /** Handle numbers are given out in order. */
  ghost predicate IdsBelow(s: State) {
    forall id :: id in s.handles ==> id <= s.nextId
  }

  /** The resources of all terminals but `v` are the same. */
  ghost predicate SameOthers(res: Resources, res': Resources, v: nat) {
    forall k: (nat, nat) :: k.0 != v ==> (k in res <==> k in res') && (k in res ==> res[k] == res'[k])
  }

  /** `f` numbers the handles of all terminals but `v` anew. */
  ghost predicate Renames(handles: map<nat, Handle>, handles': map<nat, Handle>, f: map<nat, nat>, v: nat) {
    && (forall id :: id in f <==> id in handles && handles[id].vt != v)
    && (forall id :: id in f ==> f[id] in handles' && handles'[f[id]] == handles[id])
    && (forall i, j :: i in f && j in f && f[i] == f[j] ==> i == j)
  }

  ghost predicate SameView(t: System, q: System) {
    && q.s.displays == t.s.displays && q.s.active == t.s.active && q.s.fbs == t.s.fbs
    && q.dirty == t.dirty && q.activated == t.activated
  }

  ghost predicate Like(t: System, q: System, f: map<nat, nat>, v: nat) {
    && SameView(t, q) && t.s.active != v
    && SameOthers(t.s.res, q.s.res, v)
    && IdsBelow(t.s) && IdsBelow(q.s) && Renames(t.s.handles, q.s.handles, f, v)
  }

  // ---- Handles opened and closed on both sides ----

  lemma RenamesOpen(hs: map<nat, Handle>, hs': map<nat, Handle>, f: map<nat, nat>, v: nat, id: nat, id': nat, h: Handle)
    requires Renames(hs, hs', f, v) && id !in hs && id' !in hs' && h.vt != v
    ensures Renames(hs[id := h], hs'[id' := h], f[id := id'], v)
  {
  }

  lemma RenamesClose(hs: map<nat, Handle>, hs': map<nat, Handle>, f: map<nat, nat>, v: nat, id: nat, id': nat)
    requires Renames(hs, hs', f, v)
    requires if id in f then id' == f[id] else id !in hs && id' !in hs'
    ensures Renames(hs - {id}, hs' - {id'}, f - {id}, v)
  {
  }

  // ---- A step of the quiet terminal changes nothing the others see ----

  lemma QuietOpen(t: System, t': System, q: System, f: map<nat, nat>, v: nat, id: nat)
    requires NextOf(t, t', Open(v, id)) && Like(t, q, f, v)
    ensures Like(t', q, f, v)
  {
  }

  lemma QuietClose(t: System, t': System, q: System, f: map<nat, nat>, v: nat, id: nat)
    requires NextOf(t, t', Close(id)) && Like(t, q, f, v) && HandleOf(t.s, id, v)
    ensures Like(t', q, f, v)
  {
  }

  lemma QuietStep(t: System, t': System, q: System, f: map<nat, nat>, v: nat, step: Step)
    requires NextOf(t, t', step)
    requires Like(t, q, f, v) && StepOf(t.s, step, v) && step != Activate(v)
    ensures Like(t', q, f, v)
  {
    match step
    case Open(_, id) => QuietOpen(t, t', q, f, v, id);
    case Close(id) => QuietClose(t, t', q, f, v, id);
    case _ =>
  }

  // ---- Every other step is the same step in both ----

  lemma {:induction false} FilledSame(displays: seq<Display>, res: Resources, res': Resources, vt: nat, n: nat, v: nat)
    requires n <= |displays| && SameOthers(res, res', v) && vt != v
    ensures SameOthers(Filled(displays, res, vt, n), Filled(displays, res', vt, n), v)
  {
    if n > 0 {
      FilledSame(displays, res, res', vt, n - 1, v);
    }
  }

  lemma ActivateAlike(t: System, t': System, q: System, f: map<nat, nat>, v: nat, vt: nat) returns (q': System)
    requires NextOf(t, t', Activate(vt))
    requires Shape(q.s) && Like(t, q, f, v) && vt != v
    ensures NextStep(q, q', Activate(vt)) && Like(t', q', f, v)
  {
    var n := |t.s.displays|;
    FilledSame(t.s.displays, t.s.res, q.s.res, vt, n, v);
    q' := t'.(s := q.s.(active := t'.s.active, res := Filled(q.s.displays, q.s.res, vt, n), fbs := t'.s.fbs));
    assert forall d: nat :: (vt, d) in t'.s.res <==> (vt, d) in q'.s.res;
  }

  lemma OpenAlike(t: System, t': System, q: System, f: map<nat, nat>, v: nat, vt: nat, id: nat)
    returns (q': System, f': map<nat, nat>)
    requires NextOf(t, t', Open(vt, id))
    requires Shape(q.s) && Like(t, q, f, v) && vt != v
    ensures NextStep(q, q', Open(vt, id)) && Like(t', q', f', v)
  {
    q' := q.(s := Opened(q.s, vt, id).0);
    f' := f;
    if id < |t.s.displays| {
      f' := f[t.s.nextId + 1 := q.s.nextId + 1];
      RenamesOpen(t.s.handles, q.s.handles, f, v, t.s.nextId + 1, q.s.nextId + 1, Handle(vt, id));
    }
  }

  /** The number in the other run of a handle that is not one of `v`: a number never given out if there is none. */
  ghost function Renamed(q: State, f: map<nat, nat>, id: nat): nat {
    if id in f then f[id] else q.nextId + 1
  }

  lemma RenamedSame(t: System, q: System, f: map<nat, nat>, v: nat, id: nat)
    requires Like(t, q, f, v) && !HandleOf(t.s, id, v)
    ensures SameHandle(t.s, id, q.s, Renamed(q.s, f, id))
  {
  }

  lemma FlushAlike(t: System, t': System, q: System, f: map<nat, nat>, v: nat, id: nat, damage: seq<Damage>)
    returns (q': System)
    requires Shape(t.s) && |t.dirty| == |t.s.displays| && FlushStep(t, t', id, damage)
    requires Shape(q.s) && Like(t, q, f, v) && !HandleOf(t.s, id, v)
    ensures FlushStep(q, q', Renamed(q.s, f, id), damage) && Like(t', q', f, v)
  {
    RenamedSame(t, q, f, v, id);
    q' := t'.(s := Flushed(q.s, Renamed(q.s, f, id), damage));
  }

  lemma FsyncAlike(t: System, t': System, q: System, f: map<nat, nat>, v: nat, id: nat) returns (q': System)
    requires NextOf(t, t', Fsync(id)) && Shape(q.s) && Like(t, q, f, v) && !HandleOf(t.s, id, v)
    ensures NextStep(q, q', Fsync(Renamed(q.s, f, id))) && Like(t', q', f, v)
  {
    RenamedSame(t, q, f, v, id);
    q' := FlushAlike(t, t', q, f, v, id, if id in t.s.handles then FullOf(t.s, t.s.handles[id].screen) else []);
  }

  lemma WriteAlike(t: System, t': System, q: System, f: map<nat, nat>, v: nat, id: nat, damage: seq<Damage>)
    returns (q': System)
    requires NextOf(t, t', Write(id, damage)) && Shape(q.s) && Like(t, q, f, v) && !HandleOf(t.s, id, v)
    ensures NextStep(q, q', Write(Renamed(q.s, f, id), damage)) && Like(t', q', f, v)
  {
    RenamedSame(t, q, f, v, id);
    q' := FlushAlike(t, t', q, f, v, id, damage);
  }

  lemma CloseAlike(t: System, t': System, q: System, f: map<nat, nat>, v: nat, id: nat)
    returns (q': System, f': map<nat, nat>)
    requires NextOf(t, t', Close(id))
    requires Shape(q.s) && Like(t, q, f, v) && !HandleOf(t.s, id, v)
    ensures NextStep(q, q', Close(Renamed(q.s, f, id))) && Like(t', q', f', v)
  {
    q' := q.(s := q.s.(handles := q.s.handles - {Renamed(q.s, f, id)}));
    f' := f - {id};
    RenamesClose(t.s.handles, q.s.handles, f, v, id, Renamed(q.s, f, id));
  }

  lemma StoreAlike(t: System, t': System, q: System, f: map<nat, nat>, v: nat, step: Step) returns (q': System)
    requires step.Store? && NextOf(t, t', step)
    requires Shape(q.s) && Like(t, q, f, v) && step.vt != v
    ensures NextStep(q, q', step) && Like(t', q', f, v)
  {
    q' := t'.(s := Stored(q.s, step.vt, step.d, step.y, step.x, step.color));
  }

  lemma StepAlike(t: System, t': System, q: System, f: map<nat, nat>, v: nat, step: Step)
    returns (q': System, step': Step, f': map<nat, nat>)
    requires NextOf(t, t', step)
    requires Shape(q.s) && Like(t, q, f, v) && !StepOf(t.s, step, v)
    ensures NextStep(q, q', step') && SameStep(t.s, step, q.s, step') && Like(t', q', f', v)
  {
    if step.Fsync? || step.Write? || step.Close? {
      RenamedSame(t, q, f, v, step.id);
    }
    step', f' := step, f;
    match step
    case Activate(vt) => q' := ActivateAlike(t, t', q, f, v, vt);
    case Deactivate(_) => q' := q;
    case Open(vt, id) => q', f' := OpenAlike(t, t', q, f, v, vt, id);
    case Store(_, _, _, _, _) => q' := StoreAlike(t, t', q, f, v, step);
    case Fsync(id) =>
      step' := Fsync(Renamed(q.s, f, id));
      q' := FsyncAlike(t, t', q, f, v, id);
    case Write(id, damage) =>
      step' := Write(Renamed(q.s, f, id), damage);
      q' := WriteAlike(t, t', q, f, v, id, damage);
    case Close(id) =>
      step' := Close(Renamed(q.s, f, id));
      q', f' := CloseAlike(t, t', q, f, v, id);
  }

  // ---- Runs ----

  /** At step `k` the other run does the same step, or stays where it is if the step is one of `v`. */
  ghost predicate KeptAt(states: seq<System>, steps: seq<Step>, v: nat, quiet: seq<System>, kept: seq<Step>, at: seq<nat>, k: nat)
    requires k + 1 < |at| && k < |steps| && |at| <= |states| && |quiet| == |kept| + 1
  {
    if StepOf(states[k].s, steps[k], v) then at[k + 1] == at[k]
    else at[k + 1] == at[k] + 1 && at[k] < |kept| && SameStep(states[k].s, steps[k], quiet[at[k]].s, kept[at[k]])
  }

  /** The other run follows this one's first `|at| - 1` steps, leaving out those of `v`, and shows the same after each. */
  ghost predicate Follows(states: seq<System>, steps: seq<Step>, v: nat, quiet: seq<System>, kept: seq<Step>, at: seq<nat>)
    requires |states| == |steps| + 1
  {
    && Run(quiet, kept) && 0 < |at| <= |states| && at[0] == 0 && at[|at| - 1] == |kept|
    && (forall k :: 0 <= k < |at| - 1 ==> KeptAt(states, steps, v, quiet, kept, at, k))
    && (forall k :: 0 <= k < |at| ==> at[k] < |quiet| && quiet[at[k]].s.fbs == states[k].s.fbs)
  }

  lemma FollowsOn(states: seq<System>, steps: seq<Step>, v: nat, quiet: seq<System>, kept: seq<Step>, at: seq<nat>,
                  quiet': seq<System>, kept': seq<Step>, j: nat)
    requires |states| == |steps| + 1 && Follows(states, steps, v, quiet, kept, at) && |at| < |states|
    requires Continues(quiet, kept, quiet', kept') && j == |kept'|
    requires quiet'[j].s.fbs == states[|at|].s.fbs
    requires KeptAt(states, steps, v, quiet', kept', at + [j], |at| - 1)
    ensures Follows(states, steps, v, quiet', kept', at + [j])
  {
    var at' := at + [j];
    forall k | 0 <= k < |at'| - 1 ensures KeptAt(states, steps, v, quiet', kept', at', k) {
      if k < |at| - 1 {
        assert KeptAt(states, steps, v, quiet, kept, at, k);
      }
    }
  }

  lemma {:induction false} FollowRun(states: seq<System>, steps: seq<Step>, v: nat, n: nat)
    returns (quiet: seq<System>, kept: seq<Step>, at: seq<nat>, f: map<nat, nat>)
    requires Run(states, steps) && v != 0 && Activate(v) !in steps && n <= |steps|
    ensures Follows(states, steps, v, quiet, kept, at) && |at| == n + 1
    ensures Like(states[n], quiet[|kept|], f, v)
  {
    if n == 0 {
      quiet, kept, at, f := [states[0]], [], [0], map[];
    } else {
      quiet, kept, at, f := FollowRun(states, steps, v, n - 1);
      var t, t', q, step := states[n - 1], states[n], quiet[|kept|], steps[n - 1];
      assert StepAt(states, steps, n - 1);
      if StepOf(t.s, step, v) {
        QuietStep(t, t', q, f, v, step);
        FollowsOn(states, steps, v, quiet, kept, at, quiet, kept, |kept|);
        at := at + [|kept|];
      } else {
        assert Inv(q) by { RunKeepsInv(quiet, kept, |kept|); }
        var q', step', f' := StepAlike(t, t', q, f, v, step);
        ContinueStep(quiet, kept, q', step');
        FollowsOn(states, steps, v, quiet, kept, at, quiet + [q'], kept + [step'], |kept| + 1);
        quiet, kept, at, f := quiet + [q'], kept + [step'], at + [|kept| + 1], f';
      }
    }
  }

  /**
   Non-interference: leave out of a run every step of a terminal that is never activated. What is left, with the handle
   numbers it then gets, is a run, and after each step every framebuffer is what it was.
   */
  lemma Noninterference(states: seq<System>, steps: seq<Step>, v: nat)
    returns (quiet: seq<System>, kept: seq<Step>, at: seq<nat>)
    requires Run(states, steps) && v != 0 && Activate(v) !in steps
    ensures Follows(states, steps, v, quiet, kept, at) && |at| == |states|
  {
    ghost var f;
    quiet, kept, at, f := FollowRun(states, steps, v, |steps|);
  }
}
