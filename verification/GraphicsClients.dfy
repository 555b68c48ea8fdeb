/** What the clients of the display scheme can rely on: their handles, their pixels and their flushes. */
module GraphicsClients {
  import opened Raster
  import opened ConsoleDraw
  import opened Screen
  import opened Graphics

  // ---- A resource holds what was stored ----

  /** The pixel of a terminal's resource; 0 while there is no resource. */
  ghost function Held(s: State, vt: nat, d: nat, y: nat, x: nat): u32
    requires d < |s.displays|
  {
    if (vt, d) in s.res then At(s.res[(vt, d)], s.displays[d].w, y, x) else 0
  }

  /** The colour last stored at a pixel in the first `k` steps, 0 if none was. */
  ghost function LastStored(steps: seq<Step>, k: nat, vt: nat, d: nat, y: nat, x: nat): u32
    requires k <= |steps|
  {
    if k == 0 then 0
    else if steps[k - 1].Store? && (steps[k - 1].vt, steps[k - 1].d, steps[k - 1].y, steps[k - 1].x) == (vt, d, y, x)
    then steps[k - 1].color
    else LastStored(steps, k - 1, vt, d, y, x)
  }

  lemma BlankAt(g: Display, y: nat, x: nat)
    requires y < g.h && x < g.w
    ensures At(Blank(g), g.w, y, x) == 0
  {
    RowSegment(g.w, g.h, y, x, 1);
  }

  lemma {:induction false} FilledHeld(displays: seq<Display>, res: Resources, v: nat, n: nat, vt: nat, d: nat)
    requires n <= |displays| && d < |displays|
    ensures var filled := Filled(displays, res, v, n);
            if (vt, d) in res then (vt, d) in filled && filled[(vt, d)] == res[(vt, d)]
            else (vt, d) in filled ==> filled[(vt, d)] == Blank(displays[d])
  {
    if n > 0 {
      FilledHeld(displays, res, v, n - 1, vt, d);
    }
  }

  lemma StoreHeld(s: State, step: Step, vt: nat, d: nat, y: nat, x: nat)
    requires Shape(s) && step.Store? && (step.vt, step.d) in s.res && step.d < |s.displays|
    requires step.y < s.displays[step.d].h && step.x < s.displays[step.d].w
    requires d < |s.displays| && y < s.displays[d].h && x < s.displays[d].w
    ensures Held(Stored(s, step.vt, step.d, step.y, step.x, step.color), vt, d, y, x) ==
            if (step.vt, step.d, step.y, step.x) == (vt, d, y, x) then step.color else Held(s, vt, d, y, x)
  {
    if (step.vt, step.d) == (vt, d) {
      assert ResourceOk(s.displays, d, s.res[(vt, d)]);
      StoreShows(s.res[(vt, d)], s.displays[d], step.y, step.x, step.color);
    }
  }

  lemma StepHeld(t: System, t': System, step: Step, vt: nat, d: nat, y: nat, x: nat)
    requires Shape(t.s) && |t.dirty| == |t.s.displays| && NextStep(t, t', step)
    requires d < |t.s.displays| && y < t.s.displays[d].h && x < t.s.displays[d].w
    ensures t'.s.displays == t.s.displays
    ensures Held(t'.s, vt, d, y, x) ==
            if step.Store? && (step.vt, step.d, step.y, step.x) == (vt, d, y, x) then step.color else Held(t.s, vt, d, y, x)
  {
    match step
    case Activate(v) =>
      BlankAt(t.s.displays[d], y, x);
      FilledHeld(t.s.displays, t.s.res, v, |t.s.displays|, vt, d);
    case Open(_, _) => BlankAt(t.s.displays[d], y, x);
    case Store(_, _, _, _, _) => StoreHeld(t.s, step, vt, d, y, x);
    case _ =>
  }

  /** In every run every pixel of every terminal's resource is the colour its clients last stored there, or 0. */
  lemma {:induction false} ResourceIsStores(states: seq<System>, steps: seq<Step>, k: nat, vt: nat, d: nat, y: nat, x: nat)
    requires Run(states, steps) && k < |states|
    requires d < |states[0].s.displays| && y < states[0].s.displays[d].h && x < states[0].s.displays[d].w
    ensures states[k].s.displays == states[0].s.displays
    ensures Held(states[k].s, vt, d, y, x) == LastStored(steps, k, vt, d, y, x)
  {
    if k > 0 {
      ResourceIsStores(states, steps, k - 1, vt, d, y, x);
      assert StepAt(states, steps, k - 1);
      StepHeld(states[k - 1], states[k], steps[k - 1], vt, d, y, x);
    }
  }

  // ---- A handle stays what it was opened for ----

  lemma {:induction false} HandleStays(states: seq<System>, steps: seq<Step>, k: nat, j: nat, h: nat)
    requires Run(states, steps) && k <= j < |states|
    requires h in states[k].s.handles && h <= states[k].s.nextId
    requires forall i :: k <= i < j ==> steps[i] != Close(h)
    ensures h in states[j].s.handles && states[j].s.handles[h] == states[k].s.handles[h]
    ensures h <= states[j].s.nextId && states[j].s.displays == states[k].s.displays
    decreases j - k
  {
    if k < j {
      HandleStays(states, steps, k, j - 1, h);
      assert StepAt(states, steps, j - 1);
      HandleStep(states[j - 1], states[j], steps[j - 1], h);
    }
  }

  lemma HandleStep(t: System, t': System, step: Step, h: nat)
    requires Shape(t.s) && |t.dirty| == |t.s.displays| && NextStep(t, t', step)
    requires h in t.s.handles && h <= t.s.nextId && step != Close(h)
    ensures h in t'.s.handles && t'.s.handles[h] == t.s.handles[h]
    ensures h <= t'.s.nextId && t'.s.displays == t.s.displays
  {
  }

  /** Opening succeeds exactly for a display that exists, and its number is a new one. */
  lemma OpenReplies(s: State, vt: nat, d: nat)
    requires forall id :: id in s.handles ==> id <= s.nextId
    ensures var (t, reply) := Opened(s, vt, d);
            && (reply.EINVAL? <==> d >= |s.displays|) && (reply.Ok? <==> d < |s.displays|)
            && (reply.Ok? ==> reply.value !in s.handles && t.handles == s.handles[reply.value := Handle(vt, d)])
            && (reply.EINVAL? ==> t == s)
  {
  }

  ghost predicate CoversAll(damage: seq<Damage>, g: Display) {
    forall y: nat, x: nat :: y < g.h && x < g.w ==> Covered(damage, g.w, g.h, y, x)
  }

  lemma FlushAgrees(t: System, t': System, id: nat, vt: nat, d: nat, damage: seq<Damage>)
    requires Shape(t.s) && |t.dirty| == |t.s.displays| && FlushStep(t, t', id, damage)
    requires id in t.s.handles && t.s.handles[id] == Handle(vt, d) && t.s.active == vt
    requires d < |t.s.displays| && CoversAll(damage, t.s.displays[d])
    ensures |t'.s.fbs| == |t.s.fbs| && (vt, d) in t'.s.res && t'.s.res == t.s.res
    ensures var g := t.s.displays[d]; Agree(t'.s.fbs[d], t'.s.res[(vt, d)], g.w, g.h, g.stride)
    ensures forall e :: 0 <= e < |t.s.fbs| && e != d ==> t'.s.fbs[e] == t.s.fbs[e]
  {
    var g, off := t.s.displays[d], t.s.res[(vt, d)];
    forall y: nat, x: nat | y < g.h && x < g.w ensures At(t'.s.fbs[d], g.stride, y, x) == At(off, g.w, y, x) {
      SyncedAt(t.s.fbs[d], off, g.w, g.h, g.stride, damage, y, x);
    }
  }

  lemma FullCoversAll(g: Display)
    requires 0 < g.w <= I32_MAX && g.h <= I32_MAX
    ensures CoversAll(FullScreen(g.w, g.h), g)
  {
    var full := FullScreen(g.w, g.h);
    forall y: nat, x: nat | y < g.h && x < g.w ensures Covered(full, g.w, g.h, y, x) {
      assert InDamage(Screen.Copied(full[0], g.w, g.h), y, x);
    }
  }

  /**
   The number a client is given for a terminal and a display is good for these until it is closed: whenever the terminal
   is active, a flush through it that covers the screen makes this display, and no other, show the terminal's pixels.
   */
  lemma OpenedFlushShows(states: seq<System>, steps: seq<Step>, k: nat, j: nat, vt: nat, d: nat, h: nat, damage: seq<Damage>)
    requires Run(states, steps) && k < j < |steps|
    requires steps[k] == Open(vt, d) && Opened(states[k].s, vt, d).1 == Ok(h)
    requires forall i :: k < i < j ==> steps[i] != Close(h)
    requires states[j].s.active == vt && d < |states[j].s.displays|
    requires steps[j] == Fsync(h) || (steps[j] == Write(h, damage) && CoversAll(damage, states[j].s.displays[d]))
    ensures var s, t := states[j].s, states[j + 1].s;
            && |t.fbs| == |s.fbs| && d < |t.fbs| && (vt, d) in t.res
            && Agree(t.fbs[d], t.res[(vt, d)], s.displays[d].w, s.displays[d].h, s.displays[d].stride)
            && (forall e :: 0 <= e < |s.fbs| && e != d ==> t.fbs[e] == s.fbs[e])
  {
    assert StepAt(states, steps, k);
    HandleStays(states, steps, k + 1, j, h);
    assert StepAt(states, steps, j);
    var g := states[j].s.displays[d];
    var covering := if steps[j].Fsync? then FullScreen(g.w, g.h) else damage;
    FullCoversAll(g);
    FlushAgrees(states[j], states[j + 1], h, vt, d, covering);
  }
}
