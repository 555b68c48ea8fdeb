/**
 The virtual-terminal aware display scheme: each VT draws into its own resource, only the
 active VT is shown, flushes of background VTs are dropped and made good on activation.
 */
module Graphics {
  import opened Bits
  import opened Raster
  import opened ConsoleDraw
  import opened Screen

  datatype Display = Display(w: nat, h: nat, stride: nat)

  datatype Handle = Handle(vt: nat, screen: nat)

  /** Each VT's resource for each display, keyed by (VT, display). */
  type Resources = map<(nat, nat), seq<u32>>

  datatype State = State(
    displays: seq<Display>,
    active: nat,
    res: Resources,
    handles: map<nat, Handle>,
    nextId: nat,
    fbs: seq<seq<u32>>)

  datatype Reply = Ok(value: nat) | EINVAL | EBADF

  function Blank(d: Display): (s: seq<u32>)
    ensures IsScreen(s, d.w, d.h)
  {
    seq(Off(d.w, d.h), _ => 0)
  }

  // ---- What each request does ----

  /** The resources once the VT has one for display `d`: its own, or a blank one. */
  function WithResource(displays: seq<Display>, res: Resources, vt: nat, d: nat): Resources
    requires d < |displays|
  {
    if (vt, d) in res then res else res[(vt, d) := Blank(displays[d])]
  }

  /** The resources once the VT has one for every display below `n`. */
  function Filled(displays: seq<Display>, res: Resources, vt: nat, n: nat): Resources
    requires n <= |displays|
  {
    if n == 0 then res else WithResource(displays, Filled(displays, res, vt, n - 1), vt, n - 1)
  }

  ghost function Show(s: State, d: nat, off: seq<u32>, damage: seq<Damage>): State
    requires d < |s.displays| == |s.fbs| && s.displays[d].stride > 0
  {
    var g := s.displays[d];
    s.(fbs := s.fbs[d := Synced(s.fbs[d], off, g.w, g.h, g.stride, damage)])
  }

  /** Activation redraws every display from the VT's resources; with no display it does nothing. */
  ghost predicate Activated(s: State, s': State, vt: nat)
    requires Shape(s)
  {
    ActivatedTo(s, s', vt, |s.displays|)
  }

  /** Activation after the first `n` displays. */
  ghost predicate ActivatedTo(s: State, s': State, vt: nat, n: nat)
    requires Shape(s) && n <= |s.displays|
  {
    && s' == s.(active := if n > 0 then vt else s.active, res := Filled(s.displays, s.res, vt, n), fbs := s'.fbs)
    && |s'.fbs| == |s.fbs|
    && (forall d :: 0 <= d < n ==> (vt, d) in s'.res && s'.fbs[d] == Redrawn(s.displays[d], s.fbs[d], s'.res[(vt, d)]))
    && (forall d :: n <= d < |s.fbs| ==> s'.fbs[d] == s.fbs[d])
  }

  lemma ActivateOne(s: State, s1: State, s2: State, vt: nat, d: nat)
    requires Shape(s) && d < |s.displays| && ActivatedTo(s, s1, vt, d)
    requires var res := WithResource(s.displays, s1.res, vt, d);
             var g := s.displays[d];
             s2 == Show(s1.(res := res), d, res[(vt, d)], FullScreen(g.w, g.h)).(active := vt)
    ensures ActivatedTo(s, s2, vt, d + 1)
  {
  }

  ghost function Redrawn(g: Display, fb: seq<u32>, off: seq<u32>): seq<u32>
    requires g.stride > 0
  {
    Synced(fb, off, g.w, g.h, g.stride, FullScreen(g.w, g.h))
  }

  function Opened(s: State, vt: nat, id: nat): (State, Reply) {
    if id >= |s.displays| then (s, EINVAL)
    else
      (s.(res := WithResource(s.displays, s.res, vt, id), nextId := s.nextId + 1, handles := s.handles[s.nextId + 1 := Handle(vt, id)]), Ok(s.nextId + 1))
  }

  /** A flush through a handle: the whole screen (`None`) or the listed rectangles; dropped for a background VT. */
  ghost function Flushed(s: State, id: nat, damage: seq<Damage>): State
    requires Shape(s)
  {
    if id in s.handles && s.handles[id].vt == s.active
    then Show(s, s.handles[id].screen, s.res[(s.active, s.handles[id].screen)], damage)
    else s
  }

  /** A client stores a pixel of its own resource through its mapping. */
  function Stored(s: State, vt: nat, d: nat, y: nat, x: nat, color: u32): State
    requires (vt, d) in s.res && d < |s.displays|
  {
    var p := Px(s.displays[d].w, y, x);
    var off: seq<u32> := if p < |s.res[(vt, d)]| then s.res[(vt, d)][p := color] else s.res[(vt, d)];
    s.(res := s.res[(vt, d) := off])
  }

  // ---- Invariant ----

  ghost predicate ResourceOk(displays: seq<Display>, d: nat, off: seq<u32>) {
    d < |displays| && IsScreen(off, displays[d].w, displays[d].h)
  }

  ghost predicate AllOk(displays: seq<Display>, res: Resources) {
    forall k :: k in res ==> ResourceOk(displays, k.1, res[k])
  }

  ghost predicate Shape(s: State) {
    && |s.fbs| == |s.displays|
    && (forall d :: 0 <= d < |s.displays| ==>
          0 < s.displays[d].w <= s.displays[d].stride && s.displays[d].w <= I32_MAX && s.displays[d].h <= I32_MAX && IsScreen(s.fbs[d], s.displays[d].stride, s.displays[d].h))
    && AllOk(s.displays, s.res)
    && (forall id :: id in s.handles ==> (s.handles[id].vt, s.handles[id].screen) in s.res)
  }

  /** `dirty[d]` holds the pixels of the shown resource of display `d` stored since a flush that covered them. */
  datatype System = System(s: State, activated: bool, dirty: seq<set<(nat, nat)>>)

  /** Display `d` shows the active VT's resource wherever the VT has not stored since. */
  ghost predicate Shows(t: System, d: nat)
    requires Shape(t.s) && d < |t.s.displays| == |t.dirty|
  {
    && (t.s.active, d) in t.s.res
    && var g := t.s.displays[d];
       forall y: nat, x: nat :: y < g.h && x < g.w && (y, x) !in t.dirty[d] ==>
         At(t.s.fbs[d], g.stride, y, x) == At(t.s.res[(t.s.active, d)], g.w, y, x)
  }

  ghost predicate Inv(t: System) {
    && Shape(t.s) && |t.dirty| == |t.s.displays|
    && (t.activated ==> forall d :: 0 <= d < |t.s.displays| ==> Shows(t, d))
  }

  datatype Step =
    | Activate(vt: nat)
    | Deactivate(vt: nat)
    | Open(vt: nat, id: nat)
    | Fsync(id: nat)
    | Write(id: nat, damage: seq<Damage>)
    | Close(id: nat)
    | Store(vt: nat, d: nat, y: nat, x: nat, color: u32)

  ghost function Uncovered(dirty: set<(nat, nat)>, g: Display, damage: seq<Damage>): set<(nat, nat)> {
    set p | p in dirty && !Covered(damage, g.w, g.h, p.0, p.1)
  }

  ghost predicate NextStep(t: System, t': System, step: Step)
    requires Shape(t.s) && |t.dirty| == |t.s.displays|
  {
    match step
    case Activate(vt) =>
      Activated(t.s, t'.s, vt) && t'.activated && t'.dirty == seq(|t.dirty|, _ => {})
    case Deactivate(_) => t' == t
    case Open(vt, id) => t' == t.(s := Opened(t.s, vt, id).0)
    case Fsync(id) => FlushStep(t, t', id, if id in t.s.handles then FullOf(t.s, t.s.handles[id].screen) else [])
    case Write(id, damage) =>
      && (id in t.s.handles ==> FitDisplay(damage, DisplayOf(t.s, t.s.handles[id].screen)))
      && FlushStep(t, t', id, damage)
    case Close(id) => t' == t.(s := t.s.(handles := t.s.handles - {id}))
    case Store(vt, d, y, x, color) =>
      && (vt, d) in t.s.res && d < |t.s.displays|
      && y < t.s.displays[d].h && x < t.s.displays[d].w
      && t' == t.(
           s := Stored(t.s, vt, d, y, x, color),
           dirty := if vt == t.s.active then t.dirty[d := t.dirty[d] + {(y, x)}] else t.dirty)
  }

  ghost predicate FitDisplay(damage: seq<Damage>, g: Display) {
    AllFit(damage, g.w, g.h)
  }

  function DisplayOf(s: State, d: nat): Display {
    if d < |s.displays| then s.displays[d] else Display(0, 0, 0)
  }

  function FullOf(s: State, d: nat): seq<Damage> {
    FullScreen(DisplayOf(s, d).w, DisplayOf(s, d).h)
  }

  ghost predicate FlushStep(t: System, t': System, id: nat, damage: seq<Damage>)
    requires Shape(t.s) && |t.dirty| == |t.s.displays|
  {
    && t'.s == Flushed(t.s, id, damage) && t'.activated == t.activated
    && t'.dirty ==
       if id in t.s.handles && t.s.handles[id].vt == t.s.active
       then
         var d := t.s.handles[id].screen;
         t.dirty[d := Uncovered(t.dirty[d], DisplayOf(t.s, d), damage)]
       else t.dirty
  }

  // ---- Every step keeps the invariant ----

  lemma AddOk(displays: seq<Display>, res: Resources, vt: nat, d: nat)
    requires AllOk(displays, res) && d < |displays|
    ensures AllOk(displays, WithResource(displays, res, vt, d))
  {
    assert ResourceOk(displays, d, Blank(displays[d]));
  }

  lemma {:induction false} FilledOk(displays: seq<Display>, res: Resources, vt: nat, n: nat)
    requires n <= |displays| && AllOk(displays, res)
    ensures AllOk(displays, Filled(displays, res, vt, n))
    ensures forall d: nat :: d < n ==> (vt, d) in Filled(displays, res, vt, n)
    ensures forall k :: k in res ==> k in Filled(displays, res, vt, n) && Filled(displays, res, vt, n)[k] == res[k]
  {
    if n > 0 {
      FilledOk(displays, res, vt, n - 1);
      AddOk(displays, Filled(displays, res, vt, n - 1), vt, n - 1);
    }
  }

  lemma ActivateKeeps(t: System, t': System, vt: nat)
    requires Inv(t) && NextStep(t, t', Activate(vt))
    ensures Inv(t')
  {
    var s, s' := t.s, t'.s;
    FilledOk(s.displays, s.res, vt, |s.displays|);
    forall d | 0 <= d < |s'.displays|
      ensures IsScreen(s'.fbs[d], s'.displays[d].stride, s'.displays[d].h)
    {
    }
    forall d | 0 <= d < |s'.displays|
      ensures Shows(t', d)
    {
      var g := s.displays[d];
      RedrawAgrees(s.fbs[d], s'.res[(vt, d)], g.w, g.h, g.stride);
    }
  }

  lemma OpenedShape(s: State, vt: nat, id: nat)
    requires Shape(s)
    ensures Shape(Opened(s, vt, id).0)
  {
    if id < |s.displays| {
      AddOk(s.displays, s.res, vt, id);
    }
  }

  lemma OpenKeeps(t: System, t': System, vt: nat, id: nat)
    requires Inv(t) && NextStep(t, t', Open(vt, id))
    ensures Inv(t')
  {
    OpenedShape(t.s, vt, id);
    if t.activated {
      forall d | 0 <= d < |t.s.displays| ensures Shows(t', d) {
        assert Shows(t, d);
      }
    }
  }

  lemma FlushKeeps(t: System, t': System, id: nat, damage: seq<Damage>)
    requires Inv(t) && FlushStep(t, t', id, damage)
    ensures Inv(t')
  {
    if id in t.s.handles && t.s.handles[id].vt == t.s.active {
      var e := t.s.handles[id].screen;
      var off := t.s.res[(t.s.active, e)];
      assert ResourceOk(t.s.displays, e, off);
      if t.activated {
        forall d | 0 <= d < |t.s.displays| ensures Shows(t', d) {
          assert Shows(t, d);
          if d == e {
            FlushShows(t.s.fbs[d], off, t.s.displays[d], damage, t.dirty[d]);
          }
        }
      }
    }
  }

  lemma FlushShows(fb: seq<u32>, off: seq<u32>, g: Display, damage: seq<Damage>, dirty: set<(nat, nat)>)
    requires IsScreen(fb, g.stride, g.h) && 0 < g.w <= g.stride
    requires forall y: nat, x: nat :: y < g.h && x < g.w && (y, x) !in dirty ==> At(fb, g.stride, y, x) == At(off, g.w, y, x)
    ensures forall y: nat, x: nat :: y < g.h && x < g.w && (y, x) !in Uncovered(dirty, g, damage) ==>
              At(Synced(fb, off, g.w, g.h, g.stride, damage), g.stride, y, x) == At(off, g.w, y, x)
  {
    forall y: nat, x: nat | y < g.h && x < g.w && (y, x) !in Uncovered(dirty, g, damage)
      ensures At(Synced(fb, off, g.w, g.h, g.stride, damage), g.stride, y, x) == At(off, g.w, y, x)
    {
      SyncedAt(fb, off, g.w, g.h, g.stride, damage, y, x);
      assert (y, x) in dirty ==> Covered(damage, g.w, g.h, y, x);
    }
  }

  lemma StoreKeeps(t: System, t': System, vt: nat, e: nat, y: nat, x: nat, color: u32)
    requires Inv(t) && NextStep(t, t', Store(vt, e, y, x, color))
    ensures Inv(t')
  {
    assert ResourceOk(t.s.displays, e, t.s.res[(vt, e)]);
    if t.activated {
      forall d | 0 <= d < |t.s.displays| ensures Shows(t', d) {
        assert Shows(t, d);
        if d == e {
          StoreShows(t.s.res[(vt, e)], t.s.displays[e], y, x, color);
        }
      }
    }
  }

  lemma StoreShows(off: seq<u32>, g: Display, y: nat, x: nat, color: u32)
    requires IsScreen(off, g.w, g.h) && y < g.h && x < g.w
    ensures Px(g.w, y, x) < |off|
    ensures forall r: nat, c: nat :: r < g.h && c < g.w && (r, c) != (y, x) ==>
              At(off[Px(g.w, y, x) := color], g.w, r, c) == At(off, g.w, r, c)
  {
    RowSegment(g.w, g.h, y, x, 1);
  }

  lemma StepKeeps(t: System, t': System, step: Step)
    requires Inv(t) && NextStep(t, t', step)
    ensures Inv(t')
  {
    match step
    case Activate(vt) => ActivateKeeps(t, t', vt);
    case Open(vt, id) => OpenKeeps(t, t', vt, id);
    case Fsync(id) => FlushKeeps(t, t', id, if id in t.s.handles then FullOf(t.s, t.s.handles[id].screen) else []);
    case Write(id, damage) => FlushKeeps(t, t', id, damage);
    case Store(vt, d, y, x, color) => StoreKeeps(t, t', vt, d, y, x, color);
    case Deactivate(_) =>
    case Close(id) =>
      if t.activated {
        forall d | 0 <= d < |t.s.displays| ensures Shows(t', d) {
          assert Shows(t, d);
        }
      }
  }

  // ---- Runs ----

  ghost predicate Init(t: System) {
    && Shape(t.s) && t.s.active == 0 && t.s.res == map[] && t.s.handles == map[]
    && !t.activated && t.dirty == seq(|t.s.displays|, _ => {})
  }

  ghost predicate StepAt(states: seq<System>, steps: seq<Step>, i: nat)
    requires i < |steps| < |states|
  {
    Shape(states[i].s) && |states[i].dirty| == |states[i].s.displays| && NextStep(states[i], states[i + 1], steps[i])
  }

  ghost predicate Run(states: seq<System>, steps: seq<Step>) {
    && |states| == |steps| + 1 && Init(states[0])
    && forall i {:trigger StepAt(states, steps, i)} :: 0 <= i < |steps| ==> StepAt(states, steps, i)
  }

  lemma {:induction false} RunKeepsInv(states: seq<System>, steps: seq<Step>, k: nat)
    requires Run(states, steps) && k < |states|
    ensures Inv(states[k])
    ensures (exists i :: 0 <= i < k && steps[i].Activate?) ==> states[k].activated
  {
    if k > 0 {
      RunKeepsInv(states, steps, k - 1);
      assert StepAt(states, steps, k - 1);
      StepKeeps(states[k - 1], states[k], steps[k - 1]);
      assert states[k - 1].activated ==> states[k].activated;
    }
  }

  /**
   In every run, once a VT has been activated each display shows the active VT's resource
   on every pixel not stored since a flush that covered it.
   */
  lemma DisplaysCoherent(states: seq<System>, steps: seq<Step>, k: nat, d: nat)
    requires Run(states, steps) && k < |states| && d < |states[k].s.displays|
    requires exists i :: 0 <= i < k && steps[i].Activate?
    ensures Inv(states[k]) && Shows(states[k], d)
  {
    RunKeepsInv(states, steps, k);
  }

  /** A background VT never changes what is shown: its stores and flushes leave every framebuffer alone. */
  lemma BackgroundInvisible(states: seq<System>, steps: seq<Step>, k: nat)
    requires Run(states, steps) && k < |steps|
    requires var s := states[k].s;
             match steps[k]
             case Activate(_) => false
             case Fsync(id) => id in s.handles && s.handles[id].vt != s.active
             case Write(id, _) => id in s.handles && s.handles[id].vt != s.active
             case _ => true
    ensures states[k + 1].s.fbs == states[k].s.fbs
  {
    assert StepAt(states, steps, k);
  }

  /** Activation makes good every flush the VT missed: all its pixels are on every display. */
  lemma ActivationCatchesUp(states: seq<System>, steps: seq<Step>, k: nat, d: nat)
    requires Run(states, steps) && k < |steps| && steps[k].Activate? && d < |states[k].s.displays|
    ensures var s, vt := states[k + 1].s, steps[k].vt;
            && s.displays == states[k].s.displays && |s.fbs| == |s.displays|
            && s.active == vt && (vt, d) in s.res
            && Agree(s.fbs[d], s.res[(vt, d)], s.displays[d].w, s.displays[d].h, s.displays[d].stride)
            && (forall j :: j in states[k].s.res ==> j in s.res && s.res[j] == states[k].s.res[j])
  {
    RunKeepsInv(states, steps, k);
    RunKeepsInv(states, steps, k + 1);
    assert StepAt(states, steps, k);
    var s := states[k].s;
    FilledOk(s.displays, s.res, steps[k].vt, |s.displays|);
    assert Shows(states[k + 1], d);
  }

  // ---- A console on a terminal ----

  /** The steps from `k` to `m` are stores of one client into one resource, in the listed text rows. */
  ghost predicate StoresRows(steps: seq<Step>, k: nat, m: nat, vt: nat, d: nat, rows: set<nat>)
    requires k <= m <= |steps|
  {
    forall i :: k <= i < m ==> steps[i].Store? && steps[i].vt == vt && steps[i].d == d && steps[i].y / 16 in rows
  }

  /** Stores in listed rows dirty those rows only, and change neither displays, framebuffers nor what is active. */
  lemma {:induction false} StoresDirty(states: seq<System>, steps: seq<Step>, k: nat, m: nat, vt: nat, d: nat, rows: set<nat>)
    requires Run(states, steps) && k <= m <= |steps| && StoresRows(steps, k, m, vt, d, rows) && d < |states[k].dirty|
    ensures states[m].s.displays == states[k].s.displays && states[m].s.active == states[k].s.active
    ensures states[m].s.handles == states[k].s.handles && states[m].activated == states[k].activated
    ensures |states[m].dirty| == |states[k].dirty|
    ensures forall p :: p in states[m].dirty[d] && p.0 / 16 !in rows ==> p in states[k].dirty[d]
    decreases m - k
  {
    if k < m {
      StoresDirty(states, steps, k, m - 1, vt, d, rows);
      assert StepAt(states, steps, m - 1);
      assert steps[m - 1].Store? && steps[m - 1].y / 16 in rows;
    }
  }

  /** Dirty pixels are pixels of the display. */
  ghost predicate OnScreen(dirty: set<(nat, nat)>, g: Display) {
    forall p :: p in dirty ==> p.0 < g.h && p.1 < g.w
  }

  /** Writing the runs of some rows leaves nothing in these rows unflushed. */
  lemma WriteClears(t: System, t': System, id: nat, d: nat, damage: seq<Damage>, rows: set<nat>)
    requires Inv(t) && NextStep(t, t', Write(id, damage)) && d < |t.dirty| && OnScreen(t.dirty[d], t.s.displays[d])
    requires id in t.s.handles && t.s.handles[id] == Handle(t.s.active, d)
    requires IsRuns(damage, rows, t.s.displays[d].w) && SmallRows(rows)
    ensures t'.s == Flushed(t.s, id, damage) && |t'.dirty| == |t.dirty|
    ensures forall p :: p in t'.dirty[d] ==> p in t.dirty[d] && p.0 / 16 !in rows
  {
    var g := t.s.displays[d];
    forall p | p in t'.dirty[d] ensures p.0 / 16 !in rows {
      if p.0 / 16 in rows {
        RowsCover(damage, rows, g.w, g.h, p.0, p.1);
      }
    }
  }

  ghost predicate DirtyOnScreen(t: System) {
    |t.dirty| == |t.s.displays| && forall d :: 0 <= d < |t.dirty| ==> OnScreen(t.dirty[d], t.s.displays[d])
  }

  lemma FlushDirty(t: System, t': System, id: nat, damage: seq<Damage>)
    requires Shape(t.s) && DirtyOnScreen(t) && FlushStep(t, t', id, damage)
    ensures DirtyOnScreen(t')
  {
  }

  lemma StoreDirty(t: System, t': System, vt: nat, d: nat, y: nat, x: nat, color: u32)
    requires Shape(t.s) && DirtyOnScreen(t) && NextStep(t, t', Store(vt, d, y, x, color))
    ensures DirtyOnScreen(t')
  {
    assert OnScreen(t.dirty[d] + {(y, x)}, t.s.displays[d]);
  }

  lemma DirtyStep(t: System, t': System, step: Step)
    requires Shape(t.s) && DirtyOnScreen(t) && NextStep(t, t', step)
    ensures DirtyOnScreen(t')
  {
    match step
    case Store(vt, d, y, x, color) => StoreDirty(t, t', vt, d, y, x, color);
    case Fsync(id) => FlushDirty(t, t', id, if id in t.s.handles then FullOf(t.s, t.s.handles[id].screen) else []);
    case Write(id, damage) => FlushDirty(t, t', id, damage);
    case _ =>
  }

  lemma {:induction false} DirtyRun(states: seq<System>, steps: seq<Step>, k: nat)
    requires Run(states, steps) && k < |states|
    ensures DirtyOnScreen(states[k])
  {
    if k > 0 {
      DirtyRun(states, steps, k - 1);
      assert StepAt(states, steps, k - 1);
      DirtyStep(states[k - 1], states[k], steps[k - 1]);
    }
  }

  /** What the write of the reported damage leaves unflushed. */
  lemma ConsoleDirty(states: seq<System>, steps: seq<Step>, k: nat, m: nat, id: nat, d: nat, rows: set<nat>, damage: seq<Damage>)
    requires Run(states, steps) && k <= m < |steps| && d < |states[k].dirty| && d < |states[k].s.displays|
    requires id in states[k].s.handles && states[k].s.handles[id] == Handle(states[k].s.active, d)
    requires StoresRows(steps, k, m, states[k].s.active, d, rows) && steps[m] == Write(id, damage)
    requires IsRuns(damage, rows, states[k].s.displays[d].w) && SmallRows(rows)
    ensures |states[m + 1].dirty| == |states[k].dirty| && states[m + 1].s.displays == states[k].s.displays
    ensures states[m + 1].s.active == states[k].s.active && states[m + 1].s.res == states[m].s.res
    ensures states[m + 1].activated == states[k].activated
    ensures forall p :: p in states[m + 1].dirty[d] ==> p in states[k].dirty[d] && p.0 / 16 !in rows
  {
    StoresDirty(states, steps, k, m, states[k].s.active, d, rows);
    assert Inv(states[m]) by { RunKeepsInv(states, steps, m); }
    assert OnScreen(states[m].dirty[d], states[m].s.displays[d]) by { DirtyRun(states, steps, m); }
    assert NextStep(states[m], states[m + 1], Write(id, damage)) by { assert StepAt(states, steps, m); }
    WriteClears(states[m], states[m + 1], id, d, damage, rows);
  }

  /** One run goes on from another. */
  ghost predicate Continues(states: seq<System>, steps: seq<Step>, states': seq<System>, steps': seq<Step>) {
    Run(states', steps') && states <= states' && steps <= steps'
  }

  /** A step from the last state makes the run longer. */
  lemma ContinueStep(states: seq<System>, steps: seq<Step>, t': System, step: Step)
    requires Run(states, steps)
    requires var t := states[|steps|]; Shape(t.s) && |t.dirty| == |t.s.displays| && NextStep(t, t', step)
    ensures Continues(states, steps, states + [t'], steps + [step])
  {
    var states', steps' := states + [t'], steps + [step];
    forall i: nat | i < |steps'| ensures StepAt(states', steps', i) {
      assert states'[i] == states[i];
      if i < |steps| {
        assert StepAt(states, steps, i) && states'[i + 1] == states[i + 1] && steps'[i] == steps[i];
      } else {
        assert states'[i + 1] == t' && steps'[i] == step;
      }
    }
  }

  ghost function Painted(t: System, d: nat, y: nat, x: nat, color: u32): System
    requires d < |t.s.displays| == |t.dirty| && (t.s.active, d) in t.s.res
  {
    t.(s := Stored(t.s, t.s.active, d, y, x, color), dirty := t.dirty[d := t.dirty[d] + {(y, x)}])
  }

  /** A resource and a picture of the same size differ at most at the listed pixels, all of them in the listed rows. */
  ghost predicate DiffersAt(off: seq<u32>, target: seq<u32>, g: Display, diff: set<(nat, nat)>, rows: set<nat>) {
    && |target| == |off|
    && (forall y: nat, x: nat :: y < g.h && x < g.w && (y, x) !in diff ==> At(off, g.w, y, x) == At(target, g.w, y, x))
    && (forall p :: p in diff ==> p.0 < g.h && p.1 < g.w && p.0 / 16 in rows)
  }

  lemma PaintOne(off: seq<u32>, target: seq<u32>, g: Display, diff: set<(nat, nat)>, rows: set<nat>, y: nat, x: nat)
    requires IsScreen(off, g.w, g.h) && DiffersAt(off, target, g, diff, rows) && (y, x) in diff
    ensures Px(g.w, y, x) < |off|
    ensures DiffersAt(off[Px(g.w, y, x) := At(target, g.w, y, x)], target, g, diff - {(y, x)}, rows)
  {
    StoreShows(off, g, y, x, At(target, g.w, y, x));
  }

  /** Pixel by pixel a client can turn its resource into any picture that differs from it in some rows only. */
  lemma {:induction false} Paint(states: seq<System>, steps: seq<Step>, d: nat, target: seq<u32>, diff: set<(nat, nat)>, rows: set<nat>)
    returns (states': seq<System>, steps': seq<Step>)
    requires Run(states, steps) && d < |states[|steps|].s.displays|
    requires var s := states[|steps|].s;
             (s.active, d) in s.res && DiffersAt(s.res[(s.active, d)], target, s.displays[d], diff, rows)
    ensures Continues(states, steps, states', steps')
    ensures StoresRows(steps', |steps|, |steps'|, states[|steps|].s.active, d, rows)
    ensures var s, s' := states[|steps|].s, states'[|steps'|].s;
            s'.active == s.active && (s.active, d) in s'.res && s'.res[(s.active, d)] == target
    decreases diff
  {
    var t := states[|steps|];
    assert Inv(t) by { RunKeepsInv(states, steps, |steps|); }
    var g, off := t.s.displays[d], t.s.res[(t.s.active, d)];
    assert ResourceOk(t.s.displays, d, off);
    if diff == {} {
      SameByRows(off, target, g.w, g.h);
      states', steps' := states, steps;
    } else {
      var p :| p in diff;
      var color := At(target, g.w, p.0, p.1);
      var step := Store(t.s.active, d, p.0, p.1, color);
      var t' := Painted(t, d, p.0, p.1, color);
      PaintOne(off, target, g, diff, rows, p.0, p.1);
      ContinueStep(states, steps, t', step);
      assert (states + [t'])[|steps| + 1] == t';
      states', steps' := Paint(states + [t'], steps + [step], d, target, diff - {p}, rows);
      PaintStores(steps, steps', step, t.s.active, d, rows);
    }
  }

  lemma PaintStores(steps: seq<Step>, steps': seq<Step>, step: Step, vt: nat, d: nat, rows: set<nat>)
    requires steps + [step] <= steps' && step.Store? && step.vt == vt && step.d == d && step.y / 16 in rows
    requires StoresRows(steps', |steps| + 1, |steps'|, vt, d, rows)
    ensures StoresRows(steps', |steps|, |steps'|, vt, d, rows)
  {
    assert steps'[|steps|] == step;
  }

  lemma {:induction false} FilmSize(ops: seq<Op>, frames: seq<seq<u32>>, w: nat, h: nat, font: seq<byte>, n: nat)
    requires IsFilm(ops, frames, w, h, font) && n <= |ops|
    ensures |frames[n]| == |frames[0]|
  {
    if n > 0 {
      FilmSize(ops, frames, w, h, font, n - 1);
      assert Played(ops[n - 1], frames[n - 1], frames[n], w, h, font);
    }
  }

  /** The pixels of a display in the given text rows. */
  ghost function RowPixels(g: Display, rows: set<nat>): set<(nat, nat)> {
    set y: nat, x: nat | y < g.h && x < g.w && y / 16 in rows :: (y, x)
  }

  /** What a film leaves different lies in the rows it reports. */
  lemma FilmDiffers(ops: seq<Op>, frames: seq<seq<u32>>, g: Display, font: seq<byte>)
    requires IsFilm(ops, frames, g.w, g.h, font) && AllInRange(ops, g.w)
    ensures DiffersAt(frames[0], frames[|ops|], g, RowPixels(g, AllRows(ops)), AllRows(ops))
  {
    FilmSize(ops, frames, g.w, g.h, font, |ops|);
    forall y: nat, x: nat | y < g.h && x < g.w && (y, x) !in RowPixels(g, AllRows(ops))
      ensures At(frames[0], g.w, y, x) == At(frames[|ops|], g.w, y, x)
    {
      FilmOutsideRows(ops, frames, g.w, g.h, font, y, x);
    }
  }

  ghost function Written(t: System, id: nat, damage: seq<Damage>): System
    requires Shape(t.s) && |t.dirty| == |t.s.displays| && id in t.s.handles
  {
    var d := t.s.handles[id].screen;
    t.(s := Flushed(t.s, id, damage),
       dirty := if t.s.handles[id].vt == t.s.active then t.dirty[d := Uncovered(t.dirty[d], DisplayOf(t.s, d), damage)] else t.dirty)
  }

  /** After stores in listed rows, writing the runs of these rows. */
  lemma WriteRows(states: seq<System>, steps: seq<Step>, k: nat, id: nat, d: nat, rows: set<nat>, damage: seq<Damage>)
    returns (states': seq<System>, steps': seq<Step>)
    requires Run(states, steps) && k <= |steps| && d < |states[k].dirty| && d < |states[k].s.displays|
    requires id in states[k].s.handles && states[k].s.handles[id] == Handle(states[k].s.active, d)
    requires StoresRows(steps, k, |steps|, states[k].s.active, d, rows)
    requires IsRuns(damage, rows, states[k].s.displays[d].w) && SmallRows(rows)
    ensures Continues(states, steps, states', steps') && steps' == steps + [Write(id, damage)]
    ensures var t, t' := states[k], states'[|steps'|];
            && |t'.dirty| == |t.dirty| && t'.s.displays == t.s.displays && t'.s.active == t.s.active
            && t'.s.res == states[|steps|].s.res && t'.activated == t.activated
            && (forall p :: p in t'.dirty[d] ==> p in t.dirty[d] && p.0 / 16 !in rows)
  {
    var u := states[|steps|];
    StoresDirty(states, steps, k, |steps|, states[k].s.active, d, rows);
    assert Inv(u) by { RunKeepsInv(states, steps, |steps|); }
    RunsFit(damage, rows, u.s.displays[d].w, u.s.displays[d].h);
    ContinueStep(states, steps, Written(u, id, damage), Write(id, damage));
    states', steps' := states + [Written(u, id, damage)], steps + [Write(id, damage)];
    assert StoresRows(steps', k, |steps|, states[k].s.active, d, rows);
    ConsoleDirty(states', steps', k, |steps|, id, d, rows, damage);
  }

  /** What is shown of a picture once nothing of it is unflushed. */
  lemma ShownWhenClean(states: seq<System>, steps: seq<Step>, d: nat)
    requires Run(states, steps) && d < |states[|steps|].s.displays| && states[|steps|].activated
    ensures var s := states[|steps|].s;
            && d < |states[|steps|].dirty| && d < |s.fbs| && (s.active, d) in s.res
            && (states[|steps|].dirty[d] == {} ==>
                  Agree(s.fbs[d], s.res[(s.active, d)], s.displays[d].w, s.displays[d].h, s.displays[d].stride))
  {
    RunKeepsInv(states, steps, |steps|);
    assert Shows(states[|steps|], d);
  }

  /**
   The whole stack: whatever film of operations inside the columns a console draws, it can draw it by storing, in the rows
   it reports, into the active terminal's resource, and once it has then written the damage it reports nothing in those
   rows is unflushed; if nothing was before, the display shows the film's last frame.
   */
  lemma ConsoleWriteShown(states: seq<System>, steps: seq<Step>, id: nat, d: nat,
                          ops: seq<Op>, frames: seq<seq<u32>>, font: seq<byte>, damage: seq<Damage>)
    returns (states': seq<System>, steps': seq<Step>)
    requires Run(states, steps) && d < |states[|steps|].s.displays| && states[|steps|].activated
    requires var s := states[|steps|].s;
             && id in s.handles && s.handles[id] == Handle(s.active, d)
             && IsFilm(ops, frames, s.displays[d].w, s.displays[d].h, font) && AllInRange(ops, s.displays[d].w)
             && (s.active, d) in s.res && s.res[(s.active, d)] == frames[0]
             && IsRuns(damage, AllRows(ops), s.displays[d].w) && SmallRows(AllRows(ops))
    ensures Continues(states, steps, states', steps') && |steps| < |steps'| && steps'[|steps'| - 1] == Write(id, damage)
    ensures StoresRows(steps', |steps|, |steps'| - 1, states[|steps|].s.active, d, AllRows(ops))
    ensures var t, t' := states[|steps|], states'[|steps'|];
            var g := t.s.displays[d];
            && d < |t.dirty| == |t'.dirty| && d < |t'.s.fbs|
            && (t.s.active, d) in t'.s.res && t'.s.res[(t.s.active, d)] == frames[|ops|]
            && (forall p :: p in t'.dirty[d] ==> p in t.dirty[d] && p.0 / 16 !in AllRows(ops))
            && (t.dirty[d] == {} ==> Agree(t'.s.fbs[d], frames[|ops|], g.w, g.h, g.stride))
  {
    var t, rows := states[|steps|], AllRows(ops);
    assert Inv(t) by { RunKeepsInv(states, steps, |steps|); }
    var g := t.s.displays[d];
    FilmDiffers(ops, frames, g, font);
    var drawn, stores := Paint(states, steps, d, frames[|ops|], RowPixels(g, rows), rows);
    states', steps' := WriteRows(drawn, stores, |steps|, id, d, rows, damage);
    ShownWhenClean(states', steps', d);
  }
}
