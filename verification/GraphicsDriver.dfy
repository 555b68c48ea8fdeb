/** The display scheme as an object, proved against the requests of module Graphics. */
module GraphicsDriver {
  import opened Raster
  import opened ConsoleDraw
  import opened Screen
  import opened Graphics

  /** Runs `Sync` on a copy of the framebuffer. */
  method SyncCopy(off: seq<u32>, fb: seq<u32>, g: Display, damage: seq<Damage>) returns (fb': seq<u32>)
    requires IsScreen(off, g.w, g.h) && IsScreen(fb, g.stride, g.h) && 0 < g.w <= g.stride && AllFit(damage, g.w, g.h)
    ensures fb' == Synced(fb, off, g.w, g.h, g.stride, damage)
  {
    var source := new u32[|off|](i requires 0 <= i < |off| => off[i]);
    var target := new u32[|fb|](i requires 0 <= i < |fb| => fb[i]);
    assert source[..] == off && target[..] == fb;
    Sync(source, g.w, g.h, target, g.stride, damage);
    fb' := target[..];
  }

  /** Pixel memory is held by value here: `vtsRes` per (VT, display), `fbs` per display. */
  class GraphicsScheme {
    const displays: seq<Display>
    var activeVt: nat
    var vtsRes: Resources
    var handles: map<nat, Handle>
    var nextId: nat
    var fbs: seq<seq<u32>>

    ghost function State(): Graphics.State
      reads this
    {
      Graphics.State(displays, activeVt, vtsRes, handles, nextId, fbs)
    }

    ghost predicate Valid()
      reads this
    {
      Shape(State())
    }

    constructor (displays: seq<Display>, fbs: seq<seq<u32>>)
      requires Shape(Graphics.State(displays, 0, map[], map[], 0, fbs))
      ensures Valid() && State() == Graphics.State(displays, 0, map[], map[], 0, fbs)
    {
      this.displays, this.fbs := displays, fbs;
      activeVt, vtsRes, handles, nextId := 0, map[], map[], 0;
    }

    /** The entry-or-insert of `open` and of activation: a VT's resource for a display, blank when new. */
    method EnsureResource(vt: nat, d: nat)
      requires Valid() && d < |displays|
      modifies this`vtsRes
      ensures Valid() && vtsRes == WithResource(displays, old(vtsRes), vt, d)
    {
      AddOk(displays, vtsRes, vt, d);
      if (vt, d) !in vtsRes {
        vtsRes := vtsRes[(vt, d) := Blank(displays[d])];
      }
    }

    /** Copies the damaged part of a resource to its display. */
    method Flush(vt: nat, d: nat, damage: seq<Damage>)
      requires Valid() && d < |displays| && (vt, d) in vtsRes && FitDisplay(damage, displays[d])
      modifies this`fbs
      ensures Valid() && State() == Show(old(State()), d, vtsRes[(vt, d)], damage)
    {
      assert ResourceOk(displays, d, vtsRes[(vt, d)]);
      var fb := SyncCopy(vtsRes[(vt, d)], fbs[d], displays[d], damage);
      fbs := fbs[d := fb];
    }

    method ActivateDisplay(vt: nat, d: nat)
      requires Valid() && d < |displays|
      modifies this
      ensures Valid()
      ensures var res := WithResource(displays, old(vtsRes), vt, d);
              State() == Show(old(State()).(res := res), d, res[(vt, d)], FullScreen(displays[d].w, displays[d].h)).(active := vt)
    {
      EnsureResource(vt, d);
      Flush(vt, d, FullScreen(displays[d].w, displays[d].h));
      activeVt := vt;
    }

    /** A VT becomes active: every display gets its resource for that VT, redrawn whole. */
    method HandleActivate(vt: nat)
      requires Valid()
      modifies this
      ensures Valid() && Activated(old(State()), State(), vt)
    {
      ghost var s := State();
      var n := |displays|;
      var d := 0;
      while d < n
        invariant 0 <= d <= n && Valid() && Shape(s) && ActivatedTo(s, State(), vt, d)
      {
        ghost var s1 := State();
        ActivateDisplay(vt, d);
        ActivateOne(s, s1, State(), vt, d);
        d := d + 1;
      }
    }

    /** Opens a screen of a VT by display number. */
    method Open(vt: nat, id: nat) returns (reply: Reply)
      requires Valid()
      modifies this
      ensures Valid() && (State(), reply) == Opened(old(State()), vt, id)
    {
      OpenedShape(State(), vt, id);
      if id >= |displays| {
        return EINVAL;
      }
      EnsureResource(vt, id);
      nextId := nextId + 1;
      handles := handles[nextId := Handle(vt, id)];
      return Ok(nextId);
    }

    /** Flushes the whole screen, unless the handle's VT is in the background. */
    method Fsync(id: nat) returns (reply: Reply)
      requires Valid()
      modifies this`fbs
      ensures Valid() && reply == (if id in handles then Ok(0) else EBADF)
      ensures State() == Flushed(old(State()), id, if id in handles then FullOf(old(State()), handles[id].screen) else [])
    {
      if id !in handles {
        return EBADF;
      }
      var h := handles[id];
      if h.vt != activeVt {
        return Ok(0);
      }
      assert ResourceOk(displays, h.screen, vtsRes[(h.vt, h.screen)]);
      Flush(h.vt, h.screen, FullScreen(displays[h.screen].w, displays[h.screen].h));
      return Ok(0);
    }

    /** Flushes the listed rectangles, unless the handle's VT is in the background; `bytes` is the request's length. */
    method Write(id: nat, damage: seq<Damage>, bytes: nat) returns (reply: Reply)
      requires Valid()
      requires id in handles ==> FitDisplay(damage, DisplayOf(State(), handles[id].screen))
      modifies this`fbs
      ensures Valid() && reply == (if id in handles then Ok(bytes) else EBADF)
      ensures State() == Flushed(old(State()), id, damage)
    {
      if id !in handles {
        return EBADF;
      }
      var h := handles[id];
      if h.vt != activeVt {
        return Ok(bytes);
      }
      assert ResourceOk(displays, h.screen, vtsRes[(h.vt, h.screen)]);
      Flush(h.vt, h.screen, damage);
      return Ok(bytes);
    }

    method Close(id: nat) returns (reply: Reply)
      requires Valid()
      modifies this`handles
      ensures Valid() && State() == old(State()).(handles := old(handles) - {id})
      ensures reply == if id in old(handles) then Ok(0) else EBADF
    {
      reply := if id in handles then Ok(0) else EBADF;
      handles := handles - {id};
    }
  }
}
