/** The offscreen buffer of a display and its synchronisation to the framebuffer, damage by damage. */
module Screen {
  import opened Bits
  import opened Common
  import opened Raster
  import opened ConsoleDraw

  const I32_MAX := 0x7FFF_FFFF

  ghost predicate IsI32(x: int) {
    -0x8000_0000 <= x <= 0x7FFF_FFFF
  }

  /** A rectangle as the code holds it, in 32-bit signed numbers. */
  ghost predicate IsDamage(d: Damage) {
    IsI32(d.x) && IsI32(d.y) && IsI32(d.width) && IsI32(d.height)
  }

  /** The value a 32-bit signed sum or difference wraps to. */
  function Wrap32(x: int): int {
    if x > 0x7FFF_FFFF then x - 0x1_0000_0000 else if x < -0x8000_0000 then x + 0x1_0000_0000 else x
  }

  /** Damage.clip, branch for branch: the width branch subtracts where the height branch assigns. */
  function Clip(d: Damage, width: int, height: int): Damage {
    var x := Min(d.x, width);
    var w := if Wrap32(x + d.width) > width then Wrap32(d.width - Min(d.width, Wrap32(width - x))) else d.width;
    var y := Min(d.y, height);
    var h := if Wrap32(y + d.height) > height then Min(d.height, Wrap32(height - y)) else d.height;
    Damage(x, y, w, h)
  }

  ghost predicate InDamage(d: Damage, y: int, x: int) {
    d.y <= y < d.y + d.height && d.x <= x < d.x + d.width
  }

  function NotNegative(x: int): nat {
    if x < 0 then 0 else x
  }

  /** The pixels `sync` copies for a rectangle: what clipping leaves, with negative numbers read as 0. */
  function Copied(d: Damage, w: int, h: int): Damage {
    var c := Clip(d, w, h);
    Damage(NotNegative(c.x), NotNegative(c.y), NotNegative(c.width), NotNegative(c.height))
  }

  /** Just the visible part of the rectangle is copied. */
  ghost predicate CopiesVisible(d: Damage, w: int, h: int) {
    forall y, x :: InDamage(Copied(d, w, h), y, x) <==> InDamage(d, y, x) && 0 <= y < h && 0 <= x < w
  }

  /** The columns come out right: nothing hangs over on the right, or by chance twice too much does. */
  predicate ColumnsExact(d: Damage, w: nat) {
    if d.x < 0 then d.width == 2 * w - d.x
    else Min(d.x, w) + d.width <= w || d.width == 2 * (w - Min(d.x, w))
  }

  /** Both sums of a rectangle with a negative width wrap, and it comes out wide. */
  predicate WrapsWide(d: Damage, w: nat) {
    d.x + d.width < -0x8000_0000 && d.x + d.width + 0x1_0000_0000 > w && w - d.x > 0x7FFF_FFFF
  }

  /** No row is copied: the rectangle has none, or lies below the screen and its end has a 32-bit number. */
  predicate NoRows(d: Damage, h: nat) {
    d.height <= 0 || (d.y >= h && h + d.height <= 0x7FFF_FFFF)
  }

  predicate NoColumns(d: Damage, w: nat) {
    d.width <= 0 && !WrapsWide(d, w)
  }

  /**
   The condition under which `sync` copies just the visible part: nothing is copied at all, or neither end overflows, the
   rectangle does not start above the screen, and the columns are exact.
   */
  predicate ClipExact(d: Damage, w: nat, h: nat) {
    || NoRows(d, h) || NoColumns(d, w)
    || (&& d.width > 0 && d.y >= 0 && Min(d.y, h) + d.height <= 0x7FFF_FFFF
        && Min(d.x, w) + d.width <= 0x7FFF_FFFF && ColumnsExact(d, w))
  }

  lemma EmptyCopies(d: Damage, w: nat, h: nat)
    requires IsDamage(d) && 0 < w <= I32_MAX && h <= I32_MAX && (NoRows(d, h) || NoColumns(d, w))
    ensures CopiesVisible(d, w, h)
  {
    var c := Copied(d, w, h);
    assert c.height == 0 || c.width == 0;
  }

  lemma ExactCopies(d: Damage, w: nat, h: nat)
    requires IsDamage(d) && 0 < w <= I32_MAX && h <= I32_MAX && ClipExact(d, w, h)
    ensures CopiesVisible(d, w, h)
  {
    if NoRows(d, h) || NoColumns(d, w) {
      EmptyCopies(d, w, h);
    }
  }

  /** A pixel on which `sync` and the visible part differ. */
  lemma InexactPixel(d: Damage, w: nat, h: nat) returns (y: int, x: int)
    requires IsDamage(d) && 0 < w <= I32_MAX && h <= I32_MAX && !ClipExact(d, w, h)
    ensures InDamage(Copied(d, w, h), y, x) != (InDamage(d, y, x) && 0 <= y < h && 0 <= x < w)
  {
    var c := Copied(d, w, h);
    assert c.height > 0 && c.width > 0;
    if d.width <= 0 {
      y, x := c.y, c.x;
    } else if d.y < 0 || Min(d.y, h) + d.height > 0x7FFF_FFFF {
      y, x := c.y + c.height - 1, c.x;
    } else if Min(d.x, w) + d.width > 0x7FFF_FFFF {
      y, x := d.y, c.x + c.width - 1;
    } else {
      y := d.y;
      x := if d.x < 0 then (if c.width > w then w else if c.width > NotNegative(d.x + d.width) then c.width - 1 else c.width)
           else if c.width > w - Min(d.x, w) then c.x + c.width - 1 else c.x + c.width;
    }
  }

  /** For every rectangle on every screen: `sync` copies just its visible part if and only if the condition holds. */
  lemma ClipExactIff(d: Damage, w: nat, h: nat)
    requires IsDamage(d) && 0 < w <= I32_MAX && h <= I32_MAX
    ensures CopiesVisible(d, w, h) <==> ClipExact(d, w, h)
  {
    if ClipExact(d, w, h) {
      ExactCopies(d, w, h);
    } else {
      var y, x := InexactPixel(d, w, h);
    }
  }

  /** A rectangle that reaches past the 32-bit rows is not clipped at all. */
  lemma TallIsNotClipped()
    ensures var d := Damage(0, 1, 640, 0x7FFF_FFFF);
            IsDamage(d) && Copied(d, 640, 480) == d && !CopiesVisible(d, 640, 480)
  {
    var d := Damage(0, 1, 640, 0x7FFF_FFFF);
    ClipExactIff(d, 640, 480);
  }

  /** An empty rectangle far to the left comes out wide. */
  lemma NegativeComesOutWide()
    ensures var d := Damage(-0x8000_0000, 0, -1, 1);
            IsDamage(d) && Copied(d, 640, 480) == Damage(0, 0, 2147483007, 1) && !CopiesVisible(d, 640, 480)
  {
    var d := Damage(-0x8000_0000, 0, -1, 1);
    ClipExactIff(d, 640, 480);
  }

  /** One column too many, and all but one are lost. */
  lemma OverhangLosesColumns()
    ensures var d := Damage(0, 0, 641, 1);
            InDamage(d, 0, 1) && !InDamage(Copied(d, 640, 480), 0, 1) && InDamage(Copied(d, 640, 480), 0, 0)
  {
  }

  /** The pixels copied for a rectangle are on the screen. */
  ghost predicate Fits(d: Damage, w: nat, h: nat) {
    && IsDamage(d)
    && var c := Copied(d, w, h);
       c.height == 0 || (c.x + c.width <= w && c.y + c.height <= h)
  }

  ghost predicate AllFit(damage: seq<Damage>, w: nat, h: nat) {
    forall k :: 0 <= k < |damage| ==> Fits(damage[k], w, h)
  }

  ghost predicate Covered(damage: seq<Damage>, w: nat, h: nat, y: int, x: int) {
    exists k :: 0 <= k < |damage| && InDamage(Copied(damage[k], w, h), y, x)
  }

  /** The framebuffer after the damaged pixels are copied from the offscreen buffer, all at once. */
  ghost function Synced(fb: seq<u32>, off: seq<u32>, w: nat, h: nat, stride: nat, damage: seq<Damage>): seq<u32>
    requires stride > 0
  {
    seq(|fb|, p requires 0 <= p < |fb| =>
      var y, x := p / stride, p % stride;
      if y < h && x < w && Covered(damage, w, h, y, x) then At(off, w, y, x) else fb[p])
  }

  lemma SyncedAt(fb: seq<u32>, off: seq<u32>, w: nat, h: nat, stride: nat, damage: seq<Damage>, y: nat, x: nat)
    requires IsScreen(fb, stride, h) && w <= stride && y < h && x < stride
    ensures Px(stride, y, x) < |fb|
    ensures At(Synced(fb, off, w, h, stride, damage), stride, y, x) ==
            if x < w && Covered(damage, w, h, y, x) then At(off, w, y, x) else At(fb, stride, y, x)
  {
    RowSegment(stride, h, y, x, 0);
    RowOf(stride, y, x);
  }

  /** Two pixel memories of the same shape that agree row by row are equal. */
  lemma SameByRows(a: seq<u32>, b: seq<u32>, w: nat, h: nat)
    requires IsScreen(a, w, h) && IsScreen(b, w, h) && w > 0
    requires forall y: nat, x: nat :: y < h && x < w ==> At(a, w, y, x) == At(b, w, y, x)
    ensures a == b
  {
    forall p | 0 <= p < |a|
      ensures a[p] == b[p]
    {
      var y, x := p / w, p % w;
      OffMul(w, y);
      assert p == Px(w, y, x);
      assert y < h by {
        if h < y { OffMono(w, h, y); }
      }
      assert At(a, w, y, x) == At(b, w, y, x);
    }
  }

  /** Copies a rectangle that lies on the screen, row by row. */
  method CopyRows(off: array<u32>, w: nat, h: nat, fb: array<u32>, stride: nat, startX: nat, startY: nat, cols: nat, height: nat)
    requires IsScreen(off[..], w, h) && IsScreen(fb[..], stride, h) && w <= stride && off != fb
    requires height == 0 || (startX + cols <= w && startY + height <= h)
    modifies fb
    ensures forall y: nat, x: nat :: y < h && x < stride ==>
              At(fb[..], stride, y, x) ==
              if startY <= y < startY + height && startX <= x < startX + cols then At(off[..], w, y, x)
              else At(old(fb[..]), stride, y, x)
  {
    var offPtr := Offset(w, startY, startX);
    var fbPtr := Offset(stride, startY, startX);
    var rows := height;
    ghost var was := fb[..];
    while rows > 0
      invariant 0 <= rows <= height
      invariant offPtr == Px(w, startY + height - rows, startX) && fbPtr == Px(stride, startY + height - rows, startX)
      invariant forall y: nat, x: nat :: y < h && x < stride ==>
                  At(fb[..], stride, y, x) ==
                  if startY <= y < startY + height - rows && startX <= x < startX + cols then At(off[..], w, y, x)
                  else At(was, stride, y, x)
    {
      ghost var now, r := fb[..], startY + height - rows;
      RowWrite(off[..], off[..], w, h, r, startX, cols);
      RowSegment(stride, h, r, startX, cols);
      forall i | 0 <= i < cols {
        fb[fbPtr + i] := off[offPtr + i];
      }
      RowWrite(now, fb[..], stride, h, r, startX, cols);
      offPtr, fbPtr := offPtr + w, fbPtr + stride;
      rows := rows - 1;
    }
  }

  /** Clips one rectangle and copies what is left. */
  method SyncRect(off: array<u32>, w: nat, h: nat, fb: array<u32>, stride: nat, d: Damage)
    requires IsScreen(off[..], w, h) && IsScreen(fb[..], stride, h) && w <= stride && Fits(d, w, h) && off != fb
    modifies fb
    ensures forall y: nat, x: nat :: y < h && x < stride ==>
              At(fb[..], stride, y, x) ==
              if InDamage(Copied(d, w, h), y, x) then At(off[..], w, y, x) else At(old(fb[..]), stride, y, x)
  {
    var c := Clip(d, w, h);
    CopyRows(off, w, h, fb, stride, NotNegative(c.x), NotNegative(c.y), NotNegative(c.width), NotNegative(c.height));
  }

  /** Copies the damaged rectangles in order; the result is the simultaneous copy of all of them. */
  method Sync(off: array<u32>, w: nat, h: nat, fb: array<u32>, stride: nat, damage: seq<Damage>)
    requires IsScreen(off[..], w, h) && IsScreen(fb[..], stride, h) && 0 < w <= stride && AllFit(damage, w, h) && off != fb
    modifies fb
    ensures fb[..] == Synced(old(fb[..]), off[..], w, h, stride, damage)
  {
    ghost var was := fb[..];
    var i := 0;
    while i < |damage|
      invariant 0 <= i <= |damage| && fb.Length == |was|
      invariant forall y: nat, x: nat :: y < h && x < stride ==>
                  At(fb[..], stride, y, x) ==
                  if x < w && Covered(damage[..i], w, h, y, x) then At(off[..], w, y, x) else At(was, stride, y, x)
    {
      SyncRect(off, w, h, fb, stride, damage[i]);
      forall y: nat, x: nat | y < h && x < stride
        ensures Covered(damage[..i + 1], w, h, y, x) <==> Covered(damage[..i], w, h, y, x) || InDamage(Copied(damage[i], w, h), y, x)
      {
        CoveredStep(damage, w, h, i, y, x);
      }
      i := i + 1;
    }
    assert damage[..|damage|] == damage;
    SyncedSame(was, fb[..], off[..], w, h, stride, damage);
  }

  lemma SyncedSame(was: seq<u32>, now: seq<u32>, off: seq<u32>, w: nat, h: nat, stride: nat, damage: seq<Damage>)
    requires IsScreen(was, stride, h) && |now| == |was| && 0 < w <= stride
    requires forall y: nat, x: nat :: y < h && x < stride ==>
               At(now, stride, y, x) == if x < w && Covered(damage, w, h, y, x) then At(off, w, y, x) else At(was, stride, y, x)
    ensures now == Synced(was, off, w, h, stride, damage)
  {
    forall y: nat, x: nat | y < h && x < stride
      ensures At(now, stride, y, x) == At(Synced(was, off, w, h, stride, damage), stride, y, x)
    {
      SyncedAt(was, off, w, h, stride, damage, y, x);
    }
    SameByRows(now, Synced(was, off, w, h, stride, damage), stride, h);
  }

  lemma CoveredStep(damage: seq<Damage>, w: nat, h: nat, i: nat, y: nat, x: nat)
    requires i < |damage|
    ensures Covered(damage[..i + 1], w, h, y, x) <==> Covered(damage[..i], w, h, y, x) || InDamage(Copied(damage[i], w, h), y, x)
  {
    var part, next := damage[..i], damage[..i + 1];
    if k :| 0 <= k < |part| && InDamage(Copied(part[k], w, h), y, x) {
      assert InDamage(Copied(next[k], w, h), y, x);
    }
    if InDamage(Copied(damage[i], w, h), y, x) {
      assert InDamage(Copied(next[i], w, h), y, x);
    }
    if k :| 0 <= k < |next| && InDamage(Copied(next[k], w, h), y, x) {
      assert k < i ==> InDamage(Copied(part[k], w, h), y, x);
    }
  }

  /** The framebuffer shows the offscreen buffer. */
  ghost predicate Agree(fb: seq<u32>, off: seq<u32>, w: nat, h: nat, stride: nat) {
    forall y: nat, x: nat :: y < h && x < w ==> At(fb, stride, y, x) == At(off, w, y, x)
  }

  function FullScreen(w: nat, h: nat): seq<Damage> {
    [Damage(0, 0, w, h)]
  }

  /** A redraw makes the framebuffer show the offscreen buffer, whatever it showed before. */
  lemma RedrawAgrees(fb: seq<u32>, off: seq<u32>, w: nat, h: nat, stride: nat)
    requires IsScreen(fb, stride, h) && 0 < w <= stride && w <= I32_MAX && h <= I32_MAX
    ensures Agree(Synced(fb, off, w, h, stride, FullScreen(w, h)), off, w, h, stride)
  {
    forall y: nat, x: nat | y < h && x < w
      ensures At(Synced(fb, off, w, h, stride, FullScreen(w, h)), stride, y, x) == At(off, w, y, x)
    {
      assert InDamage(Copied(FullScreen(w, h)[0], w, h), y, x);
      SyncedAt(fb, off, w, h, stride, FullScreen(w, h), y, x);
    }
  }

  /**
   The damage a console write reports is enough: if the framebuffer showed the offscreen
   buffer before, syncing that damage makes it show the new contents.
   */
  lemma WriteThenSyncAgrees(ops: seq<Op>, frames: seq<seq<u32>>, font: seq<byte>, damage: seq<Damage>, fb: seq<u32>, w: nat, h: nat, stride: nat)
    requires IsFilm(ops, frames, w, h, font) && AllInRange(ops, w) && IsRuns(damage, AllRows(ops), w)
    requires IsScreen(fb, stride, h) && 0 < w <= stride && w <= I32_MAX && h <= I32_MAX && SmallRows(AllRows(ops))
    requires Agree(fb, frames[0], w, h, stride)
    ensures Agree(Synced(fb, frames[|ops|], w, h, stride, damage), frames[|ops|], w, h, stride)
  {
    forall y: nat, x: nat | y < h && x < w
      ensures At(Synced(fb, frames[|ops|], w, h, stride, damage), stride, y, x) == At(frames[|ops|], w, y, x)
    {
      SyncedAt(fb, frames[|ops|], w, h, stride, damage, y, x);
      if y / 16 in AllRows(ops) {
        RowsCover(damage, AllRows(ops), w, h, y, x);
      } else {
        FilmOutsideRows(ops, frames, w, h, font, y, x);
      }
    }
  }

  /** Rows whose end has a 32-bit pixel number. */
  ghost predicate SmallRows(rows: set<nat>) {
    forall r :: r in rows ==> r < 0x7FF_FFFF
  }

  lemma RunEnds(damage: seq<Damage>, rows: set<nat>, w: nat, k: nat)
    requires IsRuns(damage, rows, w) && SmallRows(rows) && k < |damage|
    ensures IsRun(damage[k], w) && damage[k].y + damage[k].height <= 0x7FFF_FFF0
  {
    assert IsRun(damage[k], w);
    var last := LastRow(damage[k], w);
    RowsCoveredIff(damage, w, last);
  }

  lemma LastRow(d: Damage, w: nat) returns (last: nat)
    requires IsRun(d, w)
    ensures d.y <= last * 16 && last * 16 + 16 == d.y + d.height
  {
    last := (d.y + d.height) / 16 - 1;
  }

  /** A run of whole rows is copied as far as it is visible. */
  lemma RunCopied(d: Damage, w: nat, h: nat, y: nat, x: nat)
    requires IsRun(d, w) && d.y + d.height <= 0x7FFF_FFF0 && 0 < w <= I32_MAX && h <= I32_MAX
    ensures Fits(d, w, h)
    ensures y < h && x < w && d.y <= y < d.y + d.height ==> InDamage(Copied(d, w, h), y, x)
  {
    ExactCopies(d, w, h);
    assert y < h && x < w && d.y <= y < d.y + d.height ==> InDamage(d, y, x);
  }

  /** Every visible pixel of a listed row is covered. */
  lemma RowsCover(damage: seq<Damage>, rows: set<nat>, w: nat, h: nat, y: nat, x: nat)
    requires IsRuns(damage, rows, w) && SmallRows(rows) && w <= I32_MAX && h <= I32_MAX
    requires y / 16 in rows && x < w && y < h
    ensures Covered(damage, w, h, y, x)
  {
    RowsCoveredIff(damage, w, y / 16);
    var k :| 0 <= k < |damage| && damage[k].y <= (y / 16) * 16 < damage[k].y + damage[k].height;
    RunEnds(damage, rows, w, k);
    WholeRow(damage[k].y, damage[k].height, y);
    RunCopied(damage[k], w, h, y, x);
    assert InDamage(Copied(damage[k], w, h), y, x);
  }

  lemma WholeRow(top: nat, height: nat, y: nat)
    requires top % 16 == 0 && height % 16 == 0 && top <= (y / 16) * 16 < top + height
    ensures top <= y < top + height
  {
    assert y / 16 + 1 <= (top + height) / 16;
  }

  /** The damage a console write reports is damage `sync` is specified for. */
  lemma RunsFit(damage: seq<Damage>, rows: set<nat>, w: nat, h: nat)
    requires IsRuns(damage, rows, w) && SmallRows(rows) && 0 < w <= I32_MAX && h <= I32_MAX
    ensures AllFit(damage, w, h)
  {
    forall k | 0 <= k < |damage|
      ensures Fits(damage[k], w, h)
    {
      RunEnds(damage, rows, w, k);
      RunCopied(damage[k], w, h, 0, 0);
    }
  }

  /** A console write in place, and the sync of the damage it reports: the framebuffer agrees again. */
  method WriteThenSync(text: TextScreen, pixels: array<u32>, w: nat, h: nat, font: seq<byte>, ops: seq<Op>,
                       fb: array<u32>, stride: nat)
    requires text.changed == {} && IsScreen(pixels[..], w, h) && IsScreen(fb[..], stride, h)
    requires 0 < w <= stride && w <= I32_MAX && h <= I32_MAX && pixels != fb
    requires AllInRange(ops, w) && forall i :: 0 <= i < |ops| ==> forall r :: r in RowsOf(ops[i]) ==> r < 0x7FF_FFFF
    requires Agree(fb[..], pixels[..], w, h, stride)
    modifies text, pixels, fb
    ensures Agree(fb[..], pixels[..], w, h, stride) && text.changed == {}
  {
    ghost var before := fb[..];
    var damage, frames := text.Write(pixels, w, h, font, ops);
    RowsBounded(ops, 0x7FF_FFFF);
    RunsFit(damage, AllRows(ops), w, h);
    Sync(pixels, w, h, fb, stride, damage);
    WriteThenSyncAgrees(ops, frames, font, damage, before, w, h, stride);
  }

  lemma {:induction false} RowsBounded(ops: seq<Op>, bound: nat)
    requires forall i :: 0 <= i < |ops| ==> forall r :: r in RowsOf(ops[i]) ==> r < bound
    ensures forall r :: r in AllRows(ops) ==> r < bound
  {
    if ops != [] {
      RowsBounded(ops[..|ops| - 1], bound);
    }
  }
}
