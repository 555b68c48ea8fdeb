/**
 The console renderer: it draws text-cell operations in place into the offscreen pixels,
 collects the text rows it touched, and reports them as damage.
 */
module ConsoleDraw {
  import opened Bits
  import opened Common
  import opened Raster

  datatype Damage = Damage(x: int, y: int, width: int, height: int)

  /** What the terminal emulator asks for, in text cells of 8 by 16 pixels. */
  datatype Op =
    | Invert(x: nat, y: nat)
    | Char(x: nat, y: nat, c: nat, color: u32)
    | Rect(x: nat, y: nat, cols: nat, rows: nat, color: u32)
    | Move(fromX: nat, fromY: nat, toX: nat, toY: nat, cols: nat, rows: nat)

  /** A move keeps inside the screen's columns; everything else is clipped by the drawing code. */
  ghost predicate InRange(op: Op, w: nat) {
    op.Move? ==> (op.fromX + op.cols) * 8 <= w && (op.toX + op.cols) * 8 <= w
  }

  /** `x >> k`. */
  function Shr(x: nat, k: nat): nat {
    if k == 0 then x else Shr(x, k - 1) / 2
  }

  /** The glyph row colours the column. */
  predicate FontBit(row: byte, col: nat)
    requires col < 8
  {
    Shr(row, 7 - col) % 2 == 1
  }

  /** The pixel at row `y`, column `x` once `op` is drawn over the screen `s`. */
  function Drawn(op: Op, s: seq<u32>, w: nat, h: nat, font: seq<byte>, y: nat, x: nat): u32 {
    match op
    case Invert(cx, cy) =>
      if cy * 16 <= y < cy * 16 + 16 && cx * 8 <= x < cx * 8 + 8 then 0xFFFF_FFFF - At(s, w, y, x) else At(s, w, y, x)
    case Char(cx, cy, c, color) =>
      if && cx * 8 + 8 <= w && cy * 16 + 16 <= h && 16 * c + 16 <= |font|
         && cy * 16 <= y < cy * 16 + 16 && cx * 8 <= x < cx * 8 + 8
         && FontBit(font[16 * c + (y - cy * 16)], x - cx * 8)
      then color else At(s, w, y, x)
    case Rect(cx, cy, cols, rows, color) =>
      if cy * 16 <= y < (cy + rows) * 16 && cx * 8 <= x < (cx + cols) * 8 then color else At(s, w, y, x)
    case Move(fx, fy, tx, ty, cols, rows) =>
      if && ty * 16 <= y < (ty + rows) * 16 && tx * 8 <= x < (tx + cols) * 8
         && y - ty * 16 + fy * 16 < h
      then At(s, w, y - ty * 16 + fy * 16, x - tx * 8 + fx * 8) else At(s, w, y, x)
  }

  /** `after` is `before` with `op` drawn over it, all pixels at once. */
  ghost predicate DrawnBy(op: Op, before: seq<u32>, after: seq<u32>, w: nat, h: nat, font: seq<byte>) {
    && |after| == |before|
    && forall y: nat, x: nat :: y < h && x < w ==> At(after, w, y, x) == Drawn(op, before, w, h, font, y, x)
  }

  /** The number with the given bits, most significant first. */
  ghost function Binary(bits: seq<bool>): nat {
    if bits == [] then 0 else 2 * Binary(bits[..|bits| - 1]) + if bits[|bits| - 1] then 1 else 0
  }

  ghost function Power2(k: nat): nat {
    if k == 0 then 1 else 2 * Power2(k - 1)
  }

  lemma {:induction false} ShrSmall(x: nat, k: nat, m: nat)
    requires k <= m && x < Power2(m)
    ensures Shr(x, k) < Power2(m - k)
  {
    if k > 0 {
      ShrSmall(x, k - 1, m);
      assert Power2(m - (k - 1)) == 2 * Power2(m - k);
    }
  }

  lemma {:induction false} PrefixReadsBack(row: byte, bits: seq<bool>, n: nat)
    requires |bits| == 8 && (forall col :: 0 <= col < 8 ==> bits[col] == FontBit(row, col)) && n <= 8
    ensures Binary(bits[..n]) == Shr(row, 8 - n)
  {
    if n == 0 {
      assert Power2(8) == 256;
      ShrSmall(row, 8, 8);
    } else {
      PrefixReadsBack(row, bits, n - 1);
      assert bits[..n][..n - 1] == bits[..n - 1];
      assert Shr(row, 8 - n + 1) == Shr(row, 8 - n) / 2;
    }
  }

  /** The columns of a glyph row, from the left, are its bits from the most significant on. */
  lemma GlyphReadsBack(row: byte, bits: seq<bool>)
    requires |bits| == 8 && forall col :: 0 <= col < 8 ==> bits[col] == FontBit(row, col)
    ensures Binary(bits) == row
  {
    PrefixReadsBack(row, bits, 8);
    assert bits[..8] == bits;
  }

  /** Which of the eight pixels from `(y, x)` on have the colour. */
  ghost function Coloured(s: seq<u32>, w: nat, y: nat, x: nat, color: u32): (bits: seq<bool>)
    ensures |bits| == 8
  {
    seq(8, col requires 0 <= col => At(s, w, y, x + col) == color)
  }

  /** A character drawn over pixels of other colours can be read off the screen: each line of its cell is the font's byte. */
  lemma CharReadsBack(before: seq<u32>, after: seq<u32>, w: nat, h: nat, font: seq<byte>, op: Op, y: nat, x: nat)
    requires op.Char? && DrawnBy(op, before, after, w, h, font)
    requires x == op.x * 8 && op.y * 16 <= y < op.y * 16 + 16
    requires x + 8 <= w && op.y * 16 + 16 <= h && 16 * op.c + 16 <= |font|
    requires forall k: nat :: x <= k < x + 8 ==> At(before, w, y, k) != op.color
    ensures Binary(Coloured(after, w, y, x, op.color)) == font[16 * op.c + (y - op.y * 16)]
  {
    var bits, row := Coloured(after, w, y, x, op.color), font[16 * op.c + (y - op.y * 16)];
    forall col | 0 <= col < 8 ensures bits[col] == FontBit(row, col) {
      assert At(after, w, y, x + col) == Drawn(op, before, w, h, font, y, x + col);
      assert At(before, w, y, x + col) != op.color;
    }
    GlyphReadsBack(row, bits);
  }

  // ---- Rectangles ----

  /** Fills `len` pixels from `start`. */
  method FillRow(pixels: array<u32>, start: nat, len: nat, color: u32)
    requires start + len <= pixels.Length
    modifies pixels
    ensures forall p :: 0 <= p < pixels.Length ==>
              pixels[p] == if start <= p < start + len then color else old(pixels[p])
  {
    var i := 0;
    while i < len
      invariant 0 <= i <= len
      invariant forall p :: 0 <= p < pixels.Length ==>
                  pixels[p] == if start <= p < start + i then color else old(pixels[p])
    {
      pixels[start + i] := color;
      i := i + 1;
    }
  }

  method InvertRow(pixels: array<u32>, start: nat, len: nat)
    requires start + len <= pixels.Length
    modifies pixels
    ensures forall p :: 0 <= p < pixels.Length ==>
              pixels[p] == if start <= p < start + len then 0xFFFF_FFFF - old(pixels[p]) else old(pixels[p])
  {
    var cols := len;
    var p := start;
    while cols > 0
      invariant 0 <= cols <= len && p == start + len - cols
      invariant forall k :: 0 <= k < pixels.Length ==>
                  pixels[k] == if start <= k < p then 0xFFFF_FFFF - old(pixels[k]) else old(pixels[k])
    {
      pixels[p] := 0xFFFF_FFFF - pixels[p];
      p := p + 1;
      cols := cols - 1;
    }
  }

  /** Fills a rectangle given in pixels, clipped to the screen. */
  method FillRect(pixels: array<u32>, w: nat, h: nat, x: nat, y: nat, rw: nat, rh: nat, color: u32)
    requires IsScreen(pixels[..], w, h)
    modifies pixels
    ensures forall yy: nat, xx: nat :: yy < h && xx < w ==>
              At(pixels[..], w, yy, xx) ==
              if y <= yy < y + rh && x <= xx < x + rw then color else At(old(pixels[..]), w, yy, xx)
  {
    var startY, endY, startX := Min(h, y), Min(h, y + rh), Min(w, x);
    var len := Min(w, x + rw) - startX;
    var p := Offset(w, y, startX);
    var rows := endY - startY;
    ghost var was := pixels[..];
    while rows > 0
      invariant 0 <= rows <= endY - startY
      invariant p == Px(w, y + (endY - startY) - rows, startX)
      invariant forall yy: nat, xx: nat :: yy < h && xx < w ==>
                  At(pixels[..], w, yy, xx) ==
                  if y <= yy < endY - rows && startX <= xx < startX + len then color else At(was, w, yy, xx)
    {
      ghost var now := pixels[..];
      RowSegment(w, h, endY - rows, startX, len);
      FillRow(pixels, p, len, color);
      RowWrite(now, pixels[..], w, h, endY - rows, startX, len);
      p := p + w;
      rows := rows - 1;
    }
  }

  /** Inverts a rectangle given in pixels, clipped to the screen. */
  method InvertRect(pixels: array<u32>, w: nat, h: nat, x: nat, y: nat, rw: nat, rh: nat)
    requires IsScreen(pixels[..], w, h)
    modifies pixels
    ensures forall yy: nat, xx: nat :: yy < h && xx < w ==>
              At(pixels[..], w, yy, xx) ==
              if y <= yy < y + rh && x <= xx < x + rw then 0xFFFF_FFFF - At(old(pixels[..]), w, yy, xx)
              else At(old(pixels[..]), w, yy, xx)
  {
    var startY, endY, startX := Min(h, y), Min(h, y + rh), Min(w, x);
    var len := Min(w, x + rw) - startX;
    var p := Offset(w, y, startX);
    var rows := endY - startY;
    ghost var was := pixels[..];
    while rows > 0
      invariant 0 <= rows <= endY - startY
      invariant p == Px(w, y + (endY - startY) - rows, startX)
      invariant forall yy: nat, xx: nat :: yy < h && xx < w ==>
                  At(pixels[..], w, yy, xx) ==
                  if y <= yy < endY - rows && startX <= xx < startX + len then 0xFFFF_FFFF - At(was, w, yy, xx)
                  else At(was, w, yy, xx)
    {
      ghost var now := pixels[..];
      RowSegment(w, h, endY - rows, startX, len);
      InvertRow(pixels, p, len);
      RowWrite(now, pixels[..], w, h, endY - rows, startX, len);
      p := p + w;
      rows := rows - 1;
    }
  }

  // ---- Characters ----

  /** Sets the glyph row's pixels from `start`. */
  method GlyphRow(pixels: array<u32>, start: nat, row: byte, color: u32)
    requires start + 8 <= pixels.Length
    modifies pixels
    ensures forall p :: 0 <= p < pixels.Length ==>
              pixels[p] == if start <= p < start + 8 && FontBit(row, p - start) then color else old(pixels[p])
  {
    var col := 0;
    while col < 8
      invariant 0 <= col <= 8
      invariant forall p :: 0 <= p < pixels.Length ==>
                  pixels[p] == if start <= p < start + col && FontBit(row, p - start) then color else old(pixels[p])
    {
      if FontBit(row, col) {
        pixels[start + col] := color;
      }
      col := col + 1;
    }
  }

  /** Draws a glyph whose top left pixel is `(x, y)`, if it fits and the font has it. */
  method DrawChar(pixels: array<u32>, w: nat, h: nat, font: seq<byte>, x: nat, y: nat, c: nat, color: u32)
    requires IsScreen(pixels[..], w, h)
    modifies pixels
    ensures forall yy: nat, xx: nat :: yy < h && xx < w ==>
              At(pixels[..], w, yy, xx) ==
              if && x + 8 <= w && y + 16 <= h && 16 * c + 16 <= |font|
                 && y <= yy < y + 16 && x <= xx < x + 8 && FontBit(font[16 * c + (yy - y)], xx - x)
              then color else At(old(pixels[..]), w, yy, xx)
  {
    if x + 8 <= w && y + 16 <= h && 16 * c + 16 <= |font| {
      var dst := Offset(w, y, x);
      var row := 0;
      ghost var was := pixels[..];
      while row < 16
        invariant 0 <= row <= 16 && dst == Px(w, y + row, x)
        invariant forall yy: nat, xx: nat :: yy < h && xx < w ==>
                    At(pixels[..], w, yy, xx) ==
                    if y <= yy < y + row && x <= xx < x + 8 && FontBit(font[16 * c + (yy - y)], xx - x)
                    then color else At(was, w, yy, xx)
      {
        ghost var now := pixels[..];
        RowSegment(w, h, y + row, x, 8);
        GlyphRow(pixels, dst, font[16 * c + row], color);
        RowWrite(now, pixels[..], w, h, y + row, x, 8);
        dst := dst + w;
        row := row + 1;
      }
    }
  }

  // ---- Moves ----

  /** A run of memory copied over another, if both lie in the memory. */
  function FlatCopy(s: seq<u32>, from: nat, to: nat, len: nat): (r: seq<u32>)
    ensures |r| == |s|
  {
    if from + len <= |s| && to + len <= |s|
    then seq(|s|, p requires 0 <= p < |s| => if to <= p < to + len then s[from + (p - to)] else s[p])
    else s
  }

  /** Copies a run of pixels onto a possibly overlapping run, as a single memory move. */
  method CopyWithin(pixels: array<u32>, from: nat, to: nat, len: nat)
    requires from + len <= pixels.Length && to + len <= pixels.Length
    modifies pixels
    ensures pixels[..] == FlatCopy(old(pixels[..]), from, to, len)
    ensures forall p :: 0 <= p < pixels.Length ==>
              pixels[p] == if to <= p < to + len then old(pixels[from + (p - to)]) else old(pixels[p])
  {
    forall i | 0 <= i < len {
      pixels[to + i] := pixels[from + i];
    }
  }

  /** One pixel line of a move: the run from column `fx` of line `src` to column `tx` of line `dst`, rows disregarded. */
  function FlatLine(s: seq<u32>, w: nat, src: nat, fx: nat, dst: nat, tx: nat, len: nat): (r: seq<u32>)
    ensures |r| == |s|
  {
    FlatCopy(s, Px(w, src, fx), Px(w, dst, tx), len)
  }

  method MoveLine(pixels: array<u32>, w: nat, src: nat, fx: nat, dst: nat, tx: nat, len: nat)
    modifies pixels
    ensures pixels[..] == FlatLine(old(pixels[..]), w, src, fx, dst, tx, len)
  {
    var offFrom := Offset(w, src, fx);
    var offTo := Offset(w, dst, tx);
    if offFrom + len <= pixels.Length && offTo + len <= pixels.Length {
      CopyWithin(pixels, offFrom, offTo, len);
    }
  }

  /** Inside the columns a line move copies columns of one row to columns of another, if both rows exist. */
  lemma LineInRange(was: seq<u32>, w: nat, h: nat, src: nat, fx: nat, dst: nat, tx: nat, len: nat)
    requires IsScreen(was, w, h) && fx + len <= w && tx + len <= w
    ensures LineMoved(was, FlatLine(was, w, src, fx, dst, tx, len), w, h, src, fx, dst, tx, len)
  {
    var now := FlatLine(was, w, src, fx, dst, tx, len);
    InMemory(w, h, src, fx, len);
    InMemory(w, h, dst, tx, len);
    if len == 0 {
      assert now == was;
    } else if src < h && dst < h {
      LineCopy(was, now, w, h, src, fx, dst, tx, len);
    }
  }

  lemma LineCopy(was: seq<u32>, now: seq<u32>, w: nat, h: nat, src: nat, fx: nat, dst: nat, tx: nat, len: nat)
    requires IsScreen(was, w, h) && fx + len <= w && tx + len <= w && src < h && dst < h && |now| == |was|
    requires Px(w, src, fx) + len <= |was|
    requires forall p {:trigger now[p]} :: 0 <= p < |was| ==>
               now[p] == if Px(w, dst, tx) <= p < Px(w, dst, tx) + len then was[Px(w, src, fx) + (p - Px(w, dst, tx))] else was[p]
    ensures LineMoved(was, now, w, h, src, fx, dst, tx, len)
  {
    RowWrite(was, now, w, h, dst, tx, len);
    RowWrite(was, was, w, h, src, fx, len);
  }

  /** A nonempty run of a row lies in the memory exactly when the row does. */
  lemma InMemory(w: nat, h: nat, r: nat, x0: nat, len: nat)
    requires x0 + len <= w
    ensures len > 0 ==> (Px(w, r, x0) + len <= Off(w, h) <==> r < h)
  {
    if r < h {
      OffMono(w, r, h);
    } else if h < r {
      OffMono(w, h, r);
    }
  }

  /** The destination pixel rows already copied when text row `row`, line `line` is next. */
  ghost predicate Copied(op: Op, row: int, line: int, y: nat)
    requires op.Move?
  {
    if op.fromY > op.toY then op.toY * 16 <= y < (op.toY + row) * 16 + line
    else (op.toY + row) * 16 <= y < (op.toY + row) * 16 + line || (op.toY + row + 1) * 16 <= y < (op.toY + op.rows) * 16
  }

  ghost predicate PartMoved(op: Op, was: seq<u32>, now: seq<u32>, w: nat, h: nat, row: int, line: int)
    requires op.Move?
  {
    && |now| == |was|
    && forall y: nat, x: nat :: y < h && x < w ==>
         At(now, w, y, x) == if Copied(op, row, line, y) then Drawn(op, was, w, h, [], y, x) else At(was, w, y, x)
  }

  /** The text row a move copies after `raw` others. */
  function RowAt(op: Op, raw: nat): nat
    requires op.Move? && raw < op.rows
  {
    if op.fromY > op.toY then raw else op.rows - raw - 1
  }

  /** Pixel line `line` of the text row copied after `raw` others. */
  function FlatStep(op: Op, s: seq<u32>, w: nat, raw: nat, line: nat): (r: seq<u32>)
    requires op.Move? && raw < op.rows
    ensures |r| == |s|
  {
    var row := RowAt(op, raw);
    FlatLine(s, w, (op.fromY + row) * 16 + line, op.fromX * 8, (op.toY + row) * 16 + line, op.toX * 8, op.cols * 8)
  }

  /** The memory after `raw` text rows and `line` pixel lines of the next. */
  function FlatMoved(op: Op, s: seq<u32>, w: nat, raw: nat, line: nat): (r: seq<u32>)
    requires op.Move? && line <= 16 && (raw < op.rows || (raw == op.rows && line == 0))
    ensures |r| == |s|
    decreases raw, line
  {
    if line > 0 then FlatStep(op, FlatMoved(op, s, w, raw, line - 1), w, raw, line - 1)
    else if raw > 0 then FlatMoved(op, s, w, raw - 1, 16)
    else s
  }

  method MoveOne(pixels: array<u32>, w: nat, op: Op, raw: nat, line: nat)
    requires op.Move? && raw < op.rows
    modifies pixels
    ensures pixels[..] == FlatStep(op, old(pixels[..]), w, raw, line)
  {
    var row := RowAt(op, raw);
    MoveLine(pixels, w, (op.fromY + row) * 16 + line, op.fromX * 8, (op.toY + row) * 16 + line, op.toX * 8, op.cols * 8);
  }

  /** The sixteen lines of one text row. */
  method MoveRow(pixels: array<u32>, w: nat, op: Op, raw: nat, ghost was: seq<u32>)
    requires op.Move? && raw < op.rows && pixels[..] == FlatMoved(op, was, w, raw, 0)
    modifies pixels
    ensures pixels[..] == FlatMoved(op, was, w, raw, 16)
  {
    var line := 0;
    while line < 16
      invariant 0 <= line <= 16 && pixels[..] == FlatMoved(op, was, w, raw, line)
    {
      MoveOne(pixels, w, op, raw, line);
      line := line + 1;
    }
  }

  /** Moves a rectangle of cells in place, line by line through the flat memory. */
  method MoveCells(pixels: array<u32>, w: nat, op: Op)
    requires op.Move?
    modifies pixels
    ensures pixels[..] == FlatMoved(op, old(pixels[..]), w, op.rows, 0)
  {
    ghost var was := pixels[..];
    var raw := 0;
    while raw < op.rows
      invariant 0 <= raw <= op.rows && pixels[..] == FlatMoved(op, was, w, raw, 0)
    {
      MoveRow(pixels, w, op, raw, was);
      raw := raw + 1;
    }
  }

  lemma StepPart(op: Op, was: seq<u32>, now: seq<u32>, w: nat, h: nat, raw: nat, line: nat)
    requires op.Move? && InRange(op, w) && IsScreen(was, w, h) && raw < op.rows && line < 16
    requires PartMoved(op, was, now, w, h, RowAt(op, raw), line)
    ensures PartMoved(op, was, FlatStep(op, now, w, raw, line), w, h, RowAt(op, raw), line + 1)
  {
    var row := RowAt(op, raw);
    var src, dst := (op.fromY + row) * 16 + line, (op.toY + row) * 16 + line;
    var now' := FlatLine(now, w, src, op.fromX * 8, dst, op.toX * 8, op.cols * 8);
    assert FlatStep(op, now, w, raw, line) == now';
    LineInRange(now, w, h, src, op.fromX * 8, dst, op.toX * 8, op.cols * 8);
    MoveStep(op, was, now, now', w, h, row, line);
  }

  /** The end of one text row is the beginning of the next. */
  lemma NextRow(op: Op, was: seq<u32>, now: seq<u32>, w: nat, h: nat, raw: nat)
    requires op.Move? && raw < op.rows && PartMoved(op, was, now, w, h, RowAt(op, raw), 16)
    ensures PartMoved(op, was, now, w, h, if op.fromY > op.toY then raw + 1 else op.rows - raw - 2, 0)
  {
    var next := if op.fromY > op.toY then raw + 1 else op.rows - raw - 2;
    forall y: nat ensures Copied(op, RowAt(op, raw), 16, y) <==> Copied(op, next, 0, y) {
    }
  }

  lemma {:induction false} LinesPart(op: Op, was: seq<u32>, w: nat, h: nat, raw: nat, line: nat)
    requires op.Move? && InRange(op, w) && IsScreen(was, w, h) && line <= 16 && (raw < op.rows || (raw == op.rows && line == 0))
    ensures PartMoved(op, was, FlatMoved(op, was, w, raw, line), w, h,
                      if op.fromY > op.toY then raw else op.rows - raw - 1, line)
    decreases raw, line
  {
    if line > 0 {
      LinesPart(op, was, w, h, raw, line - 1);
      StepPart(op, was, FlatMoved(op, was, w, raw, line - 1), w, h, raw, line - 1);
    } else if raw > 0 {
      LinesPart(op, was, w, h, raw - 1, 16);
      NextRow(op, was, FlatMoved(op, was, w, raw - 1, 16), w, h, raw - 1);
    } else {
      NothingMoved(op, was, w, h);
    }
  }

  lemma NothingMoved(op: Op, was: seq<u32>, w: nat, h: nat)
    requires op.Move?
    ensures PartMoved(op, was, was, w, h, if op.fromY > op.toY then 0 else op.rows - 1, 0)
  {
  }

  /**
   Inside the columns the order of the lines never overwrites a source line before it is read: the in-place move is the
   simultaneous copy of the rectangle, whatever the overlap, and changes nothing outside the destination.
   */
  lemma MoveIsCopy(op: Op, was: seq<u32>, w: nat, h: nat, font: seq<byte>)
    requires op.Move? && InRange(op, w) && IsScreen(was, w, h)
    ensures DrawnBy(op, was, FlatMoved(op, was, w, op.rows, 0), w, h, font)
  {
    LinesPart(op, was, w, h, op.rows, 0);
    AllMoved(op, was, FlatMoved(op, was, w, op.rows, 0), w, h, font);
  }

  lemma AllMoved(op: Op, was: seq<u32>, now: seq<u32>, w: nat, h: nat, font: seq<byte>)
    requires op.Move? && PartMoved(op, was, now, w, h, if op.fromY > op.toY then op.rows else -1, 0)
    ensures DrawnBy(op, was, now, w, h, font)
  {
  }

  /** `now'` is `now` with one line copied between rows. */
  ghost predicate LineMoved(now: seq<u32>, now': seq<u32>, w: nat, h: nat, src: nat, fx: nat, dst: nat, tx: nat, len: nat) {
    && |now'| == |now|
    && forall y: nat, x: nat {:trigger At(now', w, y, x)} :: y < h && x < w ==>
         At(now', w, y, x) ==
         if y == dst && tx <= x < tx + len && src < h then At(now, w, src, fx + (x - tx)) else At(now, w, y, x)
  }

  lemma MoveStep(op: Op, was: seq<u32>, now: seq<u32>, now': seq<u32>, w: nat, h: nat, row: nat, line: nat)
    requires op.Move? && InRange(op, w) && row < op.rows && line < 16
    requires PartMoved(op, was, now, w, h, row, line)
    requires LineMoved(now, now', w, h, (op.fromY + row) * 16 + line, op.fromX * 8, (op.toY + row) * 16 + line, op.toX * 8, op.cols * 8)
    ensures PartMoved(op, was, now', w, h, row, line + 1)
  {
    var src, dst := (op.fromY + row) * 16 + line, (op.toY + row) * 16 + line;
    assert !Copied(op, row, line, src) && !Copied(op, row, line, dst);
    forall y: nat, x: nat | y < h && x < w
      ensures At(now', w, y, x) == if Copied(op, row, line + 1, y) then Drawn(op, was, w, h, [], y, x) else At(was, w, y, x)
    {
      assert Copied(op, row, line + 1, y) <==> Copied(op, row, line, y) || y == dst;
      if y == dst {
        var from := op.fromX * 8 + (x - op.toX * 8);
        if op.toX * 8 <= x < op.toX * 8 + op.cols * 8 && src < h {
          assert At(now', w, y, x) == At(now, w, src, from);
          assert At(now, w, src, from) == At(was, w, src, from);
          assert Drawn(op, was, w, h, [], y, x) == At(was, w, src, from);
        } else {
          assert Drawn(op, was, w, h, [], y, x) == At(was, w, y, x);
          assert At(now', w, y, x) == At(now, w, y, x);
          assert At(now, w, y, x) == At(was, w, y, x);
        }
      } else {
        assert At(now', w, y, x) == At(now, w, y, x);
      }
    }
  }

  // ---- Damage ----

  /** The `n` rows from `lo` on. */
  function Span(lo: nat, n: nat): (r: set<nat>)
    ensures forall x: nat :: x in r <==> lo <= x < lo + n
  {
    if n == 0 then {} else Span(lo, n - 1) + {lo + n - 1}
  }

  /** The text rows an operation records as changed. */
  function RowsOf(op: Op): set<nat> {
    match op
    case Invert(_, y) => {y}
    case Char(_, y, _, _) => {y}
    case Rect(_, y, _, rows, _) => Span(y, rows)
    case Move(_, _, _, toY, _, rows) => Span(toY, rows)
  }

  function AllRows(ops: seq<Op>): set<nat> {
    if ops == [] then {} else AllRows(ops[..|ops| - 1]) + RowsOf(ops[|ops| - 1])
  }

  /** An operation changes no pixel outside the text rows it records. */
  lemma OutsideRowsKept(op: Op, before: seq<u32>, after: seq<u32>, w: nat, h: nat, font: seq<byte>, y: nat, x: nat)
    requires DrawnBy(op, before, after, w, h, font) && y < h && x < w && y / 16 !in RowsOf(op)
    ensures At(after, w, y, x) == At(before, w, y, x)
  {
    assert At(after, w, y, x) == Drawn(op, before, w, h, font, y, x);
  }

  lemma PlainAt(w: nat, h: nat, color: u32, y: nat, x: nat)
    requires y < h && x < w
    ensures At(seq(Off(w, h), _ => color), w, y, x) == color
  {
    RowSegment(w, h, y, x, 1);
  }

  /** A plain screen with one pixel of another colour. */
  lemma SpotAt(w: nat, h: nat, y: nat, x: nat, r: nat, c: nat) returns (s: seq<u32>)
    requires y < h && x < w && r < h && c < w && (r, c) != (y, x)
    ensures IsScreen(s, w, h) && At(s, w, y, x) == 1 && At(s, w, r, c) == 0
  {
    RowSegment(w, h, y, x, 1);
    PlainAt(w, h, 0, r, c);
    s := seq(Off(w, h), _ => 0)[Px(w, y, x) := 1];
  }

  lemma MoveNeedsRow(op: Op, r: nat)
    returns (before: seq<u32>, w: nat, h: nat, y: nat, x: nat)
    requires op.Move? && r in RowsOf(op) && op.cols > 0 && (op.fromX, op.fromY) != (op.toX, op.toY)
    ensures IsScreen(before, w, h) && y < h && x < w && y / 16 == r && InRange(op, w)
    ensures Drawn(op, before, w, h, [], y, x) != At(before, w, y, x)
  {
    y, x := r * 16, op.toX * 8;
    var srcY, srcX := (r - op.toY + op.fromY) * 16, op.fromX * 8;
    w := (op.fromX + op.toX + op.cols) * 8;
    h := srcY + y + 16;
    before := SpotAt(w, h, srcY, srcX, y, x);
  }

  /**
   No row is recorded for nothing: for an operation that has columns, and does not move cells onto themselves, there is a
   screen on which it changes a pixel of each row it records.
   */
  lemma RowsNeeded(op: Op, r: nat)
    returns (before: seq<u32>, w: nat, h: nat, font: seq<byte>, y: nat, x: nat)
    requires r in RowsOf(op) && (op.Rect? || op.Move? ==> op.cols > 0)
    requires op.Move? ==> (op.fromX, op.fromY) != (op.toX, op.toY)
    ensures IsScreen(before, w, h) && y < h && x < w && y / 16 == r && InRange(op, w)
    ensures Drawn(op, before, w, h, font, y, x) != At(before, w, y, x)
  {
    font := [];
    if op.Move? {
      before, w, h, y, x := MoveNeedsRow(op, r);
    } else {
      y, x := r * 16, op.x * 8;
      w, h := x + 8 * (if op.Rect? then op.cols else 1), y + 16;
      var other: u32 := if op.Invert? then 0 else 0xFFFF_FFFF - op.color;
      before := seq(Off(w, h), _ => other);
      PlainAt(w, h, other, y, x);
      if op.Char? {
        font := seq(16 * op.c + 16, _ => 255);
        assert FontBit(255, 0);
      }
    }
  }

  ghost predicate IsRun(d: Damage, w: nat) {
    d.x == 0 && d.width == w && 0 <= d.y && d.y % 16 == 0 && d.height > 0 && d.height % 16 == 0
  }

  /** The text rows a damage list covers. */
  function RowsCovered(damage: seq<Damage>): set<nat> {
    if damage == [] then {}
    else
      var d := damage[|damage| - 1];
      RowsCovered(damage[..|damage| - 1]) + if d.y >= 0 && d.height >= 0 then Span(d.y / 16, d.height / 16) else {}
  }

  /** `damage` lists, in order, the maximal runs of exactly the rows in `rows`. */
  ghost predicate IsRuns(damage: seq<Damage>, rows: set<nat>, w: nat) {
    && (forall k :: 0 <= k < |damage| ==> IsRun(damage[k], w))
    && (forall k :: 0 < k < |damage| ==> damage[k - 1].y + damage[k - 1].height < damage[k].y)
    && RowsCovered(damage) == rows
  }

  /** A row is covered exactly when some rectangle of the list covers its first pixel row. */
  lemma {:induction false} RowsCoveredIff(damage: seq<Damage>, w: nat, r: nat)
    requires forall k :: 0 <= k < |damage| ==> IsRun(damage[k], w)
    ensures r in RowsCovered(damage) <==> exists k :: 0 <= k < |damage| && damage[k].y <= r * 16 < damage[k].y + damage[k].height
  {
    if damage != [] {
      var n := |damage| - 1;
      RowsCoveredIff(damage[..n], w, r);
      if r in RowsCovered(damage[..n]) {
        var k :| 0 <= k < n && damage[..n][k].y <= r * 16 < damage[..n][k].y + damage[..n][k].height;
        assert damage[k].y <= r * 16 < damage[k].y + damage[k].height;
      }
      if k :| 0 <= k < |damage| && damage[k].y <= r * 16 < damage[k].y + damage[k].height {
        assert k < n ==> damage[..n][k] == damage[k];
      }
      assert damage[n].y <= r * 16 < damage[n].y + damage[n].height <==> damage[n].y / 16 <= r < damage[n].y / 16 + damage[n].height / 16;
    }
  }

  /** The first entry of an ordered set. */
  method Least(s: set<nat>) returns (m: nat)
    requires s != {}
    ensures m in s && forall x :: x in s ==> m <= x
  {
    m :| m in s;
    var todo := s - {m};
    while todo != {}
      invariant m in s && todo <= s && forall x :: x in s && x !in todo ==> m <= x
    {
      var x :| x in todo;
      if x < m {
        m := x;
      }
      todo := todo - {x};
    }
  }

  /** A row right after the last run extends it. */
  lemma ExtendRun(damage: seq<Damage>, done: set<nat>, r: nat, w: nat)
    requires IsRuns(damage, done, w) && damage != []
    requires damage[|damage| - 1].y + damage[|damage| - 1].height == r * 16
    ensures var last := |damage| - 1;
            IsRuns(damage[last := damage[last].(height := damage[last].height + 16)], done + {r}, w)
  {
    var last := |damage| - 1;
    var d := damage[last].(height := damage[last].height + 16);
    assert damage[last := d][..last] == damage[..last];
    assert d.y / 16 + d.height / 16 == r + 1;
    assert Span(d.y / 16, d.height / 16) == Span(d.y / 16, d.height / 16 - 1) + {r};
  }

  /** A row beyond the last run, with a gap, starts a new one. */
  lemma StartRun(damage: seq<Damage>, done: set<nat>, r: nat, w: nat)
    requires IsRuns(damage, done, w)
    requires damage != [] ==> damage[|damage| - 1].y + damage[|damage| - 1].height < r * 16
    ensures IsRuns(damage + [Damage(0, r * 16, w, 16)], done + {r}, w)
  {
    var damage' := damage + [Damage(0, r * 16, w, 16)];
    assert damage'[..|damage|] == damage;
    assert Span(r, 1) == {r};
  }

  /** The end of the last run, in pixel rows. */
  ghost function RunsEnd(damage: seq<Damage>): int
    requires damage != []
  {
    damage[|damage| - 1].y + damage[|damage| - 1].height
  }

  /** Adds one changed row to the damage: it extends the last run or starts a new one. */
  method AddRow(damage: seq<Damage>, lastChange: nat, change: nat, w: nat, ghost done: set<nat>) returns (damage': seq<Damage>)
    requires IsRuns(damage, done, w) && change < 0x7FF_FFFF
    requires if damage == [] then lastChange == 0x1_0000_0000_0000_0000 - 2 else RunsEnd(damage) == (lastChange + 1) * 16 && lastChange < change
    ensures IsRuns(damage', done + {change}, w) && damage' != [] && RunsEnd(damage') == (change + 1) * 16
  {
    if change == lastChange + 1 {
      ExtendRun(damage, done, change, w);
      var last := |damage| - 1;
      damage' := damage[last := damage[last].(height := damage[last].height + 16)];
    } else {
      StartRun(damage, done, change, w);
      damage' := damage + [Damage(0, change * 16, w, 16)];
    }
  }

  class TextScreen {
    /** The changed text rows, visited in ascending order when damage is reported. */
    var changed: set<nat>

    constructor ()
      ensures changed == {}
    {
      changed := {};
    }

    method MarkRows(lo: nat, n: nat)
      modifies this
      ensures changed == old(changed) + Span(lo, n)
    {
      var i := 0;
      while i < n
        invariant 0 <= i <= n && changed == old(changed) + Span(lo, i)
      {
        changed := changed + {lo + i};
        i := i + 1;
      }
    }

    method Draw(pixels: array<u32>, w: nat, h: nat, font: seq<byte>, op: Op)
      requires IsScreen(pixels[..], w, h)
      modifies this, pixels
      ensures Played(op, old(pixels[..]), pixels[..], w, h, font)
      ensures changed == old(changed) + RowsOf(op)
    {
      match op
      case Invert(x, y) =>
        InvertRect(pixels, w, h, x * 8, y * 16, 8, 16);
        changed := changed + {y};
      case Char(x, y, c, color) =>
        DrawChar(pixels, w, h, font, x * 8, y * 16, c, color);
        changed := changed + {y};
      case Rect(x, y, cols, rows, color) =>
        FillRect(pixels, w, h, x * 8, y * 16, cols * 8, rows * 16, color);
        MarkRows(y, rows);
      case Move(_, _, _, toY, _, rows) =>
        if InRange(op, w) {
          MoveIsCopy(op, pixels[..], w, h, font);
        }
        MoveCells(pixels, w, op);
        MarkRows(toY, rows);
    }

    /** Coalesces the changed rows into damage and forgets them. */
    method TakeDamage(w: nat) returns (damage: seq<Damage>)
      requires forall r :: r in changed ==> r < 0x7FF_FFFF
      modifies this
      ensures IsRuns(damage, old(changed), w) && changed == {}
    {
      damage := [];
      var lastChange := 0x1_0000_0000_0000_0000 - 2;
      var todo := changed;
      ghost var done := {};
      while todo != {}
        invariant done + todo == changed == old(changed)
        invariant IsRuns(damage, done, w)
        invariant if damage == [] then lastChange == 0x1_0000_0000_0000_0000 - 2
                  else RunsEnd(damage) == (lastChange + 1) * 16 && forall x :: x in todo ==> lastChange < x
        decreases todo
      {
        var change := Least(todo);
        damage := AddRow(damage, lastChange, change, w, done);
        lastChange := change;
        todo := todo - {change};
        done := done + {change};
      }
      assert done == changed;
      changed := {};
    }

    /**
     Draws the operations in order and reports the damage. `frames` is the screen before
     each operation and after the last.
     */
    method Write(pixels: array<u32>, w: nat, h: nat, font: seq<byte>, ops: seq<Op>)
      returns (damage: seq<Damage>, ghost frames: seq<seq<u32>>)
      requires changed == {} && IsScreen(pixels[..], w, h)
      requires forall i :: 0 <= i < |ops| ==> forall r :: r in RowsOf(ops[i]) ==> r < 0x7FF_FFFF
      modifies this, pixels
      ensures IsFilm(ops, frames, w, h, font) && frames[0] == old(pixels[..]) && frames[|ops|] == pixels[..]
      ensures IsRuns(damage, AllRows(ops), w) && changed == {}
    {
      frames := [pixels[..]];
      var i := 0;
      while i < |ops|
        invariant 0 <= i <= |ops| && |frames| == i + 1
        invariant frames[0] == old(pixels[..]) && frames[i] == pixels[..]
        invariant forall j :: 0 <= j < i ==> Played(ops[j], frames[j], frames[j + 1], w, h, font)
        invariant changed == AllRows(ops[..i])
        invariant forall r :: r in changed ==> r < 0x7FF_FFFF
      {
        Draw(pixels, w, h, font, ops[i]);
        frames := frames + [pixels[..]];
        assert ops[..i + 1][..i] == ops[..i];
        i := i + 1;
      }
      assert ops[..|ops|] == ops;
      damage := TakeDamage(w);
    }
  }

  /** What an operation does: the simultaneous drawing, or line by line through the memory for a move out of the columns. */
  ghost predicate Played(op: Op, before: seq<u32>, after: seq<u32>, w: nat, h: nat, font: seq<byte>) {
    if InRange(op, w) then DrawnBy(op, before, after, w, h, font) else after == FlatMoved(op, before, w, op.rows, 0)
  }

  ghost predicate AllInRange(ops: seq<Op>, w: nat) {
    forall i :: 0 <= i < |ops| ==> InRange(ops[i], w)
  }

  /** `frames` shows the operations drawn one after the other. */
  ghost predicate IsFilm(ops: seq<Op>, frames: seq<seq<u32>>, w: nat, h: nat, font: seq<byte>) {
    && |frames| == |ops| + 1
    && forall j :: 0 <= j < |ops| ==> Played(ops[j], frames[j], frames[j + 1], w, h, font)
  }

  /** A whole write changes no pixel outside the rows it reports. */
  lemma {:induction false} FilmOutsideRows(ops: seq<Op>, frames: seq<seq<u32>>, w: nat, h: nat, font: seq<byte>, y: nat, x: nat)
    requires IsFilm(ops, frames, w, h, font) && AllInRange(ops, w) && y < h && x < w && y / 16 !in AllRows(ops)
    ensures At(frames[|ops|], w, y, x) == At(frames[0], w, y, x)
  {
    if ops != [] {
      var n := |ops| - 1;
      FilmOutsideRows(ops[..n], frames[..n + 1], w, h, font, y, x);
      OutsideRowsKept(ops[n], frames[n], frames[n + 1], w, h, font, y, x);
    }
  }
}
