/** Byte reads made of block reads, and the seekable device the partition tables are read through. */
module BlockRead {
  import opened Bits
  import opened Common

  const U64_MAX := 0xFFFF_FFFF_FFFF_FFFF
  const I64_MAX := 0x7FFF_FFFF_FFFF_FFFF

  datatype Errno = EOVERFLOW | EIO | TooLarge

  /** What the block reader is given: blocks of one size, each readable or not. */
  datatype Source = Source(blksize: nat, read: nat -> Result<seq<byte>, Errno>)

  ghost predicate FullBlocks(src: Source) {
    src.blksize > 0 && forall b :: src.read(b).Success? ==> |src.read(b).value| == src.blksize
  }

  /** Block number and place in the block of a byte; recursive, so that quotients show up only where they are needed. */
  ghost function BlockOf(p: nat, blksize: nat): nat
    requires blksize > 0
  {
    if p < blksize then 0 else 1 + BlockOf(p - blksize, blksize)
  }

  ghost function PlaceOf(p: nat, blksize: nat): (r: nat)
    requires blksize > 0
    ensures r < blksize
  {
    if p < blksize then p else PlaceOf(p - blksize, blksize)
  }

  lemma {:induction false} PlaceIs(p: nat, blksize: nat)
    requires blksize > 0
    ensures BlockOf(p, blksize) == p / blksize && PlaceOf(p, blksize) == p % blksize
  {
    if p < blksize {
      DivModUnique(p, blksize, 0, p);
    } else {
      PlaceIs(p - blksize, blksize);
      DivModUnique(p, blksize, (p - blksize) / blksize + 1, (p - blksize) % blksize);
    }
  }

  ghost predicate Readable(src: Source, p: nat)
    requires src.blksize > 0
  {
    src.read(BlockOf(p, src.blksize)).Success?
  }

  ghost function ByteAt(src: Source, p: nat): byte
    requires FullBlocks(src) && Readable(src, p)
  {
    src.read(BlockOf(p, src.blksize)).value[PlaceOf(p, src.blksize)]
  }

  ghost predicate IsByte(x: byte, src: Source, p: nat)
    requires FullBlocks(src)
  {
    Readable(src, p) && x == ByteAt(src, p)
  }

  /** The first `n` bytes are the bytes from `offset` on, the others are as they were. */
  ghost predicate Filled(now: seq<byte>, was: seq<byte>, src: Source, offset: nat, n: nat)
    requires FullBlocks(src)
  {
    && |now| == |was| && n <= |was|
    && (forall j :: 0 <= j < n ==> IsByte(now[j], src, offset + j))
    && (forall j :: n <= j < |was| ==> now[j] == was[j])
  }

  lemma {:induction false} PieceAt(blksize: nat, cur: nat, t: nat)
    requires blksize > 0 && t < blksize - PlaceOf(cur, blksize)
    ensures BlockOf(cur + t, blksize) == BlockOf(cur, blksize) && PlaceOf(cur + t, blksize) == PlaceOf(cur, blksize) + t
  {
    if cur >= blksize {
      PieceAt(blksize, cur - blksize, t);
      assert cur - blksize + t == cur + t - blksize;
    }
  }

  /** `n` bytes of `block` from `from` on now stand at `at`, everything else is as it was. */
  ghost predicate Pasted(now: seq<byte>, was: seq<byte>, at: nat, block: seq<byte>, from: nat, n: nat) {
    && |now| == |was| && at + n <= |was| && from + n <= |block|
    && (forall j :: at <= j < at + n ==> now[j] == block[j - at + from])
    && (forall j :: 0 <= j < |was| && !(at <= j < at + n) ==> now[j] == was[j])
  }

  lemma FilledMore(now: seq<byte>, mid: seq<byte>, was: seq<byte>, src: Source, offset: nat, done: nat, n: nat)
    requires FullBlocks(src) && Filled(mid, was, src, offset, done) && Readable(src, offset + done)
    requires n <= src.blksize - PlaceOf(offset + done, src.blksize)
    requires Pasted(now, mid, done, src.read(BlockOf(offset + done, src.blksize)).value, PlaceOf(offset + done, src.blksize), n)
    ensures Filled(now, was, src, offset, done + n)
  {
    forall j | 0 <= j < done + n ensures IsByte(now[j], src, offset + j) {
      if j < done {
        assert now[j] == mid[j];
      } else {
        PieceAt(src.blksize, offset + done, j - done);
        assert offset + done + (j - done) == offset + j;
      }
    }
  }

  method CopyPiece(buf: array<byte>, at: nat, block: array<byte>, from: nat, n: nat)
    requires buf != block && at + n <= buf.Length && from + n <= block.Length
    modifies buf
    ensures Pasted(buf[..], old(buf[..]), at, block[..], from, n)
  {
    for k := 0 to n
      invariant Pasted(buf[..], old(buf[..]), at, block[..], from, k)
    {
      buf[at + k] := block[from + k];
    }
  }

  method FillBlock(src: Source, index: nat, block: array<byte>) returns (r: Result<(), Errno>)
    requires FullBlocks(src) && block.Length >= src.blksize
    modifies block
    ensures r.Success? <==> src.read(index).Success?
    ensures r.Success? ==> block[..src.blksize] == src.read(index).value
    ensures r.Failure? ==> src.read(index) == Failure(r.error)
  {
    var got := src.read(index);
    if got.Failure? {
      return Failure(got.error);
    }
    for k := 0 to src.blksize
      invariant forall j :: 0 <= j < k ==> block[j] == got.value[j]
    {
      block[k] := got.value[k];
    }
    return Success(());
  }

  /**
   * Reads into `buf` from a byte offset, block by block. What is asked for is the whole buffer, or as much of it as has
   * 64-bit offsets. Either every byte asked for is read, or the error is that of the first block that cannot be read,
   * with everything before it read.
   */
  method ReadBytes(offset: nat, src: Source, buf: array<byte>, block: array<byte>) returns (r: Result<nat, Errno>)
    requires offset <= U64_MAX && FullBlocks(src) && block.Length >= src.blksize && buf != block
    modifies buf, block
    ensures r.Success? ==> r.value == if offset + buf.Length <= U64_MAX then buf.Length else U64_MAX - offset
    ensures r.Success? ==> Filled(buf[..], old(buf[..]), src, offset, r.value)
    ensures r.Failure? ==>
              exists k :: 0 <= k < buf.Length && offset + k < U64_MAX && FailsAt(buf[..], old(buf[..]), src, offset, k, r.error)
  {
    if buf.Length == 0 {
      return Success(0);
    }
    var toCopy := Min(offset + buf.Length, U64_MAX) - offset;
    var total := 0;
    while total < toCopy
      invariant total <= toCopy && Filled(buf[..], old(buf[..]), src, offset, total)
      decreases toCopy - total
    {
      var cur := offset + total;
      assert cur <= U64_MAX;
      PlaceIs(cur, src.blksize);
      var blkOffset := cur % src.blksize;
      var n := Min(toCopy - total, src.blksize - blkOffset);
      var got := FillBlock(src, cur / src.blksize, block);
      if got.Failure? {
        assert FailsAt(buf[..], old(buf[..]), src, offset, total, got.error);
        return Failure(got.error);
      }
      ghost var mid := buf[..];
      CopyPiece(buf, total, block, blkOffset, n);
      FilledMore(buf[..], mid, old(buf[..]), src, offset, total, n);
      total := total + n;
    }
    return Success(total);
  }

  ghost predicate FailsAt(now: seq<byte>, was: seq<byte>, src: Source, offset: nat, k: nat, error: Errno)
    requires FullBlocks(src)
  {
    Filled(now, was, src, offset, k) && src.read(BlockOf(offset + k, src.blksize)) == Failure(error)
  }

  // ---- The seekable device ----

  /** A disk as the driver sees it: a flat array of bytes, some of whose blocks cannot be read. */
  datatype Disk = Disk(data: seq<byte>, blksize: nat, bad: nat -> Option<Errno>)

  lemma BlockFits(size: nat, blksize: nat, b: nat)
    requires blksize > 0 && b < size / blksize
    ensures 0 <= b * blksize && b * blksize + blksize <= size
  {
    MulMono(b + 1, size / blksize, blksize);
  }

  lemma MulMono(a: nat, b: nat, m: nat)
    requires a <= b
    ensures 0 <= a * m <= b * m
  {
  }

  /** Reading one block; only whole blocks exist. */
  function ReadBlock(disk: Disk, b: nat): (r: Result<seq<byte>, Errno>)
    requires disk.blksize > 0
    ensures r.Success? ==> |r.value| == disk.blksize
  {
    if b >= |disk.data| / disk.blksize then
      Failure(EOVERFLOW)
    else if disk.bad(b).Some? then
      Failure(disk.bad(b).value)
    else
      BlockFits(|disk.data|, disk.blksize, b);
      Success(disk.data[b * disk.blksize..b * disk.blksize + disk.blksize])
  }

  function SourceOf(disk: Disk): Source
    requires disk.blksize > 0
  {
    Source(disk.blksize, b => ReadBlock(disk, b))
  }

  /** A byte is readable exactly when it is in a whole block that is not bad, and then it is the flat disk's byte. */
  lemma DiskByte(disk: Disk, p: nat)
    requires disk.blksize > 0
    ensures FullBlocks(SourceOf(disk))
    ensures Readable(SourceOf(disk), p) <==> p / disk.blksize < |disk.data| / disk.blksize && disk.bad(p / disk.blksize).None?
    ensures Readable(SourceOf(disk), p) ==> p < |disk.data| && ByteAt(SourceOf(disk), p) == disk.data[p]
  {
    var q, r := p / disk.blksize, p % disk.blksize;
    PlaceIs(p, disk.blksize);
    assert p == q * disk.blksize + r;
    if q < |disk.data| / disk.blksize {
      BlockFits(|disk.data|, disk.blksize, q);
    }
  }

  lemma FilledFromDisk(disk: Disk, now: seq<byte>, was: seq<byte>, offset: nat, n: nat)
    requires disk.blksize > 0 && FullBlocks(SourceOf(disk)) && offset <= |disk.data|
    requires Filled(now, was, SourceOf(disk), offset, n)
    ensures offset + n <= |disk.data| && now == disk.data[offset..offset + n] + was[n..]
  {
    if n > 0 {
      assert IsByte(now[n - 1], SourceOf(disk), offset + (n - 1));
      DiskByte(disk, offset + (n - 1));
    }
    forall j | 0 <= j < n ensures now[j] == disk.data[offset + j] {
      assert IsByte(now[j], SourceOf(disk), offset + j);
      DiskByte(disk, offset + j);
    }
  }

  ghost predicate AllReadable(disk: Disk, from: nat, to: nat)
    requires disk.blksize > 0
  {
    forall p :: from <= p < to ==> Readable(SourceOf(disk), p)
  }

  lemma FilledReadable(disk: Disk, now: seq<byte>, was: seq<byte>, offset: nat, n: nat)
    requires disk.blksize > 0 && FullBlocks(SourceOf(disk)) && Filled(now, was, SourceOf(disk), offset, n)
    ensures AllReadable(disk, offset, offset + n)
  {
    forall p | offset <= p < offset + n ensures Readable(SourceOf(disk), p) {
      assert IsByte(now[p - offset], SourceOf(disk), offset + (p - offset));
    }
  }

  datatype SeekFrom = FromStart(position: nat) | FromCurrent(delta: int) | FromEnd(past: int)

  /** The value a 64-bit signed sum wraps to. */
  function Wrap64(x: int): int {
    if x > I64_MAX then x - 0x1_0000_0000_0000_0000 else if x < -I64_MAX - 1 then x + 0x1_0000_0000_0000_0000 else x
  }

  function Max(a: int, b: int): int {
    if a < b then b else a
  }

  ghost predicate Argument(from: SeekFrom) {
    match from
    case FromStart(position) => position <= U64_MAX
    case FromCurrent(delta) => -I64_MAX - 1 <= delta <= I64_MAX
    case FromEnd(past) => -I64_MAX - 1 <= past <= I64_MAX
  }

  ghost function Intended(size: nat, offset: nat, from: SeekFrom): int {
    match from
    case FromStart(position) => position
    case FromCurrent(delta) => offset + delta
    case FromEnd(past) => size + past
  }

  /** Where a seek on a disk of `size` bytes ends. */
  function Sought(size: nat, offset: nat, from: SeekFrom): (r: nat)
    ensures r <= size
  {
    match from
    case FromStart(position) => Min(size, position)
    case FromCurrent(delta) => Max(0, Min(size, Wrap64(offset + delta)))
    case FromEnd(past) => Max(0, Min(Wrap64(size + past), size))
  }

  /**
   A seek ends at the intended position, brought into the disk, exactly when it is from the start, or the sum fits 64
   signed bits, or the disk is empty; a sum that does not fit wraps to a negative value and ends at 0.
   */
  lemma SoughtIff(size: nat, offset: nat, from: SeekFrom)
    requires offset <= size <= I64_MAX && Argument(from)
    ensures var intended := Intended(size, offset, from);
            && (Sought(size, offset, from) == Max(0, Min(intended, size)) <==>
                  from.FromStart? || intended <= I64_MAX || size == 0)
            && (!from.FromStart? && intended > I64_MAX ==> Sought(size, offset, from) == 0)
  {
  }

  /** From byte 5 of a disk of 10, a step of 2^63 - 1 bytes forward goes back to the start. */
  lemma SeekForwardGoesBack()
    ensures Argument(FromCurrent(I64_MAX)) && Sought(10, 5, FromCurrent(I64_MAX)) == 0
    ensures Max(0, Min(Intended(10, 5, FromCurrent(I64_MAX)), 10)) == 10
  {
    SoughtIff(10, 5, FromCurrent(I64_MAX));
  }

  class Device {
    const disk: Disk
    const block: array<byte>
    var offset: nat

    ghost predicate Valid()
      reads this
    {
      disk.blksize > 0 && |disk.data| <= U64_MAX && block.Length >= disk.blksize && offset <= |disk.data|
    }

    constructor (disk: Disk, block: array<byte>)
      requires disk.blksize > 0 && |disk.data| <= U64_MAX && block.Length >= disk.blksize
      ensures Valid() && this.disk == disk && this.block == block && offset == 0
    {
      this.disk := disk;
      this.block := block;
      offset := 0;
    }

    /** Moves to where the seek ends; fails on a disk whose size does not fit 64 signed bits. */
    method Seek(from: SeekFrom) returns (r: Result<nat, Errno>)
      requires Valid() && Argument(from)
      modifies `offset
      ensures Valid() && (r.Failure? <==> |disk.data| > I64_MAX)
      ensures r.Failure? ==> offset == old(offset)
      ensures r.Success? ==> r.value == offset == Sought(|disk.data|, old(offset), from)
    {
      var size := |disk.data|;
      if size > I64_MAX {
        return Failure(TooLarge);
      }
      match from {
        case FromStart(position) => offset := Min(size, position);
        case FromCurrent(delta) => offset := Max(0, Min(size, Wrap64(offset + delta)));
        case FromEnd(past) => offset := Max(0, Min(Wrap64(size + past), size));
      }
      return Success(offset);
    }

    /** Reads from the position on and moves it past what was read; a read that fails leaves it. */
    method Read(buf: array<byte>) returns (r: Result<nat, Errno>)
      requires Valid() && buf != block
      modifies `offset, buf, block
      ensures Valid()
      ensures r.Success? ==>
                && r.value == (if old(offset) + buf.Length <= U64_MAX then buf.Length else U64_MAX - old(offset))
                && offset == old(offset) + r.value
                && buf[..] == disk.data[old(offset)..offset] + old(buf[..])[r.value..]
      ensures r.Failure? ==> offset == old(offset)
      ensures r.Success? <==>
                AllReadable(disk, old(offset), if old(offset) + buf.Length <= U64_MAX then old(offset) + buf.Length else U64_MAX)
    {
      ghost var was := buf[..];
      DiskByte(disk, 0);
      r := ReadBytes(offset, SourceOf(disk), buf, block);
      if r.Success? {
        FilledFromDisk(disk, buf[..], was, offset, r.value);
        FilledReadable(disk, buf[..], was, offset, r.value);
        offset := offset + r.value;
      } else {
        ghost var k :| 0 <= k < buf.Length && offset + k < U64_MAX && FailsAt(buf[..], was, SourceOf(disk), offset, k, r.error);
        assert !Readable(SourceOf(disk), offset + k);
      }
    }
  }
}
