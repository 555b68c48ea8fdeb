/** What the e1000 and ixgbe rings share: buffers of one size, and indices wrapped by masking. */
module NicBuffers {
  import opened Bits
  import opened Rings

  datatype Card = E1000 | Ixgbe

  const BUFFER_SIZE := 16384

  function WrapRing(index: nat, size: nat): nat
    requires size > 0
  {
    BitAnd(index + 1, size - 1)
  }

  /** Masking by the ring size minus one steps to the next slot, for a power of two. */
  lemma WrapRingNext(index: nat, size: nat)
    requires IsPow2(size)
    ensures WrapRing(index, size) == Slot(size, index + 1)
  {
    AndMask(index + 1, size);
    SlotMod(size, index + 1);
  }

  ghost predicate BuffersOk(n: nat, length: seq<nat>, data: seq<seq<byte>>) {
    && |length| == |data| == n
    && forall i :: 0 <= i < n ==> |data[i]| == BUFFER_SIZE && length[i] <= BUFFER_SIZE
  }

  /** The frame each descriptor describes: the first `length` bytes of its buffer. */
  function Frames(n: nat, length: seq<nat>, data: seq<seq<byte>>): (s: seq<seq<byte>>)
    requires BuffersOk(n, length, data)
    ensures |s| == n
    ensures forall i :: 0 <= i < n ==> s[i] == data[i][..length[i]]
  {
    seq(n, i requires 0 <= i < n => data[i][..length[i]])
  }

  /** Replacing one descriptor's frame. */
  lemma FrameUpdate(n: nat, length: seq<nat>, data: seq<seq<byte>>, i: nat, frame: seq<byte>, buffer: seq<byte>)
    requires BuffersOk(n, length, data) && i < n
    requires |frame| <= |buffer| == BUFFER_SIZE && buffer[..|frame|] == frame
    ensures BuffersOk(n, length[i := |frame|], data[i := buffer])
    ensures Frames(n, length[i := |frame|], data[i := buffer]) == Frames(n, length, data)[i := frame]
  {
  }
}
