/** The scatter-gather list: a buffer is mapped greedily in power-of-two chunks of at most 4 MiB. */
module Sgl {
  import opened Bits
  import opened Common

  const PAGE_SIZE := 0x1000
  const MAX_ALLOC_SIZE := 0x40_0000

  datatype Errno = EINVAL

  /** `mapped` is the length of the physically contiguous mapping, `length` the part of it the buffer uses. */
  datatype Chunk = Chunk(offset: nat, length: nat, mapped: nat)

  function RoundUp(x: nat): nat {
    (x + 0xFFF) / 0x1000 * 0x1000
  }

  /** The smallest power of two from `p` on that reaches `n`. */
  function NextPow2From(p: nat, n: nat): (r: nat)
    requires IsPow2(p)
    ensures IsPow2(r) && n <= r && p <= r && (r > p ==> r < 2 * n)
    decreases n - p
  {
    if p >= n then p else NextPow2From(2 * p, n)
  }

  /** What the loop maps when `left` bytes are left. */
  function ChunkLength(left: nat): nat
    requires left > 0
  {
    var preferred := NextPow2From(1, Min(left, MAX_ALLOC_SIZE));
    if preferred > left then preferred / 2 else preferred
  }

  function PopCount(n: nat): nat {
    if n == 0 then 0 else n % 2 + PopCount(n / 2)
  }

  /** The number of chunks `left` bytes take: whole 4 MiB chunks and one per set bit of the pages beyond. */
  function ChunkCount(left: nat): nat {
    if left < 0x40_0000 then PopCount(left / 0x1000) else 1 + ChunkCount(left - 0x40_0000)
  }

  lemma DivDown(left: nat)
    ensures left < 0x40_0000 ==> left / 0x40_0000 == 0 && left % 0x40_0000 == left
    ensures left >= 0x40_0000 ==>
              left / 0x40_0000 == (left - 0x40_0000) / 0x40_0000 + 1 && left % 0x40_0000 == (left - 0x40_0000) % 0x40_0000
  {
  }

  lemma {:induction false} ChunkCountIs(left: nat)
    ensures ChunkCount(left) == left / 0x40_0000 + PopCount(left % 0x40_0000 / 0x1000)
  {
    var whole, pages := left / 0x40_0000, left % 0x40_0000 / 0x1000;
    DivDown(left);
    if left >= 0x40_0000 {
      ChunkCountIs(left - 0x40_0000);
      assert (left - 0x40_0000) / 0x40_0000 == whole - 1 && (left - 0x40_0000) % 0x40_0000 / 0x1000 == pages;
    } else {
      assert whole == 0 && pages == left / 0x1000;
    }
  }

  /** Whole pages; recursive, so that a remainder shows up only where it is needed. */
  ghost predicate OnPage(x: nat) {
    x == 0 || (x >= 0x1000 && OnPage(x - 0x1000))
  }

  lemma {:induction false} PageMod(x: nat)
    ensures OnPage(x) <==> x % 0x1000 == 0
  {
    if x >= 0x1000 {
      PageMod(x - 0x1000);
      assert x % 0x1000 == (x - 0x1000) % 0x1000;
    }
  }

  // ---- The greedy choice ----

  lemma {:induction false} NextOfPow2(p: nat, n: nat)
    requires IsPow2(p) && IsPow2(n) && p <= n
    ensures NextPow2From(p, n) == n
    decreases n - p
  {
    if p < n {
      Pow2Gap(p, n);
      NextOfPow2(2 * p, n);
    }
  }

  lemma PageOrMore(c: nat, left: nat)
    requires IsPow2(c) && 0x1000 <= left < 2 * c
    ensures c >= 0x1000
  {
    Pow2Constants();
    if c < 0x1000 {
      Pow2Gap(c, 0x1000);
    }
  }

  /** No larger power of two up to 4 MiB fits, and a whole number of pages gets at least a page. */
  lemma ChunkLengthIs(left: nat)
    requires left > 0 && left % 0x1000 == 0
    ensures var c := ChunkLength(left);
            && IsPow2(c) && PAGE_SIZE <= c <= MAX_ALLOC_SIZE && c <= left && c % 0x1000 == 0
            && (if left >= MAX_ALLOC_SIZE then c == MAX_ALLOC_SIZE else left < 2 * c)
  {
    Pow2Constants();
    var c := ChunkLength(left);
    if left >= MAX_ALLOC_SIZE {
      NextOfPow2(1, MAX_ALLOC_SIZE);
    } else {
      PageOrMore(c, left);
      Pow2Divides(0x1000, c);
    }
  }

  // ---- Counting ----

  lemma {:induction false} PopTop(q: nat, p: nat)
    requires IsPow2(p) && p <= q < 2 * p
    ensures PopCount(q) == PopCount(q - p) + 1
    decreases p
  {
    if p > 1 {
      PopTop(q / 2, p / 2);
      assert (q - p) % 2 == q % 2 && (q - p) / 2 == q / 2 - p / 2;
    }
  }

  lemma Over16(c: nat)
    requires IsPow2(c) && c >= 16
    ensures IsPow2(c / 16)
  {
    assert IsPow2(c / 2);
    assert IsPow2(c / 4) by { assert c / 2 / 2 == c / 4; }
    assert IsPow2(c / 8) by { assert c / 4 / 2 == c / 8; }
    assert c / 8 / 2 == c / 16;
  }

  lemma PagesPow2(c: nat)
    requires IsPow2(c) && c >= 0x1000
    ensures IsPow2(c / 0x1000)
  {
    Over16(c);
    Over16(c / 16);
    Over16(c / 16 / 16);
    assert c / 16 / 16 / 16 == c / 0x1000;
  }

  lemma CountPages(left: nat, c: nat)
    requires left < 0x40_0000 && left % 0x1000 == 0 && c % 0x1000 == 0 && c <= left < 2 * c
    requires IsPow2(c / 0x1000)
    ensures ChunkCount(left) == ChunkCount(left - c) + 1
  {
    var q, p := left / 0x1000, c / 0x1000;
    assert (left - c) / 0x1000 == q - p;
    PopTop(q, p);
  }

  /** Each greedy choice takes one chunk off the count. */
  lemma CountStep(left: nat, c: nat)
    requires left > 0 && OnPage(left) && c == ChunkLength(left) && c <= left
    ensures ChunkCount(left) == ChunkCount(left - c) + 1
  {
    PageMod(left);
    ChunkLengthIs(left);
    if left < 0x40_0000 {
      PagesPow2(c);
      CountPages(left, c);
    }
  }

  // ---- The list ----

  ghost predicate ChunkOk(c: Chunk, length: nat) {
    && IsPow2(c.mapped) && 0x1000 <= c.mapped <= 0x40_0000 && OnPage(c.mapped)
    && c.offset < length && c.length == Min(length - c.offset, c.mapped)
  }

  /** The chunks tile the first `upTo` bytes of the mapping of a buffer of `length` bytes, one after the other. */
  ghost predicate Tiles(chunks: seq<Chunk>, length: nat, upTo: nat) {
    if chunks == [] then
      upTo == 0
    else
      var last := chunks[|chunks| - 1];
      ChunkOk(last, length) && last.offset + last.mapped == upTo && Tiles(chunks[..|chunks| - 1], length, last.offset)
  }

  lemma TilesNext(chunks: seq<Chunk>, c: Chunk, length: nat)
    requires Tiles(chunks, length, c.offset) && ChunkOk(c, length)
    ensures Tiles(chunks + [c], length, c.offset + c.mapped)
  {
    assert (chunks + [c])[..|chunks|] == chunks;
  }

  /** Below the page-rounded length the start of a page is inside the buffer. */
  lemma PageInside(offset: nat, length: nat)
    requires OnPage(offset) && offset < RoundUp(length)
    ensures offset < length
  {
    PageMod(offset);
  }

  lemma RoundedOnPage(length: nat)
    ensures OnPage(RoundUp(length)) && length <= RoundUp(length) < length + 0x1000
  {
    PageMod(RoundUp(length));
  }

  lemma PageAdd(a: nat, b: nat)
    requires OnPage(a) && OnPage(b)
    ensures OnPage(a + b)
  {
    PageMod(a);
    PageMod(b);
    PageMod(a + b);
  }

  lemma PageSub(a: nat, b: nat)
    requires OnPage(a) && OnPage(b) && b <= a
    ensures OnPage(a - b)
  {
    PageMod(a);
    PageMod(b);
    PageMod(a - b);
  }

  lemma NextChunk(aligned: nat, offset: nat, c: nat)
    requires OnPage(aligned) && OnPage(offset) && offset < aligned && c == ChunkLength(aligned - offset)
    ensures IsPow2(c) && 0x1000 <= c <= 0x40_0000 && OnPage(c) && offset + c <= aligned && OnPage(offset + c)
  {
    PageSub(aligned, offset);
    PageMod(aligned - offset);
    ChunkLengthIs(aligned - offset);
    PageMod(c);
    PageAdd(offset, c);
  }

  ghost predicate Counted(made: nat, aligned: nat, offset: nat) {
    offset <= aligned && OnPage(aligned - offset) && made + ChunkCount(aligned - offset) == ChunkCount(aligned)
  }

  lemma CountedNext(made: nat, aligned: nat, offset: nat, c: nat)
    requires Counted(made, aligned, offset) && offset < aligned && c == ChunkLength(aligned - offset)
    requires OnPage(c) && offset + c <= aligned
    ensures Counted(made + 1, aligned, offset + c)
  {
    var left := aligned - offset;
    CountStep(left, c);
    PageSub(left, c);
    assert aligned - (offset + c) == left - c;
  }

  /** The list so far: it tiles the first `offset` bytes and the rest of the count is still to come. */
  ghost predicate Built(chunks: seq<Chunk>, length: nat, aligned: nat, offset: nat) {
    OnPage(offset) && Tiles(chunks, length, offset) && Counted(|chunks|, aligned, offset)
  }

  lemma BuildNext(chunks: seq<Chunk>, length: nat, aligned: nat, offset: nat, c: nat)
    requires Built(chunks, length, aligned, offset) && OnPage(aligned) && offset < aligned && offset < length
    requires c == ChunkLength(aligned - offset)
    ensures 0 < c && offset + c <= aligned
    ensures Built(chunks + [Chunk(offset, Min(length - offset, c), c)], length, aligned, offset + c)
  {
    NextChunk(aligned, offset, c);
    CountedNext(|chunks|, aligned, offset, c);
    TilesNext(chunks, Chunk(offset, Min(length - offset, c), c), length);
  }

  /** Builds the list; an empty buffer is refused. */
  method New(length: nat) returns (r: Result<seq<Chunk>, Errno>)
    ensures r.Failure? <==> length == 0
    ensures r.Success? ==>
              && Tiles(r.value, length, RoundUp(length))
              && |r.value| == ChunkCount(RoundUp(length))
  {
    if length == 0 {
      return Failure(EINVAL);
    }
    var aligned := RoundUp(length);
    RoundedOnPage(length);
    var chunks: seq<Chunk> := [];
    var offset := 0;
    while offset < aligned
      invariant offset <= aligned && Built(chunks, length, aligned, offset)
      decreases aligned - offset
    {
      var chunkLength := ChunkLength(aligned - offset);
      PageInside(offset, length);
      BuildNext(chunks, length, aligned, offset, chunkLength);
      chunks := chunks + [Chunk(offset, Min(length - offset, chunkLength), chunkLength)];
      offset := offset + chunkLength;
    }
    return Success(chunks);
  }

  function TotalLength(chunks: seq<Chunk>): nat {
    if chunks == [] then 0 else TotalLength(chunks[..|chunks| - 1]) + chunks[|chunks| - 1].length
  }

  /** The page-rounded lengths the GPU driver passes as backing store. */
  function TotalBacking(chunks: seq<Chunk>): nat {
    if chunks == [] then 0 else TotalBacking(chunks[..|chunks| - 1]) + RoundUp(chunks[|chunks| - 1].length)
  }

  lemma LastRound(c: Chunk, length: nat)
    requires ChunkOk(c, length) && OnPage(c.offset) && c.offset + c.mapped <= RoundUp(length)
    ensures RoundUp(c.length) == c.mapped
  {
    PageMod(c.offset);
    PageMod(c.mapped);
  }

  lemma {:induction false} TilesAligned(chunks: seq<Chunk>, length: nat, upTo: nat)
    requires Tiles(chunks, length, upTo)
    ensures OnPage(upTo)
  {
    if chunks != [] {
      var last := chunks[|chunks| - 1];
      TilesAligned(chunks[..|chunks| - 1], length, last.offset);
      PageAdd(last.offset, last.mapped);
    }
  }

  /** Without gap or overlap: the lengths add up to the buffer's length, the backing entries to its page-rounded length. */
  lemma {:induction false} TilesSum(chunks: seq<Chunk>, length: nat, upTo: nat)
    requires Tiles(chunks, length, upTo) && upTo <= RoundUp(length)
    ensures TotalLength(chunks) == Min(length, upTo)
    ensures TotalBacking(chunks) == upTo
  {
    if chunks != [] {
      var c := chunks[|chunks| - 1];
      TilesSum(chunks[..|chunks| - 1], length, c.offset);
      TilesAligned(chunks[..|chunks| - 1], length, c.offset);
      LastRound(c, length);
    }
  }

  ghost predicate Holds(c: Chunk, p: nat) {
    c.offset <= p < c.offset + c.length
  }

  lemma {:induction false} TilesBelow(chunks: seq<Chunk>, length: nat, upTo: nat, i: nat)
    requires Tiles(chunks, length, upTo) && i < |chunks|
    ensures chunks[i].offset + chunks[i].length <= upTo
  {
    var n := |chunks| - 1;
    if i < n {
      TilesBelow(chunks[..n], length, chunks[n].offset, i);
    }
  }

  /** Every byte of the buffer lies in exactly one chunk. */
  lemma {:induction false} ByteInOneChunk(chunks: seq<Chunk>, length: nat, upTo: nat, p: nat) returns (i: nat)
    requires Tiles(chunks, length, upTo) && p < upTo && p < length
    ensures i < |chunks| && Holds(chunks[i], p)
    ensures forall j :: 0 <= j < |chunks| && Holds(chunks[j], p) ==> j == i
  {
    var n := |chunks| - 1;
    if p < chunks[n].offset {
      i := ByteInOneChunk(chunks[..n], length, chunks[n].offset, p);
      forall j | 0 <= j < n && Holds(chunks[j], p) ensures j == i {
        assert chunks[..n][j] == chunks[j];
      }
    } else {
      i := n;
      forall j | 0 <= j < n ensures !Holds(chunks[j], p) {
        TilesBelow(chunks[..n], length, chunks[n].offset, j);
      }
    }
  }
}
