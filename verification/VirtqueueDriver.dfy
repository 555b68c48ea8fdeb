/** The driver side of the virtqueue as the source writes it, proved against the memory effects of the steps. */
module VirtqueueDriver {
  import opened Bits
  import opened Common
  import opened Counting
  import opened Rings
  import opened Virtqueue

  /** Collects buffers, each marked NEXT; the last loses the mark when the chain is built. */
  class ChainBuilder {
    var buffers: seq<Buffer>

    ghost predicate Valid()
      reads this
    {
      forall i :: 0 <= i < |buffers| ==> buffers[i].flags.next
    }

    constructor ()
      ensures Valid() && buffers == []
    {
      buffers := [];
    }

    method Chain(buffer: Buffer)
      requires Valid()
      modifies this
      ensures Valid()
      ensures buffers == old(buffers) + [buffer.(flags := buffer.flags.(next := true))]
    {
      buffers := buffers + [buffer.(flags := buffer.flags.(next := true))];
    }

    /** Panics on an empty chain. */
    method Build() returns (chain: seq<Buffer>)
      requires Valid() && |buffers| > 0
      modifies this
      ensures WellFormedChain(chain) && |chain| == |old(buffers)|
      ensures forall i :: 0 <= i < |chain| ==>
                chain[i] == old(buffers)[i].(flags := old(buffers)[i].flags.(next := i < |chain| - 1))
    {
      var last := |buffers| - 1;
      buffers := buffers[last := buffers[last].(flags := buffers[last].flags.(next := false))];
      chain := buffers;
    }
  }

  /** The first `i` buffers are written and linked, but for the link out of the last of them. */
  ghost predicate PartWritten(was: seq<Descriptor>, now: seq<Descriptor>, ds: seq<nat>, chain: seq<Buffer>, i: nat)
    requires i <= |ds| == |chain|
  {
    && |now| == |was|
    && (forall j :: 0 <= j < i ==> ds[j] < |now|)
    && (forall j :: 0 <= j < i - 1 ==> now[ds[j]] == DescriptorFor(chain, ds, j))
    && (i > 0 ==> now[ds[i - 1]] == DescriptorFor(chain, ds, i - 1).(next := now[ds[i - 1]].next))
    && (forall d :: 0 <= d < |was| && d !in ds[..i] ==> now[d] == was[d])
  }

  lemma PartStep(was: seq<Descriptor>, now: seq<Descriptor>, now': seq<Descriptor>, ds: seq<nat>, chain: seq<Buffer>, i: nat)
    requires i < |ds| == |chain| && PartWritten(was, now, ds, chain, i)
    requires (forall j :: 0 <= j < i ==> ds[j] != ds[i]) && (forall j :: 0 <= j < i - 1 ==> ds[j] != ds[i - 1])
    requires ds[i] < |now| == |now'|
    requires now'[ds[i]] == DescriptorFor(chain, ds, i).(next := now'[ds[i]].next)
    requires i > 0 ==> now'[ds[i - 1]] == now[ds[i - 1]].(next := ds[i])
    requires forall d :: 0 <= d < |now| && d != ds[i] && (i > 0 ==> d != ds[i - 1]) ==> now'[d] == now[d]
    ensures PartWritten(was, now', ds, chain, i + 1)
  {
    forall d | 0 <= d < |was| && d !in ds[..i + 1]
      ensures now'[d] == was[d]
    {
      assert ds[..i + 1][i] == ds[i] && ds[..i + 1][..i] == ds[..i];
      assert i > 0 ==> ds[..i][i - 1] == ds[i - 1];
    }
  }

  lemma PartEnd(was: seq<Descriptor>, now: seq<Descriptor>, ds: seq<nat>, chain: seq<Buffer>)
    requires 0 < |ds| == |chain| && Distinct(ds) && PartWritten(was, now, ds, chain, |ds|)
    ensures var last := ds[|ds| - 1];
            last < |now| && ChainWritten(was, now[last := now[last].(next := 0)], ds, chain)
  {
    assert ds[..|ds|] == ds;
  }

  /** The first descriptors popped from the free list are distinct and in the table. */
  lemma Popped(free: seq<nat>, n: nat, k: nat)
    requires Distinct(free) && (forall d :: d in free ==> d < n) && k <= |free|
    ensures Distinct(free[..k]) && forall i :: 0 <= i < k ==> free[..k][i] < n
  {
    forall i | 0 <= i < k ensures free[..k][i] < n {
      assert free[i] in free;
    }
  }

  /** The queue's DMA areas are arrays; `free` is the driver's own queue of descriptor numbers. */
  class VirtQueue {
    const n: nat
    const table: array<Descriptor>
    const avail: array<nat>
    const used: array<UsedElement>
    var availIdx: nat
    var usedIdx: nat
    var usedHead: nat
    var free: seq<nat>
    var wakers: set<nat>

    ghost function Memory(): Queue
      reads this, table, avail, used
    {
      Queue(n, table[..], free, avail[..], availIdx, used[..], usedIdx, usedHead, wakers)
    }

    ghost predicate Valid()
      reads this, table, avail, used
    {
      Shape(Memory()) && forall d :: d in free ==> d < n
    }

    constructor (n: nat)
      requires IsPow2(n) && n <= 32768
      ensures Valid() && this.n == n && fresh(table) && fresh(avail) && fresh(used)
      ensures |free| == n && forall i :: 0 <= i < n ==> free[i] == i
      ensures availIdx == usedIdx == usedHead == 0 && wakers == {}
    {
      this.n := n;
      table := new Descriptor[n](_ => Descriptor(0, 0, Flags(false, false, false), 0));
      avail := new nat[n](_ => 0xFFFF);
      used := new UsedElement[n](_ => UsedElement(0xFFFF_FFFF, 0));
      availIdx, usedIdx, usedHead, wakers := 0, 0, 0, {};
      free := seq(n, i => i);
    }

    method SetDescriptor(d: nat, buffer: Buffer)
      requires d < table.Length
      modifies table
      ensures table[..] == old(table[..])[d := Descriptor(buffer.addr, buffer.size % 0x1_0000_0000, buffer.flags, old(table[d].next))]
    {
      table[d] := Descriptor(buffer.addr, buffer.size % 0x1_0000_0000, buffer.flags, table[d].next);
    }

    method SetNext(d: nat, next: nat)
      requires d < table.Length
      modifies table
      ensures table[..] == old(table[..])[d := old(table[d]).(next := next)]
    {
      table[d] := table[d].(next := next);
    }

    /** Writes a buffer's descriptor and, unless it is the first of its chain, links the one before to it. */
    method WriteLink(d: nat, buffer: Buffer, last: Option<nat>)
      requires d < table.Length && (last.Some? ==> last.value < table.Length && last.value != d)
      modifies table
      ensures table[d] == Descriptor(buffer.addr, buffer.size % 0x1_0000_0000, buffer.flags, old(table[d].next))
      ensures last.Some? ==> table[last.value] == old(table[last.value]).(next := d)
      ensures forall e :: 0 <= e < table.Length && e != d && last != Some(e) ==> table[e] == old(table[e])
    {
      SetDescriptor(d, buffer);
      if last.Some? {
        SetNext(last.value, d);
      }
    }

    /** Pops a descriptor per buffer and links them; panics when they run out. */
    method WriteChain(chain: seq<Buffer>) returns (head: nat)
      requires Valid() && Distinct(free) && 0 < |chain| <= |free|
      modifies this`free, table
      ensures head == old(free)[0] && free == old(free)[|chain|..]
      ensures ChainWritten(old(table[..]), table[..], old(free)[..|chain|], chain)
    {
      ghost var ds, was := free[..|chain|], table[..];
      Popped(free, n, |chain|);
      head := free[0];
      var last, i := 0, 0;
      while i < |chain|
        invariant 0 <= i <= |chain|
        invariant free == old(free)[i..]
        invariant i > 0 ==> last == ds[i - 1]
        invariant PartWritten(was, table[..], ds, chain, i)
      {
        ghost var now := table[..];
        var descriptor := free[0];
        free := free[1..];
        WriteLink(descriptor, chain[i], if i > 0 then Some(last) else None);
        PartStep(was, now, table[..], ds, chain, i);
        last := descriptor;
        i := i + 1;
      }
      PartEnd(was, table[..], ds, chain);
      SetNext(last, 0);
    }

    method Offer(head: nat)
      requires Valid()
      modifies this`availIdx, avail
      ensures avail[..] == old(avail[..])[Slot(n, old(availIdx)) := head] && availIdx == Step16(old(availIdx))
    {
      SlotMod(n, availIdx);
      avail[availIdx % n] := head;
      availIdx := Step16(availIdx);
    }

    /** Writes the chain and offers its first descriptor at the available index. */
    method Send(chain: seq<Buffer>) returns (head: nat)
      requires Valid() && Distinct(free) && 0 < |chain| <= |free|
      modifies this, table, avail
      ensures Valid() && head == old(free)[0]
      ensures SendMemory(old(Memory()), Memory(), chain)
    {
      head := WriteChain(chain);
      assert forall d :: d in free ==> d in old(free);
      Offer(head);
    }

    /** Returns a chain to the free queue, following NEXT from its head. */
    method Recycle(head: nat, ghost path: seq<nat>)
      requires IsWalk(table[..], path) && path[0] == head
      modifies this`free
      ensures free == old(free) + path
    {
      var tableIndex := head;
      ghost var k := 0;
      while table[tableIndex].flags.next
        invariant 0 <= k < |path| && tableIndex == path[k]
        invariant free == old(free) + path[..k]
        decreases |path| - k
      {
        var next := table[tableIndex].next;
        free := free + [tableIndex];
        assert path[..k + 1] == path[..k] + [path[k]];
        tableIndex := next;
        k := k + 1;
      }
      free := free + [tableIndex];
      assert k == |path| - 1 && path == path[..k] + [path[k]];
    }

    /** The newest used element. */
    method Newest(index: nat) returns (element: UsedElement)
      requires n > 0 && used.Length == n
      ensures element == used[..][Slot(n, (index - 1) % 0x1_0000)]
    {
      SlotMod(n, (index - 1) % 0x1_0000);
      element := used[((index - 1) % 0x1_0000) % n];
    }

    /**
     Registers the waker, reads the used index, and recycles the request's chain if the
     newest used entry names it. `path` is the chain being walked; it exists for every
     outstanding request (VirtqueueRuns.DescriptorsConserved), which is why the loop ends.
     */
    method Poll(head: nat, ghost path: seq<nat>) returns (outcome: Outcome)
      requires Valid() && IsWalk(table[..], path) && path[0] == head
      modifies this
      ensures Valid()
      ensures var q := old(Memory()).(wakers := old(wakers) + {head});
              outcome == PollOutcome(q, head, q.usedIdx) && PollMemory(q, Memory(), head, q.usedIdx, path)
    {
      wakers := wakers + {head};
      var index := usedIdx;
      if index == usedHead {
        return Pending;
      }
      var element := Newest(index);
      if element.index != head {
        return Pending;
      }
      Recycle(head, path);
      wakers := wakers - {head};
      usedHead := index;
      return Ready(element.written);
    }
  }
}
