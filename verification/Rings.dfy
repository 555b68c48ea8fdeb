/** A ring buffer beside the unbounded list of everything ever written to it. */
module Rings {
  import opened Bits

  /** The slot of entry `i` in a ring of `n`, counted off one turn at a time. */
  function Slot(n: nat, i: nat): (k: nat)
    requires n > 0
    ensures k < n
    decreases i
  {
    if i < n then i else Slot(n, i - n)
  }

  lemma {:induction false} SlotMod(n: nat, i: nat)
    requires n > 0
    ensures Slot(n, i) == i % n
  {
    if i < n {
      DivModUnique(i, n, 0, i);
    } else {
      SlotMod(n, i - n);
      DivModUnique(i, n, (i - n) / n + 1, (i - n) % n);
    }
  }

  lemma SlotSucc(n: nat, i: nat)
    requires n > 1
    ensures Slot(n, Slot(n, i) + 1) == Slot(n, i + 1)
  {
    SlotMod(n, i);
    SlotMod(n, i % n + 1);
    SlotMod(n, i + 1);
    SuccMod(i, n);
  }

  /** Two entries less than a ringful apart lie in different slots. */
  lemma SlotsApart(n: nat, i: nat, j: nat)
    requires i < j < i + n
    ensures Slot(n, i) != Slot(n, j)
  {
    SlotMod(n, i);
    SlotMod(n, j);
    SlotsDiffer(n, i, j);
  }

  /** The ring still holds the entries of `log` from position `lo` on. */
  ghost predicate RingHolds<T>(ring: seq<T>, log: seq<T>, lo: nat) {
    |ring| > 0 && forall i :: lo <= i < |log| ==> ring[Slot(|ring|, i)] == log[i]
  }

  /** Writing the next entry keeps every entry that is still wanted, if fewer than a ringful are. */
  lemma RingPush<T>(ring: seq<T>, log: seq<T>, lo: nat, x: T)
    requires RingHolds(ring, log, lo) && |log| < lo + |ring|
    ensures RingHolds(ring[Slot(|ring|, |log|) := x], log + [x], lo)
  {
    var n := |ring|;
    forall i | lo <= i < |log|
      ensures Slot(n, i) != Slot(n, |log|)
    {
      SlotsApart(n, i, |log|);
    }
  }

  lemma RingDrop<T>(ring: seq<T>, log: seq<T>, lo: nat)
    requires RingHolds(ring, log, lo)
    ensures RingHolds(ring, log, lo + 1)
  {
  }
}
