/** PCI Express enhanced configuration access: finding the memory-mapped register of a function. */
module Ecam {
  import opened Bits
  import opened Common

  const BYTES_PER_BUS := 0x10_0000

  /** An entry of the firmware's table; `mapping` is where its memory was mapped, if that worked. */
  datatype Descriptor = Descriptor(seg: nat, startBus: nat, endBus: nat, mapping: Option<nat>)

  /** A mapped region: buses `startBus` to `endBus` of a segment, at byte address `mem`. */
  datatype Alloc = Alloc(seg: nat, startBus: nat, endBus: nat, mem: nat)

  datatype PciAddress = PciAddress(seg: nat, bus: nat, device: nat, func: nat)

  predicate AllocOk(a: Alloc) {
    a.seg < 0x1_0000 && a.startBus <= a.endBus < 0x100
  }

  predicate AddressOk(a: PciAddress) {
    a.seg < 0x1_0000 && a.bus < 0x100 && a.device < 32 && a.func < 8
  }

  /** The sort key `(seg, bus)`, ordered lexicographically. */
  function Key(seg: nat, bus: nat): nat {
    0x100 * seg + bus
  }

  function KeyOf(a: Alloc): nat {
    Key(a.seg, a.startBus)
  }

  ghost predicate Sorted(allocs: seq<Alloc>) {
    forall i, j :: 0 <= i < j < |allocs| ==> KeyOf(allocs[i]) <= KeyOf(allocs[j])
  }

  ghost predicate Apart(x: Alloc, y: Alloc) {
    x.seg != y.seg || x.endBus < y.startBus || y.endBus < x.startBus
  }

  /** No bus is covered twice. */
  ghost predicate Disjoint(allocs: seq<Alloc>) {
    forall i, j :: 0 <= i < j < |allocs| ==> Apart(allocs[i], allocs[j])
  }

  ghost predicate TableOk(allocs: seq<Alloc>) {
    Sorted(allocs) && Disjoint(allocs) && forall i :: 0 <= i < |allocs| ==> AllocOk(allocs[i])
  }

  /** The same for a table in no particular order. */
  ghost predicate DisjointBag(bag: multiset<Alloc>) {
    && (forall x :: x in bag ==> AllocOk(x) && bag[x] == 1)
    && (forall x, y :: x in bag && y in bag && x != y ==> Apart(x, y))
  }

  lemma OnceEach(allocs: seq<Alloc>, i: nat, j: nat)
    requires DisjointBag(multiset(allocs)) && i < j < |allocs|
    ensures allocs[i] != allocs[j]
  {
    var x := allocs[i];
    assert x in multiset(allocs);
    assert allocs == allocs[..i] + [x] + allocs[i + 1..];
    assert x !in multiset(allocs[i + 1..]);
    assert allocs[j] == allocs[i + 1..][j - i - 1];
  }

  lemma TableFromBag(allocs: seq<Alloc>)
    requires Sorted(allocs) && DisjointBag(multiset(allocs))
    ensures TableOk(allocs)
  {
    forall i, j | 0 <= i < j < |allocs| ensures Apart(allocs[i], allocs[j]) {
      OnceEach(allocs, i, j);
      assert allocs[i] in multiset(allocs) && allocs[j] in multiset(allocs);
    }
    forall i | 0 <= i < |allocs| ensures AllocOk(allocs[i]) {
      assert allocs[i] in multiset(allocs);
    }
  }

  // ---- Building the table ----

  /** The mapped descriptors, in the table's order. */
  function Mapped(table: seq<Descriptor>): seq<Alloc> {
    if table == [] then
      []
    else
      var d := table[|table| - 1];
      Mapped(table[..|table| - 1]) +
      if d.mapping.Some? then [Alloc(d.seg, d.startBus, d.endBus, d.mapping.value)] else []
  }

  lemma InsertedSorted(s: seq<Alloc>, k: nat, a: Alloc)
    requires Sorted(s) && k <= |s|
    requires k > 0 ==> KeyOf(s[k - 1]) <= KeyOf(a)
    requires forall i :: k <= i < |s| ==> KeyOf(s[i]) > KeyOf(a)
    ensures Sorted(s[..k] + [a] + s[k..])
  {
    var r := s[..k] + [a] + s[k..];
    forall i, j | 0 <= i < j < |r| ensures KeyOf(r[i]) <= KeyOf(r[j]) {
      assert r[i] == if i < k then s[i] else if i == k then a else s[i - 1];
      assert r[j] == if j < k then s[j] else if j == k then a else s[j - 1];
    }
  }

  /** Inserts after every entry whose key is not larger, as a stable sort does. */
  method Insert(sorted: seq<Alloc>, a: Alloc) returns (r: seq<Alloc>)
    requires Sorted(sorted)
    ensures Sorted(r) && multiset(r) == multiset(sorted) + multiset{a}
  {
    var k := |sorted|;
    while k > 0 && KeyOf(sorted[k - 1]) > KeyOf(a)
      invariant 0 <= k <= |sorted| && forall i :: k <= i < |sorted| ==> KeyOf(sorted[i]) > KeyOf(a)
    {
      k := k - 1;
    }
    InsertedSorted(sorted, k, a);
    r := sorted[..k] + [a] + sorted[k..];
    assert sorted == sorted[..k] + sorted[k..];
  }

  /** Keeps what could be mapped and sorts it. */
  method FromAllocs(table: seq<Descriptor>) returns (allocs: seq<Alloc>)
    ensures Sorted(allocs) && multiset(allocs) == multiset(Mapped(table))
    ensures DisjointBag(multiset(Mapped(table))) ==> TableOk(allocs)
  {
    allocs := [];
    for k := 0 to |table|
      invariant Sorted(allocs) && multiset(allocs) == multiset(Mapped(table[..k]))
    {
      assert table[..k + 1][..k] == table[..k];
      var d := table[k];
      if d.mapping.Some? {
        allocs := Insert(allocs, Alloc(d.seg, d.startBus, d.endBus, d.mapping.value));
      }
    }
    assert table[..|table|] == table;
    if DisjointBag(multiset(Mapped(table))) {
      TableFromBag(allocs);
    }
  }

  // ---- The search ----

  datatype Found = Present(index: nat) | Absent(above: nat)

  method BinarySearch(allocs: seq<Alloc>, key: nat) returns (r: Found)
    requires Sorted(allocs)
    ensures r.Present? ==> r.index < |allocs| && KeyOf(allocs[r.index]) == key
    ensures r.Absent? ==>
              && r.above <= |allocs|
              && (forall i :: 0 <= i < r.above ==> KeyOf(allocs[i]) < key)
              && (forall i :: r.above <= i < |allocs| ==> KeyOf(allocs[i]) > key)
  {
    var low, high := 0, |allocs|;
    while low < high
      invariant 0 <= low <= high <= |allocs|
      invariant forall i :: 0 <= i < low ==> KeyOf(allocs[i]) < key
      invariant forall i :: high <= i < |allocs| ==> KeyOf(allocs[i]) > key
    {
      var mid := (low + high) / 2;
      if KeyOf(allocs[mid]) < key {
        low := mid + 1;
      } else if KeyOf(allocs[mid]) > key {
        high := mid;
      } else {
        return Present(mid);
      }
    }
    return Absent(low);
  }

  predicate Covers(a: Alloc, seg: nat, bus: nat) {
    a.seg == seg && a.startBus <= bus <= a.endBus
  }

  /** The reference: the first region that covers the bus. */
  function Scan(allocs: seq<Alloc>, seg: nat, bus: nat): (r: Option<nat>)
    ensures r.Some? ==> r.value < |allocs| && Covers(allocs[r.value], seg, bus)
    ensures r.None? ==> forall i :: 0 <= i < |allocs| ==> !Covers(allocs[i], seg, bus)
  {
    if allocs == [] then
      None
    else if Covers(allocs[0], seg, bus) then
      Some(0)
    else
      match Scan(allocs[1..], seg, bus)
      case None => None
      case Some(i) => Some(i + 1)
  }

  /** The last region that starts at or below the bus belongs to another segment and its bus range ends at or above it. */
  ghost predicate CrossesSegment(allocs: seq<Alloc>, seg: nat, bus: nat) {
    exists j :: 0 <= j < |allocs| && IsLast(allocs, j, Key(seg, bus)) && allocs[j].seg != seg && bus <= allocs[j].endBus
  }

  ghost predicate IsLast(allocs: seq<Alloc>, j: nat, key: nat)
    requires j < |allocs|
  {
    KeyOf(allocs[j]) <= key && forall i :: j < i < |allocs| ==> KeyOf(allocs[i]) > key
  }

  lemma ScanIs(allocs: seq<Alloc>, seg: nat, bus: nat, j: nat)
    requires Disjoint(allocs) && j < |allocs| && Covers(allocs[j], seg, bus)
    ensures Scan(allocs, seg, bus) == Some(j)
  {
  }

  /** Within a segment, only the last region that starts at or below a bus can cover it. */
  lemma OnlyLastCovers(allocs: seq<Alloc>, seg: nat, bus: nat, j: nat, i: nat)
    requires TableOk(allocs) && bus < 0x100 && j < |allocs| && IsLast(allocs, j, Key(seg, bus))
    requires i < |allocs| && Covers(allocs[i], seg, bus)
    ensures i == j
  {
    assert KeyOf(allocs[i]) <= Key(seg, bus);
  }

  lemma LastIsOne(allocs: seq<Alloc>, key: nat, i: nat, j: nat)
    requires i < |allocs| && j < |allocs| && IsLast(allocs, i, key) && IsLast(allocs, j, key)
    ensures i == j
  {
  }

  /** What the search returns for the last region that starts at or below the bus. */
  function Candidate(a: Alloc, j: nat, bus: nat): Option<nat> {
    if bus > a.endBus then None else Some(j)
  }

  lemma CandidateIff(allocs: seq<Alloc>, seg: nat, bus: nat, j: nat)
    requires TableOk(allocs) && bus < 0x100 && j < |allocs| && IsLast(allocs, j, Key(seg, bus))
    ensures Candidate(allocs[j], j, bus) == Scan(allocs, seg, bus) <==> !CrossesSegment(allocs, seg, bus)
  {
    var a := allocs[j];
    assert Covers(a, seg, bus) <==> a.seg == seg && bus <= a.endBus;
    if Covers(a, seg, bus) {
      ScanIs(allocs, seg, bus, j);
    } else if Scan(allocs, seg, bus).Some? {
      OnlyLastCovers(allocs, seg, bus, j, Scan(allocs, seg, bus).value);
    }
    if CrossesSegment(allocs, seg, bus) {
      var k :| 0 <= k < |allocs| && IsLast(allocs, k, Key(seg, bus)) && allocs[k].seg != seg && bus <= allocs[k].endBus;
      LastIsOne(allocs, Key(seg, bus), j, k);
    }
  }

  lemma NoneBelow(allocs: seq<Alloc>, seg: nat, bus: nat)
    requires forall i :: 0 <= i < |allocs| ==> KeyOf(allocs[i]) > Key(seg, bus)
    ensures Scan(allocs, seg, bus).None? && !CrossesSegment(allocs, seg, bus)
  {
    forall i | 0 <= i < |allocs| ensures !Covers(allocs[i], seg, bus) {
      assert KeyOf(allocs[i]) > Key(seg, bus);
    }
  }

  /**
   * The region of a bus: it is the one a linear scan finds, unless the region below belongs to another segment whose bus
   * numbers reach this far.
   */
  method Find(allocs: seq<Alloc>, seg: nat, bus: nat) returns (r: Option<nat>)
    requires TableOk(allocs) && bus < 0x100
    ensures r == Scan(allocs, seg, bus) <==> !CrossesSegment(allocs, seg, bus)
    ensures r.Some? ==> r.value < |allocs| && IsLast(allocs, r.value, Key(seg, bus)) && bus <= allocs[r.value].endBus
  {
    var found := BinarySearch(allocs, Key(seg, bus));
    match found {
      case Present(i) =>
        PresentIsLast(allocs, seg, bus, i);
        CandidateIff(allocs, seg, bus, i);
        return Some(i);
      case Absent(above) =>
        if above == 0 {
          NoneBelow(allocs, seg, bus);
          return None;
        }
        assert IsLast(allocs, above - 1, Key(seg, bus));
        CandidateIff(allocs, seg, bus, above - 1);
        return if bus > allocs[above - 1].endBus then None else Some(above - 1);
    }
  }

  lemma PresentIsLast(allocs: seq<Alloc>, seg: nat, bus: nat, i: nat)
    requires TableOk(allocs) && bus < 0x100 && i < |allocs| && KeyOf(allocs[i]) == Key(seg, bus)
    ensures IsLast(allocs, i, Key(seg, bus)) && Covers(allocs[i], seg, bus)
  {
    assert allocs[i].seg == seg && allocs[i].startBus == bus;
    forall k | i < k < |allocs| ensures KeyOf(allocs[k]) > Key(seg, bus) {
      assert KeyOf(allocs[i]) <= KeyOf(allocs[k]);
    }
  }

  /** Segment 0, the only one the driver asks for, has nothing below it. */
  lemma SegmentZeroIsSafe(allocs: seq<Alloc>, bus: nat)
    requires TableOk(allocs) && bus < 0x100
    ensures !CrossesSegment(allocs, 0, bus)
  {
    forall j | 0 <= j < |allocs| && KeyOf(allocs[j]) <= Key(0, bus) ensures allocs[j].seg == 0 {
    }
  }

  /** For another segment the search can return a region of the segment below. */
  lemma OtherSegmentMisses(mem: nat)
    ensures var allocs := [Alloc(0, 0, 255, mem)];
            TableOk(allocs) && CrossesSegment(allocs, 1, 5) && Scan(allocs, 1, 5).None?
  {
    var allocs := [Alloc(0, 0, 255, mem)];
    assert IsLast(allocs, 0, Key(1, 5)) && allocs[0].seg != 1 && 5 <= allocs[0].endBus;
  }

  // ---- The register ----

  /** `x << 15` and `x << 12`; the fields of an offset do not overlap. */
  function DwordOffset(device: nat, func: nat, offset: nat): nat {
    BitOr(BitOr(device * 0x8000, func * 0x1000), offset) / 4
  }

  /** The two checks on a register offset say that it is a multiple of 4 below 4096. */
  lemma OffsetChecks(offset: nat)
    requires offset < 0x1_0000
    ensures BitAnd(offset, 0xFFFC) == offset <==> offset % 4 == 0
    ensures BitAnd(offset, 0x0FFF) == offset <==> offset < 0x1000
  {
    assert IsPow2(0x1000) by { Pow2Constants(); }
    AndBelow(offset, 0x1000);
    AndHigh(offset);
  }

  /** Masking with `n - 1` keeps exactly the numbers below `n`. */
  lemma AndBelow(x: nat, n: nat)
    requires IsPow2(n)
    ensures BitAnd(x, n - 1) == x <==> x < n
  {
    AndMask(x, n);
    if x < n {
      DivModUnique(x, n, 0, x);
    }
  }

  lemma AndHigh(x: nat)
    requires x < 0x1_0000
    ensures BitAnd(x, 0xFFFC) == x / 4 * 4
  {
    assert IsPow2(0x4000) by {
      Pow2Constants();
      assert IsPow2(0x1_0000 / 2);
    }
    AndDouble(x, 0x7FFE, 0xFFFC);
    AndDouble(x / 2, 0x3FFF, 0x7FFE);
    AndMask(x / 4, 0x4000);
    assert x / 2 / 2 == x / 4;
  }

  lemma OffsetIsSum(device: nat, func: nat, offset: nat)
    requires device < 32 && func < 8 && offset < 0x1000 && offset % 4 == 0
    ensures DwordOffset(device, func, offset) == device * 0x2000 + func * 0x400 + offset / 4
  {
    Pow2Constants();
    assert IsPow2(0x8000) by { assert IsPow2(0x1_0000); }
    OrDisjoint(device * 0x8000, func * 0x1000, 0x8000);
    OrDisjoint(device * 0x8000 + func * 0x1000, offset, 0x1000);
  }

  ghost predicate OffsetOk(offset: nat) {
    offset < 0x1000 && offset % 4 == 0
  }

  /** The byte address of a register by linear scan. */
  ghost function Locate(allocs: seq<Alloc>, a: PciAddress, offset: nat): Option<nat> {
    match Scan(allocs, a.seg, a.bus)
    case None => None
    case Some(i) => Some(allocs[i].mem + InRegion(allocs[i], a, offset))
  }

  function InRegion(region: Alloc, a: PciAddress, offset: nat): nat
    requires region.startBus <= a.bus
  {
    (a.bus - region.startBus) * 0x10_0000 + 4 * DwordOffset(a.device, a.func, offset)
  }

  ghost function MappedBytes(region: Alloc): int {
    (region.endBus - region.startBus + 1) * 0x10_0000
  }

  /** A register is found at `x` exactly when a region holds its bus and `x` is made up of the four fields there. */
  lemma LocateIs(allocs: seq<Alloc>, a: PciAddress, offset: nat, x: nat)
    requires TableOk(allocs) && AddressOk(a) && OffsetOk(offset)
    ensures Locate(allocs, a, offset) == Some(x) <==>
              exists i :: 0 <= i < |allocs| && allocs[i].seg == a.seg && allocs[i].startBus <= a.bus <= allocs[i].endBus &&
                x == allocs[i].mem + (a.bus - allocs[i].startBus) * 0x10_0000 + a.device * 0x8000 + a.func * 0x1000 + offset
  {
    OffsetIsSum(a.device, a.func, offset);
    if i :| 0 <= i < |allocs| && Covers(allocs[i], a.seg, a.bus) {
      ScanIs(allocs, a.seg, a.bus, i);
    }
  }

  /** The register's address, by region, bus, device, function and offset; the fast search finds what the linear scan would. */
  method MmioAddr(allocs: seq<Alloc>, a: PciAddress, offset: nat) returns (r: Option<nat>)
    requires TableOk(allocs) && AddressOk(a) && a.seg == 0 && OffsetOk(offset)
    ensures forall x: nat :: r == Some(x) <==>
              exists i :: 0 <= i < |allocs| && allocs[i].seg == 0 && allocs[i].startBus <= a.bus <= allocs[i].endBus &&
                x == allocs[i].mem + (a.bus - allocs[i].startBus) * 0x10_0000 + a.device * 0x8000 + a.func * 0x1000 + offset
    ensures r == Locate(allocs, a, offset)
  {
    forall x: nat ensures Locate(allocs, a, offset) == Some(x) <==>
                            exists i :: 0 <= i < |allocs| && allocs[i].seg == 0 && allocs[i].startBus <= a.bus <= allocs[i].endBus &&
                              x == allocs[i].mem + (a.bus - allocs[i].startBus) * 0x10_0000 + a.device * 0x8000 + a.func * 0x1000 + offset
    {
      LocateIs(allocs, a, offset, x);
    }
    SegmentZeroIsSafe(allocs, a.bus);
    var found := Find(allocs, a.seg, a.bus);
    if found.None? {
      return None;
    }
    var alloc := allocs[found.value];
    var busAddr := alloc.mem + (a.bus - alloc.startBus) * BYTES_PER_BUS;
    return Some(busAddr + 4 * DwordOffset(a.device, a.func, offset));
  }

  lemma DwordBelow(device: nat, func: nat, offset: nat)
    requires device < 32 && func < 8 && OffsetOk(offset)
    ensures DwordOffset(device, func, offset) < 0x4_0000
  {
    OffsetIsSum(device, func, offset);
  }

  lemma InRegionFits(region: Alloc, a: PciAddress, offset: nat)
    requires AddressOk(a) && OffsetOk(offset) && region.startBus <= a.bus <= region.endBus
    ensures InRegion(region, a, offset) + 4 <= MappedBytes(region) && InRegion(region, a, offset) % 4 == 0
  {
    DwordBelow(a.device, a.func, offset);
    var dword := (a.bus - region.startBus) * 0x4_0000 + DwordOffset(a.device, a.func, offset);
    assert InRegion(region, a, offset) == 4 * dword;
  }

  /** A register lies on a dword boundary inside the mapping of the region that covers its bus. */
  lemma InsideMapping(allocs: seq<Alloc>, a: PciAddress, offset: nat)
    requires TableOk(allocs) && AddressOk(a) && OffsetOk(offset) && Locate(allocs, a, offset).Some?
    ensures var i, x := Scan(allocs, a.seg, a.bus).value, Locate(allocs, a, offset).value;
            && allocs[i].mem <= x && x + 4 <= allocs[i].mem + MappedBytes(allocs[i])
            && (x - allocs[i].mem) % 4 == 0
  {
    InRegionFits(allocs[Scan(allocs, a.seg, a.bus).value], a, offset);
  }

  lemma SameFields(k: int, d: int, f: int, o: int, l: int, e: int, g: int, p: int)
    requires 0 <= d < 32 && 0 <= f < 8 && 0 <= o < 0x1000 && 0 <= e < 32 && 0 <= g < 8 && 0 <= p < 0x1000
    requires k * 0x10_0000 + d * 0x8000 + f * 0x1000 + o == l * 0x10_0000 + e * 0x8000 + g * 0x1000 + p
    ensures k == l && d == e && f == g && o == p
  {
  }

  lemma OneRegister(region: Alloc, a: PciAddress, offset: nat, b: PciAddress, other: nat)
    requires AddressOk(a) && OffsetOk(offset) && region.startBus <= a.bus
    requires AddressOk(b) && OffsetOk(other) && region.startBus <= b.bus
    requires InRegion(region, a, offset) == InRegion(region, b, other)
    ensures a.bus == b.bus && a.device == b.device && a.func == b.func && offset == other
  {
    OffsetIsSum(a.device, a.func, offset);
    OffsetIsSum(b.device, b.func, other);
    SameFields(a.bus - region.startBus, a.device, a.func, offset, b.bus - region.startBus, b.device, b.func, other);
  }

  ghost predicate MappingsApart(allocs: seq<Alloc>) {
    forall i, j :: 0 <= i < |allocs| && 0 <= j < |allocs| && i != j ==>
      allocs[i].mem + MappedBytes(allocs[i]) <= allocs[j].mem || allocs[j].mem + MappedBytes(allocs[j]) <= allocs[i].mem
  }

  /** Different registers have different addresses. */
  lemma AddressesDiffer(allocs: seq<Alloc>, a: PciAddress, offset: nat, b: PciAddress, other: nat)
    requires TableOk(allocs) && MappingsApart(allocs) && AddressOk(a) && OffsetOk(offset) && AddressOk(b) && OffsetOk(other)
    requires Locate(allocs, a, offset).Some? && Locate(allocs, a, offset) == Locate(allocs, b, other)
    ensures a == b && offset == other
  {
    InsideMapping(allocs, a, offset);
    InsideMapping(allocs, b, other);
    var i := Scan(allocs, a.seg, a.bus).value;
    assert i == Scan(allocs, b.seg, b.bus).value;
    OneRegister(allocs[i], a, offset, b, other);
  }
}
