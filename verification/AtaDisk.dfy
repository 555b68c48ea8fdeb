/**
 The ATA disk driver: transfers cut into 64 KiB chunks, addressed through two-deep LBA48
 registers and moved by bus-master DMA or by 32-bit port reads and writes, refine a flat
 array of bytes.
 */
module AtaDisk {
  import opened Bits
  import opened Common

  datatype Errno = EIO

  /** `phys` is where the device reads or writes; the last entry of the table carries the end mark. */
  datatype PrdtEntry = PrdtEntry(phys: nat, size: nat, last: bool)

  /** A task-file register of an LBA48 drive: a write pushes the previous content down. */
  datatype Register = Register(current: byte, previous: byte)

  function Push(r: Register, value: byte): Register {
    Register(value, r.current)
  }

  // ---- The flat disk ----

  /** `disk` with `data` at byte `at`. */
  function Splice(disk: seq<byte>, at: nat, data: seq<byte>): (r: seq<byte>)
    requires at + |data| <= |disk|
    ensures |r| == |disk|
  {
    disk[..at] + data + disk[at + |data|..]
  }

  lemma SpliceTwice(disk: seq<byte>, at: nat, a: seq<byte>, b: seq<byte>)
    requires at + |a| + |b| <= |disk|
    ensures Splice(Splice(disk, at, a), at + |a|, b) == Splice(disk, at, a + b)
  {
  }

  /** Reading where something was written gives it back; reading elsewhere gives what was there. */
  lemma SpliceReads(disk: seq<byte>, at: nat, data: seq<byte>, from: nat, len: nat)
    requires at + |data| <= |disk| && from + len <= |disk|
    ensures Splice(disk, at, data)[at..at + |data|] == data
    ensures from + len <= at || at + |data| <= from ==> Splice(disk, at, data)[from..from + len] == disk[from..from + len]
  {
    var r := Splice(disk, at, data);
    assert forall i :: 0 <= i < |disk| ==> r[i] == if at <= i < at + |data| then data[i - at] else disk[i];
  }

  // ---- LBA48 registers ----

  function Byte0(x: nat): byte { x % 0x100 }
  function Byte1(x: nat): byte { x / 0x100 % 0x100 }
  function Byte2(x: nat): byte { x / 0x1_0000 % 0x100 }
  function Byte3(x: nat): byte { x / 0x100_0000 % 0x100 }
  function Byte4(x: nat): byte { x / 0x1_0000_0000 % 0x100 }
  function Byte5(x: nat): byte { x / 0x100_0000_0000 % 0x100 }

  /** The address the drive assembles: current contents are the low three bytes, previous ones the high three. */
  function Address(lba0: Register, lba1: Register, lba2: Register): nat {
    lba0.current + 0x100 * lba1.current + 0x1_0000 * lba2.current
    + 0x100_0000 * lba0.previous + 0x1_0000_0000 * lba1.previous + 0x100_0000_0000 * lba2.previous
  }

  function SectorTotal(count: Register): nat {
    var n := count.current + 0x100 * count.previous;
    if n == 0 then 0x1_0000 else n
  }

  /** Six bytes written high half first come back as the block number. */
  lemma AddressRoundTrip(block: nat, r0: Register, r1: Register, r2: Register)
    requires block < 0x1_0000_0000_0000
    ensures Address(
              Push(Push(r0, Byte3(block)), Byte0(block)),
              Push(Push(r1, Byte4(block)), Byte1(block)),
              Push(Push(r2, Byte5(block)), Byte2(block))) == block
  {
    var low, high := block % 0x100_0000, block / 0x100_0000;
    LowBytes(low, high);
    HighBytes(block);
    ThreeBytes(low);
    ThreeBytes(high);
  }

  lemma ThreeBytes(x: nat)
    requires x < 0x100_0000
    ensures x == Byte0(x) + 0x100 * Byte1(x) + 0x1_0000 * Byte2(x)
  {
  }

  lemma LowBytes(low: nat, high: nat)
    requires low < 0x100_0000
    ensures var x := low + 0x100_0000 * high;
            Byte0(x) == Byte0(low) && Byte1(x) == Byte1(low) && Byte2(x) == Byte2(low)
  {
    var x := low + 0x100_0000 * high;
    assert x == low + 0x100 * (0x1_0000 * high);
    DropHigh(low, 0x1_0000 * high);
    assert x / 0x100 == low / 0x100 + 0x100 * (0x100 * high);
    DropHigh(low / 0x100, 0x100 * high);
    assert x / 0x1_0000 == low / 0x1_0000 + 0x100 * high;
    DropHigh(low / 0x1_0000, high);
  }

  lemma DropHigh(a: nat, k: nat)
    ensures (a + 0x100 * k) % 0x100 == a % 0x100
  {
  }

  lemma CountRoundTrip(sectors: nat, r: Register)
    requires 0 < sectors <= 128
    ensures SectorTotal(Push(Push(r, Byte1(sectors)), Byte0(sectors))) == sectors
  {
  }

  lemma HighBytes(x: nat)
    ensures var high := x / 0x100_0000;
            Byte3(x) == Byte0(high) && Byte4(x) == Byte1(high) && Byte5(x) == Byte2(high)
  {
    assert x / 0x1_0000_0000 == x / 0x100_0000 / 0x100;
    assert x / 0x100_0000_0000 == x / 0x100_0000 / 0x1_0000;
  }

  // ---- 32-bit port transfers ----

  function Pack(b0: byte, b1: byte, b2: byte, b3: byte): nat {
    b0 + 0x100 * b1 + 0x1_0000 * b2 + 0x100_0000 * b3
  }

  lemma PackBytes(b0: byte, b1: byte, b2: byte, b3: byte)
    ensures var d := Pack(b0, b1, b2, b3);
            Byte0(d) == b0 && Byte1(d) == b1 && Byte2(d) == b2 && Byte3(d) == b3
  {
    var d := Pack(b0, b1, b2, b3);
    assert d / 0x100 == b1 + 0x100 * b2 + 0x1_0000 * b3;
    assert d / 0x1_0000 == b2 + 0x100 * b3;
    assert d / 0x100_0000 == b3;
  }

  // ---- Physical region tables ----

  /** The bytes the device fetches: each entry's region in turn, up to the end mark. */
  function Gather(table: seq<PrdtEntry>, i: nat, mem: seq<byte>, base: nat): seq<byte>
    decreases |table| - i
  {
    if i >= |table| then []
    else
      var e := table[i];
      var piece := if base <= e.phys && e.phys - base + e.size <= |mem| then mem[e.phys - base..e.phys - base + e.size] else [];
      if e.last then piece else piece + Gather(table, i + 1, mem, base)
  }

  /** Memory once the device has stored `data` into the regions in turn, up to the end mark. */
  function Scatter(table: seq<PrdtEntry>, i: nat, mem: seq<byte>, base: nat, data: seq<byte>): (r: seq<byte>)
    ensures |r| == |mem|
    decreases |table| - i
  {
    if i >= |table| then mem
    else
      var e := table[i];
      if base <= e.phys && e.phys - base + e.size <= |mem| && e.size <= |data| then
        var mem' := Splice(mem, e.phys - base, data[..e.size]);
        if e.last then mem' else Scatter(table, i + 1, mem', base, data[e.size..])
      else mem
  }

  /** A table that covers the first `sectors` sectors of the buffer, with the end mark only on the last of them. */
  ghost predicate Covers(table: seq<PrdtEntry>, base: nat, sectors: nat) {
    && 0 < sectors <= |table|
    && forall i :: 0 <= i < sectors ==> table[i] == PrdtEntry(base + i * 512, 512, i + 1 == sectors)
  }

  lemma {:induction false} GatherCovers(table: seq<PrdtEntry>, i: nat, mem: seq<byte>, base: nat, sectors: nat)
    requires Covers(table, base, sectors) && i < sectors && sectors * 512 <= |mem|
    ensures Gather(table, i, mem, base) == mem[i * 512..sectors * 512]
    decreases sectors - i
  {
    assert table[i] == PrdtEntry(base + i * 512, 512, i + 1 == sectors);
    if i + 1 < sectors {
      GatherCovers(table, i + 1, mem, base, sectors);
      CutAt(mem, i * 512, i * 512 + 512, sectors * 512);
    }
  }

  lemma CutAt(s: seq<byte>, a: nat, b: nat, c: nat)
    requires a <= b <= c <= |s|
    ensures s[a..c] == s[a..b] + s[b..c]
  {
  }

  lemma {:induction false} ScatterCovers(table: seq<PrdtEntry>, i: nat, mem: seq<byte>, base: nat, sectors: nat, data: seq<byte>)
    requires Covers(table, base, sectors) && i < sectors && sectors * 512 <= |mem| && |data| == (sectors - i) * 512
    ensures Scatter(table, i, mem, base, data) == Splice(mem, i * 512, data)
    decreases sectors - i
  {
    assert table[i] == PrdtEntry(base + i * 512, 512, i + 1 == sectors);
    var mem' := Splice(mem, i * 512, data[..512]);
    if i + 1 < sectors {
      ScatterCovers(table, i + 1, mem', base, sectors, data[512..]);
      SpliceTwice(mem, i * 512, data[..512], data[512..]);
      assert data == data[..512] + data[512..];
    } else {
      assert data[..512] == data;
    }
  }

  // ---- Status ----

  predicate Err(status: nat) { BitAnd(status, 0x01) != 0 }
  predicate Fault(status: nat) { BitAnd(status, 0x20) != 0 }
  predicate Bsy(status: nat) { BitAnd(status, 0x80) != 0 }
  predicate Drq(status: nat) { BitAnd(status, 0x08) != 0 }

  /** The bits of a status byte: 0 an error, 3 data wanted, 5 a fault, 7 busy. */
  lemma StatusBits(status: byte)
    ensures Err(status) <==> status % 2 == 1
    ensures Drq(status) <==> status / 8 % 2 == 1
    ensures Fault(status) <==> status / 32 % 2 == 1
    ensures Bsy(status) <==> status >= 128
  {
    assert IsPow2(2) && IsPow2(4) && IsPow2(8);
    assert IsPow2(16) && IsPow2(32);
    assert IsPow2(64) && IsPow2(128);
    AndBit(status, 1);
    AndBit(status, 8);
    AndBit(status, 32);
    AndBit(status, 128);
  }

  /** Not done yet, and nothing wrong so far. */
  predicate StillBusy(status: nat) {
    !Err(status) && !Fault(status) && Bsy(status)
  }

  /** Done, nothing wrong, and for a read with data to fetch. */
  predicate Settled(status: nat, read: bool) {
    !Err(status) && !Fault(status) && !Bsy(status) && (read ==> Drq(status))
  }

  /** The drive is busy for a while and then settles. */
  ghost predicate Settles(answers: seq<byte>, read: bool) {
    exists k :: 0 <= k < |answers| && Settled(answers[k], read) && forall j :: 0 <= j < k ==> StillBusy(answers[j])
  }

  /** The bus master's own status: bit 0 while active, bit 1 on an error. */
  ghost predicate BusSettles(answers: seq<byte>) {
    exists k :: 0 <= k < |answers| && BusDone(answers[k]) && forall j :: 0 <= j < k ==> BusActive(answers[j])
  }

  predicate BusDone(status: nat) {
    BitAnd(status, 0x02) == 0 && BitAnd(status, 0x01) == 0
  }

  predicate BusActive(status: nat) {
    BitAnd(status, 0x02) == 0 && BitAnd(status, 0x01) != 0
  }

  /** The bits of the bus master's status. */
  lemma BusBits(status: byte)
    ensures BusDone(status) <==> status % 4 == 0
    ensures BusActive(status) <==> status % 4 == 1
  {
    assert IsPow2(2);
    AndBit(status, 1);
    AndBit(status, 2);
    assert status % 4 == 2 * (status / 2 % 2) + status % 2;
  }

  lemma OrOne(x: nat)
    ensures BitOr(x, 1) == x + (1 - x % 2) && Err(BitOr(x, 1))
  {
    OrZero(x / 2);
    assert IsPow2(2);
    AndMask(BitOr(x, 1), 2);
  }

  // ---- The channel ----

  /**
   The channel's registers and DMA memory, and the drive behind it. `answers` and `busAnswers` are what the drive and
   the bus master will say when their status is read, up to the time limit; a command that failed shows as ERR in all
   of the drive's answers. `fault` remembers a wait that failed for another reason.
   */
  class Channel {
    const prdt: array<PrdtEntry>
    const buf: array<byte>
    const bufPhys: nat
    var sectorCount: Register
    var lba0: Register
    var lba1: Register
    var lba2: Register
    var disk: seq<byte>
    var answers: seq<byte>
    var busAnswers: seq<byte>
    var fault: bool
    var error: bool
    var port: nat

    ghost predicate Valid()
      reads this
    {
      prdt.Length == 128 && buf.Length == 65536 && bufPhys + 65536 <= 0x1_0000_0000
    }

    constructor (disk: seq<byte>, bufPhys: nat, answers: seq<byte>, busAnswers: seq<byte>)
      requires bufPhys + 65536 <= 0x1_0000_0000
      ensures Valid() && this.disk == disk && !fault && fresh(prdt) && fresh(buf)
    {
      prdt := new PrdtEntry[128](_ => PrdtEntry(0, 0, false));
      buf := new byte[65536](_ => 0);
      this.bufPhys := bufPhys;
      sectorCount, lba0, lba1, lba2 := Register(0, 0), Register(0, 0), Register(0, 0), Register(0, 0);
      this.disk, this.answers, this.busAnswers, fault, error, port := disk, answers, busAnswers, false, false, 0;
    }

    /** One read of the status register. */
    method ReadStatus() returns (status: byte)
      requires answers != []
      modifies this`answers
      ensures answers == old(answers)[1..] && (error ==> Err(status)) && (!error ==> status == old(answers)[0])
    {
      status := answers[0];
      answers := answers[1..];
      if error {
        OrOne(status);
        status := BitOr(status, 1);
      }
    }

    /** Waits for the drive: succeeds exactly when, after answers that only say busy, it says it is done without error. */
    method Poll(read: bool) returns (ok: bool)
      modifies this`answers, this`fault
      ensures ok <==> !error && Settles(old(answers), read)
      ensures fault <==> old(fault) || (!ok && !error)
    {
      ghost var k := 0;
      while answers != []
        invariant 0 <= k <= |old(answers)| && answers == old(answers)[k..] && fault == old(fault)
        invariant (k > 0 ==> !error) && forall j :: 0 <= j < k ==> StillBusy(old(answers)[j])
        decreases |answers|
      {
        var status := ReadStatus();
        if Err(status) || Fault(status) {
          fault := fault || !error;
          return false;
        }
        if !Bsy(status) {
          if read && !Drq(status) {
            fault := fault || !error;
            return false;
          }
          return true;
        }
        k := k + 1;
      }
      fault := fault || !error;
      return false;
    }

    /** Waits for the bus master. */
    method WaitBusMaster() returns (ok: bool)
      modifies this`busAnswers, this`fault
      ensures ok <==> BusSettles(old(busAnswers))
      ensures fault <==> old(fault) || !ok
    {
      ghost var k := 0;
      while busAnswers != []
        invariant 0 <= k <= |old(busAnswers)| && busAnswers == old(busAnswers)[k..] && fault == old(fault)
        invariant forall j :: 0 <= j < k ==> BusActive(old(busAnswers)[j])
        decreases |busAnswers|
      {
        var status := busAnswers[0];
        busAnswers := busAnswers[1..];
        if BitAnd(status, 0x02) != 0 {
          fault := true;
          return false;
        }
        if BitAnd(status, 0x01) == 0 {
          return true;
        }
        k := k + 1;
      }
      fault := true;
      return false;
    }

    /** Makes the table cover the chunk, its end mark matching the chunk size. */
    method FillPrdt(sectors: nat)
      requires Valid() && 0 < sectors <= 128
      modifies prdt
      ensures Covers(prdt[..], bufPhys, sectors)
    {
      var i := 0;
      while i < sectors
        invariant 0 <= i <= sectors
        invariant forall j :: 0 <= j < i ==> prdt[j] == PrdtEntry(bufPhys + j * 512, 512, j + 1 == sectors)
      {
        prdt[i] := PrdtEntry(bufPhys + i * 512, 512, i + 1 == sectors);
        i := i + 1;
      }
    }

    /** Writes the sector count and the block number, high bytes first. */
    method Program(block: nat, sectors: nat)
      requires Valid() && block < 0x1_0000_0000_0000 && 0 < sectors <= 128
      modifies this`sectorCount, this`lba0, this`lba1, this`lba2
      ensures Address(lba0, lba1, lba2) == block && SectorTotal(sectorCount) == sectors
    {
      sectorCount := Push(sectorCount, Byte1(sectors));
      lba0 := Push(lba0, Byte3(block));
      lba1 := Push(lba1, Byte4(block));
      lba2 := Push(lba2, Byte5(block));
      AddressRoundTrip(block, old(lba0), old(lba1), old(lba2));
      CountRoundTrip(sectors, old(sectorCount));
      sectorCount := Push(sectorCount, Byte0(sectors));
      lba0 := Push(lba0, Byte0(block));
      lba1 := Push(lba1, Byte1(block));
      lba2 := Push(lba2, Byte2(block));
    }

    /** The drive's side of any command: an address beyond its end is an error. */
    method Command()
      requires Valid()
      modifies this`error, this`port
      ensures port == Address(lba0, lba1, lba2) * 512
      ensures error == (port + SectorTotal(sectorCount) * 512 > |disk|)
    {
      port := Address(lba0, lba1, lba2) * 512;
      error := port + SectorTotal(sectorCount) * 512 > |disk|;
    }

    /** The drive's DMA write: it fetches what the table names and stores it at the address. */
    method DmaToDisk()
      requires Valid()
      modifies this`disk
      ensures var data := Gather(prdt[..], 0, buf[..], bufPhys);
              disk == if !error && |data| == SectorTotal(sectorCount) * 512 && port + |data| <= |old(disk)|
                      then Splice(old(disk), port, data) else old(disk)
    {
      var data := Gather(prdt[..], 0, buf[..], bufPhys);
      if !error && |data| == SectorTotal(sectorCount) * 512 && port + |data| <= |disk| {
        disk := Splice(disk, port, data);
      }
    }

    /** The drive's DMA read: it stores the addressed sectors where the table says. */
    method DmaFromDisk()
      requires Valid()
      modifies buf
      ensures var n := SectorTotal(sectorCount) * 512;
              buf[..] == if !error && port + n <= |disk|
                         then Scatter(prdt[..], 0, old(buf[..]), bufPhys, disk[port..port + n]) else old(buf[..])
    {
      var n := SectorTotal(sectorCount) * 512;
      if !error && port + n <= |disk| {
        var mem := Scatter(prdt[..], 0, buf[..], bufPhys, disk[port..port + n]);
        forall i | 0 <= i < buf.Length {
          buf[i] := mem[i];
        }
        assert buf[..] == mem && prdt[..] == old(prdt[..]);
      }
    }

    /** One 32-bit read of the data port. */
    method ReadPort() returns (data: nat)
      requires Valid() && port + 4 <= |disk|
      modifies this`port
      ensures data == Pack(disk[old(port)], disk[old(port) + 1], disk[old(port) + 2], disk[old(port) + 3])
      ensures port == old(port) + 4
    {
      data := Pack(disk[port], disk[port + 1], disk[port + 2], disk[port + 3]);
      port := port + 4;
    }

    /** One 32-bit write of the data port. */
    method WritePort(data: nat)
      requires Valid() && port + 4 <= |disk|
      modifies this`port, this`disk
      ensures disk == Splice(old(disk), old(port), [Byte0(data), Byte1(data), Byte2(data), Byte3(data)])
      ensures port == old(port) + 4
    {
      disk := Splice(disk, port, [Byte0(data), Byte1(data), Byte2(data), Byte3(data)]);
      port := port + 4;
    }
  }

  /** Nothing changed outside `len` bytes from `at`. */
  ghost predicate Untouched(before: seq<byte>, after: seq<byte>, at: nat, len: nat) {
    |after| == |before| && forall i :: 0 <= i < |before| && !(at <= i < at + len) ==> after[i] == before[i]
  }

  /** A transfer fails exactly when its address is beyond the end or a wait failed, and then that is remembered. */
  ghost predicate Blames(ok: bool, faultBefore: bool, faultAfter: bool, beyond: bool) {
    && (!ok ==> beyond || faultAfter) && (beyond ==> !ok)
    && (faultAfter ==> faultBefore || !ok) && (faultBefore ==> faultAfter)
  }

  /** Chunks begin and end at sectors. */
  lemma ChunkPlace(startBlock: nat, count: nat, end: nat, length: nat)
    requires count % 512 == 0 && length % 512 == 0 && count < length && end == Min(count + 65536, length)
    ensures (startBlock + count / 512) * 512 == startBlock * 512 + count
    ensures end % 512 == 0 && (end - count) % 512 == 0 && count / 512 + (end - count) / 512 <= length / 512
  {
  }

  class Disk {
    const chan: Channel
    const dma: bool

    constructor (chan: Channel, dma: bool)
      ensures this.chan == chan && this.dma == dma
    {
      this.chan, this.dma := chan, dma;
    }

    // ---- Writing ----

    method WriteSector(chunk: seq<byte>, sector: nat)
      requires chan.Valid() && (sector + 1) * 512 <= |chunk| && chan.port + 512 <= |chan.disk|
      modifies chan`port, chan`disk
      ensures chan.port == old(chan.port) + 512
      ensures chan.disk == Splice(old(chan.disk), old(chan.port), chunk[sector * 512..(sector + 1) * 512])
    {
      ghost var was, at, from := chan.disk, chan.port, sector * 512;
      var i := 0;
      while i < 128
        invariant 0 <= i <= 128 && chan.port == at + i * 4
        invariant chan.disk == Splice(was, at, chunk[from..from + i * 4])
      {
        var p := sector * 512 + i * 4;
        PackBytes(chunk[p], chunk[p + 1], chunk[p + 2], chunk[p + 3]);
        SpliceTwice(was, at, chunk[from..p], chunk[p..p + 4]);
        assert chunk[p..p + 4] == [chunk[p], chunk[p + 1], chunk[p + 2], chunk[p + 3]];
        assert chunk[from..p] + chunk[p..p + 4] == chunk[from..p + 4];
        chan.WritePort(Pack(chunk[p], chunk[p + 1], chunk[p + 2], chunk[p + 3]));
        i := i + 1;
      }
    }

    method WritePio(chunk: seq<byte>) returns (ok: bool)
      requires chan.Valid() && 0 < |chunk| && |chunk| % 512 == 0
      requires !chan.error ==> chan.port + |chunk| <= |chan.disk|
      modifies chan
      ensures chan.error == old(chan.error) && Untouched(old(chan.disk), chan.disk, old(chan.port), |chunk|)
      ensures ok ==> old(chan.port) + |chunk| <= |old(chan.disk)| && chan.disk == Splice(old(chan.disk), old(chan.port), chunk)
      ensures Blames(ok, old(chan.fault), chan.fault, chan.error)
    {
      ghost var was, at := chan.disk, chan.port;
      var sectors := |chunk| / 512;
      var sector := 0;
      assert !chan.error ==> Splice(was, at, chunk[..0]) == was;
      while sector < sectors
        invariant 0 <= sector <= sectors && chan.error == old(chan.error)
        invariant chan.port == at + sector * 512 && chan.fault == old(chan.fault)
        invariant if chan.error then sector == 0 && chan.disk == was else chan.disk == Splice(was, at, chunk[..sector * 512])
      {
        ok := chan.Poll(false);
        if !ok {
          return;
        }
        SpliceTwice(was, at, chunk[..sector * 512], chunk[sector * 512..(sector + 1) * 512]);
        assert chunk[..(sector + 1) * 512] == chunk[..sector * 512] + chunk[sector * 512..(sector + 1) * 512];
        WriteSector(chunk, sector);
        sector := sector + 1;
      }
      assert chunk[..sectors * 512] == chunk;
      ok := true;
    }

    /** The transfer itself: the drive stores the start of the DMA buffer at the address. */
    method SendDma(chunk: seq<byte>)
      requires chan.Valid() && 0 < |chunk| <= 65536 && |chunk| % 512 == 0
      requires SectorTotal(chan.sectorCount) == |chunk| / 512 && Covers(chan.prdt[..], chan.bufPhys, |chunk| / 512)
      requires chan.buf[..|chunk|] == chunk && (!chan.error ==> chan.port + |chunk| <= |chan.disk|)
      modifies chan`disk
      ensures chan.disk == if chan.error then old(chan.disk) else Splice(old(chan.disk), chan.port, chunk)
    {
      GatherCovers(chan.prdt[..], 0, chan.buf[..], chan.bufPhys, |chunk| / 512);
      assert chan.buf[..][0..|chunk|] == chan.buf[..|chunk|];
      chan.DmaToDisk();
    }

    method WriteDma(chunk: seq<byte>) returns (ok: bool)
      requires chan.Valid() && 0 < |chunk| <= 65536 && |chunk| % 512 == 0
      requires SectorTotal(chan.sectorCount) == |chunk| / 512 && Covers(chan.prdt[..], chan.bufPhys, |chunk| / 512)
      requires chan.buf[..|chunk|] == chunk && (!chan.error ==> chan.port + |chunk| <= |chan.disk|)
      modifies chan`disk, chan`answers, chan`busAnswers, chan`fault
      ensures Untouched(old(chan.disk), chan.disk, chan.port, |chunk|)
      ensures ok ==> chan.port + |chunk| <= |old(chan.disk)| && chan.disk == Splice(old(chan.disk), chan.port, chunk)
      ensures Blames(ok, old(chan.fault), chan.fault, chan.error)
    {
      SendDma(chunk);
      ok := chan.Poll(false);
      if ok {
        ok := chan.WaitBusMaster();
      }
    }

    method WriteChunk(block: nat, chunk: seq<byte>) returns (ok: bool)
      requires chan.Valid() && 0 < |chunk| <= 65536 && |chunk| % 512 == 0 && block < 0x1_0000_0000_0000
      modifies chan, chan.prdt, chan.buf
      ensures Untouched(old(chan.disk), chan.disk, block * 512, |chunk|)
      ensures ok ==> block * 512 + |chunk| <= |old(chan.disk)| && chan.disk == Splice(old(chan.disk), block * 512, chunk)
      ensures Blames(ok, old(chan.fault), chan.fault, block * 512 + |chunk| > |old(chan.disk)|)
    {
      var sectors := (|chunk| + 511) / 512;
      if dma {
        chan.FillPrdt(sectors);
        forall i | 0 <= i < |chunk| {
          chan.buf[i] := chunk[i];
        }
        assert chan.buf[..|chunk|] == chunk;
      }
      chan.Program(block, sectors);
      chan.Command();
      if dma {
        ok := WriteDma(chunk);
      } else {
        ok := WritePio(chunk);
      }
      if ok {
        ok := chan.Poll(false);
      }
    }

    /** Writes the buffer chunk by chunk; a failure leaves everything outside its range alone. */
    method Write(startBlock: nat, buffer: seq<byte>) returns (r: Result<nat, Errno>)
      requires chan.Valid() && |buffer| % 512 == 0 && startBlock + |buffer| / 512 <= 0x1_0000_0000_0000
      modifies chan, chan.prdt, chan.buf
      ensures Untouched(old(chan.disk), chan.disk, startBlock * 512, |buffer|)
      ensures r.Success? ==> r.value == |buffer|
      ensures r.Success? && |buffer| > 0 ==>
                && startBlock * 512 + |buffer| <= |old(chan.disk)|
                && chan.disk == Splice(old(chan.disk), startBlock * 512, buffer)
      ensures Blames(r.Success?, old(chan.fault), chan.fault, |buffer| > 0 && startBlock * 512 + |buffer| > |old(chan.disk)|)
    {
      ghost var was, at := chan.disk, startBlock * 512;
      var count := 0;
      while count < |buffer|
        invariant 0 <= count <= |buffer| && count % 512 == 0 && chan.Valid()
        invariant Untouched(was, chan.disk, at, |buffer|)
        invariant count > 0 ==> at + count <= |was| && chan.disk == Splice(was, at, buffer[..count])
        invariant count == 0 ==> chan.disk == was
        invariant chan.fault == old(chan.fault)
      {
        var end := Min(count + 65536, |buffer|);
        var chunk := buffer[count..end];
        var block := startBlock + count / 512;
        ChunkPlace(startBlock, count, end, |buffer|);
        ghost var now := chan.disk;
        var ok := WriteChunk(block, chunk);
        if !ok {
          return Failure(EIO);
        }
        WriteOn(was, now, chan.disk, at, buffer, count, end);
        count := end;
      }
      assert buffer[..|buffer|] == buffer;
      return Success(count);
    }

    // ---- Reading ----

    /** One 32-bit read, unpacked to four bytes of the buffer. */
    method ReadDword(buffer: array<byte>, p: nat)
      requires chan.Valid() && p + 4 <= buffer.Length && chan.port + 4 <= |chan.disk|
      modifies chan`port, buffer
      ensures chan.port == old(chan.port) + 4
      ensures Copied(buffer[..], old(buffer[..]), p, 4, chan.disk, old(chan.port))
    {
      ghost var at := chan.port;
      PackBytes(chan.disk[at], chan.disk[at + 1], chan.disk[at + 2], chan.disk[at + 3]);
      var data := chan.ReadPort();
      buffer[p] := Byte0(data);
      buffer[p + 1] := Byte1(data);
      buffer[p + 2] := Byte2(data);
      buffer[p + 3] := Byte3(data);
    }

    method ReadSector(buffer: array<byte>, off: nat)
      requires chan.Valid() && off + 512 <= buffer.Length && chan.port + 512 <= |chan.disk|
      modifies chan`port, buffer
      ensures chan.port == old(chan.port) + 512
      ensures Copied(buffer[..], old(buffer[..]), off, 512, chan.disk, old(chan.port))
    {
      ghost var at, was := chan.port, buffer[..];
      var k := 0;
      while k < 128
        invariant 0 <= k <= 128 && chan.port == at + k * 4
        invariant Copied(buffer[..], was, off, k * 4, chan.disk, at)
      {
        ghost var now := buffer[..];
        ReadDword(buffer, off + k * 4);
        CopiedNext(was, now, buffer[..], off, k * 4, 4, chan.disk, at);
        k := k + 1;
      }
    }

    method ReadPio(buffer: array<byte>, off: nat, len: nat) returns (ok: bool)
      requires chan.Valid() && len % 512 == 0 && 0 < len && off + len <= buffer.Length
      requires !chan.error ==> chan.port + len <= |chan.disk|
      modifies chan`port, chan`answers, chan`fault, buffer
      ensures Filled(buffer[..], old(buffer[..]), off, len, chan.disk, old(chan.port), ok)
      ensures Blames(ok, old(chan.fault), chan.fault, chan.error)
    {
      ghost var at, was := chan.port, buffer[..];
      var sectors := len / 512;
      var sector := 0;
      while sector < sectors
        invariant 0 <= sector <= sectors && chan.port == at + sector * 512 && chan.fault == old(chan.fault)
        invariant if chan.error then sector == 0 && buffer[..] == was
                  else Copied(buffer[..], was, off, sector * 512, chan.disk, at)
      {
        ok := chan.Poll(true);
        if !ok {
          return;
        }
        ghost var now := buffer[..];
        ReadSector(buffer, off + sector * 512);
        CopiedNext(was, now, buffer[..], off, sector * 512, 512, chan.disk, at);
        sector := sector + 1;
      }
      ok := true;
    }

    /** Copies the start of the DMA buffer out. */
    method CopyOut(buffer: array<byte>, off: nat, len: nat)
      requires chan.Valid() && len <= 65536 && off + len <= buffer.Length && buffer != chan.buf
      modifies buffer
      ensures Copied(buffer[..], old(buffer[..]), off, len, chan.buf[..], 0)
    {
      forall i | 0 <= i < len {
        buffer[off + i] := chan.buf[i];
      }
    }

    method ReadDma(buffer: array<byte>, off: nat, len: nat) returns (ok: bool)
      requires chan.Valid() && len % 512 == 0 && 0 < len <= 65536 && off + len <= buffer.Length && buffer != chan.buf
      requires SectorTotal(chan.sectorCount) == len / 512 && Covers(chan.prdt[..], chan.bufPhys, len / 512)
      requires !chan.error ==> chan.port + len <= |chan.disk|
      modifies chan`answers, chan`busAnswers, chan`fault, chan.buf, buffer
      ensures Filled(buffer[..], old(buffer[..]), off, len, chan.disk, chan.port, ok)
      ensures Blames(ok, old(chan.fault), chan.fault, chan.error)
    {
      ReceiveDma(len);
      ok := chan.Poll(false);
      if ok {
        ok := chan.WaitBusMaster();
      }
      if ok {
        CopyOut(buffer, off, len);
      }
    }

    /** The transfer itself: the addressed sectors arrive at the start of the DMA buffer. */
    method ReceiveDma(len: nat)
      requires chan.Valid() && len % 512 == 0 && 0 < len <= 65536
      requires SectorTotal(chan.sectorCount) == len / 512 && Covers(chan.prdt[..], chan.bufPhys, len / 512)
      requires !chan.error ==> chan.port + len <= |chan.disk|
      modifies chan.buf
      ensures !chan.error ==> chan.buf[..len] == chan.disk[chan.port..chan.port + len]
    {
      if !chan.error {
        ScatterCovers(chan.prdt[..], 0, chan.buf[..], chan.bufPhys, len / 512, chan.disk[chan.port..chan.port + len]);
      }
      chan.DmaFromDisk();
      assert chan.buf[..][..len] == chan.buf[..len];
    }

    method ReadChunk(block: nat, buffer: array<byte>, off: nat, len: nat) returns (ok: bool)
      requires chan.Valid() && len % 512 == 0 && 0 < len <= 65536 && off + len <= buffer.Length && buffer != chan.buf
      requires block < 0x1_0000_0000_0000
      modifies chan, chan.prdt, chan.buf, buffer
      ensures chan.disk == old(chan.disk)
      ensures Filled(buffer[..], old(buffer[..]), off, len, chan.disk, block * 512, ok)
      ensures Blames(ok, old(chan.fault), chan.fault, block * 512 + len > |chan.disk|)
    {
      var sectors := (len + 511) / 512;
      if dma {
        chan.FillPrdt(sectors);
      }
      chan.Program(block, sectors);
      chan.Command();
      if dma {
        ok := ReadDma(buffer, off, len);
      } else {
        ok := ReadPio(buffer, off, len);
      }
    }

    /** Fills the buffer chunk by chunk with the addressed part of the disk. */
    method Read(startBlock: nat, buffer: array<byte>) returns (r: Result<nat, Errno>)
      requires chan.Valid() && buffer.Length % 512 == 0 && buffer != chan.buf
      requires startBlock + buffer.Length / 512 <= 0x1_0000_0000_0000
      modifies chan, chan.prdt, chan.buf, buffer
      ensures chan.disk == old(chan.disk)
      ensures r.Success? ==> r.value == buffer.Length
      ensures r.Success? && buffer.Length > 0 ==>
                && startBlock * 512 + buffer.Length <= |chan.disk|
                && buffer[..] == chan.disk[startBlock * 512..startBlock * 512 + buffer.Length]
      ensures Blames(r.Success?, old(chan.fault), chan.fault, buffer.Length > 0 && startBlock * 512 + buffer.Length > |chan.disk|)
    {
      ghost var at := startBlock * 512;
      var count := 0;
      while count < buffer.Length
        invariant 0 <= count <= buffer.Length && count % 512 == 0 && chan.Valid() && chan.disk == old(chan.disk)
        invariant chan.fault == old(chan.fault)
        invariant count > 0 ==> at + count <= |chan.disk|
        invariant forall i :: 0 <= i < count ==> buffer[i] == chan.disk[at + i]
      {
        var end := Min(count + 65536, buffer.Length);
        var block := startBlock + count / 512;
        assert block * 512 == at + count;
        var ok := ReadChunk(block, buffer, count, end - count);
        if !ok {
          return Failure(EIO);
        }
        count := end;
      }
      return Success(count);
    }

    /** A write followed by a read of the same blocks gives the same bytes back. */
    method WriteThenRead(startBlock: nat, data: seq<byte>) returns (written: Result<nat, Errno>, read: Result<nat, Errno>, back: array<byte>)
      requires chan.Valid() && |data| % 512 == 0 && startBlock + |data| / 512 <= 0x1_0000_0000_0000
      modifies chan, chan.prdt, chan.buf
      ensures written.Success? && read.Success? ==> back[..] == data
      ensures !old(chan.fault) && (|data| == 0 || startBlock * 512 + |data| <= |old(chan.disk)|) ==>
                (written.Success? && read.Success? <==> !chan.fault)
      ensures Untouched(old(chan.disk), chan.disk, startBlock * 512, |data|)
    {
      back := new byte[|data|](_ => 0);
      written := Write(startBlock, data);
      read := Read(startBlock, back);
      if written.Success? && |data| > 0 {
        SpliceReads(old(chan.disk), startBlock * 512, data, 0, 0);
      }
    }
  }

  /** `after` is `before` with `len` bytes of `src` from `at` copied to `off`. */
  ghost predicate Copied(after: seq<byte>, before: seq<byte>, off: nat, len: nat, src: seq<byte>, at: nat) {
    && |after| == |before| && off + len <= |before| && at + len <= |src|
    && forall i :: 0 <= i < |before| ==> after[i] == if off <= i < off + len then src[at + (i - off)] else before[i]
  }

  lemma CopiedNext(a: seq<byte>, b: seq<byte>, c: seq<byte>, off: nat, m: nat, len: nat, src: seq<byte>, at: nat)
    requires Copied(b, a, off, m, src, at) && Copied(c, b, off + m, len, src, at + m)
    ensures Copied(c, a, off, m + len, src, at)
  {
  }

  /** The buffer outside the target range is as before; on success the range is the addressed part of the disk. */
  ghost predicate Filled(after: seq<byte>, before: seq<byte>, off: nat, len: nat, disk: seq<byte>, at: nat, ok: bool)
    requires off + len <= |before|
  {
    && |after| == |before|
    && (forall i :: 0 <= i < |before| && !(off <= i < off + len) ==> after[i] == before[i])
    && (ok ==> at + len <= |disk| && forall i :: off <= i < off + len ==> after[i] == disk[at + (i - off)])
  }

  /** The next chunk written after `count` bytes of the buffer. */
  lemma WriteOn(was: seq<byte>, now: seq<byte>, next: seq<byte>, at: nat, buffer: seq<byte>, count: nat, end: nat)
    requires count <= end <= |buffer| && |now| == |was|
    requires count > 0 ==> at + count <= |was| && now == Splice(was, at, buffer[..count])
    requires count == 0 ==> now == was
    requires at + end <= |now| && next == Splice(now, at + count, buffer[count..end])
    ensures next == Splice(was, at, buffer[..end])
  {
    if count == 0 {
      assert buffer[0..end] == buffer[..end];
    } else {
      SpliceTwice(was, at, buffer[..count], buffer[count..end]);
      assert buffer[..count] + buffer[count..end] == buffer[..end];
    }
  }
}
