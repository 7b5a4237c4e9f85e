/** The system information report: nested arrays allocated one by one, any allocation of
    which may fail, and the routine that frees them. */
module SystemInfo {
  import opened CaptureApi
  import opened CStrings
  import opened Wrappers

  const SHORT: nat := 32
  const MEDIUM: nat := 64
  const LONG: nat := 128
  const XLONG: nat := 256

  // ---------------------------------------------------------------- text fields

  /** What a text field of `n` chars shows of `s`. */
  function Field(s: string, n: nat): string
    requires n > 0
  {
    CStr(if |s| < n then s else s[..n - 1])
  }

  /** `shown` is the longest start of the text without a NUL that leaves room for the
      terminator among `n` chars. */
  ghost predicate Shows(shown: string, text: string, n: nat) {
    && shown <= text && '\0' !in shown && |shown| < n
    && (|shown| == n - 1 || |shown| == |text| || text[|shown|] == '\0')
  }

  lemma FieldShows(shown: string, text: string, n: nat)
    requires n > 0
    ensures Shows(shown, text, n) <==> shown == Field(text, n)
  {
    var front := if |text| < n then text else text[..n - 1];
    assert Shows(CStr(front), text, n);
    if Shows(shown, text, n) {
      SameStart(shown, CStr(front), text);
    }
  }

  /** Of two starts of a text without a NUL, each ended by a NUL, by its length or by the
      same limit, none is longer. */
  lemma SameStart(a: string, b: string, text: string)
    requires a <= text && b <= text && '\0' !in a && '\0' !in b
    requires |a| < |b| ==> text[|a|] == '\0'
    requires |b| < |a| ==> text[|b|] == '\0'
    ensures a == b
  {
    assert forall k :: 0 <= k < |a| ==> a[k] == text[k];
    assert forall k :: 0 <= k < |b| ==> b[k] == text[k];
  }

  /** A field shows the start of its text, room for the terminator left, and the whole of
      it exactly when it fits and has no NUL. */
  lemma FieldIsWholeIff(s: string, n: nat)
    requires n > 0
    ensures |Field(s, n)| < n && Field(s, n) <= s
    ensures Field(s, n) == s <==> |s| < n && '\0' !in s
  {
    if |s| < n && '\0' !in s {
      assert CStr(s) == s;
    }
  }

  lemma {:induction false} CStrEndsAtNul(s: string, rest: string)
    ensures CStr(s + ['\0'] + rest) == CStr(s)
  {
    if s != [] && s[0] != '\0' {
      CStrEndsAtNul(s[1..], rest);
      assert (s + ['\0'] + rest)[1..] == s[1..] + ['\0'] + rest;
    }
  }

  /** The copy into a fixed-size char array, always terminated. */
  method CopyStringField(dst: array<char>, src: string)
    requires dst.Length > 0
    modifies dst
    ensures CStr(dst[..]) == Field(src, dst.Length) && Shows(CStr(dst[..]), src, dst.Length)
    ensures forall i :: |src| < i < dst.Length ==> dst[i] == old(dst[i])
  {
    var copyLen := if |src| < dst.Length - 1 then |src| else dst.Length - 1;
    var k := 0;
    while k < copyLen
      invariant k <= copyLen && dst[..k] == src[..k]
      invariant forall i :: k <= i < dst.Length ==> dst[i] == old(dst[i])
    {
      dst[k] := src[k];
      k := k + 1;
    }
    dst[copyLen] := '\0';
    assert dst[..] == src[..copyLen] + ['\0'] + dst[copyLen + 1..];
    CStrEndsAtNul(src[..copyLen], dst[copyLen + 1..]);
    assert src[..copyLen] == if |src| < dst.Length then src else src[..dst.Length - 1];
    FieldShows(CStr(dst[..]), src, dst.Length);
  }

  // ---------------------------------------------------------------- records

  type uint32 = n: nat | n < 0x1_0000_0000

  // What the system reports.

  datatype OsInfo = OsInfo(name: string, desc: string, hostname: string, memory: OsMemory, etw: Etw)

  datatype OsMemory = OsMemory(memoryType: string, physical: nat, swap: nat)

  datatype Etw = Etw(supported: bool, hasPermission: bool, needsScript: bool)

  datatype DriverInfo = DriverInfo(name: string, description: string, packagingVersion: string,
                                   packagingDate: Option<string>,
                                   softwareVersion: string, major: uint32, minor: uint32)

  datatype CpuInfo = CpuInfo(name: string, architecture: string, vendorId: string, cpuId: string, deviceId: string,
                             virtualization: string, physicalCores: uint32, logicalCores: uint32,
                             maxClockSpeed: uint32, timestampClockFrequency: nat)

  datatype HeapInfo = HeapInfo(heapType: string, physAddr: nat, size: nat)

  datatype Clock = Clock(min: nat, max: nat)

  datatype IdInfo = IdInfo(luid: Bytes, vendor: uint32, subsystem: uint32,
                           family: uint32, device: uint32, revision: uint32, eRev: uint32)

  datatype AsicInfo = AsicInfo(idInfo: IdInfo, engineClock: Clock, gpuCounterFreq: nat)

  datatype MemoryInfo = MemoryInfo(memoryType: string, memOpsPerClock: uint32, busBitWidth: uint32,
                                   bandwidth: nat, memClock: Clock)

  datatype PciInfo = PciInfo(bus: uint32, device: uint32, function_: uint32, id: uint32)

  datatype BigSw = BigSw(major: uint32, minor: uint32, misc: uint32)

  datatype GpuInfo = GpuInfo(name: string, asic: AsicInfo, memory: MemoryInfo, heaps: seq<HeapInfo>,
                             pci: PciInfo, bigSw: BigSw,
                             driverIndex: Option<uint32>)

  datatype Source = Source(os: OsInfo, driver: DriverInfo, drivers: seq<DriverInfo>,
                           cpus: seq<CpuInfo>, gpus: seq<GpuInfo>)

  // What the API reports.

  datatype Os = Os(name: string, description: string, hostname: string, memory: OsMemory, etw: Etw)

  datatype Driver = Driver(name: string, description: string, packagingVersion: string, packagingDate: string,
                           softwareVersion: string, major: uint32, minor: uint32)

  datatype Cpu = Cpu(name: string, architecture: string, vendorId: string, cpuId: string, deviceId: string,
                     virtualization: string, physicalCores: uint32, logicalCores: uint32,
                     maxClockSpeedMhz: uint32, timestampClockFreqHz: nat)

  datatype Heap = Heap(heapType: string, physicalAddress: nat, size: nat)

  /** A pointer to an allocated array, known by its block. */
  datatype Ptr<+T> = Null | Ptr(block: nat, elems: seq<T>)

  datatype Asic = Asic(engineClockMinHz: nat, engineClockMaxHz: nat, gpuCounterFreqHz: nat,
                       family: uint32, deviceId: uint32, revision: uint32, eRev: uint32)

  datatype Memory = Memory(memoryType: string, memOpsPerClock: uint32, busBitWidth: uint32, bandwidth: nat,
                           memClockMinHz: nat, memClockMaxHz: nat)

  /** The fields of a GPU that are plain values. */
  datatype GpuDetails = GpuDetails(luid: Bytes, name: string, vendorId: uint32, subsystemId: uint32,
                                   asic: Asic, memory: Memory, pci: PciInfo, bigSw: BigSw)

  datatype Gpu = Gpu(details: GpuDetails, numHeaps: nat, heaps: Ptr<Heap>, driverIndex: int)

  /** The report; its counts belong to the arrays. */
  datatype Info = Info(os: Os, driver: Driver, drivers: Ptr<Driver>, numDrivers: nat, cpus: Ptr<Cpu>, numCpus: nat,
                       gpus: Ptr<Gpu>, numGpus: nat)

  const NO_OS: Os := Os([], [], [], OsMemory([], 0, 0), Etw(false, false, false))
  const NO_DRIVER: Driver := Driver([], [], [], [], [], 0, 0)
  const NO_INFO: Info := Info(NO_OS, NO_DRIVER, Null, 0, Null, 0, Null, 0)

  function OsOf(o: OsInfo): Os {
    Os(Field(o.name, LONG), Field(o.desc, XLONG), Field(o.hostname, LONG),
       OsMemory(Field(o.memory.memoryType, MEDIUM), o.memory.physical, o.memory.swap), o.etw)
  }

  function DriverOf(d: DriverInfo): Driver {
    Driver(Field(d.name, LONG), Field(d.description, XLONG), Field(d.packagingVersion, MEDIUM),
           if d.packagingDate.Some? then Field(d.packagingDate.value, SHORT) else [],
           Field(d.softwareVersion, MEDIUM), d.major, d.minor)
  }

  predicate DriverInfoIsEmpty(d: DriverInfo) {
    d.name == [] && d.description == [] && d.packagingVersion == [] && d.softwareVersion == [] &&
    (d.packagingDate.None? || d.packagingDate.value == [])
  }

  /** The drivers to report: the per-device list, or the one system-wide driver. */
  function DriverList(s: Source): seq<DriverInfo> {
    if s.drivers != [] then s.drivers else if DriverInfoIsEmpty(s.driver) then [] else [s.driver]
  }

  function CpuOf(c: CpuInfo): Cpu {
    Cpu(Field(c.name, LONG), Field(c.architecture, SHORT), Field(c.vendorId, SHORT), Field(c.cpuId, LONG),
        Field(c.deviceId, SHORT), Field(c.virtualization, SHORT), c.physicalCores, c.logicalCores,
        c.maxClockSpeed, c.timestampClockFrequency)
  }

  function HeapOf(h: HeapInfo): Heap {
    Heap(Field(h.heapType, SHORT), h.physAddr, h.size)
  }

  function DetailsOf(g: GpuInfo): GpuDetails {
    var ids := g.asic.idInfo;
    GpuDetails(ids.luid, Field(g.name, LONG), ids.vendor, ids.subsystem,
               Asic(g.asic.engineClock.min, g.asic.engineClock.max, g.asic.gpuCounterFreq,
                    ids.family, ids.device, ids.revision, ids.eRev),
               Memory(Field(g.memory.memoryType, SHORT), g.memory.memOpsPerClock, g.memory.busBitWidth,
                      g.memory.bandwidth,
                      g.memory.memClock.min, g.memory.memClock.max),
               g.pci, g.bigSw)
  }

  /** The conversion of a 32-bit unsigned value to a signed one. */
  function ToInt32(n: uint32): int {
    if n < 0x8000_0000 then n else n - 0x1_0000_0000
  }

  function ResolvedIndex(index: Option<uint32>, numDrivers: nat): int {
    if index.Some? && index.value < numDrivers then ToInt32(index.value) else -1
  }

  /** The reported index names the GPU's driver if that is among those reported, and is -1
      otherwise, exactly when an index in range leaves the sign bit alone. */
  lemma ResolvedIndexIsExactIff(index: uint32, numDrivers: nat)
    ensures (ResolvedIndex(Some(index), numDrivers) == if index < numDrivers then index else -1) <==>
            !(0x8000_0000 <= index < numDrivers)
  {
  }

  /** It is -1 or in range exactly when no index in range has the sign bit set, except the
      one that is converted to -1. */
  lemma ResolvedIndexInRangeIff(index: Option<uint32>, numDrivers: nat)
    ensures -1 <= ResolvedIndex(index, numDrivers) < numDrivers <==>
            !(index.Some? && 0x8000_0000 <= index.value < numDrivers && index.value != 0xFFFF_FFFF)
  {
  }

  // ---------------------------------------------------------------- the allocator

  /** The live blocks, the next block's number, the script of which allocations will be
      granted (beyond it every one is), and whether a block was ever freed that was not live. */
  datatype Arena = Arena(live: set<nat>, next: nat, grants: seq<bool>, misfreed: bool)

  predicate Grant(grants: seq<bool>) {
    grants == [] || grants[0]
  }

  function Rest(grants: seq<bool>): seq<bool> {
    if grants == [] then [] else grants[1..]
  }

  ghost predicate Sane(a: Arena) {
    forall b :: b in a.live ==> b < a.next
  }

  function Asked(a: Arena): Arena {
    if Grant(a.grants) then a.(live := a.live + {a.next}, next := a.next + 1, grants := Rest(a.grants))
    else a.(grants := Rest(a.grants))
  }

  function Freed(a: Arena, block: nat): Arena {
    if block in a.live then a.(live := a.live - {block}) else a.(misfreed := true)
  }

  function FreedPtr<T>(a: Arena, p: Ptr<T>): Arena {
    if p.Null? then a else Freed(a, p.block)
  }

  // ---------------------------------------------------------------- what the routines compute

  function Map<S, T>(src: seq<S>, convert: S -> T): (r: seq<T>)
    ensures |r| == |src| && forall i :: 0 <= i < |r| ==> r[i] == convert(src[i])
  {
    seq(|src|, i requires 0 <= i < |src| => convert(src[i]))
  }

  /** An array with a record for each element of `src`: none is needed for an empty list. */
  function Populated<S, T>(a: Arena, src: seq<S>, convert: S -> T): (Arena, Ptr<T>) {
    if src == [] then (a, Null)
    else (Asked(a), if Grant(a.grants) then Ptr(a.next, Map(src, convert)) else Null)
  }

  predicate Failed<S, T>(src: seq<S>, p: Ptr<T>) {
    src != [] && p.Null?
  }

  function Count<T>(p: Ptr<T>): nat {
    if p.Null? then 0 else |p.elems|
  }

  /** A GPU whose heap array is refused is reported without heaps. */
  function GpuOf(g: GpuInfo, heaps: Ptr<Heap>, numDrivers: nat): Gpu {
    Gpu(DetailsOf(g), Count(heaps), heaps, ResolvedIndex(g.driverIndex, numDrivers))
  }

  /** The arena after the heap arrays of the first `n` GPUs were asked for. */
  function AfterHeaps(a: Arena, gpus: seq<GpuInfo>, n: nat): Arena
    requires n <= |gpus|
  {
    if n == 0 then a else Populated(AfterHeaps(a, gpus, n - 1), gpus[n - 1].heaps, HeapOf).0
  }

  function RecordAt(a: Arena, gpus: seq<GpuInfo>, i: nat, numDrivers: nat): Gpu
    requires i < |gpus|
  {
    GpuOf(gpus[i], Populated(AfterHeaps(a, gpus, i), gpus[i].heaps, HeapOf).1, numDrivers)
  }

  function GpuList(a: Arena, gpus: seq<GpuInfo>, n: nat, numDrivers: nat): (r: seq<Gpu>)
    requires n <= |gpus|
    ensures |r| == n && forall i :: 0 <= i < n ==> r[i] == RecordAt(a, gpus, i, numDrivers)
  {
    seq(n, i requires 0 <= i < n => RecordAt(a, gpus, i, numDrivers))
  }

  lemma GpuListSnoc(a: Arena, gpus: seq<GpuInfo>, n: nat, numDrivers: nat)
    requires n < |gpus|
    ensures GpuList(a, gpus, n + 1, numDrivers) == GpuList(a, gpus, n, numDrivers) + [RecordAt(a, gpus, n, numDrivers)]
  {
  }

  function PopulatedGpus(a: Arena, gpus: seq<GpuInfo>, numDrivers: nat): (Arena, Ptr<Gpu>) {
    if gpus == [] then (a, Null)
    else if !Grant(a.grants) then (Asked(a), Null)
    else (AfterHeaps(Asked(a), gpus, |gpus|), Ptr(a.next, GpuList(Asked(a), gpus, |gpus|, numDrivers)))
  }

  function FreedHeaps(a: Arena, gpus: seq<Gpu>): Arena {
    if gpus == [] then a else FreedPtr(FreedHeaps(a, gpus[..|gpus| - 1]), gpus[|gpus| - 1].heaps)
  }

  /** `FreeSystemInfo`: the CPUs, the drivers, each GPU's heaps, the GPUs. */
  function FreedInfo(a: Arena, info: Info): Arena
    requires info.numGpus <= Count(info.gpus) || info.gpus.Null?
  {
    var b := FreedPtr(FreedPtr(a, info.cpus), info.drivers);
    if info.gpus.Null? then b else Freed(FreedHeaps(b, info.gpus.elems[..info.numGpus]), info.gpus.block)
  }

  /** The report before any array is asked for, and after all of them were freed. */
  function WithoutArrays(os: Os, driver: Driver): Info {
    NO_INFO.(os := os, driver := driver)
  }

  /** What `GetSystemInfo` had gathered when it was done, or when an array was refused. */
  function Gathered(a: Arena, s: Source): (r: (Arena, Info, bool))
    ensures r.1.numGpus <= Count(r.1.gpus) || r.1.gpus.Null?
  {
    var start := WithoutArrays(OsOf(s.os), DriverOf(s.driver));
    var (a1, drivers) := Populated(a, DriverList(s), DriverOf);
    if Failed(DriverList(s), drivers) then (a1, start, false) else
      var (a2, cpus) := Populated(a1, s.cpus, CpuOf);
      var soFar := start.(drivers := drivers, numDrivers := Count(drivers));
      if Failed(s.cpus, cpus) then (a2, soFar, false) else
        var (a3, gpus) := PopulatedGpus(a2, s.gpus, Count(drivers));
        var more := soFar.(cpus := cpus, numCpus := Count(cpus));
        if Failed(s.gpus, gpus) then (a3, more, false)
        else (a3, more.(gpus := gpus, numGpus := Count(gpus)), true)
  }

  /** The arena after the call, and the report unless it failed. */
  function Got(a: Arena, s: Source): (Arena, Option<Info>) {
    var (b, info, ok) := Gathered(a, s);
    if ok then (b, Some(info)) else (FreedInfo(b, info), None)
  }

  // ---------------------------------------------------------------- nothing leaks

  function PtrBlock<T>(p: Ptr<T>): set<nat> {
    if p.Null? then {} else {p.block}
  }

  function HeapBlocks(gpus: seq<Gpu>): set<nat> {
    if gpus == [] then {} else HeapBlocks(gpus[..|gpus| - 1]) + PtrBlock(gpus[|gpus| - 1].heaps)
  }

  /** No two GPUs share a heap array. */
  ghost predicate Separate(gpus: seq<Gpu>) {
    gpus != [] ==>
      Separate(gpus[..|gpus| - 1]) && PtrBlock(gpus[|gpus| - 1].heaps) !! HeapBlocks(gpus[..|gpus| - 1])
  }

  lemma OneMoreGpu(gpus: seq<Gpu>, g: Gpu)
    ensures HeapBlocks(gpus + [g]) == HeapBlocks(gpus) + PtrBlock(g.heaps)
    ensures Separate(gpus + [g]) <==> Separate(gpus) && PtrBlock(g.heaps) !! HeapBlocks(gpus)
  {
    assert (gpus + [g])[..|gpus|] == gpus;
  }

  /** `b` has the blocks of `a`, and `more`, all of them new. */
  ghost predicate Grew(a: Arena, b: Arena, more: set<nat>) {
    && Sane(b) && b.live == a.live + more && b.misfreed == a.misfreed && a.next <= b.next
    && forall h :: h in more ==> a.next <= h < b.next
  }

  /** Asking for an array adds its block and nothing else. */
  lemma PopulatedAdds<S, T>(a: Arena, src: seq<S>, convert: S -> T)
    requires Sane(a)
    ensures var (b, p) := Populated(a, src, convert); Grew(a, b, PtrBlock(p))
  {
  }

  lemma GrewOn(a: Arena, b: Arena, c: Arena, m: set<nat>, n: set<nat>)
    requires Grew(a, b, m) && Grew(b, c, n)
    ensures Grew(a, c, m + n) && m !! n
  {
  }

  lemma OneMoreAdds(a: Arena, b: Arena, c: Arena, gpus: seq<Gpu>, gpu: Gpu)
    requires Grew(a, b, HeapBlocks(gpus)) && Separate(gpus) && Grew(b, c, PtrBlock(gpu.heaps))
    ensures Grew(a, c, HeapBlocks(gpus + [gpu])) && Separate(gpus + [gpu])
  {
    GrewOn(a, b, c, HeapBlocks(gpus), PtrBlock(gpu.heaps));
    OneMoreGpu(gpus, gpu);
  }

  /** The first `n` GPUs own what was allocated for them. */
  ghost predicate GpusOwn(a: Arena, infos: seq<GpuInfo>, n: nat, numDrivers: nat)
    requires n <= |infos|
  {
    var gpus := GpuList(a, infos, n, numDrivers);
    Grew(a, AfterHeaps(a, infos, n), HeapBlocks(gpus)) && Separate(gpus)
  }

  lemma OneMoreOwns(a: Arena, infos: seq<GpuInfo>, n: nat, numDrivers: nat)
    requires n < |infos| && GpusOwn(a, infos, n, numDrivers)
    ensures GpusOwn(a, infos, n + 1, numDrivers)
  {
    var b := AfterHeaps(a, infos, n);
    PopulatedAdds(b, infos[n].heaps, HeapOf);
    OneMoreAdds(a, b, AfterHeaps(a, infos, n + 1), GpuList(a, infos, n, numDrivers), RecordAt(a, infos, n, numDrivers));
    GpuListSnoc(a, infos, n, numDrivers);
  }

  lemma {:induction false} HeapsAdd(a: Arena, infos: seq<GpuInfo>, n: nat, numDrivers: nat)
    requires Sane(a) && n <= |infos|
    ensures GpusOwn(a, infos, n, numDrivers)
  {
    if n > 0 {
      HeapsAdd(a, infos, n - 1, numDrivers);
      OneMoreOwns(a, infos, n - 1, numDrivers);
    }
  }

  lemma {:induction false} FreedHeapsReleases(a: Arena, gpus: seq<Gpu>)
    requires Separate(gpus) && HeapBlocks(gpus) <= a.live
    ensures FreedHeaps(a, gpus) == a.(live := a.live - HeapBlocks(gpus))
  {
    if gpus != [] {
      FreedHeapsReleases(a, gpus[..|gpus| - 1]);
    }
  }

  function GpusShown(info: Info): seq<Gpu>
    requires info.numGpus <= Count(info.gpus) || info.gpus.Null?
  {
    if info.gpus.Null? then [] else info.gpus.elems[..info.numGpus]
  }

  function Blocks(info: Info): set<nat>
    requires info.numGpus <= Count(info.gpus) || info.gpus.Null?
  {
    PtrBlock(info.cpus) + PtrBlock(info.drivers) + HeapBlocks(GpusShown(info)) + PtrBlock(info.gpus)
  }

  /** Each array of the report is a block of its own. */
  ghost predicate Disjoint(info: Info) {
    && (info.numGpus <= Count(info.gpus) || info.gpus.Null?)
    && Separate(GpusShown(info))
    && PtrBlock(info.cpus) !! PtrBlock(info.drivers)
    && PtrBlock(info.cpus) + PtrBlock(info.drivers) !! HeapBlocks(GpusShown(info))
    && PtrBlock(info.cpus) + PtrBlock(info.drivers) + HeapBlocks(GpusShown(info)) !! PtrBlock(info.gpus)
  }

  /** Freeing a report frees every one of its blocks, once, and no other. */
  lemma FreeReleases(a: Arena, info: Info)
    requires Disjoint(info) && Blocks(info) <= a.live
    ensures FreedInfo(a, info) == a.(live := a.live - Blocks(info))
  {
    var b := FreedPtr(FreedPtr(a, info.cpus), info.drivers);
    assert b == a.(live := a.live - PtrBlock(info.cpus) - PtrBlock(info.drivers));
    FreedHeapsReleases(b, GpusShown(info));
    assert FreedInfo(a, info).live == a.live - Blocks(info);
  }

  lemma PopulatedGpusAdds(a: Arena, infos: seq<GpuInfo>, numDrivers: nat)
    requires Sane(a)
    ensures var (b, p) := PopulatedGpus(a, infos, numDrivers);
      var gpus := if p.Null? then [] else p.elems;
      && Grew(a, b, HeapBlocks(gpus) + PtrBlock(p)) && Separate(gpus) && HeapBlocks(gpus) !! PtrBlock(p)
  {
    if infos != [] && Grant(a.grants) {
      HeapsAdd(Asked(a), infos, |infos|, numDrivers);
    }
  }

  lemma PartsAreDisjoint(a: Arena, b: Arena, c: Arena, d: Arena, info: Info)
    requires info.gpus.Ptr? ==> info.numGpus == |info.gpus.elems|
    requires Grew(a, b, PtrBlock(info.drivers)) && Grew(b, c, PtrBlock(info.cpus))
    requires Grew(c, d, HeapBlocks(GpusShown(info)) + PtrBlock(info.gpus))
    requires Separate(GpusShown(info)) && HeapBlocks(GpusShown(info)) !! PtrBlock(info.gpus)
    ensures Disjoint(info) && Grew(a, d, Blocks(info))
  {
    GrewOn(a, b, c, PtrBlock(info.drivers), PtrBlock(info.cpus));
    GrewOn(a, c, d, PtrBlock(info.drivers) + PtrBlock(info.cpus), HeapBlocks(GpusShown(info)) + PtrBlock(info.gpus));
    assert Blocks(info) ==
           PtrBlock(info.drivers) + PtrBlock(info.cpus) + (HeapBlocks(GpusShown(info)) + PtrBlock(info.gpus));
  }

  lemma GatheredOwnsItsBlocks(a: Arena, s: Source)
    requires Sane(a)
    ensures var (b, info, ok) := Gathered(a, s); Disjoint(info) && Grew(a, b, Blocks(info))
  {
    var (b, info, ok) := Gathered(a, s);
    var (a1, drivers) := Populated(a, DriverList(s), DriverOf);
    PopulatedAdds(a, DriverList(s), DriverOf);
    if Failed(DriverList(s), drivers) {
      PartsAreDisjoint(a, a1, a1, a1, info);
    } else {
      var (a2, cpus) := Populated(a1, s.cpus, CpuOf);
      PopulatedAdds(a1, s.cpus, CpuOf);
      if Failed(s.cpus, cpus) {
        PartsAreDisjoint(a, a1, a2, a2, info);
      } else {
        var (a3, gpus) := PopulatedGpus(a2, s.gpus, Count(drivers));
        PopulatedGpusAdds(a2, s.gpus, Count(drivers));
        assert gpus.Ptr? ==> gpus.elems[..Count(gpus)] == gpus.elems;
        PartsAreDisjoint(a, a1, a2, a3, info);
      }
    }
  }

  /** For every pattern of allocation failures: a report that fails leaves exactly the
      blocks that were live before, and nothing is freed wrongly. */
  lemma FailureRollsBack(a: Arena, s: Source)
    requires Sane(a) && Got(a, s).1.None?
    ensures Got(a, s).0.live == a.live && Got(a, s).0.misfreed == a.misfreed
  {
    GatheredOwnsItsBlocks(a, s);
    FreeReleases(Gathered(a, s).0, Gathered(a, s).1);
  }

  /** A report that succeeds owns exactly the blocks that became live, so freeing it, even
      twice, restores the live blocks; nothing is freed wrongly. */
  lemma FreeUndoesGet(a: Arena, s: Source)
    requires Sane(a) && Got(a, s).1.Some?
    ensures var (b, r) := Got(a, s); var info := r.value;
      && Disjoint(info) && Blocks(info) !! a.live && b.live == a.live + Blocks(info)
      && var c := FreedInfo(b, info);
         c.live == a.live && c.misfreed == a.misfreed && FreedInfo(c, WithoutArrays(info.os, info.driver)) == c
  {
    GatheredOwnsItsBlocks(a, s);
    FreeReleases(Gathered(a, s).0, Gathered(a, s).1);
  }

  // ---------------------------------------------------------------- which requests are refused

  /** The `i`th request for a block, counted from now, will be refused. */
  predicate Refused(grants: seq<bool>, i: nat) {
    i < |grants| && !grants[i]
  }

  /** No driver is known: neither one for each device nor anything about the system's. */
  predicate NoDriver(s: Source) {
    && s.drivers == [] && s.driver.name == [] && s.driver.description == [] && s.driver.packagingVersion == []
    && s.driver.softwareVersion == [] && (s.driver.packagingDate == None || s.driver.packagingDate == Some([]))
  }

  /** How many requests come before the CPUs', and before the GPUs'. */
  function BeforeCpus(s: Source): nat {
    if NoDriver(s) then 0 else 1
  }

  function BeforeGpus(s: Source): nat {
    BeforeCpus(s) + if s.cpus == [] then 0 else 1
  }

  /** How many of the first `n` GPUs have heaps to ask an array for. */
  function HeapAsks(gpus: seq<GpuInfo>, n: nat): nat
    requires n <= |gpus|
  {
    if n == 0 then 0 else HeapAsks(gpus, n - 1) + if gpus[n - 1].heaps == [] then 0 else 1
  }

  /** The call fails exactly when one of the arrays it needs for drivers, CPUs and GPUs is
      refused; a refused heap array does not matter. */
  lemma FailsIff(a: Arena, s: Source)
    ensures Got(a, s).1.None? <==>
            || (!NoDriver(s) && Refused(a.grants, 0))
            || (s.cpus != [] && Refused(a.grants, BeforeCpus(s)))
            || (s.gpus != [] && Refused(a.grants, BeforeGpus(s)))
  {
    hide FreedInfo, AfterHeaps, GpuList, DriverOf, CpuOf, OsOf;
    var (b, drivers) := Populated(a, DriverList(s), DriverOf);
    var (c, cpus) := Populated(b, s.cpus, CpuOf);
    ListedIffKnown(s);
    GrantIffNotRefused(a.grants);
    GrantIffNotRefused(b.grants);
    GrantIffNotRefused(c.grants);
    GrantsAfterPopulated(a, DriverList(s), DriverOf, 0);
    GrantsAfterPopulated(b, s.cpus, CpuOf, 0);
    GrantsAfterPopulated(a, DriverList(s), DriverOf, if s.cpus == [] then 0 else 1);
  }

  lemma ListedIffKnown(s: Source)
    ensures DriverList(s) == [] <==> NoDriver(s)
  {
  }

  lemma GrantIffNotRefused(grants: seq<bool>)
    ensures Grant(grants) <==> !Refused(grants, 0)
    ensures forall i: nat :: Refused(Rest(grants), i) <==> Refused(grants, 1 + i)
  {
  }

  lemma GrantsAfterPopulated<S, T>(a: Arena, src: seq<S>, convert: S -> T, i: nat)
    ensures Refused(Populated(a, src, convert).0.grants, i) <==>
            Refused(a.grants, (if src == [] then 0 else 1) + i)
  {
    GrantIffNotRefused(a.grants);
  }

  lemma {:induction false} GrantsAfterHeaps(a: Arena, gpus: seq<GpuInfo>, n: nat, i: nat)
    requires n <= |gpus|
    ensures Refused(AfterHeaps(a, gpus, n).grants, i) <==> Refused(a.grants, HeapAsks(gpus, n) + i)
  {
    hide Populated, HeapOf;
    if n > 0 {
      var k := if gpus[n - 1].heaps == [] then 0 else 1;
      GrantsAfterPopulated(AfterHeaps(a, gpus, n - 1), gpus[n - 1].heaps, HeapOf, i);
      GrantsAfterHeaps(a, gpus, n - 1, k + i);
    }
  }

  /** Freeing a block that is not live is noticed, and stays so. */
  lemma MisfreeIsNoticed(a: Arena, block: nat)
    ensures Freed(a, block).misfreed <==> a.misfreed || block !in a.live
  {
  }

  // ---------------------------------------------------------------- what a report says

  ghost predicate OsReported(os: Os, o: OsInfo) {
    && Shows(os.name, o.name, 128) && Shows(os.description, o.desc, 256) && Shows(os.hostname, o.hostname, 128)
    && Shows(os.memory.memoryType, o.memory.memoryType, 64)
    && os.memory.physical == o.memory.physical && os.memory.swap == o.memory.swap
    && os.etw.supported == o.etw.supported && os.etw.hasPermission == o.etw.hasPermission
    && os.etw.needsScript == o.etw.needsScript
  }

  ghost predicate DriverReported(r: Driver, d: DriverInfo) {
    && Shows(r.name, d.name, 128) && Shows(r.description, d.description, 256)
    && Shows(r.packagingVersion, d.packagingVersion, 64)
    && (d.packagingDate.None? ==> r.packagingDate == [])
    && (d.packagingDate.Some? ==> Shows(r.packagingDate, d.packagingDate.value, 32))
    && Shows(r.softwareVersion, d.softwareVersion, 64)
    && r.major == d.major && r.minor == d.minor
  }

  ghost predicate CpuReported(r: Cpu, c: CpuInfo) {
    && Shows(r.name, c.name, 128) && Shows(r.architecture, c.architecture, 32)
    && Shows(r.vendorId, c.vendorId, 32) && Shows(r.cpuId, c.cpuId, 128)
    && Shows(r.deviceId, c.deviceId, 32) && Shows(r.virtualization, c.virtualization, 32)
    && r.physicalCores == c.physicalCores && r.logicalCores == c.logicalCores
    && r.maxClockSpeedMhz == c.maxClockSpeed && r.timestampClockFreqHz == c.timestampClockFrequency
  }

  ghost predicate HeapReported(r: Heap, h: HeapInfo) {
    Shows(r.heapType, h.heapType, 32) && r.physicalAddress == h.physAddr && r.size == h.size
  }

  ghost predicate DetailsReported(d: GpuDetails, g: GpuInfo) {
    && d.luid == g.asic.idInfo.luid && Shows(d.name, g.name, 128)
    && d.vendorId == g.asic.idInfo.vendor && d.subsystemId == g.asic.idInfo.subsystem
    && d.asic.engineClockMinHz == g.asic.engineClock.min && d.asic.engineClockMaxHz == g.asic.engineClock.max
    && d.asic.gpuCounterFreqHz == g.asic.gpuCounterFreq
    && d.asic.family == g.asic.idInfo.family && d.asic.deviceId == g.asic.idInfo.device
    && d.asic.revision == g.asic.idInfo.revision && d.asic.eRev == g.asic.idInfo.eRev
    && Shows(d.memory.memoryType, g.memory.memoryType, 32)
    && d.memory.memOpsPerClock == g.memory.memOpsPerClock && d.memory.busBitWidth == g.memory.busBitWidth
    && d.memory.bandwidth == g.memory.bandwidth
    && d.memory.memClockMinHz == g.memory.memClock.min && d.memory.memClockMaxHz == g.memory.memClock.max
    && d.pci.bus == g.pci.bus && d.pci.device == g.pci.device && d.pci.function_ == g.pci.function_
    && d.pci.id == g.pci.id
    && d.bigSw.major == g.bigSw.major && d.bigSw.minor == g.bigSw.minor && d.bigSw.misc == g.bigSw.misc
  }

  /** The driver a GPU names, if that is among those reported; the conversion to a signed
      index takes 2^32 from those with the sign bit. */
  ghost predicate IndexReported(reported: int, index: Option<uint32>, numDrivers: nat) {
    if index.None? || index.value >= numDrivers then reported == -1
    else reported == index.value || (index.value >= 0x8000_0000 && reported == index.value - 0x1_0000_0000)
  }

  /** A GPU's heaps are all of its heaps or, when their array was refused, none. */
  ghost predicate GpuReported(gpu: Gpu, g: GpuInfo, granted: bool, numDrivers: nat) {
    && DetailsReported(gpu.details, g) && IndexReported(gpu.driverIndex, g.driverIndex, numDrivers)
    && (gpu.heaps.Ptr? <==> g.heaps != [] && granted)
    && (gpu.heaps.Null? ==> gpu.numHeaps == 0)
    && (gpu.heaps.Ptr? ==> gpu.numHeaps == |g.heaps| == |gpu.heaps.elems|
                           && forall h :: 0 <= h < |g.heaps| ==> HeapReported(gpu.heaps.elems[h], g.heaps[h]))
  }

  /** The drivers known for each device; without any, the system's, if anything is known of it. */
  ghost predicate DriversReported(info: Info, s: Source) {
    if s.drivers != [] then
      && info.drivers.Ptr? && info.numDrivers == |info.drivers.elems| == |s.drivers|
      && forall i :: 0 <= i < |s.drivers| ==> DriverReported(info.drivers.elems[i], s.drivers[i])
    else if NoDriver(s) then info.drivers.Null? && info.numDrivers == 0
    else info.drivers.Ptr? && info.numDrivers == |info.drivers.elems| == 1
         && DriverReported(info.drivers.elems[0], s.driver)
  }

  ghost predicate CpusReported(info: Info, s: Source) {
    if s.cpus == [] then info.cpus.Null? && info.numCpus == 0
    else info.cpus.Ptr? && info.numCpus == |info.cpus.elems| == |s.cpus|
         && forall i :: 0 <= i < |s.cpus| ==> CpuReported(info.cpus.elems[i], s.cpus[i])
  }

  /** `grants` says which requests would be refused when the call began. */
  ghost predicate GpusReported(info: Info, s: Source, grants: seq<bool>) {
    if s.gpus == [] then info.gpus.Null? && info.numGpus == 0
    else info.gpus.Ptr? && info.numGpus == |info.gpus.elems| == |s.gpus|
         && forall i :: 0 <= i < |s.gpus| ==>
              GpuReported(info.gpus.elems[i], s.gpus[i],
                          !Refused(grants, BeforeGpus(s) + 1 + HeapAsks(s.gpus, i)), info.numDrivers)
  }

  /** The counts are those of the arrays, an array is missing only for an empty list, and
      every record shows its element, field by field. */
  ghost predicate Complete(info: Info, s: Source, grants: seq<bool>) {
    && OsReported(info.os, s.os) && DriverReported(info.driver, s.driver)
    && DriversReported(info, s) && CpusReported(info, s) && GpusReported(info, s, grants)
  }

  lemma OsOfReports(o: OsInfo)
    ensures OsReported(OsOf(o), o)
  {
    FieldShows(OsOf(o).name, o.name, LONG);
    FieldShows(OsOf(o).description, o.desc, XLONG);
    FieldShows(OsOf(o).hostname, o.hostname, LONG);
    FieldShows(OsOf(o).memory.memoryType, o.memory.memoryType, MEDIUM);
  }

  lemma DriverOfReports(d: DriverInfo)
    ensures DriverReported(DriverOf(d), d)
  {
    var r := DriverOf(d);
    FieldShows(r.name, d.name, LONG);
    FieldShows(r.description, d.description, XLONG);
    FieldShows(r.packagingVersion, d.packagingVersion, MEDIUM);
    if d.packagingDate.Some? {
      FieldShows(r.packagingDate, d.packagingDate.value, SHORT);
    }
    FieldShows(r.softwareVersion, d.softwareVersion, MEDIUM);
  }

  lemma CpuOfReports(c: CpuInfo)
    ensures CpuReported(CpuOf(c), c)
  {
    var r := CpuOf(c);
    FieldShows(r.name, c.name, LONG);
    FieldShows(r.architecture, c.architecture, SHORT);
    FieldShows(r.vendorId, c.vendorId, SHORT);
    FieldShows(r.cpuId, c.cpuId, LONG);
    FieldShows(r.deviceId, c.deviceId, SHORT);
    FieldShows(r.virtualization, c.virtualization, SHORT);
  }

  lemma DetailsOfReports(g: GpuInfo)
    ensures DetailsReported(DetailsOf(g), g)
  {
    FieldShows(DetailsOf(g).name, g.name, LONG);
    FieldShows(DetailsOf(g).memory.memoryType, g.memory.memoryType, SHORT);
  }

  lemma GpuOfReports(b: Arena, g: GpuInfo, numDrivers: nat)
    ensures GpuReported(GpuOf(g, Populated(b, g.heaps, HeapOf).1, numDrivers), g, !Refused(b.grants, 0), numDrivers)
  {
    DetailsOfReports(g);
    forall h | 0 <= h < |g.heaps| ensures HeapReported(HeapOf(g.heaps[h]), g.heaps[h]) {
      FieldShows(HeapOf(g.heaps[h]).heapType, g.heaps[h].heapType, SHORT);
    }
  }

  lemma DriversAreReported(a: Arena, s: Source, info: Info)
    requires info.drivers == Populated(a, DriverList(s), DriverOf).1 && info.numDrivers == Count(info.drivers)
    requires !Failed(DriverList(s), info.drivers)
    ensures DriversReported(info, s)
  {
    forall d | d in DriverList(s) ensures DriverReported(DriverOf(d), d) {
      DriverOfReports(d);
    }
  }

  lemma CpusAreReported(a: Arena, s: Source, info: Info)
    requires info.cpus == Populated(a, s.cpus, CpuOf).1 && info.numCpus == Count(info.cpus)
    requires !Failed(s.cpus, info.cpus)
    ensures CpusReported(info, s)
  {
    forall c | c in s.cpus ensures CpuReported(CpuOf(c), c) {
      CpuOfReports(c);
    }
  }

  lemma GpuArrayIsReported(a: Arena, b: Arena, s: Source, info: Info)
    requires info.gpus == PopulatedGpus(b, s.gpus, info.numDrivers).1 && info.numGpus == Count(info.gpus)
    requires !Failed(s.gpus, info.gpus)
    requires forall i: nat :: Refused(b.grants, i) <==> Refused(a.grants, BeforeGpus(s) + i)
    ensures GpusReported(info, s, a.grants)
  {
    hide GpuReported, RecordAt, Asked, AfterHeaps, HeapAsks, Refused, BeforeGpus;
    forall i | 0 <= i < |s.gpus|
      ensures GpuReported(RecordAt(Asked(b), s.gpus, i, info.numDrivers), s.gpus[i],
                          !Refused(a.grants, BeforeGpus(s) + 1 + HeapAsks(s.gpus, i)), info.numDrivers)
    {
      RecordIsReported(b, s.gpus, i, info.numDrivers);
    }
  }

  lemma RecordIsReported(b: Arena, infos: seq<GpuInfo>, i: nat, numDrivers: nat)
    requires i < |infos|
    ensures GpuReported(RecordAt(Asked(b), infos, i, numDrivers), infos[i], !Refused(b.grants, 1 + HeapAsks(infos, i)),
                        numDrivers)
  {
    hide GpuReported, GpuOf, Populated, AfterHeaps, HeapAsks, Refused, Grant, Rest;
    GpuOfReports(AfterHeaps(Asked(b), infos, i), infos[i], numDrivers);
    GrantsAfterHeaps(Asked(b), infos, i, 0);
    GrantIffNotRefused(b.grants);
  }

  /** A report that succeeds is complete. */
  lemma ReportIsComplete(a: Arena, s: Source)
    requires Got(a, s).1.Some?
    ensures Complete(Got(a, s).1.value, s, a.grants)
  {
    hide Populated, PopulatedGpus, FreedInfo, OsReported, DriverReported, CpusReported, DriversReported, GpusReported;
    hide OsOf, DriverOf, CpuOf;
    var info := Got(a, s).1.value;
    var b := Populated(a, DriverList(s), DriverOf).0;
    var c := Populated(b, s.cpus, CpuOf).0;
    OsOfReports(s.os);
    DriverOfReports(s.driver);
    DriversAreReported(a, s, info);
    CpusAreReported(b, s, info);
    ListedIffKnown(s);
    forall i: nat ensures Refused(c.grants, i) <==> Refused(a.grants, BeforeGpus(s) + i) {
      var k := if s.cpus == [] then 0 else 1;
      GrantsAfterPopulated(b, s.cpus, CpuOf, i);
      GrantsAfterPopulated(a, DriverList(s), DriverOf, k + i);
    }
    GpuArrayIsReported(a, c, s, info);
  }

  /** Every GPU is reported, with a heap count only when it has a heap array, and without its
      heaps only when their array was refused; its driver index is -1 or in range exactly
      when none in range has the sign bit set, except the one that is converted to -1. */
  lemma GpusAreReported(a: Arena, infos: seq<GpuInfo>, numDrivers: nat, i: nat)
    requires PopulatedGpus(a, infos, numDrivers).1.Ptr? && i < |infos|
    ensures var gpus := PopulatedGpus(a, infos, numDrivers).1.elems;
      && |gpus| == |infos| && (gpus[i].numHeaps != 0 <==> gpus[i].heaps.Ptr?)
      && GpuReported(gpus[i], infos[i], !Refused(a.grants, 1 + HeapAsks(infos, i)), numDrivers)
      && var index := infos[i].driverIndex;
         -1 <= gpus[i].driverIndex < numDrivers <==>
         !(index.Some? && 0x8000_0000 <= index.value < numDrivers && index.value != 0xFFFF_FFFF)
  {
    hide DetailsReported, HeapReported;
    RecordIsReported(a, infos, i, numDrivers);
    ResolvedIndexInRangeIff(infos[i].driverIndex, numDrivers);
  }

  // ---------------------------------------------------------------- the routines

  class Allocator {
    var arena: Arena

    constructor (arena: Arena)
      ensures this.arena == arena
    {
      this.arena := arena;
    }

    /** A new block, or none. */
    method Alloc() returns (block: Option<nat>)
      modifies this
      ensures arena == Asked(old(arena))
      ensures block == if Grant(old(arena).grants) then Some(old(arena).next) else None
    {
      var granted := Grant(arena.grants);
      block := if granted then Some(arena.next) else None;
      arena := Asked(arena);
    }

    method Free<T>(p: Ptr<T>)
      requires p.Ptr?
      modifies this
      ensures arena == FreedPtr(old(arena), p)
    {
      arena := Freed(arena, p.block);
    }
  }

  /** Allocate, then fill record by record. */
  method Populate<S, T>(a: Allocator, src: seq<S>, convert: S -> T) returns (ok: bool, array_: Ptr<T>, count: nat)
    modifies a
    ensures (a.arena, array_) == Populated(old(a.arena), src, convert)
    ensures ok <==> !Failed(src, array_)
    ensures count == Count(array_)
  {
    if |src| == 0 {
      return true, Null, 0;
    }
    var block := a.Alloc();
    if block.None? {
      return false, Null, 0;
    }
    var buf: seq<T> := [];
    var i := 0;
    while i < |src|
      invariant i <= |src| && |buf| == i && forall k :: 0 <= k < i ==> buf[k] == convert(src[k])
    {
      buf := buf + [convert(src[i])];
      i := i + 1;
    }
    assert buf == Map(src, convert);
    return true, Ptr(block.value, buf), |src|;
  }

  method PopulateDrivers(a: Allocator, s: Source) returns (ok: bool, drivers: Ptr<Driver>, numDrivers: nat)
    modifies a
    ensures (a.arena, drivers) == Populated(old(a.arena), DriverList(s), DriverOf)
    ensures ok <==> !Failed(DriverList(s), drivers)
    ensures numDrivers == Count(drivers)
  {
    var havePerDevice := s.drivers != [];
    if havePerDevice {
      ok, drivers, numDrivers := Populate(a, s.drivers, DriverOf);
    } else if DriverInfoIsEmpty(s.driver) {
      return true, Null, 0;
    } else {
      ok, drivers, numDrivers := Populate(a, [s.driver], DriverOf);
    }
  }

  method PopulateGpu(a: Allocator, g: GpuInfo, numDrivers: nat) returns (gpu: Gpu)
    modifies a
    ensures a.arena == Populated(old(a.arena), g.heaps, HeapOf).0
    ensures gpu == GpuOf(g, Populated(old(a.arena), g.heaps, HeapOf).1, numDrivers)
  {
    var _, heaps, numHeaps := Populate(a, g.heaps, HeapOf);
    gpu := Gpu(DetailsOf(g), numHeaps, heaps, ResolvedIndex(g.driverIndex, numDrivers));
  }

  method FillGpus(a: Allocator, gpus: seq<GpuInfo>, numDrivers: nat) returns (buf: seq<Gpu>)
    modifies a
    ensures a.arena == AfterHeaps(old(a.arena), gpus, |gpus|) && buf == GpuList(old(a.arena), gpus, |gpus|, numDrivers)
  {
    buf := [];
    var i := 0;
    while i < |gpus|
      invariant i <= |gpus| && a.arena == AfterHeaps(old(a.arena), gpus, i)
      invariant buf == GpuList(old(a.arena), gpus, i, numDrivers)
    {
      GpuListSnoc(old(a.arena), gpus, i, numDrivers);
      var gpu := PopulateGpu(a, gpus[i], numDrivers);
      buf := buf + [gpu];
      i := i + 1;
    }
  }

  method PopulateGpus(a: Allocator, s: Source, numDrivers: nat) returns (ok: bool, gpus: Ptr<Gpu>, numGpus: nat)
    modifies a
    ensures (a.arena, gpus) == PopulatedGpus(old(a.arena), s.gpus, numDrivers)
    ensures ok <==> !Failed(s.gpus, gpus)
    ensures numGpus == Count(gpus)
  {
    if |s.gpus| == 0 {
      return true, Null, 0;
    }
    var block := a.Alloc();
    if block.None? {
      return false, Null, 0;
    }
    var buf := FillGpus(a, s.gpus, numDrivers);
    return true, Ptr(block.value, buf), |s.gpus|;
  }

  class SystemInfo {
    var info: Info

    constructor ()
      ensures info == NO_INFO
    {
      info := NO_INFO;
    }
  }

  /** Fills `out`, or fails and leaves it as it was. */
  method GetSystemInfo(a: Allocator, s: Source, out: SystemInfo?) returns (result: CaptureResult)
    modifies a, out
    ensures out == null ==> result == InvalidParams && a.arena == old(a.arena)
    ensures out != null ==>
              && a.arena == Got(old(a.arena), s).0
              && out.info == (if Got(old(a.arena), s).1.Some? then Got(old(a.arena), s).1.value else old(out.info))
              && result == (if Got(old(a.arena), s).1.Some? then Success else Failure)
    ensures out != null && result == Success ==> Complete(out.info, s, old(a.arena.grants))
    ensures out != null && result == Failure && Sane(old(a.arena)) ==> a.arena.live == old(a.arena.live)
  {
    if out == null {
      return InvalidParams;
    }
    var info := new SystemInfo();
    info.info := info.info.(os := OsOf(s.os), driver := DriverOf(s.driver));
    var ok := Gather(a, s, info);
    if !ok {
      FreeSystemInfo(a, info);
      if Sane(old(a.arena)) {
        FailureRollsBack(old(a.arena), s);
      }
      return Failure;
    }
    ReportIsComplete(old(a.arena), s);
    out.info := info.info;
    return Success;
  }

  /** The arrays one after the other, until one is refused. */
  method Gather(a: Allocator, s: Source, info: SystemInfo) returns (ok: bool)
    requires info.info == WithoutArrays(OsOf(s.os), DriverOf(s.driver))
    modifies a, info
    ensures (a.arena, info.info, ok) == Gathered(old(a.arena), s)
  {
    var drivers, numDrivers, cpus, numCpus, gpus, numGpus;
    ok, drivers, numDrivers := PopulateDrivers(a, s);
    info.info := info.info.(drivers := drivers, numDrivers := numDrivers);
    if !ok {
      return;
    }
    ok, cpus, numCpus := Populate(a, s.cpus, CpuOf);
    info.info := info.info.(cpus := cpus, numCpus := numCpus);
    if !ok {
      return;
    }
    ok, gpus, numGpus := PopulateGpus(a, s, info.info.numDrivers);
    info.info := info.info.(gpus := gpus, numGpus := numGpus);
  }

  /** Frees what `out` holds and empties it. */
  method FreeSystemInfo(a: Allocator, out: SystemInfo?)
    requires out != null ==> out.info.numGpus <= Count(out.info.gpus) || out.info.gpus.Null?
    modifies a, out
    ensures out == null ==> a.arena == old(a.arena)
    ensures out != null ==> out.info == WithoutArrays(old(out.info.os), old(out.info.driver))
    ensures out != null ==>
              && out.info.os == old(out.info.os) && out.info.driver == old(out.info.driver)
              && out.info.drivers.Null? && out.info.cpus.Null? && out.info.gpus.Null?
              && out.info.numDrivers == out.info.numCpus == out.info.numGpus == 0
    ensures out != null ==> a.arena == FreedInfo(old(a.arena), old(out.info))
  {
    if out == null {
      return;
    }
    if out.info.cpus.Ptr? {
      a.Free(out.info.cpus);
      out.info := out.info.(cpus := Null);
    }
    out.info := out.info.(numCpus := 0);
    if out.info.drivers.Ptr? {
      a.Free(out.info.drivers);
      out.info := out.info.(drivers := Null);
    }
    out.info := out.info.(numDrivers := 0);
    if out.info.gpus.Ptr? {
      FreeHeapArrays(a, out);
      a.Free(out.info.gpus);
      out.info := out.info.(gpus := Null);
    }
    out.info := out.info.(numGpus := 0);
  }

  /** The loop over the GPUs' heap arrays. */
  method FreeHeapArrays(a: Allocator, out: SystemInfo)
    requires out.info.gpus.Ptr? && out.info.numGpus <= |out.info.gpus.elems|
    modifies a, out
    ensures a.arena == FreedHeaps(old(a.arena), old(out.info.gpus.elems[..out.info.numGpus]))
    ensures out.info.gpus.Ptr? && out.info.gpus.block == old(out.info.gpus.block)
    ensures out.info == old(out.info).(gpus := out.info.gpus)
  {
    ghost var gpus := out.info.gpus.elems;
    var i := 0;
    while i < out.info.numGpus
      invariant i <= out.info.numGpus
      invariant out.info == old(out.info).(gpus := out.info.gpus)
      invariant out.info.gpus.Ptr? && out.info.gpus.block == old(out.info.gpus.block) && |out.info.gpus.elems| == |gpus|
      invariant forall k :: i <= k < |gpus| ==> out.info.gpus.elems[k] == gpus[k]
      invariant a.arena == FreedHeaps(old(a.arena), gpus[..i])
      decreases out.info.numGpus - i
    {
      var gpu := out.info.gpus.elems[i];
      assert gpus[..i + 1][..i] == gpus[..i];
      if gpu.heaps.Ptr? {
        a.Free(gpu.heaps);
        out.info := out.info.(gpus := Ptr(out.info.gpus.block, out.info.gpus.elems[i := gpu.(heaps := Null)]));
      }
      i := i + 1;
    }
  }
}
