/** The records passed between sampler, detector, ring buffer and dump. */
module Snapshots {
  import opened JsonValue

  datatype Option<T> = None | Some(value: T)

  const TWO_63: int := 0x8000_0000_0000_0000
  const TWO_64: int := 0x1_0000_0000_0000_0000

  type i32 = n: int | -0x8000_0000 <= n < 0x8000_0000
  type u32 = n: int | 0 <= n < 0x1_0000_0000
  type i64 = n: int | -0x8000_0000_0000_0000 <= n < 0x8000_0000_0000_0000
  type u64 = n: int | 0 <= n < 0x1_0000_0000_0000_0000

  /** Percentages and seconds: doubles whose whole part is exact. */
  type measure = x: real | -9007199254740992.0 <= x <= 9007199254740992.0

  /** Contents of the fixed buffers for a command name and a command line. */
  type Comm = s: CString | |s| <= 15
  type Cmdline = s: CString | |s| <= 255

  /** Unsigned subtraction wraps around. */
  function SubU64(a: u64, b: u64): u64 {
    if a >= b then a - b else a - b + TWO_64
  }

  /** A 64-bit pattern read as a signed number. */
  function AsI64(a: u64): i64 {
    if a < TWO_63 then a else a - TWO_64
  }

  const MAX_CORES: nat := 256

  type CoreList = s: seq<measure> | |s| <= MAX_CORES

  datatype CpuSnapshot = CpuSnapshot(globalPct: measure, iowaitPct: measure, perCorePct: CoreList)

  datatype MemSnapshot = MemSnapshot(
    total: u64, available: u64, free: u64, active: u64, inactive: u64,
    dirty: u64, slab: u64, swapTotal: u64, swapFree: u64, shmem: u64)

  datatype ProcEntry = ProcEntry(
    pid: i32, ppid: i32, uid: u32, state: char, comm: Comm, cmdline: Cmdline,
    cpuPct: measure, rssKib: u64)

  /** One process in one collection: what was read of it, its share of the CPU since the previous
      collection, and what is kept up over collections. */
  datatype Sample = Sample(
    pid: i32, ppid: i32, pgid: i32, state: char, comm: Comm, ticks: u64, rssKib: u64,
    cpuPct: real, baselinePct: real, sampleCount: nat, isNew: bool, valid: bool)

  const MAX_PROCS: nat := 10

  type ProcList = s: seq<ProcEntry> | |s| <= MAX_PROCS

  datatype Snapshot = Snapshot(
    timestampNs: u64, cpu: CpuSnapshot, mem: MemSnapshot, procs: ProcList, topRss: ProcList)

  datatype Scope = PerProcess | ProcessGroup | Parent | System

  datatype AnomalyType = NoAnomaly | CpuDelta | CpuNewProc | MemDrop | MemPressure | SwapSpike

  datatype Anomaly = Anomaly(
    kind: AnomalyType,
    spikePid: i32, spikeComm: Comm, spikeCpuPct: measure, spikeBaselinePct: measure,
    spikeDelta: measure, isNewProcess: bool,
    memAvailableKib: u64, memBaselineKib: u64, memDeltaKib: i64, memUsedPct: measure,
    swapUsedKib: u64, swapBaselineKib: u64, swapDeltaKib: i64,
    scope: Scope, scopeKey: i32,
    originSnapshotIdx: i32)
}
