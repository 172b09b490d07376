/** The v7 on-disk structures and what each of them can prove about itself. */
module Format7 {
  import opened Bytes

  const SECTOR := 512
  const VERSION := 7
  const LAYOUT := 1
  const FEATURES := 15
  const HEADER_SECTOR := 8
  const GENERATIONS := 2
  const NODE_BYTES := 128
  const NODES := 256
  const NODES_SECTORS := 64
  const MAP_BYTES := 16384
  const MAP_WORDS := 2048
  const MAP_SECTORS := 32
  const RECORD_BYTES := 192
  const RETAINED := 8
  const RECEIPT_BYTES := 2048
  const RECEIPTS_SECTORS := 4
  const GENERATION_SECTORS := 100
  const FIRST_GENERATION_SECTOR := 10
  const PAYLOAD_SECTOR := 210
  const DATA_SECTORS := 131072
  const VOLUME_SECTORS := 131282
  const EXTENTS := 8
  const MAX_FILE := 524288
  const NAME_BYTES := 32
  const NAME_MAX := 31
  const NEXT_MIN := 5
  const NEXT_EXHAUSTED := 0xFFFF_FFFF

  type U8 = x: nat | x < 0x100
  type U32 = x: nat | x < 0x1_0000_0000
  type U64 = x: nat | x < 0x1_0000_0000_0000_0000

  /** A 32-bit checksum of a byte string; nothing below depends on which one. */
  type Checksum = seq<Byte> -> U32

  type Sector = s: seq<Byte> | |s| == SECTOR witness Zeros(SECTOR)

  datatype Kind = File | Directory
  datatype RecordState = DirectCommitted | Admitted | Cancelled | AdmittedCommitted
  datatype Cause = Unknown | Requested | VersionConflict | AuthorityLost

  datatype Run = Run(start: U32, count: U32)

  datatype Header = Header(
    generation: U8, lineage: seq<Byte>, epoch: U64, sequence: U64, next: U32,
    nodesChecksum: U32, mapChecksum: U32, receiptsChecksum: U32)

  datatype Node = Node(
    id: U32, parent: U32, version: U64, length: U32, kind: Kind, space: U8,
    crc: U32, runs: seq<Run>, name: seq<Byte>)

  datatype Record = Record(
    subject: U64, workspace: U32, objectId: U32, instance: U64, epoch: U64, key: U64,
    previous: U64, committed: U64, admission: U64, terminal: U64,
    length: U32, crc: U32, state: RecordState, cause: Option<Cause>, runs: seq<Run>)

  // ---- Geometry of the volume -------------------------------------------------

  /** The generation that is not `slot`. */
  function Other(slot: nat): U8 { if slot == 0 then 1 else 0 }

  function HeaderSector(slot: nat): nat { HEADER_SECTOR + slot }
  function NodesSector(slot: nat): nat { FIRST_GENERATION_SECTOR + slot * GENERATION_SECTORS }
  function MapSector(slot: nat): nat { NodesSector(slot) + NODES_SECTORS }
  function ReceiptsSector(slot: nat): nat { MapSector(slot) + MAP_SECTORS }

  // ---- Payload runs -----------------------------------------------------------

  function SectorsNeeded(length: nat): nat { (length + SECTOR - 1) / SECTOR }

  function TotalCount(runs: seq<Run>): nat
  {
    if runs == [] then 0 else runs[0].count + TotalCount(runs[1..])
  }

  predicate Overlap(a: Run, b: Run)
  {
    a.start < b.start + b.count && b.start < a.start + a.count
  }

  /** The declared runs of one file or snapshot: non-empty, in bounds, apart and exactly as long as the bytes. */
  predicate RunsOk(runs: seq<Run>, length: nat)
  {
    && |runs| <= EXTENTS
    && length <= MAX_FILE
    && (forall i :: 0 <= i < |runs| ==> runs[i].count != 0 && runs[i].start + runs[i].count <= DATA_SECTORS)
    && (forall i, j :: 0 <= i < j < |runs| ==> !Overlap(runs[i], runs[j]))
    && TotalCount(runs) == SectorsNeeded(length)
  }

  predicate InRun(run: Run, s: nat)
  {
    run.start <= s < run.start + run.count
  }

  /** Whether payload sector `s` lies in one of `runs`. */
  predicate Covers(runs: seq<Run>, s: nat)
  {
    exists i :: 0 <= i < |runs| && InRun(runs[i], s)
  }

  // ---- Local checks of each structure -----------------------------------------

  predicate AllowedNameByte(b: Byte)
  {
    || 97 <= b <= 122  // a-z
    || 65 <= b <= 90   // A-Z
    || 48 <= b <= 57   // 0-9
    || b == 46 || b == 95 || b == 45  // . _ -
  }

  predicate ValidName(name: seq<Byte>)
  {
    && 0 < |name| <= NAME_MAX
    && name != [46]
    && name != [46, 46]
    && forall i :: 0 <= i < |name| ==> AllowedNameByte(name[i])
  }

  predicate HeaderOk(h: Header)
  {
    && h.generation < GENERATIONS
    && |h.lineage| == 16
    && h.lineage != Zeros(16)
    && 1 <= h.epoch <= h.sequence
    && NEXT_MIN <= h.next
  }

  predicate NodeOk(n: Node)
  {
    && n.id != 0
    && n.version != 0
    && 1 <= n.space <= 4
    && ValidName(n.name)
    && (n.kind == Directory ==> n.length == 0 && n.crc == 0 && n.runs == [])
    && RunsOk(n.runs, n.length)
  }

  predicate Committed(r: Record)
  {
    r.state == DirectCommitted || r.state == AdmittedCommitted
  }

  /** The sequence numbers a record of each state may carry. */
  predicate StateArithmetic(r: Record)
  {
    match r.state
    case DirectCommitted => r.admission == 0 && r.terminal == r.committed && r.committed > r.previous
    case Admitted => r.committed == 0 && r.terminal == 0 && r.admission > r.previous
    case Cancelled => r.committed == 0 && r.terminal > r.admission > r.previous
    case AdmittedCommitted => r.terminal == r.committed && r.committed > r.admission > r.previous
  }

  /** The sequence that created a record; also where it observed its previous version. */
  function Observed(r: Record): U64
  {
    if r.state == DirectCommitted then r.committed else r.admission
  }

  predicate RecordOk(r: Record)
  {
    && r.subject != 0 && r.workspace != 0 && r.instance != 0 && r.epoch != 0 && r.key != 0 && r.previous != 0
    && r.objectId >= NEXT_MIN
    && r.objectId != r.workspace
    && (r.state == Cancelled <==> r.cause.Some?)
    && StateArithmetic(r)
    && r.instance <= Observed(r)
    && r.epoch <= Observed(r)
    && RunsOk(r.runs, r.length)
  }
}
