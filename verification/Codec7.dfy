/** Byte encodings of the v7 header copies, node slots and retained-record slots. */
module Codec7 {
  import opened Bytes
  import opened Format7

  const MAGIC: seq<Byte> := [82, 85, 83, 84, 70, 83, 51, 0]  // "RUSTFS3\0"

  function ReadU32(raw: seq<Byte>, at: nat): (n: U32)
    requires at + 4 <= |raw|
    ensures LE(n, 4) == raw[at..at + 4]
  {
    WordSizes();
    FromLEBound(raw[at..at + 4]);
    LEOfFromLE(raw[at..at + 4]);
    FromLE(raw[at..at + 4])
  }

  function ReadU64(raw: seq<Byte>, at: nat): (n: U64)
    requires at + 8 <= |raw|
    ensures LE(n, 8) == raw[at..at + 8]
  {
    WordSizes();
    FromLEBound(raw[at..at + 8]);
    LEOfFromLE(raw[at..at + 8]);
    FromLE(raw[at..at + 8])
  }

  lemma ReadBackU32(raw: seq<Byte>, at: nat, n: U32)
    requires at + 4 <= |raw|
    requires raw[at..at + 4] == LE(n, 4)
    ensures ReadU32(raw, at) == n
  {
    WordSizes();
    FromLEOfLE(n, 4);
  }

  lemma ReadBackU64(raw: seq<Byte>, at: nat, n: U64)
    requires at + 8 <= |raw|
    requires raw[at..at + 8] == LE(n, 8)
    ensures ReadU64(raw, at) == n
  {
    WordSizes();
    FromLEOfLE(n, 8);
  }

  // ---- Runs -------------------------------------------------------------------

  function EncodeRun(run: Run): (b: seq<Byte>)
    ensures |b| == 8
  {
    LE(run.start, 4) + LE(run.count, 4)
  }

  function DecodeRun(raw: seq<Byte>): Run
    requires |raw| == 8
  {
    Run(ReadU32(raw, 0), ReadU32(raw, 4))
  }

  lemma RunRoundTrip(run: Run)
    ensures DecodeRun(EncodeRun(run)) == run
  {
    ReadBackU32(EncodeRun(run), 0, run.start);
    ReadBackU32(EncodeRun(run), 4, run.count);
  }

  lemma RunCanonical(raw: seq<Byte>)
    requires |raw| == 8
    ensures EncodeRun(DecodeRun(raw)) == raw
  {
    assert raw == raw[0..4] + raw[4..8];
  }

  /** All eight stored run pairs, declared or not. */
  function StoredRuns(raw: seq<Byte>): (runs: seq<Run>)
    requires |raw| == 64
    ensures |runs| == EXTENTS
  {
    seq(EXTENTS, i requires 0 <= i < EXTENTS => DecodeRun(Piece(raw, 8, i)))
  }

  function PaddedRun(runs: seq<Run>, i: nat): Run
  {
    if i < |runs| then runs[i] else Run(0, 0)
  }

  function EncodeRuns(runs: seq<Run>): (b: seq<Byte>)
    ensures |b| == 64
  {
    var pieces := seq(EXTENTS, i requires 0 <= i < EXTENTS => EncodeRun(PaddedRun(runs, i)));
    JoinLength(pieces, 8);
    Join(pieces)
  }

  lemma StoredRunsOfEncode(runs: seq<Run>)
    requires |runs| <= EXTENTS
    ensures forall i :: 0 <= i < EXTENTS ==> StoredRuns(EncodeRuns(runs))[i] == PaddedRun(runs, i)
  {
    var pieces := seq(EXTENTS, i requires 0 <= i < EXTENTS => EncodeRun(PaddedRun(runs, i)));
    forall i | 0 <= i < EXTENTS
      ensures StoredRuns(EncodeRuns(runs))[i] == PaddedRun(runs, i)
    {
      PieceOfJoin(pieces, 8, i);
      RunRoundTrip(PaddedRun(runs, i));
    }
  }

  lemma EncodeOfStoredRuns(raw: seq<Byte>, runs: seq<Run>)
    requires |raw| == 64
    requires forall i :: 0 <= i < EXTENTS ==> StoredRuns(raw)[i] == PaddedRun(runs, i)
    ensures EncodeRuns(runs) == raw
  {
    var pieces := seq(EXTENTS, i requires 0 <= i < EXTENTS => EncodeRun(PaddedRun(runs, i)));
    assert pieces == Pieces(raw, 8, EXTENTS) by {
      forall i | 0 <= i < EXTENTS
        ensures pieces[i] == Pieces(raw, 8, EXTENTS)[i]
      {
        RunCanonical(Piece(raw, 8, i));
      }
    }
    JoinOfPieces(raw, 8, EXTENTS);
  }

  /** The declared runs of a slot, or None when any rule about them fails. */
  function DecodeRuns(raw: seq<Byte>, used: nat, length: nat): (r: Option<seq<Run>>)
    requires |raw| == 64
  {
    var runs := StoredRuns(raw);
    if used > EXTENTS || length > MAX_FILE then None
    else if !RunsOk(runs[..used], length) then None
    else if exists i :: used <= i < EXTENTS && runs[i] != Run(0, 0) then None
    else Some(runs[..used])
  }

  lemma DecodeRunsCanonical(raw: seq<Byte>, used: nat, length: nat)
    requires |raw| == 64
    requires DecodeRuns(raw, used, length).Some?
    ensures EncodeRuns(DecodeRuns(raw, used, length).value) == raw
    ensures |DecodeRuns(raw, used, length).value| == used
  {
    EncodeOfStoredRuns(raw, StoredRuns(raw)[..used]);
  }

  lemma DecodeRunsRoundTrip(runs: seq<Run>, length: nat)
    requires RunsOk(runs, length)
    ensures DecodeRuns(EncodeRuns(runs), |runs|, length) == Some(runs)
  {
    StoredRunsOfEncode(runs);
    assert StoredRuns(EncodeRuns(runs))[..|runs|] == runs;
  }

  // ---- Header copies ----------------------------------------------------------

  function Identity(h: Header): (b: seq<Byte>)
    requires |h.lineage| == 16
    ensures |b| == 48
  {
    MAGIC + [VERSION, LAYOUT, h.generation, 0] + h.lineage + LE(h.epoch, 8) + LE(h.sequence, 8) + LE(h.next, 4)
  }

  function Aggregates(h: Header): (b: seq<Byte>)
    ensures |b| == 12
  {
    LE(h.nodesChecksum, 4) + LE(h.mapChecksum, 4) + LE(h.receiptsChecksum, 4)
  }

  function Geometry(): (b: seq<Byte>)
    ensures |b| == 29
  {
    LE(NODES, 4) + LE(NODE_BYTES, 4) + LE(MAP_BYTES, 4) + LE(DATA_SECTORS, 4) + RestOfGeometry()
  }

  function HeaderBody(h: Header): (b: seq<Byte>)
    requires |h.lineage| == 16
    ensures |b| == 508
  {
    Identity(h) + Aggregates(h) + Geometry() + Zeros(419)
  }

  /** The checksum covers the sector with its own field zeroed. */
  function EncodeHeader(crc: Checksum, h: Header): (b: Sector)
    requires |h.lineage| == 16
  {
    HeaderBody(h) + LE(crc(HeaderBody(h) + Zeros(4)), 4)
  }

  predicate GeometryMatches(raw: seq<Byte>)
    requires |raw| == SECTOR
  {
    && ReadU32(raw, 60) == NODES
    && ReadU32(raw, 64) == NODE_BYTES
    && ReadU32(raw, 68) == MAP_BYTES
    && ReadU32(raw, 72) == DATA_SECTORS
    && ReadU32(raw, 76) == RETAINED
    && ReadU32(raw, 84) == RECORD_BYTES
    && raw[88] == EXTENTS
  }

  function HeaderFields(raw: seq<Byte>): Header
    requires |raw| == SECTOR
  {
    Header(raw[10], raw[12..28], ReadU64(raw, 28), ReadU64(raw, 36), ReadU32(raw, 44),
           ReadU32(raw, 48), ReadU32(raw, 52), ReadU32(raw, 56))
  }

  /** Decode the copy stored in physical header slot `slot`; None is a refused copy. */
  function DecodeHeader(crc: Checksum, raw: seq<Byte>, slot: nat): (r: Option<Header>)
  {
    if |raw| != SECTOR then None
    else if raw[..8] != MAGIC || raw[8] != VERSION || raw[9] != LAYOUT then None
    else if crc(raw[..508] + Zeros(4)) != ReadU32(raw, 508) then None
    else if raw[11] != 0 || raw[89..508] != Zeros(419) then None
    else if !GeometryMatches(raw) then None
    else if ReadU32(raw, 80) != FEATURES then None
    else
      var h := HeaderFields(raw);
      if h.generation >= GENERATIONS || h.generation != slot then None
      else if h.lineage == Zeros(16) then None
      else if h.sequence < 1 || h.epoch < 1 || h.epoch > h.sequence then None
      else if h.next < NEXT_MIN then None
      else Some(h)
  }

  lemma IdentitySlices(h: Header)
    requires |h.lineage| == 16
    ensures var b := Identity(h);
      && b[..8] == MAGIC && b[8] == VERSION && b[9] == LAYOUT && b[10] == h.generation && b[11] == 0
      && b[12..28] == h.lineage && b[28..36] == LE(h.epoch, 8) && b[36..44] == LE(h.sequence, 8)
      && b[44..48] == LE(h.next, 4)
  {
  }

  lemma GeometrySlices()
    ensures var b := Geometry();
      && b[0..4] == LE(NODES, 4) && b[4..8] == LE(NODE_BYTES, 4) && b[8..12] == LE(MAP_BYTES, 4)
      && b[12..16] == LE(DATA_SECTORS, 4) && b[16..20] == LE(RETAINED, 4) && b[20..24] == LE(FEATURES, 4)
      && b[24..28] == LE(RECORD_BYTES, 4) && b[28] == EXTENTS
  {
    FourWords(LE(NODES, 4), LE(NODE_BYTES, 4), LE(MAP_BYTES, 4), LE(DATA_SECTORS, 4), RestOfGeometry());
    FourWords(LE(RETAINED, 4), LE(FEATURES, 4), LE(RECORD_BYTES, 4), [EXTENTS], []);
    var b := Geometry();
    SliceOfSlice(b, 16, 29, 0, 4);
    SliceOfSlice(b, 16, 29, 4, 8);
    SliceOfSlice(b, 16, 29, 8, 12);
    assert b[28] == b[16..29][12];
  }

  function RestOfGeometry(): (b: seq<Byte>)
    ensures |b| == 13
  {
    LE(RETAINED, 4) + LE(FEATURES, 4) + LE(RECORD_BYTES, 4) + [EXTENTS] + []
  }

  lemma FourWords(a: seq<Byte>, b: seq<Byte>, c: seq<Byte>, d: seq<Byte>, rest: seq<Byte>)
    requires |a| == |b| == |c| == 4
    ensures var w := a + b + c + d + rest;
      && w[0..4] == a && w[4..8] == b && w[8..12] == c && w[12..12 + |d|] == d && w[12 + |d|..] == rest
  {
  }

  /** The three aggregates follow the identity, then the geometry, then reserved zeros. */
  lemma FiveParts(raw: seq<Byte>, a: seq<Byte>, b: seq<Byte>, c: seq<Byte>, d: seq<Byte>, e: seq<Byte>)
    requires |a| == 48 && |b| == 12 && |c| == 29 && |d| == 419 && |e| == 4 && raw == a + b + c + d + e
    ensures raw[0..48] == a && raw[48..60] == b && raw[60..89] == c && raw[89..508] == d && raw[508..512] == e
  {
  }

  lemma HeaderParts(crc: Checksum, h: Header)
    requires |h.lineage| == 16
    ensures var raw := EncodeHeader(crc, h);
      && raw[0..48] == Identity(h) && raw[48..60] == Aggregates(h) && raw[60..89] == Geometry()
      && raw[89..508] == Zeros(419) && raw[..508] == HeaderBody(h)
      && raw[508..512] == LE(crc(HeaderBody(h) + Zeros(4)), 4)
  {
    var raw := EncodeHeader(crc, h);
    assert raw[..508] == HeaderBody(h);
    FiveParts(raw, Identity(h), Aggregates(h), Geometry(), Zeros(419), LE(crc(HeaderBody(h) + Zeros(4)), 4));
  }

  /** Slices of a slice are slices of the whole. */
  lemma SliceOfSlice(raw: seq<Byte>, from: nat, to: nat, lo: nat, hi: nat)
    requires from <= to <= |raw| && lo <= hi <= to - from
    ensures raw[from..to][lo..hi] == raw[from + lo..from + hi]
  {
    var part := raw[from..to];
    assert forall i :: lo <= i < hi ==> part[i] == raw[from + i];
    assert forall i :: 0 <= i < hi - lo ==> part[lo..hi][i] == raw[from + lo..from + hi][i];
  }

  /** A number read from a part of the bytes is read from the whole at the shifted offset. */
  lemma FieldU32(raw: seq<Byte>, from: nat, to: nat, lo: nat, n: U32)
    requires from <= to <= |raw| && lo + 4 <= to - from
    requires raw[from..to][lo..lo + 4] == LE(n, 4)
    ensures ReadU32(raw, from + lo) == n
  {
    SliceOfSlice(raw, from, to, lo, lo + 4);
    ReadBackU32(raw, from + lo, n);
  }

  lemma FieldU64(raw: seq<Byte>, from: nat, to: nat, lo: nat, n: U64)
    requires from <= to <= |raw| && lo + 8 <= to - from
    requires raw[from..to][lo..lo + 8] == LE(n, 8)
    ensures ReadU64(raw, from + lo) == n
  {
    SliceOfSlice(raw, from, to, lo, lo + 8);
    ReadBackU64(raw, from + lo, n);
  }

  lemma IdentityRead(raw: seq<Byte>, h: Header)
    requires |raw| == SECTOR && |h.lineage| == 16 && raw[0..48] == Identity(h)
    ensures raw[..8] == MAGIC && raw[8] == VERSION && raw[9] == LAYOUT && raw[10] == h.generation && raw[11] == 0
    ensures raw[12..28] == h.lineage && ReadU64(raw, 28) == h.epoch && ReadU64(raw, 36) == h.sequence
    ensures ReadU32(raw, 44) == h.next
  {
    var part := raw[0..48];
    IdentitySlices(h);
    SliceOfSlice(raw, 0, 48, 0, 8);
    SliceOfSlice(raw, 0, 48, 12, 28);
    FieldU64(raw, 0, 48, 28, h.epoch);
    FieldU64(raw, 0, 48, 36, h.sequence);
    FieldU32(raw, 0, 48, 44, h.next);
    assert raw[8] == part[8] && raw[9] == part[9] && raw[10] == part[10] && raw[11] == part[11];
  }

  lemma AggregatesRead(raw: seq<Byte>, h: Header)
    requires |raw| == SECTOR && raw[48..60] == Aggregates(h)
    ensures ReadU32(raw, 48) == h.nodesChecksum && ReadU32(raw, 52) == h.mapChecksum
    ensures ReadU32(raw, 56) == h.receiptsChecksum
  {
    FieldU32(raw, 48, 60, 0, h.nodesChecksum);
    FieldU32(raw, 48, 60, 4, h.mapChecksum);
    FieldU32(raw, 48, 60, 8, h.receiptsChecksum);
  }

  lemma GeometryRead(raw: seq<Byte>)
    requires |raw| == SECTOR && raw[60..89] == Geometry()
    ensures GeometryMatches(raw) && ReadU32(raw, 80) == FEATURES
  {
    var part := raw[60..89];
    GeometrySlices();
    FieldU32(raw, 60, 89, 0, NODES);
    FieldU32(raw, 60, 89, 4, NODE_BYTES);
    FieldU32(raw, 60, 89, 8, MAP_BYTES);
    FieldU32(raw, 60, 89, 12, DATA_SECTORS);
    FieldU32(raw, 60, 89, 16, RETAINED);
    FieldU32(raw, 60, 89, 20, FEATURES);
    FieldU32(raw, 60, 89, 24, RECORD_BYTES);
    assert raw[88] == part[28];
  }

  /** A well-formed header is read back from the slot it names. */
  lemma HeaderRoundTrip(crc: Checksum, h: Header)
    requires HeaderOk(h)
    ensures DecodeHeader(crc, EncodeHeader(crc, h), h.generation) == Some(h)
  {
    var raw := EncodeHeader(crc, h);
    HeaderParts(crc, h);
    IdentityRead(raw, h);
    AggregatesRead(raw, h);
    GeometryRead(raw);
    ReadBackU32(raw, 508, crc(HeaderBody(h) + Zeros(4)));
  }

  /** Every accepted copy is the encoding of what it decodes to, down to the reserved bytes. */
  lemma HeaderCanonical(crc: Checksum, raw: seq<Byte>, slot: nat)
    requires DecodeHeader(crc, raw, slot).Some?
    ensures var h := DecodeHeader(crc, raw, slot).value;
      HeaderOk(h) && h.generation == slot && raw == EncodeHeader(crc, h)
  {
    var h := DecodeHeader(crc, raw, slot).value;
    IdentityCanonical(raw);
    AggregatesCanonical(raw);
    GeometryCanonical(raw);
    Glue(raw, 0, 48, 60);
    Glue(raw, 0, 60, 89);
    Glue(raw, 0, 89, 508);
    Glue(raw, 0, 508, 512);
  }

  /** Adjacent slices concatenate. */
  lemma Glue(raw: seq<Byte>, lo: nat, mid: nat, hi: nat)
    requires lo <= mid <= hi <= |raw|
    ensures raw[lo..hi] == raw[lo..mid] + raw[mid..hi]
  {
  }

  lemma IdentityCanonical(raw: seq<Byte>)
    requires |raw| == SECTOR
    requires raw[..8] == MAGIC && raw[8] == VERSION && raw[9] == LAYOUT && raw[11] == 0
    ensures raw[0..48] == Identity(HeaderFields(raw))
  {
    assert raw[8..12] == [VERSION, LAYOUT, raw[10], 0];
    Glue(raw, 0, 8, 12);
    Glue(raw, 0, 12, 28);
    Glue(raw, 0, 28, 36);
    Glue(raw, 0, 36, 44);
    Glue(raw, 0, 44, 48);
  }

  lemma AggregatesCanonical(raw: seq<Byte>)
    requires |raw| == SECTOR
    ensures raw[48..60] == Aggregates(HeaderFields(raw))
  {
    Glue(raw, 48, 52, 56);
    Glue(raw, 48, 56, 60);
  }

  lemma GeometryCanonical(raw: seq<Byte>)
    requires |raw| == SECTOR
    requires GeometryMatches(raw) && ReadU32(raw, 80) == FEATURES
    ensures raw[60..89] == Geometry()
  {
    assert raw[88..89] == [EXTENTS];
    Glue(raw, 76, 80, 84);
    Glue(raw, 76, 84, 88);
    Glue(raw, 76, 88, 89);
    Glue(raw, 60, 64, 68);
    Glue(raw, 60, 68, 72);
    Glue(raw, 60, 72, 76);
    Glue(raw, 60, 76, 89);
  }

  /** An all-zero sector is no header. */
  lemma ZeroHeaderRefused(crc: Checksum, slot: nat)
    ensures DecodeHeader(crc, Zeros(SECTOR), slot).None?
  {
    assert Zeros(SECTOR)[..8][0] != MAGIC[0];
  }

  // ---- Node slots -------------------------------------------------------------

  function KindByte(kind: Kind): Byte
  {
    match kind case File => 1 case Directory => 2
  }

  function NodeHead(n: Node): (b: seq<Byte>)
    requires |n.runs| <= EXTENTS && |n.name| <= NAME_MAX
    ensures |b| == 24
  {
    LE(n.id, 4) + LE(n.parent, 4) + LE(n.version, 8) + LE(n.length, 4)
    + [KindByte(n.kind), n.space, |n.runs|, |n.name|]
  }

  function NameField(name: seq<Byte>): (b: seq<Byte>)
    requires |name| <= NAME_MAX
    ensures |b| == NAME_BYTES
  {
    name + Zeros(NAME_BYTES - |name|)
  }

  function NodeBody(n: Node): (b: seq<Byte>)
    requires |n.runs| <= EXTENTS && |n.name| <= NAME_MAX
    ensures |b| == 124
  {
    NodeHead(n) + EncodeRuns(n.runs) + NameField(n.name) + LE(n.crc, 4)
  }

  function EncodeNode(crc: Checksum, slot: Option<Node>): (b: seq<Byte>)
    requires slot.Some? ==> |slot.value.runs| <= EXTENTS && |slot.value.name| <= NAME_MAX
    ensures |b| == NODE_BYTES
  {
    match slot
    case None => Zeros(NODE_BYTES)
    case Some(n) => NodeBody(n) + LE(crc(NodeBody(n)), 4)
  }

  /** Decode one 128-byte node slot: None when corrupt, Some(None) for the all-zero slot. */
  function DecodeNode(crc: Checksum, raw: seq<Byte>): (r: Option<Option<Node>>)
  {
    if |raw| != NODE_BYTES then None
    else if raw == Zeros(NODE_BYTES) then Some(None)
    else if crc(raw[..124]) != ReadU32(raw, 124) then None
    else if raw[20] != 1 && raw[20] != 2 then None
    else
      var kind := if raw[20] == 1 then File else Directory;
      var id, parent, version, length := ReadU32(raw, 0), ReadU32(raw, 4), ReadU64(raw, 8), ReadU32(raw, 16);
      var space, used, nameLength, payload := raw[21], raw[22], raw[23], ReadU32(raw, 120);
      if id == 0 || version == 0 || !(1 <= space <= 4) then None
      else if nameLength > NAME_MAX then None
      else
        var name := raw[88..88 + nameLength];
        if !ValidName(name) || raw[88 + nameLength..120] != Zeros(NAME_BYTES - nameLength) then None
        else if kind == Directory && (length != 0 || payload != 0 || used != 0) then None
        else
          match DecodeRuns(raw[24..88], used, length)
          case None => None
          case Some(runs) => Some(Some(Node(id, parent, version, length, kind, space, payload, runs, name)))
  }

  lemma NodeHeadSlices(n: Node)
    requires |n.runs| <= EXTENTS && |n.name| <= NAME_MAX
    ensures var b := NodeHead(n);
      && b[0..4] == LE(n.id, 4) && b[4..8] == LE(n.parent, 4) && b[8..16] == LE(n.version, 8)
      && b[16..20] == LE(n.length, 4) && b[20] == KindByte(n.kind) && b[21] == n.space
      && b[22] == |n.runs| && b[23] == |n.name|
  {
  }

  lemma NodeParts(crc: Checksum, n: Node)
    requires |n.runs| <= EXTENTS && |n.name| <= NAME_MAX
    ensures var raw := EncodeNode(crc, Some(n));
      && raw[0..24] == NodeHead(n) && raw[24..88] == EncodeRuns(n.runs) && raw[88..120] == NameField(n.name)
      && raw[120..124] == LE(n.crc, 4) && raw[..124] == NodeBody(n) && raw[124..128] == LE(crc(NodeBody(n)), 4)
  {
    var raw := EncodeNode(crc, Some(n));
    assert raw[..124] == NodeBody(n);
    assert NodeBody(n) == NodeHead(n) + (EncodeRuns(n.runs) + (NameField(n.name) + LE(n.crc, 4)));
  }

  lemma NodeNameSlices(raw: seq<Byte>, n: Node)
    requires |raw| == NODE_BYTES && |n.name| <= NAME_MAX && raw[88..120] == NameField(n.name)
    ensures raw[88..88 + |n.name|] == n.name && raw[88 + |n.name|..120] == Zeros(NAME_BYTES - |n.name|)
  {
    SliceOfSlice(raw, 88, 120, 0, |n.name|);
    SliceOfSlice(raw, 88, 120, |n.name|, 32);
    assert NameField(n.name)[..|n.name|] == n.name;
    assert NameField(n.name)[|n.name|..32] == Zeros(NAME_BYTES - |n.name|);
  }

  lemma NodeHeadRead(raw: seq<Byte>, n: Node)
    requires |raw| == NODE_BYTES && |n.runs| <= EXTENTS && |n.name| <= NAME_MAX && raw[0..24] == NodeHead(n)
    ensures ReadU32(raw, 0) == n.id && ReadU32(raw, 4) == n.parent && ReadU64(raw, 8) == n.version
    ensures ReadU32(raw, 16) == n.length
    ensures raw[20] == KindByte(n.kind) && raw[21] == n.space && raw[22] == |n.runs| && raw[23] == |n.name|
  {
    var head := raw[0..24];
    NodeHeadSlices(n);
    FieldU32(raw, 0, 24, 0, n.id);
    FieldU32(raw, 0, 24, 4, n.parent);
    FieldU64(raw, 0, 24, 8, n.version);
    FieldU32(raw, 0, 24, 16, n.length);
    assert raw[20] == head[20] && raw[21] == head[21] && raw[22] == head[22] && raw[23] == head[23];
  }

  /** A well-formed node, and the empty slot, are read back. */
  lemma NodeRoundTrip(crc: Checksum, slot: Option<Node>)
    requires slot.Some? ==> NodeOk(slot.value)
    ensures DecodeNode(crc, EncodeNode(crc, slot)) == Some(slot)
  {
    if slot.Some? {
      var n, raw := slot.value, EncodeNode(crc, slot);
      NodeParts(crc, n);
      NodeHeadRead(raw, n);
      NodeNameSlices(raw, n);
      ReadBackU32(raw, 120, n.crc);
      ReadBackU32(raw, 124, crc(NodeBody(n)));
      DecodeRunsRoundTrip(n.runs, n.length);
      WordSizes();
      LENonZero(n.id, 4);
      assert Zeros(NODE_BYTES)[0..4] == Zeros(4);
    }
  }

  /** Every accepted node slot is the encoding of what it decodes to, padding and undeclared runs included. */
  lemma NodeCanonical(crc: Checksum, raw: seq<Byte>)
    requires DecodeNode(crc, raw).Some?
    ensures var slot := DecodeNode(crc, raw).value;
      (slot.Some? ==> NodeOk(slot.value)) && raw == EncodeNode(crc, slot)
  {
    var slot := DecodeNode(crc, raw).value;
    if slot.Some? {
      var n := slot.value;
      DecodeRunsCanonical(raw[24..88], raw[22], n.length);
      NodeHeadCanonical(raw, n);
      Glue(raw, 88, 88 + raw[23], 120);
      Glue(raw, 0, 24, 88);
      Glue(raw, 0, 88, 120);
      Glue(raw, 0, 120, 124);
      Glue(raw, 0, 124, 128);
    }
  }

  lemma NodeHeadCanonical(raw: seq<Byte>, n: Node)
    requires |raw| == NODE_BYTES
    requires |n.runs| == raw[22] <= EXTENTS && |n.name| == raw[23] <= NAME_MAX
    requires raw[20] == KindByte(n.kind) && raw[21] == n.space
    requires n.id == ReadU32(raw, 0) && n.parent == ReadU32(raw, 4) && n.version == ReadU64(raw, 8)
    requires n.length == ReadU32(raw, 16)
    ensures raw[0..24] == NodeHead(n)
  {
    assert raw[20..24] == [KindByte(n.kind), n.space, |n.runs|, |n.name|];
    Glue(raw, 0, 4, 8);
    Glue(raw, 0, 8, 16);
    Glue(raw, 0, 16, 20);
    Glue(raw, 0, 20, 24);
  }

  // ---- Retained-record slots --------------------------------------------------

  function StateByte(state: RecordState): Byte
  {
    match state case DirectCommitted => 0 case Admitted => 1 case Cancelled => 2 case AdmittedCommitted => 3
  }

  function CauseByte(cause: Option<Cause>): Byte
  {
    match cause
    case None => 0
    case Some(Unknown) => 0
    case Some(Requested) => 1
    case Some(VersionConflict) => 2
    case Some(AuthorityLost) => 3
  }

  function DecodeState(b: Byte): Option<RecordState>
  {
    if b == 0 then Some(DirectCommitted) else if b == 1 then Some(Admitted)
    else if b == 2 then Some(Cancelled) else if b == 3 then Some(AdmittedCommitted) else None
  }

  function DecodeCause(b: Byte): Option<Cause>
  {
    if b == 0 then Some(Unknown) else if b == 1 then Some(Requested)
    else if b == 2 then Some(VersionConflict) else if b == 3 then Some(AuthorityLost) else None
  }

  function RecordScope(r: Record): (b: seq<Byte>)
    ensures |b| == 40
  {
    LE(r.subject, 8) + LE(r.workspace, 4) + LE(r.objectId, 4) + LE(r.instance, 8) + LE(r.epoch, 8) + LE(r.key, 8)
  }

  function RecordEvents(r: Record): (b: seq<Byte>)
    ensures |b| == 48
  {
    LE(r.previous, 8) + LE(r.committed, 8) + LE(r.admission, 8) + LE(r.terminal, 8) + LE(r.length, 4) + LE(r.crc, 4)
    + [StateByte(r.state), CauseByte(r.cause), if |r.runs| < 256 then |r.runs| else 0] + Zeros(5)
  }

  function RecordBody(r: Record): (b: seq<Byte>)
    ensures |b| == 188
  {
    RecordScope(r) + RecordEvents(r) + EncodeRuns(r.runs) + Zeros(36)
  }

  function EncodeRecord(crc: Checksum, slot: Option<Record>): (b: seq<Byte>)
    ensures |b| == RECORD_BYTES
  {
    match slot
    case None => Zeros(RECORD_BYTES)
    case Some(r) => RecordBody(r) + LE(crc(RecordBody(r)), 4)
  }

  function RecordFields(raw: seq<Byte>, state: RecordState, cause: Option<Cause>, runs: seq<Run>): Record
    requires |raw| == RECORD_BYTES
  {
    Record(ReadU64(raw, 0), ReadU32(raw, 8), ReadU32(raw, 12), ReadU64(raw, 16), ReadU64(raw, 24), ReadU64(raw, 32),
           ReadU64(raw, 40), ReadU64(raw, 48), ReadU64(raw, 56), ReadU64(raw, 64), ReadU32(raw, 72), ReadU32(raw, 76),
           state, cause, runs)
  }

  /** Decode one 192-byte retained slot: None when corrupt, Some(None) for the all-zero slot. */
  function DecodeRecord(crc: Checksum, raw: seq<Byte>): (r: Option<Option<Record>>)
  {
    if |raw| != RECORD_BYTES then None
    else if raw == Zeros(RECORD_BYTES) then Some(None)
    else if crc(raw[..188]) != ReadU32(raw, 188) then None
    else if raw[83..88] != Zeros(5) || raw[152..188] != Zeros(36) then None
    else if DecodeState(raw[80]).None? then None
    else
      var state := DecodeState(raw[80]).value;
      var cause := if state == Cancelled then DecodeCause(raw[81]) else None;
      if state == Cancelled && cause.None? then None
      else if state != Cancelled && raw[81] != 0 then None
      else
        var r := RecordFields(raw, state, cause, []);
        if r.subject == 0 || r.workspace == 0 || r.instance == 0 || r.epoch == 0 || r.key == 0 || r.previous == 0 then None
        else if r.objectId < NEXT_MIN || r.objectId == r.workspace then None
        else if !StateArithmetic(r) then None
        else if r.instance > Observed(r) || r.epoch > Observed(r) then None
        else
          match DecodeRuns(raw[88..152], raw[82], r.length)
          case None => None
          case Some(runs) => Some(Some(r.(runs := runs)))
  }

  lemma RecordScopeSlices(r: Record)
    ensures var b := RecordScope(r);
      && b[0..8] == LE(r.subject, 8) && b[8..12] == LE(r.workspace, 4) && b[12..16] == LE(r.objectId, 4)
      && b[16..24] == LE(r.instance, 8) && b[24..32] == LE(r.epoch, 8) && b[32..40] == LE(r.key, 8)
  {
  }

  lemma RecordEventSlices(r: Record)
    requires |r.runs| <= EXTENTS
    ensures var b := RecordEvents(r);
      && b[0..8] == LE(r.previous, 8) && b[8..16] == LE(r.committed, 8) && b[16..24] == LE(r.admission, 8)
      && b[24..32] == LE(r.terminal, 8) && b[32..36] == LE(r.length, 4) && b[36..40] == LE(r.crc, 4)
      && b[40] == StateByte(r.state) && b[41] == CauseByte(r.cause) && b[42] == |r.runs| && b[43..48] == Zeros(5)
  {
  }

  lemma RecordParts(crc: Checksum, r: Record)
    ensures var raw := EncodeRecord(crc, Some(r));
      && raw[0..40] == RecordScope(r) && raw[40..88] == RecordEvents(r) && raw[88..152] == EncodeRuns(r.runs)
      && raw[152..188] == Zeros(36) && raw[..188] == RecordBody(r) && raw[188..192] == LE(crc(RecordBody(r)), 4)
  {
    var raw := EncodeRecord(crc, Some(r));
    assert raw[..188] == RecordBody(r);
    assert RecordBody(r) == RecordScope(r) + (RecordEvents(r) + (EncodeRuns(r.runs) + Zeros(36)));
  }

  lemma RecordScopeRead(raw: seq<Byte>, r: Record)
    requires |raw| == RECORD_BYTES && raw[0..40] == RecordScope(r)
    ensures ReadU64(raw, 0) == r.subject && ReadU32(raw, 8) == r.workspace && ReadU32(raw, 12) == r.objectId
    ensures ReadU64(raw, 16) == r.instance && ReadU64(raw, 24) == r.epoch && ReadU64(raw, 32) == r.key
  {
    RecordScopeSlices(r);
    FieldU64(raw, 0, 40, 0, r.subject);
    FieldU32(raw, 0, 40, 8, r.workspace);
    FieldU32(raw, 0, 40, 12, r.objectId);
    FieldU64(raw, 0, 40, 16, r.instance);
    FieldU64(raw, 0, 40, 24, r.epoch);
    FieldU64(raw, 0, 40, 32, r.key);
  }

  lemma RecordEventsRead(raw: seq<Byte>, r: Record)
    requires |raw| == RECORD_BYTES && |r.runs| <= EXTENTS && raw[40..88] == RecordEvents(r)
    ensures ReadU64(raw, 40) == r.previous && ReadU64(raw, 48) == r.committed && ReadU64(raw, 56) == r.admission
    ensures ReadU64(raw, 64) == r.terminal && ReadU32(raw, 72) == r.length && ReadU32(raw, 76) == r.crc
    ensures raw[80] == StateByte(r.state) && raw[81] == CauseByte(r.cause) && raw[82] == |r.runs|
    ensures raw[83..88] == Zeros(5)
  {
    var part := raw[40..88];
    RecordEventSlices(r);
    FieldU64(raw, 40, 88, 0, r.previous);
    FieldU64(raw, 40, 88, 8, r.committed);
    FieldU64(raw, 40, 88, 16, r.admission);
    FieldU64(raw, 40, 88, 24, r.terminal);
    FieldU32(raw, 40, 88, 32, r.length);
    FieldU32(raw, 40, 88, 36, r.crc);
    SliceOfSlice(raw, 40, 88, 43, 48);
    assert raw[80] == part[40] && raw[81] == part[41] && raw[82] == part[42];
  }

  /** A well-formed record, and the empty slot, are read back. */
  lemma RecordRoundTrip(crc: Checksum, slot: Option<Record>)
    requires slot.Some? ==> RecordOk(slot.value)
    ensures DecodeRecord(crc, EncodeRecord(crc, slot)) == Some(slot)
  {
    if slot.Some? {
      var r, raw := slot.value, EncodeRecord(crc, slot);
      RecordParts(crc, r);
      RecordScopeRead(raw, r);
      RecordEventsRead(raw, r);
      ReadBackU32(raw, 188, crc(RecordBody(r)));
      DecodeRunsRoundTrip(r.runs, r.length);
      assert RecordFields(raw, r.state, r.cause, []) == r.(runs := []);
      WordSizes();
      LENonZero(r.subject, 8);
      assert Zeros(RECORD_BYTES)[0..8] == Zeros(8);
    }
  }

  /** Every accepted record slot is the encoding of what it decodes to, reserved bytes and undeclared runs included. */
  lemma RecordCanonical(crc: Checksum, raw: seq<Byte>)
    requires DecodeRecord(crc, raw).Some?
    ensures var slot := DecodeRecord(crc, raw).value;
      (slot.Some? ==> RecordOk(slot.value)) && raw == EncodeRecord(crc, slot)
  {
    var slot := DecodeRecord(crc, raw).value;
    if slot.Some? {
      var r := slot.value;
      DecodeRunsCanonical(raw[88..152], raw[82], r.length);
      RecordScopeCanonical(raw, r);
      RecordEventsCanonical(raw, r);
      Glue(raw, 0, 40, 88);
      Glue(raw, 0, 88, 152);
      Glue(raw, 0, 152, 188);
      Glue(raw, 0, 188, 192);
    }
  }

  lemma RecordScopeCanonical(raw: seq<Byte>, r: Record)
    requires |raw| == RECORD_BYTES
    requires r == RecordFields(raw, r.state, r.cause, r.runs)
    ensures raw[0..40] == RecordScope(r)
  {
    Glue(raw, 0, 8, 12);
    Glue(raw, 0, 12, 16);
    Glue(raw, 0, 16, 24);
    Glue(raw, 0, 24, 32);
    Glue(raw, 0, 32, 40);
  }

  lemma RecordEventsCanonical(raw: seq<Byte>, r: Record)
    requires |raw| == RECORD_BYTES
    requires r == RecordFields(raw, r.state, r.cause, r.runs)
    requires raw[80] == StateByte(r.state) && raw[81] == CauseByte(r.cause) && raw[82] == |r.runs|
    requires raw[83..88] == Zeros(5)
    ensures raw[40..88] == RecordEvents(r)
  {
    assert raw[80..83] == [StateByte(r.state), CauseByte(r.cause), |r.runs|];
    Glue(raw, 40, 48, 56);
    Glue(raw, 40, 56, 64);
    Glue(raw, 40, 64, 72);
    Glue(raw, 40, 72, 76);
    Glue(raw, 40, 76, 80);
    Glue(raw, 40, 80, 83);
    Glue(raw, 40, 83, 88);
  }
}
