/** The volume image: where each structure is stored, and what the reader recovers from it. */
module Image7 {
  import opened Bytes
  import opened Format7
  import opened Codec7
  import opened BitMap
  import opened Generation7
  import opened Payload7
  import opened Volume7

  type Image = seq<Sector>

  /** `count` consecutive sectors as one byte string. */
  function Region(img: Image, first: nat, count: nat): (b: seq<Byte>)
    requires first + count <= |img|
    ensures |b| == count * SECTOR
  {
    JoinLength(img[first..first + count], SECTOR);
    Join(img[first..first + count])
  }

  function PayloadRegion(img: Image): (b: seq<Sector>)
    requires |img| == VOLUME_SECTORS
    ensures |b| == DATA_SECTORS
  {
    img[PAYLOAD_SECTOR..]
  }

  // ---- The three regions of a generation --------------------------------------

  ghost predicate NodesEncodable(nodes: seq<Option<Node>>)
  {
    |nodes| == NODES && forall i :: Live(nodes, i) ==> NodeOk(nodes[i].value)
  }

  function NodePieces(crc: Checksum, nodes: seq<Option<Node>>): (ps: seq<seq<Byte>>)
    requires NodesEncodable(nodes)
    ensures |ps| == NODES && AllSized(ps, NODE_BYTES)
  {
    seq(NODES, i requires 0 <= i < NODES => assert Live(nodes, i) || nodes[i].None?; EncodeNode(crc, nodes[i]))
  }

  function NodeTable(crc: Checksum, nodes: seq<Option<Node>>): (b: seq<Byte>)
    requires NodesEncodable(nodes)
    ensures |b| == NODES_SECTORS * SECTOR
  {
    JoinLength(NodePieces(crc, nodes), NODE_BYTES);
    Join(NodePieces(crc, nodes))
  }

  function RecordPieces(crc: Checksum, records: seq<Option<Record>>): (ps: seq<seq<Byte>>)
    requires |records| == RETAINED
    ensures |ps| == RETAINED && AllSized(ps, RECORD_BYTES)
  {
    seq(RETAINED, j requires 0 <= j < RETAINED => EncodeRecord(crc, records[j]))
  }

  function ReceiptBlock(crc: Checksum, records: seq<Option<Record>>): (b: seq<Byte>)
    requires |records| == RETAINED
    ensures |b| == RECEIPTS_SECTORS * SECTOR
  {
    JoinLength(RecordPieces(crc, records), RECORD_BYTES);
    Join(RecordPieces(crc, records)) + Zeros(RECEIPT_BYTES - RETAINED * RECORD_BYTES)
  }

  function NodeSlot(crc: Checksum, table: seq<Byte>, i: nat): Option<Option<Node>>
    requires |table| == NODES_SECTORS * SECTOR && i < NODES
  {
    PieceBound(NODES, NODE_BYTES, i);
    DecodeNode(crc, Piece(table, NODE_BYTES, i))
  }

  predicate NodesDecode(crc: Checksum, table: seq<Byte>)
    requires |table| == NODES_SECTORS * SECTOR
  {
    forall i :: 0 <= i < NODES ==> NodeSlot(crc, table, i).Some?
  }

  function DecodeNodes(crc: Checksum, table: seq<Byte>): (nodes: seq<Option<Node>>)
    requires |table| == NODES_SECTORS * SECTOR && NodesDecode(crc, table)
    ensures |nodes| == NODES
  {
    seq(NODES, i requires 0 <= i < NODES => NodeSlot(crc, table, i).value)
  }

  function RecordSlot(crc: Checksum, block: seq<Byte>, j: nat): Option<Option<Record>>
    requires |block| == RECEIPT_BYTES && j < RETAINED
  {
    DecodeRecord(crc, Piece(block, RECORD_BYTES, j))
  }

  predicate RecordsDecode(crc: Checksum, block: seq<Byte>)
    requires |block| == RECEIPT_BYTES
  {
    && block[RETAINED * RECORD_BYTES..] == Zeros(RECEIPT_BYTES - RETAINED * RECORD_BYTES)
    && forall j :: 0 <= j < RETAINED ==> RecordSlot(crc, block, j).Some?
  }

  function DecodeRecords(crc: Checksum, block: seq<Byte>): (records: seq<Option<Record>>)
    requires |block| == RECEIPT_BYTES && RecordsDecode(crc, block)
    ensures |records| == RETAINED
  {
    seq(RETAINED, j requires 0 <= j < RETAINED => RecordSlot(crc, block, j).value)
  }

  lemma NodesRoundTrip(crc: Checksum, nodes: seq<Option<Node>>)
    requires NodesEncodable(nodes)
    ensures NodesDecode(crc, NodeTable(crc, nodes)) && DecodeNodes(crc, NodeTable(crc, nodes)) == nodes
  {
    forall i | 0 <= i < NODES
      ensures NodeSlot(crc, NodeTable(crc, nodes), i) == Some(nodes[i])
    {
      PieceOfJoin(NodePieces(crc, nodes), NODE_BYTES, i);
      assert Live(nodes, i) || nodes[i].None?;
      NodeRoundTrip(crc, nodes[i]);
    }
  }

  lemma RecordsRoundTrip(crc: Checksum, records: seq<Option<Record>>)
    requires |records| == RETAINED && forall j :: Held(records, j) ==> RecordOk(records[j].value)
    ensures RecordsDecode(crc, ReceiptBlock(crc, records)) && DecodeRecords(crc, ReceiptBlock(crc, records)) == records
  {
    var pieces, block := RecordPieces(crc, records), ReceiptBlock(crc, records);
    JoinLength(pieces, RECORD_BYTES);
    forall j | 0 <= j < RETAINED
      ensures RecordSlot(crc, block, j) == Some(records[j])
    {
      PieceOfJoin(pieces, RECORD_BYTES, j);
      assert Piece(block, RECORD_BYTES, j) == Piece(Join(pieces), RECORD_BYTES, j);
      assert Held(records, j) || records[j].None?;
      RecordRoundTrip(crc, records[j]);
    }
  }

  // ---- Reading an image -------------------------------------------------------

  /** Generation 0 as provisioned, with the other copy never written. */
  predicate Genesis(h: Header, other: Sector)
  {
    h.generation == 0 && h.sequence == 1 && h.epoch == 1 && h.next == NEXT_MIN && other == Zeros(SECTOR)
  }

  datatype Selection = Selected(header: Header, recovered: bool) | NoHead

  /** The mount rule over two decoded copies and their raw sectors. */
  function Select(c0: Option<Header>, c1: Option<Header>, raw0: Sector, raw1: Sector): Selection
  {
    match (c0, c1)
    case (None, None) => NoHead
    case (Some(h), None) => Selected(h, !Genesis(h, raw1))
    case (None, Some(h)) => Selected(h, !Genesis(h, raw0))
    case (Some(a), Some(b)) =>
      var older := if a.sequence <= b.sequence then a else b;
      var newer := if a.sequence <= b.sequence then b else a;
      if older.lineage != newer.lineage then NoHead
      else if newer.sequence - older.sequence != 1 then NoHead
      else if newer.epoch < older.epoch || newer.next < older.next then NoHead
      else Selected(newer, false)
  }

  function HeaderCopy(crc: Checksum, img: Image, slot: nat): Option<Header>
    requires |img| == VOLUME_SECTORS && slot < GENERATIONS
  {
    DecodeHeader(crc, img[HeaderSector(slot)], slot)
  }

  function SelectHeader(crc: Checksum, img: Image): Selection
    requires |img| == VOLUME_SECTORS
  {
    Select(HeaderCopy(crc, img, 0), HeaderCopy(crc, img, 1), img[HeaderSector(0)], img[HeaderSector(1)])
  }

  /** Whatever is selected is one of the copies. */
  lemma SelectedCopy(c0: Option<Header>, c1: Option<Header>, raw0: Sector, raw1: Sector)
    requires Select(c0, c1, raw0, raw1).Selected?
    ensures var h := Select(c0, c1, raw0, raw1).header; c0 == Some(h) || c1 == Some(h)
  {
  }

  lemma SelectedSlot(crc: Checksum, img: Image)
    requires |img| == VOLUME_SECTORS && SelectHeader(crc, img).Selected?
    ensures var h := SelectHeader(crc, img).header;
      h.generation < GENERATIONS && HeaderOk(h) && HeaderCopy(crc, img, h.generation) == Some(h)
  {
    SelectedCopy(HeaderCopy(crc, img, 0), HeaderCopy(crc, img, 1), img[HeaderSector(0)], img[HeaderSector(1)]);
    if HeaderCopy(crc, img, 0) == Some(SelectHeader(crc, img).header) {
      HeaderCanonical(crc, img[HeaderSector(0)], 0);
    } else {
      HeaderCanonical(crc, img[HeaderSector(1)], 1);
    }
  }

  function NodesAt(img: Image, slot: nat): (b: seq<Byte>)
    requires |img| == VOLUME_SECTORS && slot < GENERATIONS
    ensures |b| == NODES_SECTORS * SECTOR
  {
    Region(img, NodesSector(slot), NODES_SECTORS)
  }

  function MapAt(img: Image, slot: nat): (b: seq<Byte>)
    requires |img| == VOLUME_SECTORS && slot < GENERATIONS
    ensures |b| == MAP_BYTES
  {
    Region(img, MapSector(slot), MAP_SECTORS)
  }

  function ReceiptsAt(img: Image, slot: nat): (b: seq<Byte>)
    requires |img| == VOLUME_SECTORS && slot < GENERATIONS
    ensures |b| == RECEIPT_BYTES
  {
    Region(img, ReceiptsSector(slot), RECEIPTS_SECTORS)
  }

  /** The aggregates the header names hold and all three regions decode. */
  predicate RegionsDecode(crc: Checksum, img: Image, h: Header)
    requires |img| == VOLUME_SECTORS && h.generation < GENERATIONS
  {
    && crc(NodesAt(img, h.generation)) == h.nodesChecksum
    && crc(MapAt(img, h.generation)) == h.mapChecksum
    && crc(ReceiptsAt(img, h.generation)) == h.receiptsChecksum
    && NodesDecode(crc, NodesAt(img, h.generation))
    && RecordsDecode(crc, ReceiptsAt(img, h.generation))
  }

  function ReadGeneration(crc: Checksum, img: Image, h: Header): Generation
    requires |img| == VOLUME_SECTORS && h.generation < GENERATIONS && RegionsDecode(crc, img, h)
  {
    Generation(h.lineage, h.epoch, h.sequence, h.next,
               DecodeNodes(crc, NodesAt(img, h.generation)),
               DecodeRecords(crc, ReceiptsAt(img, h.generation)),
               DecodeMap(MapAt(img, h.generation)))
  }

  /** What the reader reports: the selected head, whether a copy was ignored, and the verified volume. */
  datatype View = View(header: Header, recovered: bool, volume: Volume)

  /** The reader accepts the image and sees exactly this view. */
  ghost predicate Reads(crc: Checksum, img: Image, view: View)
  {
    && |img| == VOLUME_SECTORS
    && SelectHeader(crc, img) == Selected(view.header, view.recovered)
    && view.header.generation < GENERATIONS
    && RegionsDecode(crc, img, view.header)
    && view.volume == Volume(ReadGeneration(crc, img, view.header), PayloadRegion(img))
    && VolumeOk(crc, view.volume)
  }

  // ---- Whether a copy was ignored ---------------------------------------------

  /** A freshly provisioned volume: its first header in slot 0, and a second copy that was never written. */
  predicate FirstGeneration(crc: Checksum, img: Image)
    requires |img| == VOLUME_SECTORS
  {
    var first := HeaderCopy(crc, img, 0);
    && first.Some? && first.value.sequence == 1 && first.value.epoch == 1 && first.value.next == NEXT_MIN
    && forall b :: b in img[HeaderSector(1)] ==> b == 0
  }

  /** One header copy is unreadable although it should have been written. */
  predicate CopyIgnored(crc: Checksum, img: Image)
    requires |img| == VOLUME_SECTORS
  {
    (HeaderCopy(crc, img, 0).None? || HeaderCopy(crc, img, 1).None?) && !FirstGeneration(crc, img)
  }

  lemma ZeroSector(s: Sector)
    ensures (forall b :: b in s ==> b == 0) <==> s == Zeros(SECTOR)
  {
    if forall b :: b in s ==> b == 0 {
      forall i | 0 <= i < SECTOR ensures s[i] == 0 {
        assert s[i] in s;
      }
    }
  }

  /** A selected head is reported as recovered exactly when a copy was ignored. */
  lemma RecoveredMeans(crc: Checksum, img: Image)
    requires |img| == VOLUME_SECTORS && SelectHeader(crc, img).Selected?
    ensures SelectHeader(crc, img).recovered <==> CopyIgnored(crc, img)
  {
    ZeroSector(img[HeaderSector(1)]);
    if HeaderCopy(crc, img, 0).Some? { HeaderCanonical(crc, img[HeaderSector(0)], 0); }
    if HeaderCopy(crc, img, 1).Some? { HeaderCanonical(crc, img[HeaderSector(1)], 1); }
  }

  // ---- An image that holds a volume -------------------------------------------

  /** The head that names `g` in header slot `slot`. */
  function HeadFor(crc: Checksum, g: Generation, slot: U8): (h: Header)
    requires NodesEncodable(g.nodes) && |g.records| == RETAINED
  {
    Header(slot, g.lineage, g.epoch, g.sequence, g.next,
           crc(NodeTable(crc, g.nodes)), crc(EncodeMap(g.used)), crc(ReceiptBlock(crc, g.records)))
  }

  lemma Encodable(g: Generation)
    requires GenerationOk(g)
    ensures NodesEncodable(g.nodes) && |g.records| == RETAINED
    ensures forall j :: Held(g.records, j) ==> RecordOk(g.records[j].value)
    ensures forall s: nat :: s in g.used ==> s < DATA_SECTORS
  {
    forall j | Held(g.records, j) ensures RecordOk(g.records[j].value) {
      assert RecordInBounds(g, g.records[j].value);
    }
    forall s: nat | s in g.used ensures s < DATA_SECTORS {
      assert Owned(g.nodes, g.records, s);
    }
  }

  /** Slot `slot` durably names `g`: its header copy and all three regions. */
  ghost predicate HoldsHead(crc: Checksum, img: Image, g: Generation, slot: U8)
  {
    && |img| == VOLUME_SECTORS && slot < GENERATIONS
    && NodesEncodable(g.nodes) && |g.records| == RETAINED && |g.lineage| == 16
    && img[HeaderSector(slot)] == EncodeHeader(crc, HeadFor(crc, g, slot))
    && HoldsRegions(crc, img, g, slot)
  }

  ghost predicate HoldsRegions(crc: Checksum, img: Image, g: Generation, slot: U8)
    requires |img| == VOLUME_SECTORS && slot < GENERATIONS
    requires NodesEncodable(g.nodes) && |g.records| == RETAINED
  {
    && NodesAt(img, slot) == NodeTable(crc, g.nodes)
    && MapAt(img, slot) == EncodeMap(g.used)
    && ReceiptsAt(img, slot) == ReceiptBlock(crc, g.records)
  }

  /** The other header copy can only be refused, or be the head of the generation just before. */
  ghost predicate OtherCopyOlder(crc: Checksum, img: Image, g: Generation, slot: U8)
    requires |img| == VOLUME_SECTORS && slot < GENERATIONS
  {
    var other := HeaderCopy(crc, img, Other(slot));
    other.Some? ==>
      && other.value.lineage == g.lineage
      && other.value.sequence + 1 == g.sequence
      && other.value.epoch <= g.epoch && other.value.next <= g.next
  }

  ghost predicate HoldsPayload(img: Image, v: Volume)
    requires |img| == VOLUME_SECTORS
  {
    && |v.blocks| == DATA_SECTORS
    && forall s: nat :: s < DATA_SECTORS && s in v.gen.used ==> PayloadRegion(img)[s] == v.blocks[s]
  }

  /** The image's current head is `v`, in slot `slot`. */
  ghost predicate Holds(crc: Checksum, img: Image, v: Volume, slot: U8)
  {
    HoldsHead(crc, img, v.gen, slot) && OtherCopyOlder(crc, img, v.gen, slot) && HoldsPayload(img, v)
  }

  /** Both volumes show the reader the same generation and the same bytes of every file and snapshot. */
  ghost predicate SameView(v: Volume, w: Volume)
  {
    && |v.blocks| == |w.blocks| == DATA_SECTORS
    && v.gen == w.gen
    && forall s: nat :: s < DATA_SECTORS && s in v.gen.used ==> v.blocks[s] == w.blocks[s]
  }

  lemma SameViewOk(crc: Checksum, v: Volume, w: Volume)
    requires VolumeOk(crc, v) && SameView(v, w)
    ensures VolumeOk(crc, w)
    ensures forall e :: KnownExtent(v.gen, e) ==>
      RunsOk(e.runs, e.length) && Content(w.blocks, e.runs, e.length) == Content(v.blocks, e.runs, e.length)
  {
    forall e | KnownExtent(v.gen, e)
      ensures Intact(crc, w.blocks, e)
      ensures RunsOk(e.runs, e.length) && Content(w.blocks, e.runs, e.length) == Content(v.blocks, e.runs, e.length)
    {
      KnownExtentIntact(crc, v, e);
      forall s: nat | s < DATA_SECTORS && Covers(e.runs, s) ensures v.blocks[s] == w.blocks[s] {
        KnownExtentIsUsed(v.gen, e, s);
      }
      ContentFrame(v.blocks, w.blocks, e.runs, e.length);
    }
    forall i | Live(w.gen.nodes, i) && w.gen.nodes[i].value.kind == File
      ensures NodeIntact(crc, w.blocks, w.gen.nodes[i].value)
    {
      assert LiveExtent(v.gen, i, NodeExtent(v.gen.nodes[i].value));
      assert KnownExtent(v.gen, NodeExtent(v.gen.nodes[i].value));
    }
    forall j | Held(w.gen.records, j)
      ensures RecordIntact(crc, w.blocks, w.gen.records[j].value)
    {
      assert RecordInBounds(v.gen, v.gen.records[j].value);
      assert HeldExtent(v.gen, j, RecordExtent(v.gen.records[j].value));
      assert KnownExtent(v.gen, RecordExtent(v.gen.records[j].value));
    }
  }

  /** The copy one sequence ahead is chosen, whichever slot it is in; so is a copy on its own. */
  lemma SelectNewest(h: Header, other: Option<Header>, raw0: Sector, raw1: Sector, slot: U8)
    requires slot < GENERATIONS
    requires other.Some? ==>
      && other.value.lineage == h.lineage && other.value.sequence + 1 == h.sequence
      && other.value.epoch <= h.epoch && other.value.next <= h.next
    ensures var s := if slot == 0 then Select(Some(h), other, raw0, raw1) else Select(other, Some(h), raw0, raw1);
      s.Selected? && s.header == h
  {
  }

  lemma CopiesSelect(crc: Checksum, img: Image, h: Header, slot: U8)
    requires |img| == VOLUME_SECTORS && slot < GENERATIONS && HeaderCopy(crc, img, slot) == Some(h)
    requires var other := HeaderCopy(crc, img, Other(slot));
      other.Some? ==>
        && other.value.lineage == h.lineage && other.value.sequence + 1 == h.sequence
        && other.value.epoch <= h.epoch && other.value.next <= h.next
    ensures SelectHeader(crc, img).Selected? && SelectHeader(crc, img).header == h
  {
    SelectNewest(h, HeaderCopy(crc, img, Other(slot)), img[HeaderSector(0)], img[HeaderSector(1)], slot);
  }

  lemma HeadCopied(crc: Checksum, img: Image, g: Generation, slot: U8)
    requires GenerationOk(g) && HoldsHead(crc, img, g, slot)
    ensures HeaderCopy(crc, img, slot) == Some(HeadFor(crc, g, slot))
  {
    HeaderRoundTrip(crc, HeadFor(crc, g, slot));
  }

  lemma HeadSelected(crc: Checksum, img: Image, g: Generation, slot: U8)
    requires GenerationOk(g) && HoldsHead(crc, img, g, slot) && OtherCopyOlder(crc, img, g, slot)
    ensures SelectHeader(crc, img).Selected? && SelectHeader(crc, img).header == HeadFor(crc, g, slot)
  {
    HeadCopied(crc, img, g, slot);
    CopiesSelect(crc, img, HeadFor(crc, g, slot), slot);
  }

  lemma RegionsRead(crc: Checksum, img: Image, g: Generation, slot: U8)
    requires GenerationOk(g) && HoldsHead(crc, img, g, slot)
    ensures RegionsDecode(crc, img, HeadFor(crc, g, slot))
    ensures ReadGeneration(crc, img, HeadFor(crc, g, slot)) == g
  {
    Encodable(g);
    NodesRoundTrip(crc, g.nodes);
    RecordsRoundTrip(crc, g.records);
    MapRoundTrip(g.used);
  }

  /** An image that holds an accepted volume is accepted, and shows exactly that volume. */
  lemma HoldsReads(crc: Checksum, img: Image, v: Volume, slot: U8)
    requires VolumeOk(crc, v) && Holds(crc, img, v, slot)
    ensures SelectHeader(crc, img).Selected?
    ensures Reads(crc, img, View(HeadFor(crc, v.gen, slot), SelectHeader(crc, img).recovered,
                                 Volume(v.gen, PayloadRegion(img))))
    ensures SameView(v, Volume(v.gen, PayloadRegion(img)))
  {
    HeadSelected(crc, img, v.gen, slot);
    RegionsRead(crc, img, v.gen, slot);
    SameViewOk(crc, v, Volume(v.gen, PayloadRegion(img)));
  }
}
