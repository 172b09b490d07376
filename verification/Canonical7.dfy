/** Every accepted image is, byte for byte, the encoding of the generation it shows. */
module Canonical7 {
  import opened Bytes
  import opened Format7
  import opened Codec7
  import opened BitMap
  import opened Generation7
  import opened Image7

  /** A node table that decodes is the table of the decoded nodes. */
  lemma NodesCanonical(crc: Checksum, table: seq<Byte>)
    requires |table| == NODES_SECTORS * SECTOR && NodesDecode(crc, table)
    ensures NodesEncodable(DecodeNodes(crc, table)) && NodeTable(crc, DecodeNodes(crc, table)) == table
  {
    var nodes := DecodeNodes(crc, table);
    forall i | 0 <= i < NODES
      ensures Live(nodes, i) ==> NodeOk(nodes[i].value)
      ensures i * NODE_BYTES + NODE_BYTES <= |table| && EncodeNode(crc, nodes[i]) == Piece(table, NODE_BYTES, i)
    {
      PieceBound(NODES, NODE_BYTES, i);
      assert NodeSlot(crc, table, i).Some?;
      NodeCanonical(crc, Piece(table, NODE_BYTES, i));
    }
    assert NodePieces(crc, nodes) == Pieces(table, NODE_BYTES, NODES);
    JoinOfPieces(table, NODE_BYTES, NODES);
  }

  /** A receipt block that decodes is the block of the decoded records. */
  lemma RecordsCanonical(crc: Checksum, block: seq<Byte>)
    requires |block| == RECEIPT_BYTES && RecordsDecode(crc, block)
    ensures ReceiptBlock(crc, DecodeRecords(crc, block)) == block
  {
    var records, used := DecodeRecords(crc, block), block[..RETAINED * RECORD_BYTES];
    forall j | 0 <= j < RETAINED
      ensures EncodeRecord(crc, records[j]) == Piece(used, RECORD_BYTES, j)
    {
      assert RecordSlot(crc, block, j).Some?;
      RecordCanonical(crc, Piece(block, RECORD_BYTES, j));
      assert Piece(used, RECORD_BYTES, j) == Piece(block, RECORD_BYTES, j);
    }
    assert RecordPieces(crc, records) == Pieces(used, RECORD_BYTES, RETAINED);
    JoinOfPieces(used, RECORD_BYTES, RETAINED);
    assert block == used + block[RETAINED * RECORD_BYTES..];
  }

  /** The regions and the aggregates a selected header names are those of the generation it shows. */
  lemma RegionsCanonical(crc: Checksum, img: Image, h: Header)
    requires |img| == VOLUME_SECTORS && h.generation < GENERATIONS && RegionsDecode(crc, img, h)
    ensures var g := ReadGeneration(crc, img, h);
      && NodesEncodable(g.nodes) && |g.records| == RETAINED
      && HoldsRegions(crc, img, g, h.generation)
      && h == HeadFor(crc, g, h.generation)
  {
    NodesCanonical(crc, NodesAt(img, h.generation));
    RecordsCanonical(crc, ReceiptsAt(img, h.generation));
    MapCanonical(MapAt(img, h.generation));
  }

  /** Whatever the reader accepts, it holds: the converse of `HoldsReads`. */
  lemma ReadsHolds(crc: Checksum, img: Image, view: View)
    requires Reads(crc, img, view)
    ensures Holds(crc, img, view.volume, view.header.generation)
    ensures view.header == HeadFor(crc, view.volume.gen, view.header.generation)
  {
    var h := view.header;
    SelectedSlot(crc, img);
    RegionsCanonical(crc, img, h);
    HeaderCanonical(crc, img[HeaderSector(h.generation)], h.generation);
    OtherIsOlder(crc, img, h);
  }

  lemma OtherIsOlder(crc: Checksum, img: Image, h: Header)
    requires |img| == VOLUME_SECTORS && SelectHeader(crc, img).Selected? && SelectHeader(crc, img).header == h
    ensures h.generation < GENERATIONS
    ensures var other := HeaderCopy(crc, img, Other(h.generation)); other.Some? ==> JustBefore(other.value, h)
  {
    var c0, c1 := HeaderCopy(crc, img, 0), HeaderCopy(crc, img, 1);
    if c0.Some? { HeaderCanonical(crc, img[HeaderSector(0)], 0); }
    if c1.Some? { HeaderCanonical(crc, img[HeaderSector(1)], 1); }
    SelectedIsNewer(c0, c1, img[HeaderSector(0)], img[HeaderSector(1)]);
  }

  /** `a` heads the generation just before `b` of the same volume. */
  ghost predicate JustBefore(a: Header, b: Header)
  {
    a.lineage == b.lineage && a.sequence + 1 == b.sequence && a.epoch <= b.epoch && a.next <= b.next
  }

  lemma SelectedIsNewer(c0: Option<Header>, c1: Option<Header>, raw0: Sector, raw1: Sector)
    requires (c0.Some? ==> c0.value.generation == 0) && (c1.Some? ==> c1.value.generation == 1)
    requires Select(c0, c1, raw0, raw1).Selected?
    ensures var h := Select(c0, c1, raw0, raw1).header;
      && (h.generation == 0 ==> c1.Some? ==> JustBefore(c1.value, h))
      && (h.generation == 1 ==> c0.Some? ==> JustBefore(c0.value, h))
      && h.generation < GENERATIONS
  {
  }

  /** Two accepted images that show the same generation in the same slot agree on every byte of its metadata. */
  lemma OneEncoding(crc: Checksum, a: Image, x: View, b: Image, y: View)
    requires Reads(crc, a, x) && Reads(crc, b, y)
    requires x.volume.gen == y.volume.gen && x.header.generation == y.header.generation
    ensures x.header == y.header
    ensures a[HeaderSector(x.header.generation)] == b[HeaderSector(x.header.generation)]
    ensures NodesAt(a, x.header.generation) == NodesAt(b, x.header.generation)
    ensures MapAt(a, x.header.generation) == MapAt(b, x.header.generation)
    ensures ReceiptsAt(a, x.header.generation) == ReceiptsAt(b, x.header.generation)
  {
    ReadsHolds(crc, a, x);
    ReadsHolds(crc, b, y);
  }
}
