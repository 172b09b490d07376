/** The owner's mount, sector by sector, against the independent reader: both accept the same images. */
module Mount7 {
  import opened Bytes
  import opened Format7
  import opened Codec7
  import opened BitMap
  import opened Generation7
  import opened Payload7
  import opened Volume7
  import opened Image7
  import opened Snapshot7
  import opened Validator7

  // ---- Choosing a header ------------------------------------------------------

  /** The owner's selection over the two candidate headers. */
  method SelectCandidate(left: Option<Header>, right: Option<Header>, raw0: Sector, raw1: Sector) returns (r: Selection)
    requires left.Some? ==> left.value.generation == 0
    requires right.Some? ==> right.value.generation == 1
    ensures r == Select(left, right, raw0, raw1)
  {
    match (left, right) {
      case (None, None) => r := NoHead;
      case (Some(h), None) => r := Selected(h, !Genesis(h, raw1));
      case (None, Some(h)) => r := Selected(h, true);
      case (Some(a), Some(b)) =>
        if a.lineage != b.lineage || a.generation == b.generation {
          return NoHead;
        }
        var older, newer;
        if a.sequence < b.sequence {
          older, newer := a, b;
        } else if b.sequence < a.sequence {
          older, newer := b, a;
        } else {
          return NoHead;
        }
        if newer.sequence - older.sequence != 1 || newer.epoch < older.epoch || newer.next < older.next {
          return NoHead;
        }
        r := Selected(newer, false);
    }
  }

  // ---- Reading the regions ----------------------------------------------------

  /** A region is its sectors, one after another. */
  lemma RegionSnoc(img: Image, first: nat, k: nat)
    requires first + k + 1 <= |img|
    ensures Region(img, first, k + 1) == Region(img, first, k) + img[first + k]
  {
    var a, b := img[first..first + k], [img[first + k]];
    assert img[first..first + k + 1] == a + b;
    JoinConcat(a, b);
    assert b[1..] == [];
  }

  /** Four node slots to a sector. */
  lemma NodePiece(img: Image, first: nat, count: nat, sector: nat, offset: nat)
    requires first + count <= |img| && sector < count && offset < SECTOR / NODE_BYTES
    ensures var i := sector * (SECTOR / NODE_BYTES) + offset;
      && (i + 1) * NODE_BYTES <= count * SECTOR
      && Piece(Region(img, first, count), NODE_BYTES, i)
         == img[first + sector][offset * NODE_BYTES..(offset + 1) * NODE_BYTES]
  {
    var sectors, region := img[first..first + count], Region(img, first, count);
    PieceOfJoin(sectors, SECTOR, sector);
    assert Piece(region, SECTOR, sector) == img[first + sector];
    var i := sector * (SECTOR / NODE_BYTES) + offset;
    assert region[sector * SECTOR..(sector + 1) * SECTOR][offset * NODE_BYTES..(offset + 1) * NODE_BYTES]
           == region[i * NODE_BYTES..(i + 1) * NODE_BYTES];
  }

  /** Collect consecutive sectors. */
  method ReadRegion(img: Image, first: nat, count: nat) returns (bytes: seq<Byte>)
    requires first + count <= |img|
    ensures bytes == Region(img, first, count)
  {
    bytes := [];
    assert img[first..first] == [];
    for sector := 0 to count
      invariant bytes == Region(img, first, sector)
    {
      RegionSnoc(img, first, sector);
      bytes := bytes + img[first + sector];
    }
  }

  /** The first slots of the table decode to these. */
  ghost predicate NodesRead(crc: Checksum, table: seq<Byte>, decoded: seq<Option<Node>>)
    requires |table| == NODES_SECTORS * SECTOR
  {
    |decoded| <= NODES && forall i :: 0 <= i < |decoded| ==> NodeSlot(crc, table, i) == Some(decoded[i])
  }

  lemma NodesReadStep(crc: Checksum, table: seq<Byte>, decoded: seq<Option<Node>>, node: Option<Node>)
    requires |table| == NODES_SECTORS * SECTOR && NodesRead(crc, table, decoded) && |decoded| < NODES
    requires NodeSlot(crc, table, |decoded|) == Some(node)
    ensures NodesRead(crc, table, decoded + [node])
  {
  }

  /** Decode the four slots of one node sector. */
  method ReadNodeSector(crc: Checksum, img: Image, slot: nat, sector: nat, before: seq<Option<Node>>)
    returns (ok: bool, decoded: seq<Option<Node>>)
    requires |img| == VOLUME_SECTORS && slot < GENERATIONS && sector < NODES_SECTORS
    requires |before| == sector * (SECTOR / NODE_BYTES) && NodesRead(crc, NodesAt(img, slot), before)
    ensures ok ==> |decoded| == (sector + 1) * (SECTOR / NODE_BYTES) && NodesRead(crc, NodesAt(img, slot), decoded)
    ensures !ok ==> !NodesDecode(crc, NodesAt(img, slot))
  {
    var block, per := img[NodesSector(slot) + sector], SECTOR / NODE_BYTES;
    decoded := before;
    for offset := 0 to per
      invariant |decoded| == sector * per + offset && NodesRead(crc, NodesAt(img, slot), decoded)
    {
      NodePiece(img, NodesSector(slot), NODES_SECTORS, sector, offset);
      var node := DecodeNode(crc, block[offset * NODE_BYTES..(offset + 1) * NODE_BYTES]);
      assert NodeSlot(crc, NodesAt(img, slot), |decoded|) == node;
      if node.None? {
        return false, decoded;
      }
      NodesReadStep(crc, NodesAt(img, slot), decoded, node.value);
      decoded := decoded + [node.value];
    }
    ok := true;
  }

  /** Decode the node table one slot at a time while accumulating the bytes its checksum covers. */
  method ReadNodes(crc: Checksum, img: Image, slot: nat) returns (nodes: Option<seq<Option<Node>>>, bytes: seq<Byte>)
    requires |img| == VOLUME_SECTORS && slot < GENERATIONS
    ensures nodes.Some? <==> NodesDecode(crc, NodesAt(img, slot))
    ensures nodes.Some? ==> nodes.value == DecodeNodes(crc, NodesAt(img, slot)) && bytes == NodesAt(img, slot)
  {
    var base := NodesSector(slot);
    var decoded: seq<Option<Node>> := [];
    bytes := [];
    assert img[base..base] == [];
    for sector := 0 to NODES_SECTORS
      invariant bytes == Region(img, base, sector)
      invariant |decoded| == sector * (SECTOR / NODE_BYTES) && NodesRead(crc, NodesAt(img, slot), decoded)
    {
      RegionSnoc(img, base, sector);
      bytes := bytes + img[base + sector];
      var ok;
      ok, decoded := ReadNodeSector(crc, img, slot, sector, decoded);
      if !ok {
        return None, bytes;
      }
    }
    nodes := Some(decoded);
  }

  /** Load the three regions a header names. */
  method ReadGenerationOf(crc: Checksum, img: Image, h: Header) returns (r: Option<Generation>)
    requires |img| == VOLUME_SECTORS && h.generation < GENERATIONS
    ensures r.Some? <==> RegionsDecode(crc, img, h)
    ensures r.Some? ==> r.value == ReadGeneration(crc, img, h)
  {
    var nodes, table := ReadNodes(crc, img, h.generation);
    if nodes.None? || crc(table) != h.nodesChecksum {
      return None;
    }
    var words := ReadRegion(img, MapSector(h.generation), MAP_SECTORS);
    if crc(words) != h.mapChecksum {
      return None;
    }
    var block := ReadRegion(img, ReceiptsSector(h.generation), RECEIPTS_SECTORS);
    if crc(block) != h.receiptsChecksum || !RecordsDecode(crc, block) {
      return None;
    }
    r := Some(Generation(h.lineage, h.epoch, h.sequence, h.next, nodes.value, DecodeRecords(crc, block), DecodeMap(words)));
  }

  // ---- Payloads ---------------------------------------------------------------

  ghost function Sent(done: nat, length: nat): nat
  {
    Least(done * SECTOR, length)
  }

  /** The bytes of the first `done` sectors of some runs, cut to `length`. */
  ghost function Streamed(img: Image, sectors: seq<nat>, done: nat, length: nat): seq<Byte>
    requires |img| == VOLUME_SECTORS && done <= |sectors| && forall i :: 0 <= i < |sectors| ==> sectors[i] < DATA_SECTORS
  {
    var pieces := Gather(PayloadRegion(img), sectors)[..done];
    JoinLength(pieces, SECTOR);
    Join(pieces)[..Sent(done, length)]
  }

  lemma StreamedStep(img: Image, sectors: seq<nat>, done: nat, length: nat, count: nat)
    requires |img| == VOLUME_SECTORS && done < |sectors| && forall i :: 0 <= i < |sectors| ==> sectors[i] < DATA_SECTORS
    requires Sent(done, length) < length && count == Least(length - Sent(done, length), SECTOR)
    ensures Sent(done + 1, length) == Sent(done, length) + count
    ensures Streamed(img, sectors, done + 1, length)
      == Streamed(img, sectors, done, length) + img[PAYLOAD_SECTOR + sectors[done]][..count]
  {
    var pieces := Gather(PayloadRegion(img), sectors);
    var a, b := pieces[..done], [pieces[done]];
    assert pieces[..done + 1] == a + b;
    JoinConcat(a, b);
    JoinLength(a, SECTOR);
    assert b[1..] == [];
    assert Join(b) == pieces[done];
    assert (Join(a) + pieces[done])[..done * SECTOR + count] == Join(a) + pieces[done][..count];
  }

  /** The first `done` sectors of the runs have been streamed. */
  ghost predicate Streaming(img: Image, runs: seq<Run>, length: nat, done: nat, seen: seq<Byte>, remaining: nat)
    requires |img| == VOLUME_SECTORS && RunsOk(runs, length)
  {
    && done <= |SectorList(runs)| && (forall i :: 0 <= i < |SectorList(runs)| ==> SectorList(runs)[i] < DATA_SECTORS)
    && seen == Streamed(img, SectorList(runs), done, length)
    && remaining + Sent(done, length) == length
  }

  lemma RunSector(runs: seq<Run>, length: nat, r: nat, offset: nat)
    requires RunsOk(runs, length) && r < |runs| && offset < runs[r].count
    ensures |SectorList(runs[..r + 1])| == |SectorList(runs[..r])| + runs[r].count
    ensures |SectorList(runs[..r])| + offset < |SectorList(runs)|
    ensures SectorList(runs)[|SectorList(runs[..r])| + offset] == runs[r].start + offset
  {
    SectorListSnoc(runs, r);
    SectorListPrefix(runs, r + 1);
    var at := |SectorList(runs[..r])| + offset;
    assert SectorList(runs)[at] == SectorList(runs[..r + 1])[at];
  }

  /** Bytes remain until the last sector, and streaming one more sector takes its share of them. */
  lemma StreamingStep(img: Image, runs: seq<Run>, length: nat, done: nat, seen: seq<Byte>, remaining: nat)
    requires |img| == VOLUME_SECTORS && RunsOk(runs, length)
    requires Streaming(img, runs, length, done, seen, remaining) && done < |SectorList(runs)|
    ensures remaining > 0
    ensures var count := Least(remaining, SECTOR);
      Streaming(img, runs, length, done + 1, seen + img[PAYLOAD_SECTOR + SectorList(runs)[done]][..count], remaining - count)
  {
    SectorStillNeeded(done, length);
    StreamedStep(img, SectorList(runs), done, length, Least(remaining, SECTOR));
  }

  /** Stream one run, at most a sector at a time. */
  method StreamRun(img: Image, runs: seq<Run>, length: nat, r: nat, left: nat, before: seq<Byte>)
    returns (remaining: nat, seen: seq<Byte>)
    requires |img| == VOLUME_SECTORS && RunsOk(runs, length) && r < |runs|
    requires Streaming(img, runs, length, |SectorList(runs[..r])|, before, left)
    ensures Streaming(img, runs, length, |SectorList(runs[..r + 1])|, seen, remaining)
  {
    remaining, seen := left, before;
    for offset := 0 to runs[r].count
      invariant Streaming(img, runs, length, |SectorList(runs[..r])| + offset, seen, remaining)
    {
      RunSector(runs, length, r, offset);
      StreamingStep(img, runs, length, |SectorList(runs[..r])| + offset, seen, remaining);
      if remaining == 0 {
        assert false;
      }
      var count := Least(remaining, SECTOR);
      seen := seen + img[PAYLOAD_SECTOR + runs[r].start + offset][..count];
      remaining := remaining - count;
    }
    SectorListSnoc(runs, r);
  }

  /** Stream a payload's sectors into its checksum; the early exit of the source is never taken before the last one. */
  method VerifyPayload(crc: Checksum, img: Image, runs: seq<Run>, length: nat, expected: U32) returns (ok: bool)
    requires |img| == VOLUME_SECTORS && RunsOk(runs, length)
    ensures ok <==> crc(Content(PayloadRegion(img), runs, length)) == expected
  {
    SectorListInside(runs, DATA_SECTORS);
    var remaining, seen: seq<Byte> := length, [];
    assert SectorList(runs[..0]) == [];
    for r := 0 to |runs|
      invariant Streaming(img, runs, length, |SectorList(runs[..r])|, seen, remaining)
    {
      remaining, seen := StreamRun(img, runs, length, r, remaining, seen);
    }
    assert runs[..|runs|] == runs;
    WholeStream(img, runs, length);
    ok := remaining == 0 && crc(seen) == expected;
  }

  lemma SectorStillNeeded(done: nat, length: nat)
    requires done < SectorsNeeded(length)
    ensures Sent(done, length) < length
  {
  }

  lemma WholeStream(img: Image, runs: seq<Run>, length: nat)
    requires |img| == VOLUME_SECTORS && RunsOk(runs, length)
    ensures forall i :: 0 <= i < |SectorList(runs)| ==> SectorList(runs)[i] < DATA_SECTORS
    ensures Streamed(img, SectorList(runs), |SectorList(runs)|, length) == Content(PayloadRegion(img), runs, length)
    ensures Sent(|SectorList(runs)|, length) == length
  {
    SectorListInside(runs, DATA_SECTORS);
    var pieces := Gather(PayloadRegion(img), SectorList(runs));
    assert pieces[..|pieces|] == pieces;
    RoomForLength(length);
  }

  method VerifyPayloads(crc: Checksum, img: Image, g: Generation) returns (ok: bool)
    requires |img| == VOLUME_SECTORS && NamespaceOk(g) && RecordsOk(g)
    ensures ok <==> FilesIntact(crc, Volume(g, PayloadRegion(img))) && SnapshotsIntact(crc, Volume(g, PayloadRegion(img)))
  {
    ghost var blocks := PayloadRegion(img);
    for i := 0 to |g.nodes|
      invariant forall k :: k < i && IsFile(g.nodes, k) ==> NodeIntact(crc, blocks, g.nodes[k].value)
    {
      if g.nodes[i].Some? && g.nodes[i].value.kind == File {
        assert IsFile(g.nodes, i);
        var n := g.nodes[i].value;
        ok := VerifyPayload(crc, img, n.runs, n.length, n.crc);
        if !ok {
          assert !NodeIntact(crc, blocks, n);
          return;
        }
      }
    }
    for j := 0 to |g.records|
      invariant forall k :: k < j && Held(g.records, k) ==>
        assert RecordInBounds(g, g.records[k].value); RecordIntact(crc, blocks, g.records[k].value)
    {
      if g.records[j].Some? {
        assert Held(g.records, j) && RecordInBounds(g, g.records[j].value);
        var r := g.records[j].value;
        ok := VerifyPayload(crc, img, r.runs, r.length, r.crc);
        if !ok {
          assert !RecordIntact(crc, blocks, r);
          return;
        }
      }
    }
    forall k | Live(g.nodes, k) && g.nodes[k].value.kind == File ensures NodeIntact(crc, blocks, g.nodes[k].value) {
      assert IsFile(g.nodes, k);
    }
    ok := true;
  }

  // ---- The whole mount --------------------------------------------------------

  datatype Loaded = Loaded(header: Header, recovered: bool, generation: Generation)

  function LoadedView(img: Image, m: Loaded): View
    requires |img| == VOLUME_SECTORS
  {
    View(m.header, m.recovered, Volume(m.generation, PayloadRegion(img)))
  }

  /** The semantic checks of a mount: the owner's validation, then every payload. */
  method VerifyLoaded(crc: Checksum, img: Image, g: Generation, scratch: array<nat>) returns (ok: bool)
    requires EmptyIsZero(crc) && |img| == VOLUME_SECTORS && scratch.Length == MAP_WORDS
    requires |g.lineage| == 16 && |g.nodes| == NODES && |g.records| == RETAINED
    requires forall s :: s in g.used ==> s < DATA_SECTORS
    modifies scratch
    ensures ok <==> VolumeOk(crc, Volume(g, PayloadRegion(img)))
  {
    ok := ValidateGeneration(crc, g, scratch);
    if !ok {
      ghost var v := Volume(g, PayloadRegion(img));
      if VolumeOk(crc, v) {
        IntactFilesOk(crc, v);
      }
      return;
    }
    ok := VerifyPayloads(crc, img, g);
  }

  lemma ReadUsedFits(crc: Checksum, img: Image, h: Header)
    requires |img| == VOLUME_SECTORS && h.generation < GENERATIONS && RegionsDecode(crc, img, h)
    ensures forall s :: s in ReadGeneration(crc, img, h).used ==> s < DATA_SECTORS
  {
  }

  /** The owner mounts an image exactly when the independent reader accepts it, and shows what the reader shows. */
  method MountImage(crc: Checksum, img: Image, scratch: array<nat>) returns (r: Option<Loaded>)
    requires EmptyIsZero(crc) && |img| == VOLUME_SECTORS && scratch.Length == MAP_WORDS
    modifies scratch
    ensures r.Some? <==> exists view :: Reads(crc, img, view)
    ensures r.Some? ==> Reads(crc, img, LoadedView(img, r.value))
    ensures r.Some? ==> (r.value.recovered <==> CopyIgnored(crc, img))
  {
    var left, right := HeaderCopy(crc, img, 0), HeaderCopy(crc, img, 1);
    CandidateSlots(crc, img);
    var selection := SelectCandidate(left, right, img[HeaderSector(0)], img[HeaderSector(1)]);
    if selection.NoHead? {
      return None;
    }
    var h := selection.header;
    SelectedSlot(crc, img);
    RecoveredMeans(crc, img);
    var g := ReadGenerationOf(crc, img, h);
    if g.None? {
      return None;
    }
    ReadHeadOk(crc, img, h);
    ReadUsedFits(crc, img, h);
    var ok := VerifyLoaded(crc, img, g.value, scratch);
    if !ok {
      RefusedView(crc, img, h, selection.recovered, g.value);
      return None;
    }
    r := Some(Loaded(h, selection.recovered, g.value));
    assert Reads(crc, img, LoadedView(img, r.value));
  }

  lemma CandidateSlots(crc: Checksum, img: Image)
    requires |img| == VOLUME_SECTORS
    ensures HeaderCopy(crc, img, 0).Some? ==> HeaderCopy(crc, img, 0).value.generation == 0
    ensures HeaderCopy(crc, img, 1).Some? ==> HeaderCopy(crc, img, 1).value.generation == 1
  {
    if HeaderCopy(crc, img, 0).Some? { HeaderCanonical(crc, img[HeaderSector(0)], 0); }
    if HeaderCopy(crc, img, 1).Some? { HeaderCanonical(crc, img[HeaderSector(1)], 1); }
  }
}
