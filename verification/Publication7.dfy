/** The device events of one publication, and why a stop at any of them leaves one whole generation. */
module Publication7 {
  import opened Bytes
  import opened Format7
  import opened Codec7
  import opened BitMap
  import opened Generation7
  import opened Payload7
  import opened Volume7
  import opened Image7
  import opened Device

  // ---- Event lists ------------------------------------------------------------

  function SectorsIn(b: seq<Byte>, count: nat): (s: seq<Sector>)
    requires |b| == count * SECTOR
    ensures |s| == count
  {
    seq(count, i requires 0 <= i < count => PieceBound(count, SECTOR, i); Piece(b, SECTOR, i))
  }

  /** The hundred sectors of one generation: node table, allocation map, retained records. */
  function Metadata(crc: Checksum, g: Generation): (s: seq<Sector>)
    requires NodesEncodable(g.nodes) && |g.records| == RETAINED
    ensures |s| == GENERATION_SECTORS
  {
    SectorsIn(NodeTable(crc, g.nodes), NODES_SECTORS)
    + SectorsIn(EncodeMap(g.used), MAP_SECTORS)
    + SectorsIn(ReceiptBlock(crc, g.records), RECEIPTS_SECTORS)
  }

  function MetadataWrites(crc: Checksum, g: Generation, slot: nat): (w: seq<Write>)
    requires NodesEncodable(g.nodes) && |g.records| == RETAINED
    ensures |w| == GENERATION_SECTORS
  {
    seq(GENERATION_SECTORS, i requires 0 <= i < GENERATION_SECTORS =>
      Write(NodesSector(slot) + i, Metadata(crc, g)[i]))
  }

  function PayloadWrites(plan: seq<Run>, bytes: seq<Byte>): (w: seq<Write>)
    requires RunsOk(plan, |bytes|)
    ensures |w| == SectorsNeeded(|bytes|)
  {
    seq(SectorsNeeded(|bytes|), k requires 0 <= k < SectorsNeeded(|bytes|) =>
      Write(PAYLOAD_SECTOR + SectorList(plan)[k], Block(bytes, k)))
  }

  function Puts(writes: seq<Write>): (e: seq<Event>)
    ensures |e| == |writes|
  {
    seq(|writes|, i requires 0 <= i < |writes| => Put(writes[i]))
  }

  function StagedWrites(op: Op): (w: seq<Write>)
    requires StagesPayload(op) ==> RunsOk(op.plan.value, |op.bytes|)
  {
    if StagesPayload(op) then PayloadWrites(op.plan.value, op.bytes) else []
  }

  /** An admission flushes its payload before any metadata; a direct commit shares the metadata flush. */
  function StagedFlush(op: Op): seq<Event>
  {
    if op.OpAdmit? then [Flush] else []
  }

  /** Everything written before the header: payload, metadata, and the flush that makes them durable. */
  function BeforeHeader(crc: Checksum, op: Op, g: Generation, slot: nat): (e: seq<Event>)
    requires StagesPayload(op) ==> RunsOk(op.plan.value, |op.bytes|)
    requires NodesEncodable(g.nodes) && |g.records| == RETAINED
  {
    Puts(StagedWrites(op)) + StagedFlush(op) + Puts(MetadataWrites(crc, g, slot)) + [Flush]
  }

  function HeaderWrite(crc: Checksum, g: Generation, slot: U8): Write
    requires NodesEncodable(g.nodes) && |g.records| == RETAINED && |g.lineage| == 16
  {
    Write(HeaderSector(slot), EncodeHeader(crc, HeadFor(crc, g, slot)))
  }

  /** How many device events publishing `op` takes: payload, metadata, header, and the flushes between. */
  function EventCount(op: Op): nat
  {
    (if StagesPayload(op) then SectorsNeeded(|op.bytes|) else 0) + |StagedFlush(op)| + GENERATION_SECTORS + 3
  }

  /** All device events of publishing `g` into generation `slot`. */
  function PublicationEvents(crc: Checksum, op: Op, g: Generation, slot: U8): (e: seq<Event>)
    requires StagesPayload(op) ==> RunsOk(op.plan.value, |op.bytes|)
    requires NodesEncodable(g.nodes) && |g.records| == RETAINED && |g.lineage| == 16
    ensures |e| == EventCount(op)
  {
    BeforeHeader(crc, op, g, slot) + [Put(HeaderWrite(crc, g, slot)), Flush]
  }

  // ---- What a publication may touch before its header -------------------------

  /** Sectors that no accepted view of `v` in `slot` depends on. */
  ghost predicate Harmless(v: Volume, slot: U8, s: nat)
    requires slot < GENERATIONS
  {
    || NodesSector(Other(slot)) <= s < NodesSector(Other(slot)) + GENERATION_SECTORS
    || (PAYLOAD_SECTOR <= s < VOLUME_SECTORS && s - PAYLOAD_SECTOR !in v.gen.used)
  }

  ghost predicate HarmlessWrites(v: Volume, slot: U8, writes: seq<Write>)
    requires slot < GENERATIONS
  {
    forall i :: 0 <= i < |writes| ==> Harmless(v, slot, writes[i].sector)
  }

  ghost predicate HarmlessEvents(v: Volume, slot: U8, events: seq<Event>)
    requires slot < GENERATIONS
  {
    forall i :: 0 <= i < |events| && events[i].Put? ==> Harmless(v, slot, events[i].write.sector)
  }

  /** The device's durable content is `v`, and nothing unflushed can disturb it. */
  ghost predicate DiskHolds(crc: Checksum, d: Disk, v: Volume, slot: U8)
  {
    Holds(crc, d.durable, v, slot) && HarmlessWrites(v, slot, d.pending)
  }

  lemma RegionFrame(a: Image, b: Image, first: nat, count: nat)
    requires |a| == |b| && first + count <= |a|
    requires forall s :: first <= s < first + count ==> a[s] == b[s]
    ensures Region(a, first, count) == Region(b, first, count)
  {
    assert a[first..first + count] == b[first..first + count];
  }

  lemma RegionsFrame(crc: Checksum, a: Image, b: Image, g: Generation, slot: U8)
    requires |a| == |b| == VOLUME_SECTORS && slot < GENERATIONS
    requires NodesEncodable(g.nodes) && |g.records| == RETAINED && HoldsRegions(crc, a, g, slot)
    requires forall s :: NodesSector(slot) <= s < NodesSector(slot) + GENERATION_SECTORS ==> a[s] == b[s]
    ensures HoldsRegions(crc, b, g, slot)
  {
    RegionFrame(a, b, NodesSector(slot), NODES_SECTORS);
    RegionFrame(a, b, MapSector(slot), MAP_SECTORS);
    RegionFrame(a, b, ReceiptsSector(slot), RECEIPTS_SECTORS);
  }

  /** Changing only harmless sectors keeps the head. */
  lemma HoldsFrame(crc: Checksum, a: Image, b: Image, v: Volume, slot: U8)
    requires Holds(crc, a, v, slot) && |a| == |b|
    requires forall s :: 0 <= s < |a| && !Harmless(v, slot, s) ==> a[s] == b[s]
    ensures Holds(crc, b, v, slot)
  {
    RegionsFrame(crc, a, b, v.gen, slot);
    assert a[HeaderSector(0)] == b[HeaderSector(0)] && a[HeaderSector(1)] == b[HeaderSector(1)];
    forall s: nat | s < DATA_SECTORS && s in v.gen.used ensures PayloadRegion(a)[s] == PayloadRegion(b)[s] {
      assert !Harmless(v, slot, PAYLOAD_SECTOR + s);
      assert a[PAYLOAD_SECTOR + s] == b[PAYLOAD_SECTOR + s];
    }
  }

  lemma HarmlessApply(crc: Checksum, img: Image, v: Volume, slot: U8, writes: seq<Write>)
    requires Holds(crc, img, v, slot) && HarmlessWrites(v, slot, writes)
    ensures Fits(writes, |img|) && Holds(crc, Apply(img, writes), v, slot)
  {
    forall s | 0 <= s < |img| && !Harmless(v, slot, s) ensures Apply(img, writes)[s] == img[s] {
      ApplyFrame(img, writes, s);
    }
    HoldsFrame(crc, img, Apply(img, writes), v, slot);
  }

  /** A stop while only harmless writes are pending keeps the head. */
  lemma StopKeepsHead(crc: Checksum, d: Disk, v: Volume, slot: U8, img: Image)
    requires DiskHolds(crc, d, v, slot) && Stops(crc, d, img)
    ensures Holds(crc, img, v, slot)
  {
    forall s | 0 <= s < |img| && !Harmless(v, slot, s) ensures d.durable[s] == img[s] {
      assert MayLose(crc, d, img, s);
    }
    HoldsFrame(crc, d.durable, img, v, slot);
  }

  /** Completed harmless events keep the head. */
  lemma {:induction false} HarmlessRun(crc: Checksum, d: Disk, v: Volume, slot: U8, events: seq<Event>)
    requires DiskHolds(crc, d, v, slot) && HarmlessEvents(v, slot, events)
    ensures DiskOk(d) && EventsFit(events, |d.durable|)
    ensures DiskHolds(crc, Perform(d, events), v, slot)
    decreases events
  {
    if events != [] {
      var prefix, last := events[..|events| - 1], events[|events| - 1];
      HarmlessRun(crc, d, v, slot, prefix);
      if last.Flush? {
        HarmlessApply(crc, Perform(d, prefix).durable, v, slot, Perform(d, prefix).pending);
      }
    }
  }

  // ---- The writes of one publication ------------------------------------------

  lemma {:induction false} PutsOfConcat(a: seq<Event>, b: seq<Event>)
    ensures PutsOf(a + b) == PutsOf(a) + PutsOf(b)
  {
    if b == [] {
      assert a + b == a;
    } else {
      PutsOfConcat(a, b[..|b| - 1]);
      assert (a + b)[..|a + b| - 1] == a + b[..|b| - 1];
    }
  }

  lemma {:induction false} PutsOfPuts(writes: seq<Write>)
    ensures PutsOf(Puts(writes)) == writes
  {
    if writes == [] {
    } else {
      var rest := writes[..|writes| - 1];
      PutsOfPuts(rest);
      assert Puts(writes)[..|writes| - 1] == Puts(rest);
      assert writes == rest + [writes[|writes| - 1]];
    }
  }

  lemma PutsBeforeHeader(crc: Checksum, op: Op, g: Generation, slot: nat)
    requires StagesPayload(op) ==> RunsOk(op.plan.value, |op.bytes|)
    requires NodesEncodable(g.nodes) && |g.records| == RETAINED
    ensures PutsOf(BeforeHeader(crc, op, g, slot)) == StagedWrites(op) + MetadataWrites(crc, g, slot)
  {
    var a, b, c := Puts(StagedWrites(op)), StagedFlush(op), Puts(MetadataWrites(crc, g, slot));
    PutsOfConcat(a, b);
    PutsOfConcat(a + b, c);
    PutsOfConcat(a + b + c, [Flush]);
    PutsOfPuts(StagedWrites(op));
    PutsOfPuts(MetadataWrites(crc, g, slot));
    assert PutsOf(b) == [] && PutsOf([Flush]) == [];
  }

  /** A published request: `w` is what it proposes, in the other generation. */
  ghost predicate Publishing(crc: Checksum, v: Volume, op: Op, slot: U8, w: Volume)
  {
    && EmptyIsZero(crc) && VolumeOk(crc, v) && Publishes(crc, v, op) && slot < GENERATIONS
    && w == After(crc, v, op)
    && VolumeOk(crc, w)
    && NodesEncodable(w.gen.nodes)
  }

  /** What the event list of a publication needs to be well formed. */
  lemma PublishingShape(crc: Checksum, v: Volume, op: Op, slot: U8, w: Volume)
    requires Publishing(crc, v, op, slot, w)
    ensures op.OpCommit? || op.OpAdmit? ==> StagesPayload(op)
    ensures StagesPayload(op) ==> RunsOk(op.plan.value, |op.bytes|)
    ensures NodesEncodable(w.gen.nodes) && |w.gen.records| == RETAINED && |w.gen.lineage| == 16
  {
  }

  lemma BeginPublishing(crc: Checksum, v: Volume, op: Op, slot: U8)
    requires EmptyIsZero(crc) && VolumeOk(crc, v) && Publishes(crc, v, op) && slot < GENERATIONS
    ensures Publishing(crc, v, op, slot, After(crc, v, op))
  {
    AfterKeeps(crc, v, op);
    Encodable(After(crc, v, op).gen);
  }

  function AllWrites(crc: Checksum, op: Op, g: Generation, slot: nat): seq<Write>
    requires StagesPayload(op) ==> RunsOk(op.plan.value, |op.bytes|)
    requires NodesEncodable(g.nodes) && |g.records| == RETAINED
  {
    StagedWrites(op) + MetadataWrites(crc, g, slot)
  }

  lemma StagedTargets(v: Volume, op: Op, slot: U8)
    requires Planned(v, op) && slot < GENERATIONS
    requires forall s: nat :: s in v.gen.used ==> s < DATA_SECTORS
    ensures HarmlessWrites(v, slot, StagedWrites(op)) && DistinctTargets(StagedWrites(op))
    ensures forall k :: 0 <= k < |StagedWrites(op)| ==> StagedWrites(op)[k].sector >= PAYLOAD_SECTOR
  {
    if StagesPayload(op) {
      var sectors := SectorList(op.plan.value);
      SectorListDistinct(op.plan.value);
      SectorListInside(op.plan.value, DATA_SECTORS);
      forall k | 0 <= k < |sectors| ensures sectors[k] !in v.gen.used {
        SectorListCovers(op.plan.value, sectors[k]);
      }
    }
  }

  lemma AllWritesApart(crc: Checksum, v: Volume, op: Op, slot: U8, w: Volume)
    requires Publishing(crc, v, op, slot, w)
    ensures HarmlessWrites(v, slot, AllWrites(crc, op, w.gen, Other(slot)))
    ensures DistinctTargets(AllWrites(crc, op, w.gen, Other(slot)))
  {
    Encodable(v.gen);
    StagedTargets(v, op, slot);
  }

  lemma EventsHarmless(crc: Checksum, v: Volume, op: Op, slot: U8, g: Generation)
    requires slot < GENERATIONS && NodesEncodable(g.nodes) && |g.records| == RETAINED
    requires StagesPayload(op) ==> RunsOk(op.plan.value, |op.bytes|)
    requires HarmlessWrites(v, slot, StagedWrites(op))
    ensures HarmlessEvents(v, slot, BeforeHeader(crc, op, g, Other(slot)))
  {
    var staged, metadata := StagedWrites(op), MetadataWrites(crc, g, Other(slot));
    var events := BeforeHeader(crc, op, g, Other(slot));
    forall i | 0 <= i < |events| && events[i].Put? ensures Harmless(v, slot, events[i].write.sector) {
      var first := |staged| + |StagedFlush(op)|;
      if i < |staged| {
        assert events[i] == Put(staged[i]);
      } else if first <= i < first + GENERATION_SECTORS {
        assert events[i] == Put(metadata[i - first]);
      }
    }
  }

  lemma BeforeHeaderHarmless(crc: Checksum, v: Volume, op: Op, slot: U8, w: Volume)
    requires Publishing(crc, v, op, slot, w)
    ensures HarmlessEvents(v, slot, BeforeHeader(crc, op, w.gen, Other(slot)))
  {
    Encodable(v.gen);
    StagedTargets(v, op, slot);
    EventsHarmless(crc, v, op, slot, w.gen);
  }

  /** The next generation uses only what was used, plus the new payload. */
  lemma NextUse(crc: Checksum, v: Volume, op: Op, s: nat)
    requires OwnershipOk(v.gen) && Publishes(crc, v, op) && s in Attempt(crc, v, op).next.used
    ensures s in v.gen.used || (StagesPayload(op) && Covers(op.plan.value, s))
  {
    if op.OpMaintain? {
      var i :| 0 <= i < |v.gen.nodes| && FileOwns(v.gen.nodes, i, s);
      assert Owned(v.gen.nodes, v.gen.records, s);
    }
  }

  // ---- After the metadata flush -----------------------------------------------

  lemma RegionIsBytes(img: Image, first: nat, count: nat, b: seq<Byte>)
    requires |b| == count * SECTOR && first + count <= |img|
    requires forall i :: 0 <= i < count ==> img[first + i] == SectorsIn(b, count)[i]
    ensures Region(img, first, count) == b
  {
    var part, pieces := img[first..first + count], Pieces(b, SECTOR, count);
    forall i | 0 <= i < count ensures part[i] == pieces[i] {
      assert part[i] == img[first + i] == SectorsIn(b, count)[i];
    }
    assert part == pieces;
    JoinOfPieces(b, SECTOR, count);
  }

  lemma MetadataStored(crc: Checksum, img: Image, g: Generation, slot: U8)
    requires |img| == VOLUME_SECTORS && slot < GENERATIONS && NodesEncodable(g.nodes) && |g.records| == RETAINED
    requires forall i :: 0 <= i < GENERATION_SECTORS ==> img[NodesSector(slot) + i] == Metadata(crc, g)[i]
    ensures HoldsRegions(crc, img, g, slot)
  {
    var m, first := Metadata(crc, g), NodesSector(slot);
    forall i | 0 <= i < NODES_SECTORS
      ensures img[NodesSector(slot) + i] == SectorsIn(NodeTable(crc, g.nodes), NODES_SECTORS)[i]
    {
      assert img[first + i] == m[i];
    }
    forall i | 0 <= i < MAP_SECTORS
      ensures img[MapSector(slot) + i] == SectorsIn(EncodeMap(g.used), MAP_SECTORS)[i]
    {
      assert img[first + (NODES_SECTORS + i)] == m[NODES_SECTORS + i];
    }
    forall i | 0 <= i < RECEIPTS_SECTORS
      ensures img[ReceiptsSector(slot) + i] == SectorsIn(ReceiptBlock(crc, g.records), RECEIPTS_SECTORS)[i]
    {
      assert img[first + (NODES_SECTORS + MAP_SECTORS + i)] == m[NODES_SECTORS + MAP_SECTORS + i];
    }
    RegionIsBytes(img, NodesSector(slot), NODES_SECTORS, NodeTable(crc, g.nodes));
    RegionIsBytes(img, MapSector(slot), MAP_SECTORS, EncodeMap(g.used));
    RegionIsBytes(img, ReceiptsSector(slot), RECEIPTS_SECTORS, ReceiptBlock(crc, g.records));
  }

  lemma MetadataApplied(crc: Checksum, base: Image, staged: seq<Write>, g: Generation, slot: U8)
    requires |base| == VOLUME_SECTORS && slot < GENERATIONS && NodesEncodable(g.nodes) && |g.records| == RETAINED
    requires Fits(staged + MetadataWrites(crc, g, slot), |base|) && DistinctTargets(staged + MetadataWrites(crc, g, slot))
    ensures forall i :: 0 <= i < GENERATION_SECTORS ==>
      Apply(base, staged + MetadataWrites(crc, g, slot))[NodesSector(slot) + i] == Metadata(crc, g)[i]
  {
    var writes := staged + MetadataWrites(crc, g, slot);
    forall i | 0 <= i < GENERATION_SECTORS ensures Apply(base, writes)[NodesSector(slot) + i] == Metadata(crc, g)[i] {
      var at := |staged| + i;
      assert writes[at] == MetadataWrites(crc, g, slot)[i];
      ApplyAt(base, writes, at);
    }
  }

  lemma StoredRegions(crc: Checksum, base: Image, op: Op, g: Generation, slot: U8)
    requires |base| == VOLUME_SECTORS && slot < GENERATIONS
    requires StagesPayload(op) ==> RunsOk(op.plan.value, |op.bytes|)
    requires NodesEncodable(g.nodes) && |g.records| == RETAINED
    requires Fits(AllWrites(crc, op, g, slot), |base|) && DistinctTargets(AllWrites(crc, op, g, slot))
    ensures HoldsRegions(crc, Apply(base, AllWrites(crc, op, g, slot)), g, slot)
  {
    MetadataApplied(crc, base, StagedWrites(op), g, slot);
    MetadataStored(crc, Apply(base, AllWrites(crc, op, g, slot)), g, slot);
  }

  lemma NewPayloadStored(base: Image, writes: seq<Write>, blocks: seq<Sector>, plan: seq<Run>, bytes: seq<Byte>, s: nat)
    requires |base| == VOLUME_SECTORS && |blocks| == DATA_SECTORS && RunsOk(plan, |bytes|)
    requires Fits(writes, |base|) && DistinctTargets(writes)
    requires PayloadWrites(plan, bytes) <= writes
    requires Covers(plan, s)
    ensures s < DATA_SECTORS
    ensures PayloadRegion(Apply(base, writes))[s] == Written(blocks, plan, bytes)[s]
  {
    var sectors := SectorList(plan);
    SectorListCovers(plan, s);
    SectorListDistinct(plan);
    SectorListInside(plan, DATA_SECTORS);
    var k :| 0 <= k < |sectors| && sectors[k] == s;
    assert writes[k] == PayloadWrites(plan, bytes)[k] == Write(PAYLOAD_SECTOR + s, Block(bytes, k));
    ApplyAt(base, writes, k);
    StoredAt(blocks, sectors, bytes, |sectors|, k);
  }

  lemma StoredPayload(crc: Checksum, base: Image, v: Volume, op: Op, slot: U8, w: Volume, s: nat)
    requires Publishing(crc, v, op, slot, w) && Holds(crc, base, v, slot)
    requires s in w.gen.used && s < DATA_SECTORS
    requires Fits(AllWrites(crc, op, w.gen, Other(slot)), |base|) && DistinctTargets(AllWrites(crc, op, w.gen, Other(slot)))
    requires Holds(crc, Apply(base, AllWrites(crc, op, w.gen, Other(slot))), v, slot)
    ensures PayloadRegion(Apply(base, AllWrites(crc, op, w.gen, Other(slot))))[s] == w.blocks[s]
  {
    NextUse(crc, v, op, s);
    if StagesPayload(op) && Covers(op.plan.value, s) {
      NewPayloadStored(base, AllWrites(crc, op, w.gen, Other(slot)), v.blocks, op.plan.value, op.bytes, s);
    }
  }

  /** Everything the next head names is durable; only the header copy still names the old generation. */
  ghost predicate Prepared(crc: Checksum, d: Disk, v: Volume, slot: U8, w: Volume)
  {
    && d.pending == []
    && Holds(crc, d.durable, v, slot)
    && NodesEncodable(w.gen.nodes) && |w.gen.records| == RETAINED && |w.gen.lineage| == 16
    && HoldsRegions(crc, d.durable, w.gen, Other(slot))
    && HoldsPayload(d.durable, w)
  }

  /** After the metadata flush the medium holds exactly the completed writes. */
  lemma FlushedWrites(d: Disk, events: seq<Event>, writes: seq<Write>)
    requires DiskOk(d) && EventsFit(events, |d.durable|) && |events| > 0 && events[|events| - 1] == Flush
    requires PutsOf(events) == writes
    ensures Fits(writes, |d.durable|)
    ensures Perform(d, events) == Disk(Apply(Cached(d), writes), [])
  {
    CachedAfter(d, events);
    assert Cached(Perform(d, events)) == Perform(d, events).durable;
  }

  lemma PrepareDurable(crc: Checksum, d: Disk, v: Volume, op: Op, slot: U8, w: Volume)
    requires Publishing(crc, v, op, slot, w) && DiskHolds(crc, d, v, slot)
    ensures DiskOk(d) && EventsFit(BeforeHeader(crc, op, w.gen, Other(slot)), |d.durable|)
    ensures Prepared(crc, Perform(d, BeforeHeader(crc, op, w.gen, Other(slot))), v, slot, w)
  {
    BeforeHeaderHarmless(crc, v, op, slot, w);
    HarmlessRun(crc, d, v, slot, BeforeHeader(crc, op, w.gen, Other(slot)));
    HarmlessApply(crc, d.durable, v, slot, d.pending);
    PrepareImage(crc, Cached(d), v, op, slot, w);
    FlushedBeforeHeader(crc, d, op, w.gen, Other(slot));
  }

  lemma FlushedBeforeHeader(crc: Checksum, d: Disk, op: Op, g: Generation, slot: nat)
    requires StagesPayload(op) ==> RunsOk(op.plan.value, |op.bytes|)
    requires NodesEncodable(g.nodes) && |g.records| == RETAINED
    requires DiskOk(d) && EventsFit(BeforeHeader(crc, op, g, slot), |d.durable|)
    ensures Fits(AllWrites(crc, op, g, slot), |d.durable|)
    ensures Perform(d, BeforeHeader(crc, op, g, slot)) == Disk(Apply(Cached(d), AllWrites(crc, op, g, slot)), [])
  {
    PutsBeforeHeader(crc, op, g, slot);
    FlushedWrites(d, BeforeHeader(crc, op, g, slot), AllWrites(crc, op, g, slot));
  }

  /** Writing everything but the header keeps the old head. */
  lemma OldHeadKept(crc: Checksum, base: Image, v: Volume, op: Op, slot: U8, w: Volume)
    requires Publishing(crc, v, op, slot, w) && Holds(crc, base, v, slot)
    ensures Fits(AllWrites(crc, op, w.gen, Other(slot)), |base|)
    ensures Holds(crc, Apply(base, AllWrites(crc, op, w.gen, Other(slot))), v, slot)
  {
    AllWritesApart(crc, v, op, slot, w);
    HarmlessApply(crc, base, v, slot, AllWrites(crc, op, w.gen, Other(slot)));
  }

  /** It also stores everything the new header will name. */
  lemma NewRegionsKept(crc: Checksum, base: Image, v: Volume, op: Op, slot: U8, w: Volume)
    requires Publishing(crc, v, op, slot, w) && Holds(crc, base, v, slot)
    ensures Fits(AllWrites(crc, op, w.gen, Other(slot)), |base|)
    ensures HoldsRegions(crc, Apply(base, AllWrites(crc, op, w.gen, Other(slot))), w.gen, Other(slot))
  {
    PublishingShape(crc, v, op, slot, w);
    OldHeadKept(crc, base, v, op, slot, w);
    AllWritesApart(crc, v, op, slot, w);
    StoredRegions(crc, base, op, w.gen, Other(slot));
  }

  lemma NewPayloadKept(crc: Checksum, base: Image, v: Volume, op: Op, slot: U8, w: Volume)
    requires Publishing(crc, v, op, slot, w) && Holds(crc, base, v, slot)
    ensures Fits(AllWrites(crc, op, w.gen, Other(slot)), |base|)
    ensures HoldsPayload(Apply(base, AllWrites(crc, op, w.gen, Other(slot))), w)
  {
    OldHeadKept(crc, base, v, op, slot, w);
    AllWritesApart(crc, v, op, slot, w);
    AllPayloadStored(crc, base, v, op, slot, w);
  }

  lemma PrepareImage(crc: Checksum, base: Image, v: Volume, op: Op, slot: U8, w: Volume)
    requires Publishing(crc, v, op, slot, w) && Holds(crc, base, v, slot)
    ensures Fits(AllWrites(crc, op, w.gen, Other(slot)), |base|)
    ensures Prepared(crc, Disk(Apply(base, AllWrites(crc, op, w.gen, Other(slot))), []), v, slot, w)
  {
    OldHeadKept(crc, base, v, op, slot, w);
    NewRegionsKept(crc, base, v, op, slot, w);
    NewPayloadKept(crc, base, v, op, slot, w);
    Encodable(w.gen);
  }

  lemma AllPayloadStored(crc: Checksum, base: Image, v: Volume, op: Op, slot: U8, w: Volume)
    requires Publishing(crc, v, op, slot, w) && Holds(crc, base, v, slot)
    requires Fits(AllWrites(crc, op, w.gen, Other(slot)), |base|) && DistinctTargets(AllWrites(crc, op, w.gen, Other(slot)))
    requires Holds(crc, Apply(base, AllWrites(crc, op, w.gen, Other(slot))), v, slot)
    ensures HoldsPayload(Apply(base, AllWrites(crc, op, w.gen, Other(slot))), w)
  {
    forall s: nat | s < DATA_SECTORS && s in w.gen.used
      ensures PayloadRegion(Apply(base, AllWrites(crc, op, w.gen, Other(slot))))[s] == w.blocks[s]
    {
      StoredPayload(crc, base, v, op, slot, w, s);
    }
  }

  // ---- The header write -------------------------------------------------------

  /** `w` is one accepted generation after `v`. */
  ghost predicate Follows(v: Volume, w: Volume)
  {
    && GenerationOk(v.gen) && GenerationOk(w.gen)
    && w.gen.lineage == v.gen.lineage && w.gen.sequence == v.gen.sequence + 1
    && w.gen.epoch >= v.gen.epoch && w.gen.next >= v.gen.next
  }

  ghost predicate SameButHeader(a: Image, b: Image, slot: U8)
    requires slot < GENERATIONS
  {
    |a| == |b| && forall s :: 0 <= s < |a| && s != HeaderSector(slot) ==> a[s] == b[s]
  }

  /** Replacing only the other header copy keeps everything but that copy. */
  lemma OnlyHeaderChanged(crc: Checksum, a: Image, b: Image, v: Volume, slot: U8, w: Volume)
    requires Prepared(crc, Disk(a, []), v, slot, w) && SameButHeader(a, b, Other(slot))
    ensures HoldsHead(crc, b, v.gen, slot) && HoldsPayload(b, v)
    ensures HoldsRegions(crc, b, w.gen, Other(slot)) && HoldsPayload(b, w)
  {
    RegionsFrame(crc, a, b, v.gen, slot);
    RegionsFrame(crc, a, b, w.gen, Other(slot));
    SamePayload(a, b, Other(slot));
  }

  lemma SamePayload(a: Image, b: Image, slot: U8)
    requires slot < GENERATIONS && |a| == VOLUME_SECTORS && SameButHeader(a, b, slot)
    ensures PayloadRegion(a) == PayloadRegion(b)
  {
    forall s | 0 <= s < DATA_SECTORS ensures PayloadRegion(a)[s] == PayloadRegion(b)[s] {
      assert a[PAYLOAD_SECTOR + s] == b[PAYLOAD_SECTOR + s];
    }
  }

  /** A refused or unchanged other copy leaves the old head selected. */
  lemma OldHeadStays(crc: Checksum, a: Image, b: Image, v: Volume, slot: U8, w: Volume)
    requires Prepared(crc, Disk(a, []), v, slot, w) && SameButHeader(a, b, Other(slot))
    requires b[HeaderSector(Other(slot))] == a[HeaderSector(Other(slot))] || HeaderCopy(crc, b, Other(slot)).None?
    ensures Holds(crc, b, v, slot)
  {
    OnlyHeaderChanged(crc, a, b, v, slot, w);
  }

  lemma OldCopyDecodes(crc: Checksum, img: Image, g: Generation, slot: U8)
    requires GenerationOk(g) && HoldsHead(crc, img, g, slot)
    ensures HeaderCopy(crc, img, slot) == Some(HeadFor(crc, g, slot))
  {
    HeaderRoundTrip(crc, HeadFor(crc, g, slot));
  }

  /** The complete new copy makes the new generation the head. */
  lemma NewHeadAdopted(crc: Checksum, a: Image, b: Image, v: Volume, slot: U8, w: Volume)
    requires Prepared(crc, Disk(a, []), v, slot, w) && SameButHeader(a, b, Other(slot)) && Follows(v, w)
    requires b[HeaderSector(Other(slot))] == HeaderWrite(crc, w.gen, Other(slot)).data
    ensures Holds(crc, b, w, Other(slot))
  {
    OnlyHeaderChanged(crc, a, b, v, slot, w);
    OldCopyDecodes(crc, b, v.gen, slot);
    assert Other(Other(slot)) == slot;
  }

  /** One pending header write: every other sector is intact, that copy is old, new or refused. */
  lemma OneHeaderInFlight(crc: Checksum, durable: Image, data: Sector, slot: U8, img: Image)
    requires |durable| == VOLUME_SECTORS && slot < GENERATIONS
    requires Stops(crc, Disk(durable, [Write(HeaderSector(slot), data)]), img)
    ensures SameButHeader(durable, img, slot)
    ensures img[HeaderSector(slot)] == durable[HeaderSector(slot)] || img[HeaderSector(slot)] == data
            || HeaderCopy(crc, img, slot).None?
  {
    var flying := Disk(durable, [Write(HeaderSector(slot), data)]);
    forall s | 0 <= s < |img| && s != HeaderSector(slot) ensures durable[s] == img[s] {
      assert MayLose(crc, flying, img, s);
    }
    assert MayLose(crc, flying, img, HeaderSector(slot));
  }

  /** A stop while the header write is in flight leaves the old head or the new one. */
  lemma StopAtHeader(crc: Checksum, d: Disk, v: Volume, slot: U8, w: Volume, img: Image)
    requires Prepared(crc, d, v, slot, w) && Follows(v, w)
    requires Stops(crc, Disk(d.durable, [HeaderWrite(crc, w.gen, Other(slot))]), img)
    ensures Holds(crc, img, v, slot) || Holds(crc, img, w, Other(slot))
  {
    var data := HeaderWrite(crc, w.gen, Other(slot)).data;
    OneHeaderInFlight(crc, d.durable, data, Other(slot), img);
    if img[HeaderSector(Other(slot))] == data {
      NewHeadAdopted(crc, d.durable, img, v, slot, w);
    } else {
      OldHeadStays(crc, d.durable, img, v, slot, w);
    }
  }

  lemma FlushAdopts(crc: Checksum, d: Disk, v: Volume, slot: U8, w: Volume)
    requires Prepared(crc, d, v, slot, w) && Follows(v, w)
    ensures Holds(crc, Apply(d.durable, [HeaderWrite(crc, w.gen, Other(slot))]), w, Other(slot))
  {
    var header := HeaderWrite(crc, w.gen, Other(slot));
    assert Apply(d.durable, [header]) == d.durable[header.sector := header.data] by {
      assert [header][..0] == [];
    }
    NewHeadAdopted(crc, d.durable, Apply(d.durable, [header]), v, slot, w);
  }

  // ---- One publication, stopped anywhere --------------------------------------

  /** Which generations a stop before event `cut` of `events` may leave at the head. */
  ghost predicate StopOutcome(crc: Checksum, v: Volume, w: Volume, slot: U8, cut: nat, events: nat, img: Image)
    requires slot < GENERATIONS
  {
    var header := events - 2;
    && (cut <= header ==> Holds(crc, img, v, slot))
    && (cut == header + 1 ==> Holds(crc, img, v, slot) || Holds(crc, img, w, Other(slot)))
    && (cut == events ==> Holds(crc, img, w, Other(slot)))
  }

  lemma PerformSplit(d: Disk, a: seq<Event>, e: Event)
    requires DiskOk(d) && EventsFit(a, |d.durable|) && EventFits(e, |d.durable|)
    ensures EventsFit(a + [e], |d.durable|) && Perform(d, a + [e]) == Step(Perform(d, a), e)
  {
    assert (a + [e])[..|a|] == a;
  }

  /** The device once the header is in flight, and once the final flush has completed. */
  lemma PerformHeader(d: Disk, before: seq<Event>, header: Write)
    requires DiskOk(d) && EventsFit(before, |d.durable|) && header.sector < |d.durable|
    requires Perform(d, before).pending == []
    ensures EventsFit(before + [Put(header)], |d.durable|) && EventsFit(before + [Put(header), Flush], |d.durable|)
    ensures Perform(d, before + [Put(header)]) == Disk(Perform(d, before).durable, [header])
    ensures Perform(d, before + [Put(header), Flush]) == Disk(Apply(Perform(d, before).durable, [header]), [])
  {
    PerformSplit(d, before, Put(header));
    PerformSplit(d, before + [Put(header)], Flush);
    assert before + [Put(header)] + [Flush] == before + [Put(header), Flush];
  }

  /** With nothing pending the medium is what it is. */
  lemma SettledStop(crc: Checksum, d: Disk, img: Image)
    requires d.pending == [] && Stops(crc, d, img)
    ensures img == d.durable
  {
    forall s | 0 <= s < |img| ensures img[s] == d.durable[s] {
      assert MayLose(crc, d, img, s);
    }
  }

  /** The last two events decide: stopping at or after the header write. */
  lemma StopLate(crc: Checksum, d: Disk, v: Volume, slot: U8, w: Volume, before: seq<Event>, cut: nat, img: Image)
    requires DiskOk(d) && EventsFit(before, |d.durable|)
    requires Prepared(crc, Perform(d, before), v, slot, w) && Follows(v, w)
    requires |before| < cut <= |before| + 2
    ensures var events := before + [Put(HeaderWrite(crc, w.gen, Other(slot))), Flush];
      && EventsFit(events[..cut], |d.durable|)
      && (Stops(crc, Perform(d, events[..cut]), img) ==> StopOutcome(crc, v, w, slot, cut, |events|, img))
  {
    var header := HeaderWrite(crc, w.gen, Other(slot));
    var events := before + [Put(header), Flush];
    PerformHeader(d, before, header);
    if cut == |before| + 1 {
      assert events[..cut] == before + [Put(header)];
      if Stops(crc, Perform(d, events[..cut]), img) {
        StopAtHeader(crc, Perform(d, before), v, slot, w, img);
      }
    } else {
      assert events[..cut] == events;
      FlushAdopts(crc, Perform(d, before), v, slot, w);
      if Stops(crc, Perform(d, events[..cut]), img) {
        SettledStop(crc, Perform(d, events[..cut]), img);
      }
    }
  }

  lemma PublishingFollows(crc: Checksum, v: Volume, op: Op, slot: U8, w: Volume)
    requires Publishing(crc, v, op, slot, w)
    ensures Follows(v, w)
  {
    AttemptAdvances(crc, v, op);
  }

  /**
   * A publication is atomic: whatever the device loses when it stops before event `cut`, the image holds
   * the old volume until the header is issued, the old or the new one while it is in flight, and the new
   * one once the final flush completed.
   */
  lemma CrashAtomic(crc: Checksum, d: Disk, v: Volume, op: Op, slot: U8, w: Volume, cut: nat, img: Image)
    requires Publishing(crc, v, op, slot, w) && DiskHolds(crc, d, v, slot)
    requires cut <= EventCount(op)
    ensures DiskOk(d) && EventsFit(PublicationEvents(crc, op, w.gen, Other(slot))[..cut], |d.durable|)
    ensures Stops(crc, Perform(d, PublicationEvents(crc, op, w.gen, Other(slot))[..cut]), img) ==>
      StopOutcome(crc, v, w, slot, cut, EventCount(op), img)
  {
    var events, before := PublicationEvents(crc, op, w.gen, Other(slot)), BeforeHeader(crc, op, w.gen, Other(slot));
    if cut <= |before| {
      BeforeHeaderHarmless(crc, v, op, slot, w);
      assert events[..cut] == before[..cut];
      HarmlessRun(crc, d, v, slot, before[..cut]);
      if Stops(crc, Perform(d, events[..cut]), img) {
        StopKeepsHead(crc, Perform(d, before[..cut]), v, slot, img);
      }
    } else {
      PublishingFollows(crc, v, op, slot, w);
      PrepareDurable(crc, d, v, op, slot, w);
      StopLate(crc, d, v, slot, w, before, cut, img);
    }
  }

  /** Once every event completed, the device holds the new volume and nothing is in flight. */
  lemma PublishCompletes(crc: Checksum, d: Disk, v: Volume, op: Op, slot: U8, w: Volume)
    requires Publishing(crc, v, op, slot, w) && DiskHolds(crc, d, v, slot)
    ensures DiskOk(d) && EventsFit(PublicationEvents(crc, op, w.gen, Other(slot)), |d.durable|)
    ensures DiskHolds(crc, Perform(d, PublicationEvents(crc, op, w.gen, Other(slot))), w, Other(slot))
  {
    var before := BeforeHeader(crc, op, w.gen, Other(slot));
    PrepareDurable(crc, d, v, op, slot, w);
    PublishingFollows(crc, v, op, slot, w);
    PerformHeader(d, before, HeaderWrite(crc, w.gen, Other(slot)));
    FlushAdopts(crc, Perform(d, before), v, slot, w);
  }

  lemma CutBeforeHeader(crc: Checksum, op: Op, g: Generation, slot: U8, cut: nat)
    requires StagesPayload(op) ==> RunsOk(op.plan.value, |op.bytes|)
    requires NodesEncodable(g.nodes) && |g.records| == RETAINED && |g.lineage| == 16
    requires cut <= EventCount(op) - 2
    ensures cut <= |BeforeHeader(crc, op, g, slot)|
    ensures PublicationEvents(crc, op, g, slot)[..cut] == BeforeHeader(crc, op, g, slot)[..cut]
  {
  }

  lemma HarmlessPrefix(v: Volume, slot: U8, events: seq<Event>, cut: nat)
    requires slot < GENERATIONS && HarmlessEvents(v, slot, events) && cut <= |events|
    ensures HarmlessEvents(v, slot, events[..cut])
  {
  }

  /** Giving up before the header leaves the old volume, whatever was already written. */
  lemma PublishAbandoned(crc: Checksum, d: Disk, v: Volume, op: Op, slot: U8, w: Volume, cut: nat)
    requires Publishing(crc, v, op, slot, w) && DiskHolds(crc, d, v, slot)
    requires cut <= EventCount(op) - 2
    ensures DiskOk(d) && EventsFit(PublicationEvents(crc, op, w.gen, Other(slot))[..cut], |d.durable|)
    ensures DiskHolds(crc, Perform(d, PublicationEvents(crc, op, w.gen, Other(slot))[..cut]), v, slot)
  {
    var before := BeforeHeader(crc, op, w.gen, Other(slot));
    BeforeHeaderHarmless(crc, v, op, slot, w);
    CutBeforeHeader(crc, op, w.gen, Other(slot), cut);
    HarmlessPrefix(v, slot, before, cut);
    HarmlessRun(crc, d, v, slot, before[..cut]);
  }
}
