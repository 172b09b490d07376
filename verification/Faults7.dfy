/** Interrupted publications: the event lists, the cut tables and the verdict the harness reaches from two images. */
module Faults7 {
  import opened Bytes
  import opened Format7
  import opened Generation7
  import opened Payload7
  import opened Volume7
  import opened Image7
  import opened Device
  import opened Publication7
  import opened Staging7
  import opened History7

  // ---- Event lists and cut tables ---------------------------------------------

  datatype EventKind = WriteAio | FlushToDisk

  function KindOf(e: Event): EventKind
  {
    if e.Put? then WriteAio else FlushToDisk
  }

  function KindsOf(events: seq<Event>): (k: seq<EventKind>)
    ensures |k| == |events|
  {
    seq(|events|, i requires 0 <= i < |events| => KindOf(events[i]))
  }

  function Repeated(kind: EventKind, count: nat): (k: seq<EventKind>)
    ensures |k| == count
  {
    seq(count, _ => kind)
  }

  function PublicationKinds(): seq<EventKind>
  {
    Repeated(WriteAio, NODES_SECTORS + MAP_SECTORS + RECEIPTS_SECTORS) + [FlushToDisk, WriteAio, FlushToDisk]
  }

  function WriteKinds(size: nat): seq<EventKind>
  {
    Repeated(WriteAio, SectorsNeeded(size)) + PublicationKinds()
  }

  /** The harness's event lists are the kinds of the events the owner issues. */
  lemma KindsAgree(crc: Checksum, op: Op, g: Generation, slot: U8)
    requires StagesPayload(op) ==> RunsOk(op.plan.value, |op.bytes|)
    requires NodesEncodable(g.nodes) && |g.records| == RETAINED && |g.lineage| == 16
    ensures op.OpCommit? && op.plan.Some? ==> KindsOf(PublicationEvents(crc, op, g, slot)) == WriteKinds(|op.bytes|)
    ensures op.OpMaintain? ==> KindsOf(PublicationEvents(crc, op, g, slot)) == PublicationKinds()
  {
  }

  datatype Cuts = Cuts(nodesFirst: nat, nodesLast: nat, mapFirst: nat, mapLast: nat,
                       receiptsFirst: nat, receiptsLast: nat, metadataFlush: nat, header: nat, finalFlush: nat)

  function PublicationCuts(first: nat): Cuts
  {
    var receipts := first + NODES_SECTORS + MAP_SECTORS;
    var flush := receipts + RECEIPTS_SECTORS;
    Cuts(first, first + NODES_SECTORS - 1, first + NODES_SECTORS, receipts - 1,
         receipts, flush - 1, flush, flush + 1, flush + 2)
  }

  ghost predicate WritesSector(events: seq<Event>, cut: nat, sector: nat)
  {
    cut < |events| && events[cut].Put? && events[cut].write.sector == sector
  }

  /** Each cut is the event it is named after. */
  ghost predicate NamedBy(e: seq<Event>, c: Cuts, slot: U8, header: Write)
  {
    && WritesSector(e, c.nodesFirst, NodesSector(slot)) && WritesSector(e, c.nodesLast, MapSector(slot) - 1)
    && WritesSector(e, c.mapFirst, MapSector(slot)) && WritesSector(e, c.mapLast, ReceiptsSector(slot) - 1)
    && WritesSector(e, c.receiptsFirst, ReceiptsSector(slot))
    && WritesSector(e, c.receiptsLast, ReceiptsSector(slot) + RECEIPTS_SECTORS - 1)
    && c.metadataFlush < c.header < c.finalFlush == |e| - 1
    && e[c.metadataFlush] == Flush && e[c.finalFlush] == Flush && e[c.header] == Put(header)
  }

  /** Every named cut is the event it names: first and last sector of each region, both flushes and the header. */
  lemma CutsNameEvents(crc: Checksum, op: Op, g: Generation, slot: U8)
    requires StagesPayload(op) ==> RunsOk(op.plan.value, |op.bytes|)
    requires NodesEncodable(g.nodes) && |g.records| == RETAINED && |g.lineage| == 16
    requires op.OpCommit? || op.OpMaintain?
    ensures NamedBy(PublicationEvents(crc, op, g, slot), PublicationCuts(|StagedWrites(op)|), slot, HeaderWrite(crc, g, slot))
  {
  }

  datatype WriteCuts = WriteCuts(payloadFirst: nat, payloadSecond: nat, payloadLast: nat, publication: Cuts)

  /** The cut table of a write; it needs three payload sectors to have a first, a second and a last one. */
  function WriteCutsOf(size: nat): Option<WriteCuts>
  {
    var sectors := SectorsNeeded(size);
    if sectors < 3 then None else Some(WriteCuts(0, 1, sectors - 1, PublicationCuts(sectors)))
  }

  /**
   * The cut table of a write exists exactly when the payload exceeds two sectors, and then its cuts are three
   * different payload writes followed by the named events of the publication.
   */
  lemma WriteCutsName(crc: Checksum, op: Op, g: Generation, slot: U8)
    requires op.OpCommit? && op.plan.Some? && RunsOk(op.plan.value, |op.bytes|)
    requires NodesEncodable(g.nodes) && |g.records| == RETAINED && |g.lineage| == 16
    ensures WriteCutsOf(|op.bytes|).Some? <==> |op.bytes| > 2 * SECTOR
    ensures WriteCutsOf(|op.bytes|).Some? ==>
      var e, c, at := PublicationEvents(crc, op, g, slot), WriteCutsOf(|op.bytes|).value, SectorList(op.plan.value);
      && c.payloadFirst < c.payloadSecond < c.payloadLast < c.publication.nodesFirst
      && c.payloadLast == |at| - 1
      && WritesSector(e, c.payloadFirst, PAYLOAD_SECTOR + at[0])
      && WritesSector(e, c.payloadSecond, PAYLOAD_SECTOR + at[1])
      && WritesSector(e, c.payloadLast, PAYLOAD_SECTOR + at[c.payloadLast])
      && NamedBy(e, c.publication, slot, HeaderWrite(crc, g, slot))
  {
    if WriteCutsOf(|op.bytes|).Some? {
      CutsNameEvents(crc, op, g, slot);
      var e, writes := PublicationEvents(crc, op, g, slot), PayloadWrites(op.plan.value, op.bytes);
      assert e[0] == Put(writes[0]) && e[1] == Put(writes[1]) && e[|writes| - 1] == Put(writes[|writes| - 1]);
    }
  }

  /** Whether a fail-stop before event `cut` leaves the new header in the image. */
  function AdoptsNewGeneration(events: seq<EventKind>, cut: nat): Option<bool>
  {
    if |events| < 2 || events[|events| - 2] != WriteAio || events[|events| - 1] != FlushToDisk then None
    else Some(cut > |events| - 2)
  }

  // ---- What a fail-stop leaves ------------------------------------------------

  /** The image of a device that completed the first `cut` events on top of `base`, all of them readable. */
  function FaultImage(base: Image, events: seq<Event>, cut: nat): (img: Image)
    requires cut <= |events| && EventsFit(events[..cut], |base|)
    ensures |img| == |base|
  {
    Cached(Perform(Disk(base, []), events[..cut]))
  }

  /** A closing flush does not change what is read. */
  lemma LateImage(base: Image, events: seq<Event>, cut: nat)
    requires |events| > 0 && events[|events| - 1] == Flush && EventsFit(events, |base|)
    requires cut == |events| || cut == |events| - 1
    ensures EventsFit(events[..cut], |base|) && EventsFit(events[..|events|], |base|)
    ensures FaultImage(base, events, cut) == FaultImage(base, events, |events|)
  {
    WholeSlice(events);
    var before := Perform(Disk(base, []), events[..|events| - 1]);
    assert Perform(Disk(base, []), events) == Step(before, Flush);
  }

  /** Before the header event the old volume is on the image; after it, the new one. */
  lemma FaultImageHolds(crc: Checksum, base: Image, v: Volume, op: Op, slot: U8, w: Volume, cut: nat)
    requires Publishing(crc, v, op, slot, w) && Holds(crc, base, v, slot)
    requires cut <= EventCount(op)
    ensures EventsFit(PublicationEvents(crc, op, w.gen, Other(slot))[..cut], |base|)
    ensures cut > EventCount(op) - 2 ==>
      Holds(crc, FaultImage(base, PublicationEvents(crc, op, w.gen, Other(slot)), cut), w, Other(slot))
    ensures cut <= EventCount(op) - 2 ==>
      Holds(crc, FaultImage(base, PublicationEvents(crc, op, w.gen, Other(slot)), cut), v, slot)
  {
    if cut > EventCount(op) - 2 {
      LateImageHolds(crc, base, v, op, slot, w, cut);
    } else {
      StoppedHolds(crc, Disk(base, []), v, op, slot, w, cut);
    }
  }

  lemma LateImageHolds(crc: Checksum, base: Image, v: Volume, op: Op, slot: U8, w: Volume, cut: nat)
    requires Publishing(crc, v, op, slot, w) && Holds(crc, base, v, slot)
    requires EventCount(op) - 2 < cut <= EventCount(op)
    ensures EventsFit(PublicationEvents(crc, op, w.gen, Other(slot))[..cut], |base|)
    ensures Holds(crc, FaultImage(base, PublicationEvents(crc, op, w.gen, Other(slot)), cut), w, Other(slot))
  {
    var events := PublicationEvents(crc, op, w.gen, Other(slot));
    StoppedHolds(crc, Disk(base, []), v, op, slot, w, |events|);
    WholeSlice(events);
    LateImage(base, events, cut);
  }

  lemma StoppedHolds(crc: Checksum, d: Disk, v: Volume, op: Op, slot: U8, w: Volume, cut: nat)
    requires Publishing(crc, v, op, slot, w) && DiskHolds(crc, d, v, slot)
    requires cut <= EventCount(op)
    ensures var events := PublicationEvents(crc, op, w.gen, Other(slot));
      && DiskOk(d) && EventsFit(events[..cut], |d.durable|)
      && (cut <= |events| - 2 ==> Holds(crc, Cached(Perform(d, events[..cut])), v, slot))
      && (cut == |events| ==> Holds(crc, Cached(Perform(d, events[..cut])), w, Other(slot)))
  {
    var events := PublicationEvents(crc, op, w.gen, Other(slot));
    CrashAtomic(crc, d, v, op, slot, w, cut, d.durable);
    var stopped := Perform(d, events[..cut]);
    FailStopPossible(crc, stopped);
    CrashAtomic(crc, d, v, op, slot, w, cut, Cached(stopped));
  }

  /** So the reader accepts every fault image, and what it shows is decided by the cut alone. */
  lemma FaultImageReads(crc: Checksum, base: Image, v: Volume, op: Op, slot: U8, w: Volume, cut: nat) returns (view: View)
    requires Publishing(crc, v, op, slot, w) && Holds(crc, base, v, slot)
    requires cut <= EventCount(op)
    ensures EventsFit(PublicationEvents(crc, op, w.gen, Other(slot))[..cut], |base|)
    ensures Reads(crc, FaultImage(base, PublicationEvents(crc, op, w.gen, Other(slot)), cut), view)
    ensures SameView(if cut > EventCount(op) - 2 then w else v, view.volume)
  {
    var events := PublicationEvents(crc, op, w.gen, Other(slot));
    FaultImageHolds(crc, base, v, op, slot, w, cut);
    var img := FaultImage(base, events, cut);
    if cut > |events| - 2 {
      HoldsReads(crc, img, w, Other(slot));
      view := View(HeadFor(crc, w.gen, Other(slot)), SelectHeader(crc, img).recovered, Volume(w.gen, PayloadRegion(img)));
    } else {
      HoldsReads(crc, img, v, slot);
      view := View(HeadFor(crc, v.gen, slot), SelectHeader(crc, img).recovered, Volume(v.gen, PayloadRegion(img)));
    }
  }

  // ---- Payload on the image ---------------------------------------------------

  /** Planned sector `k` holds its part of the content. */
  predicate Present(img: Image, sectors: seq<nat>, content: seq<Byte>, k: nat)
    requires |img| == VOLUME_SECTORS && k < |sectors| == SectorsNeeded(|content|)
    requires forall i :: 0 <= i < |sectors| ==> sectors[i] < DATA_SECTORS
  {
    img[PAYLOAD_SECTOR + sectors[k]] == Block(content, k)
  }

  /** Count the payload sectors on the image; refuse a missing one, or one that arrived although its write failed. */
  method PayloadReached(img: Image, sectors: seq<nat>, content: seq<Byte>, cut: nat) returns (r: Option<nat>)
    requires |img| == VOLUME_SECTORS && |sectors| == SectorsNeeded(|content|)
    requires forall i :: 0 <= i < |sectors| ==> sectors[i] < DATA_SECTORS
    ensures r.Some? ==> r.value == Least(cut, |sectors|)
    ensures r.Some? <==>
      && (forall k :: 0 <= k < Least(cut, |sectors|) ==> Present(img, sectors, content, k))
      && (cut < |sectors| ==> !Present(img, sectors, content, cut))
  {
    var written := Least(cut, |sectors|);
    var looked := if written < |sectors| then sectors[..written + 1] else sectors;
    for index := 0 to |looked|
      invariant forall k :: 0 <= k < index && k < written ==> Present(img, sectors, content, k)
      invariant written < index ==> !Present(img, sectors, content, written)
    {
      var expected := Block(content, index);
      var present := img[PAYLOAD_SECTOR + looked[index]] == expected;
      assert present <==> Present(img, sectors, content, index);
      if index < written && !present {
        return None;
      }
      if index == written && present {
        return None;
      }
    }
    r := Some(written);
  }

  /** One planned sector after a cut. */
  lemma SectorAfterCut(base: Image, events: seq<Event>, plan: seq<Run>, bytes: seq<Byte>, cut: nat, k: nat)
    requires |base| == VOLUME_SECTORS && RunsOk(plan, |bytes|) && PayloadFirst(events, PayloadWrites(plan, bytes))
    requires cut <= |events| && EventsFit(events[..cut], |base|) && k < |SectorList(plan)|
    ensures SectorList(plan)[k] < DATA_SECTORS
    ensures FaultImage(base, events, cut)[PAYLOAD_SECTOR + SectorList(plan)[k]]
      == if k < cut then Block(bytes, k) else base[PAYLOAD_SECTOR + SectorList(plan)[k]]
  {
    PlanTargets(plan, bytes);
    PayloadAfterCut(Disk(base, []), events, PayloadWrites(plan, bytes), cut, k);
  }

  lemma PayloadVerdictAt(base: Image, events: seq<Event>, plan: seq<Run>, bytes: seq<Byte>, cut: nat, img: Image)
    requires |base| == VOLUME_SECTORS && RunsOk(plan, |bytes|) && PayloadFirst(events, PayloadWrites(plan, bytes))
    requires cut <= |events| && EventsFit(events[..cut], |base|) && img == FaultImage(base, events, cut)
    ensures forall k :: 0 <= k < |SectorList(plan)| ==> SectorList(plan)[k] < DATA_SECTORS
    ensures forall k :: 0 <= k < Least(cut, |SectorList(plan)|) ==> Present(img, SectorList(plan), bytes, k)
    ensures cut < |SectorList(plan)| ==>
      (Present(img, SectorList(plan), bytes, cut) <==> Present(base, SectorList(plan), bytes, cut))
  {
    SectorListInside(plan, DATA_SECTORS);
    forall k | 0 <= k < Least(cut, |SectorList(plan)|) ensures Present(img, SectorList(plan), bytes, k) {
      SectorAfterCut(base, events, plan, bytes, cut, k);
    }
    if cut < |SectorList(plan)| {
      SectorAfterCut(base, events, plan, bytes, cut, cut);
    }
  }

  /**
   * On the image of a cut write the payload check passes exactly when the sector whose write failed
   * did not already hold its part of the content before the write began.
   */
  lemma PayloadVerdict(crc: Checksum, base: Image, op: Op, g: Generation, slot: U8, cut: nat, img: Image)
    requires op.OpCommit? && op.plan.Some? && RunsOk(op.plan.value, |op.bytes|) && slot < GENERATIONS
    requires NodesEncodable(g.nodes) && |g.records| == RETAINED && |g.lineage| == 16
    requires |base| == VOLUME_SECTORS && cut <= EventCount(op)
    requires EventsFit(PublicationEvents(crc, op, g, slot)[..cut], |base|)
    requires img == FaultImage(base, PublicationEvents(crc, op, g, slot), cut)
    ensures forall k :: 0 <= k < |SectorList(op.plan.value)| ==> SectorList(op.plan.value)[k] < DATA_SECTORS
    ensures forall k :: 0 <= k < Least(cut, |SectorList(op.plan.value)|) ==>
      Present(img, SectorList(op.plan.value), op.bytes, k)
    ensures cut < |SectorList(op.plan.value)| ==>
      (Present(img, SectorList(op.plan.value), op.bytes, cut) <==> Present(base, SectorList(op.plan.value), op.bytes, cut))
  {
    EventsPayloadFirst(crc, op, g, slot);
    PayloadVerdictAt(base, PublicationEvents(crc, op, g, slot), op.plan.value, op.bytes, cut, img);
  }
}
