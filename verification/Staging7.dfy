/** Where the payload writes sit among the events of a publication, and what they leave to be read. */
module Staging7 {
  import opened Bytes
  import opened Format7
  import opened Generation7
  import opened Payload7
  import opened Volume7
  import opened Image7
  import opened Device
  import opened Publication7

  lemma {:induction false} PutsAvoid(events: seq<Event>, s: nat)
    requires forall i :: 0 <= i < |events| && events[i].Put? ==> events[i].write.sector != s
    ensures !Touches(PutsOf(events), s)
  {
    if events != [] {
      PutsAvoid(events[..|events| - 1], s);
    }
  }

  /** Events of a write: `n` payload writes, then writes below the payload region and flushes. */
  ghost predicate PayloadFirst(events: seq<Event>, writes: seq<Write>)
  {
    && |writes| <= |events|
    && (forall i :: 0 <= i < |writes| ==> events[i] == Put(writes[i]) && PAYLOAD_SECTOR <= writes[i].sector)
    && (forall i :: |writes| <= i < |events| && events[i].Put? ==> events[i].write.sector < PAYLOAD_SECTOR)
  }

  /** The completed writes of a cut: a prefix of the payload, then writes below the payload region. */
  lemma CutPuts(events: seq<Event>, writes: seq<Write>, cut: nat) returns (done: seq<Write>, rest: seq<Write>)
    requires PayloadFirst(events, writes) && cut <= |events|
    ensures PutsOf(events[..cut]) == done + rest
    ensures done <= writes && |done| == Least(cut, |writes|)
    ensures forall s: nat :: PAYLOAD_SECTOR <= s ==> !Touches(rest, s)
  {
    var n := Least(cut, |writes|);
    var head, tail := events[..n], events[n..cut];
    done := writes[..n];
    assert events[..cut] == head + tail;
    assert head == Puts(done);
    PutsOfConcat(head, tail);
    PutsOfPuts(done);
    rest := PutsOf(tail);
    forall i | 0 <= i < |tail| && tail[i].Put? ensures tail[i].write.sector < PAYLOAD_SECTOR {
      assert events[n + i] == tail[i];
    }
    forall s: nat | PAYLOAD_SECTOR <= s ensures !Touches(rest, s) {
      PutsAvoid(tail, s);
    }
  }

  lemma AppliedPrefix(base: Image, done: seq<Write>, writes: seq<Write>, k: nat)
    requires done <= writes && DistinctTargets(writes) && Fits(writes, |base|) && k < |writes|
    ensures Fits(done, |base|)
    ensures Apply(base, done)[writes[k].sector] == if k < |done| then writes[k].data else base[writes[k].sector]
  {
    if k < |done| {
      ApplyAt(base, done, k);
    } else {
      ApplyFrame(base, done, writes[k].sector);
    }
  }

  lemma AppliedThenLeft(base: Image, done: seq<Write>, rest: seq<Write>, s: nat)
    requires Fits(done + rest, |base|) && s < |base| && !Touches(rest, s)
    ensures Fits(done, |base|) && Apply(base, done + rest)[s] == Apply(base, done)[s]
  {
    assert forall i :: 0 <= i < |done| ==> (done + rest)[i] == done[i];
    assert forall i :: 0 <= i < |rest| ==> (done + rest)[|done| + i] == rest[i];
    ApplyConcat(base, done, rest);
    ApplyFrame(Apply(base, done), rest, s);
  }

  /** The payload sectors after a cut: those written before it are new, the others are what they were. */
  lemma PayloadAfterCut(d: Disk, events: seq<Event>, writes: seq<Write>, cut: nat, k: nat)
    requires DiskOk(d) && PayloadFirst(events, writes) && DistinctTargets(writes) && Fits(writes, |d.durable|)
    requires k < |writes| && cut <= |events| && EventsFit(events[..cut], |d.durable|)
    ensures Cached(Perform(d, events[..cut]))[writes[k].sector]
      == if k < cut then writes[k].data else Cached(d)[writes[k].sector]
  {
    var done, rest := CutPuts(events, writes, cut);
    CachedAfter(d, events[..cut]);
    AppliedThenLeft(Cached(d), done, rest, writes[k].sector);
    AppliedPrefix(Cached(d), done, writes, k);
  }

  lemma StagedInPayload(op: Op)
    requires StagesPayload(op) ==> RunsOk(op.plan.value, |op.bytes|)
    ensures forall i :: 0 <= i < |StagedWrites(op)| ==> PAYLOAD_SECTOR <= StagedWrites(op)[i].sector < VOLUME_SECTORS
  {
    if StagesPayload(op) {
      SectorListInside(op.plan.value, DATA_SECTORS);
    }
  }

  lemma AfterPayload(crc: Checksum, op: Op, g: Generation, slot: U8, i: nat)
    requires StagesPayload(op) ==> RunsOk(op.plan.value, |op.bytes|)
    requires slot < GENERATIONS && NodesEncodable(g.nodes) && |g.records| == RETAINED && |g.lineage| == 16
    requires |StagedWrites(op)| <= i < |PublicationEvents(crc, op, g, slot)| && PublicationEvents(crc, op, g, slot)[i].Put?
    ensures PublicationEvents(crc, op, g, slot)[i].write.sector < PAYLOAD_SECTOR
  {
    var events, k := PublicationEvents(crc, op, g, slot), i - |StagedWrites(op)| - |StagedFlush(op)|;
    if 0 <= k < GENERATION_SECTORS {
      assert events[i] == Put(MetadataWrites(crc, g, slot)[k]);
      assert MetadataWrites(crc, g, slot)[k].sector == NodesSector(slot) + k;
    } else if k >= GENERATION_SECTORS {
      assert events[i] == [Flush, Put(HeaderWrite(crc, g, slot)), Flush][k - GENERATION_SECTORS];
    }
  }

  lemma EventsPayloadFirst(crc: Checksum, op: Op, g: Generation, slot: U8)
    requires StagesPayload(op) ==> RunsOk(op.plan.value, |op.bytes|)
    requires slot < GENERATIONS && NodesEncodable(g.nodes) && |g.records| == RETAINED && |g.lineage| == 16
    ensures PayloadFirst(PublicationEvents(crc, op, g, slot), StagedWrites(op))
    ensures EventsFit(PublicationEvents(crc, op, g, slot), VOLUME_SECTORS)
  {
    var writes, events := StagedWrites(op), PublicationEvents(crc, op, g, slot);
    StagedInPayload(op);
    forall i | |writes| <= i < |events| && events[i].Put? ensures events[i].write.sector < PAYLOAD_SECTOR {
      AfterPayload(crc, op, g, slot, i);
    }
    forall i | 0 <= i < |events| ensures EventFits(events[i], VOLUME_SECTORS) {
      if i < |writes| {
        assert events[i] == Put(writes[i]);
      }
    }
  }

  lemma PlanTargets(plan: seq<Run>, bytes: seq<Byte>)
    requires RunsOk(plan, |bytes|)
    ensures DistinctTargets(PayloadWrites(plan, bytes)) && Fits(PayloadWrites(plan, bytes), VOLUME_SECTORS)
    ensures forall k :: 0 <= k < |SectorList(plan)| ==> SectorList(plan)[k] < DATA_SECTORS
  {
    SectorListDistinct(plan);
    SectorListInside(plan, DATA_SECTORS);
  }

  lemma OutsidePlan(plan: seq<Run>, bytes: seq<Byte>, s: nat)
    requires RunsOk(plan, |bytes|) && !Covers(plan, s)
    ensures !Touches(PayloadWrites(plan, bytes), PAYLOAD_SECTOR + s)
  {
    SectorListCovers(plan, s);
  }

  /** Applying the payload writes is storing the payload. */
  lemma PayloadApplied(base: Image, plan: seq<Run>, bytes: seq<Byte>)
    requires |base| == VOLUME_SECTORS && RunsOk(plan, |bytes|)
    ensures Fits(PayloadWrites(plan, bytes), |base|)
    ensures PayloadRegion(Apply(base, PayloadWrites(plan, bytes))) == Written(PayloadRegion(base), plan, bytes)
  {
    PlanTargets(plan, bytes);
    var writes, blocks := PayloadWrites(plan, bytes), PayloadRegion(base);
    forall s: nat | s < DATA_SECTORS ensures PayloadRegion(Apply(base, writes))[s] == Written(blocks, plan, bytes)[s] {
      if Covers(plan, s) {
        NewPayloadStored(base, writes, blocks, plan, bytes, s);
      } else {
        OutsidePlan(plan, bytes, s);
        ApplyFrame(base, writes, PAYLOAD_SECTOR + s);
      }
    }
  }

  lemma PayloadThenRest(base: Image, done: seq<Write>, rest: seq<Write>)
    requires |base| == VOLUME_SECTORS && Fits(done + rest, |base|)
    requires forall s: nat :: PAYLOAD_SECTOR <= s ==> !Touches(rest, s)
    ensures Fits(done, |base|)
    ensures PayloadRegion(Apply(base, done + rest)) == PayloadRegion(Apply(base, done))
  {
    assert forall i :: 0 <= i < |done| ==> (done + rest)[i] == done[i];
    forall s: nat | s < DATA_SECTORS
      ensures PayloadRegion(Apply(base, done + rest))[s] == PayloadRegion(Apply(base, done))[s]
    {
      AppliedThenLeft(base, done, rest, PAYLOAD_SECTOR + s);
    }
  }

  /** Once every event of a publication is done, the readable payload is what the request staged. */
  lemma PublishedPayload(crc: Checksum, d: Disk, op: Op, g: Generation, slot: U8)
    requires DiskOk(d) && |d.durable| == VOLUME_SECTORS && slot < GENERATIONS
    requires StagesPayload(op) ==> RunsOk(op.plan.value, |op.bytes|)
    requires NodesEncodable(g.nodes) && |g.records| == RETAINED && |g.lineage| == 16
    ensures EventsFit(PublicationEvents(crc, op, g, slot), VOLUME_SECTORS)
    ensures PayloadRegion(Cached(Perform(d, PublicationEvents(crc, op, g, slot)))) == Staged(PayloadRegion(Cached(d)), op)
  {
    var events := PublicationEvents(crc, op, g, slot);
    EventsPayloadFirst(crc, op, g, slot);
    var done, rest := CutPuts(events, StagedWrites(op), |events|);
    assert events[..|events|] == events;
    CachedAfter(d, events);
    PayloadThenRest(Cached(d), done, rest);
    if StagesPayload(op) {
      PayloadApplied(Cached(d), op.plan.value, op.bytes);
      assert done == PayloadWrites(op.plan.value, op.bytes);
    }
  }

  // ---- Durable before it is named ---------------------------------------------

  /** Nothing in flight touches the payload region. */
  ghost predicate Settled(d: Disk)
  {
    DiskOk(d) && |d.durable| == VOLUME_SECTORS && forall i :: 0 <= i < |d.pending| ==> d.pending[i].sector < PAYLOAD_SECTOR
  }

  /** From event `n` on, every write is below the payload region. */
  ghost predicate BelowFrom(events: seq<Event>, n: nat)
  {
    forall i :: n <= i < |events| && events[i].Put? ==> events[i].write.sector < PAYLOAD_SECTOR
  }

  lemma SettledStep(d: Disk, e: Event)
    requires Settled(d) && EventFits(e, VOLUME_SECTORS) && (e.Put? ==> e.write.sector < PAYLOAD_SECTOR)
    ensures Settled(Step(d, e)) && PayloadRegion(Step(d, e).durable) == PayloadRegion(d.durable)
  {
    if e.Flush? {
      PayloadApplyBelow(d.durable, d.pending);
    }
  }

  /** Once settled, later events below the payload region leave it, durably, as it is. */
  lemma {:induction false} SettledSince(d: Disk, events: seq<Event>, n: nat, cut: nat)
    requires DiskOk(d) && |d.durable| == VOLUME_SECTORS && EventsFit(events, VOLUME_SECTORS) && n <= cut <= |events|
    requires BelowFrom(events, n) && EventsFit(events[..n], VOLUME_SECTORS) && Settled(Perform(d, events[..n]))
    ensures EventsFit(events[..cut], VOLUME_SECTORS) && Settled(Perform(d, events[..cut]))
    ensures PayloadRegion(Perform(d, events[..cut]).durable) == PayloadRegion(Perform(d, events[..n]).durable)
    decreases cut
  {
    if n < cut {
      var k := cut - 1;
      SettledSince(d, events, n, k);
      PerformNext(d, events, k);
      SettledStep(Perform(d, events[..k]), events[k]);
    }
  }

  lemma PayloadApplyBelow(img: Image, writes: seq<Write>)
    requires |img| == VOLUME_SECTORS && Fits(writes, |img|)
    requires forall i :: 0 <= i < |writes| ==> writes[i].sector < PAYLOAD_SECTOR
    ensures PayloadRegion(Apply(img, writes)) == PayloadRegion(img)
  {
    forall s: nat | s < DATA_SECTORS ensures PayloadRegion(Apply(img, writes))[s] == PayloadRegion(img)[s] {
      ApplyFrame(img, writes, PAYLOAD_SECTOR + s);
    }
  }

  /** A stop of a settled device leaves the payload region as it is. */
  lemma StopLeavesPayload(crc: Checksum, d: Disk, img: Image)
    requires Settled(d) && Stops(crc, d, img)
    ensures PayloadRegion(img) == PayloadRegion(d.durable)
  {
    forall s: nat | s < DATA_SECTORS ensures PayloadRegion(img)[s] == PayloadRegion(d.durable)[s] {
      assert MayLose(crc, d, img, PAYLOAD_SECTOR + s);
    }
  }

  /** The events of an admission: its payload, the flush that makes it durable, and only then the rest. */
  lemma AdmissionOrder(crc: Checksum, op: Op, g: Generation, slot: U8)
    requires op.OpAdmit? && StagesPayload(op) && RunsOk(op.plan.value, |op.bytes|)
    requires slot < GENERATIONS && NodesEncodable(g.nodes) && |g.records| == RETAINED && |g.lineage| == 16
    ensures var events, n := PublicationEvents(crc, op, g, slot), SectorsNeeded(|op.bytes|);
      && n + 1 <= |events| && events[..n + 1] == Puts(PayloadWrites(op.plan.value, op.bytes)) + [Flush]
      && BelowFrom(events, n + 1) && EventsFit(events, VOLUME_SECTORS)
  {
    var events, n := PublicationEvents(crc, op, g, slot), SectorsNeeded(|op.bytes|);
    EventsPayloadFirst(crc, op, g, slot);
    assert events[..n + 1] == Puts(PayloadWrites(op.plan.value, op.bytes)) + [Flush];
  }

  /** After the payload flush the staged payload is durable and nothing of it is in flight. */
  lemma PayloadFlushed(d: Disk, plan: seq<Run>, bytes: seq<Byte>)
    requires DiskOk(d) && |d.durable| == VOLUME_SECTORS && RunsOk(plan, |bytes|)
    ensures var events := Puts(PayloadWrites(plan, bytes)) + [Flush];
      && EventsFit(events, VOLUME_SECTORS) && Settled(Perform(d, events))
      && PayloadRegion(Perform(d, events).durable) == Written(PayloadRegion(Cached(d)), plan, bytes)
  {
    var writes := PayloadWrites(plan, bytes);
    var events := Puts(writes) + [Flush];
    PlanTargets(plan, bytes);
    PutsOfConcat(Puts(writes), [Flush]);
    PutsOfPuts(writes);
    assert PutsOf([Flush]) == [] by {
      assert PutsOf([Flush]) == PutsOf([Flush][..0]) + [];
    }
    FlushedWrites(d, events, writes);
    PayloadApplied(Cached(d), plan, bytes);
  }

  lemma DurableSince(crc: Checksum, d: Disk, events: seq<Event>, plan: seq<Run>, bytes: seq<Byte>, n: nat, cut: nat, img: Image)
    requires DiskOk(d) && |d.durable| == VOLUME_SECTORS && RunsOk(plan, |bytes|) && EventsFit(events, VOLUME_SECTORS)
    requires n <= cut <= |events| && events[..n] == Puts(PayloadWrites(plan, bytes)) + [Flush] && BelowFrom(events, n)
    requires EventsFit(events[..cut], VOLUME_SECTORS) && Stops(crc, Perform(d, events[..cut]), img)
    ensures |img| == VOLUME_SECTORS && Content(PayloadRegion(img), plan, |bytes|) == bytes
  {
    PayloadFlushed(d, plan, bytes);
    SettledSince(d, events, n, cut);
    StopLeavesPayload(crc, Perform(d, events[..cut]), img);
    ContentOfWritten(PayloadRegion(Cached(d)), plan, bytes);
  }

  /**
   * An admission names nothing that is not durable: from its payload flush on, wherever the publication stops and
   * whatever the stop tears, the medium holds exactly the admitted bytes in the planned runs.
   */
  lemma AdmittedDurable(crc: Checksum, d: Disk, op: Op, g: Generation, slot: U8, events: seq<Event>, cut: nat, img: Image)
    requires DiskOk(d) && |d.durable| == VOLUME_SECTORS && op.OpAdmit? && StagesPayload(op) && RunsOk(op.plan.value, |op.bytes|)
    requires slot < GENERATIONS && NodesEncodable(g.nodes) && |g.records| == RETAINED && |g.lineage| == 16
    requires events == PublicationEvents(crc, op, g, slot) && SectorsNeeded(|op.bytes|) < cut <= |events|
    requires EventsFit(events[..cut], VOLUME_SECTORS) && Stops(crc, Perform(d, events[..cut]), img)
    ensures |img| == VOLUME_SECTORS && Content(PayloadRegion(img), op.plan.value, |op.bytes|) == op.bytes
  {
    AdmissionOrder(crc, op, g, slot);
    DurableSince(crc, d, events, op.plan.value, op.bytes, SectorsNeeded(|op.bytes|) + 1, cut, img);
  }
}
