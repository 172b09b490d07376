/** When a mount reports that it ignored a header copy: never after a completed publication, always after a torn one. */
module Recovery7 {
  import opened Bytes
  import opened Format7
  import opened Codec7
  import opened Generation7
  import opened Volume7
  import opened Image7
  import opened Canonical7
  import opened Device
  import opened Publication7
  import opened History7
  import opened Provision7

  /** What the reader shows it shows as recovered exactly when a copy was ignored. */
  lemma ViewRecovered(crc: Checksum, img: Image, view: View)
    requires Reads(crc, img, view)
    ensures view.recovered <==> CopyIgnored(crc, img)
  {
    RecoveredMeans(crc, img);
  }

  /** Writing the new header beside the old one leaves both copies readable. */
  lemma BothWritten(crc: Checksum, img: Image, v: Volume, slot: U8, g: Generation)
    requires VolumeOk(crc, v) && Holds(crc, img, v, slot) && GenerationOk(g) && NodesEncodable(g.nodes)
    ensures var header := HeaderWrite(crc, g, Other(slot));
      && header.sector < |img|
      && var next := img[header.sector := header.data];
         && HeaderCopy(crc, next, slot) == Some(HeadFor(crc, v.gen, slot))
         && HeaderCopy(crc, next, Other(slot)) == Some(HeadFor(crc, g, Other(slot)))
  {
    OldCopyDecodes(crc, img, v.gen, slot);
    HeaderRoundTrip(crc, HeadFor(crc, g, Other(slot)));
  }

  /** The medium after a completed publication: prepared, with the new header written. */
  lemma CompletedImage(crc: Checksum, a: World, op: Op, w: Volume, b: World) returns (img: Image)
    requires WorldOk(crc, a) && Turned(crc, a, Completed(op, w), b)
    ensures Holds(crc, img, a.volume, a.slot)
    ensures var header := HeaderWrite(crc, w.gen, Other(a.slot));
      header.sector < |img| && b.disk == Disk(img[header.sector := header.data], [])
  {
    var before := BeforeHeader(crc, op, w.gen, Other(a.slot));
    var header := HeaderWrite(crc, w.gen, Other(a.slot));
    WholeSlice(PublicationEvents(crc, op, w.gen, Other(a.slot)));
    PrepareDurable(crc, a.disk, a.volume, op, a.slot, w);
    PerformHeader(a.disk, before, header);
    img := Perform(a.disk, before).durable;
    assert [header][..0] == [];
  }

  /** After a completed publication both copies are readable: the new head and, one sequence older, the one before. */
  lemma BothCopies(crc: Checksum, a: World, op: Op, w: Volume, b: World)
    requires WorldOk(crc, a) && Turned(crc, a, Completed(op, w), b)
    ensures b.disk.pending == [] && |b.disk.durable| == VOLUME_SECTORS
    ensures HeaderCopy(crc, b.disk.durable, a.slot) == Some(HeadFor(crc, a.volume.gen, a.slot))
    ensures HeaderCopy(crc, b.disk.durable, Other(a.slot)) == Some(HeadFor(crc, w.gen, Other(a.slot)))
  {
    var img := CompletedImage(crc, a, op, w, b);
    BothWritten(crc, img, a.volume, a.slot, w.gen);
  }

  lemma NoneIgnored(crc: Checksum, img: Image, slot: U8)
    requires |img| == VOLUME_SECTORS && slot < GENERATIONS
    requires HeaderCopy(crc, img, slot).Some? && HeaderCopy(crc, img, Other(slot)).Some?
    ensures !CopyIgnored(crc, img)
  {
    assert slot == 0 || slot == 1;
  }

  /** So a mount after it reports nothing. */
  lemma CompletedNotRecovered(crc: Checksum, a: World, op: Op, w: Volume, b: World, view: View)
    requires WorldOk(crc, a) && Turned(crc, a, Completed(op, w), b)
    requires Reads(crc, b.disk.durable, view)
    ensures !view.recovered
  {
    BothCopies(crc, a, op, w, b);
    NoneIgnored(crc, b.disk.durable, a.slot);
    ViewRecovered(crc, b.disk.durable, view);
  }

  /** A volume as provisioning leaves it, its head in slot 0. */
  predicate IsFirst(g: Generation, slot: U8)
  {
    slot == 0 && g.sequence == 1 && g.epoch == 1 && g.next == NEXT_MIN
  }

  lemma FirstOnImage(crc: Checksum, img: Image, v: Volume, slot: U8)
    requires VolumeOk(crc, v) && Holds(crc, img, v, slot)
    ensures HeaderCopy(crc, img, slot) == Some(HeadFor(crc, v.gen, slot))
    ensures IsFirst(v.gen, slot) ==> (FirstGeneration(crc, img) <==> img[HeaderSector(1)] == Zeros(SECTOR))
    ensures slot == 0 && !IsFirst(v.gen, slot) ==> !FirstGeneration(crc, img)
  {
    OldCopyDecodes(crc, img, v.gen, slot);
    ZeroSector(img[HeaderSector(1)]);
  }

  /** Whatever the reader accepts, it reports a copy unless that copy is readable or a fresh volume's zero sector. */
  lemma RecoveredExactly(crc: Checksum, img: Image, view: View)
    requires Reads(crc, img, view)
    ensures HeaderCopy(crc, img, view.header.generation) == Some(view.header)
    ensures view.recovered <==>
      && HeaderCopy(crc, img, Other(view.header.generation)).None?
      && !(IsFirst(view.volume.gen, view.header.generation) && img[HeaderSector(1)] == Zeros(SECTOR))
  {
    ReadsHolds(crc, img, view);
    FirstOnImage(crc, img, view.volume, view.header.generation);
    ViewRecovered(crc, img, view);
  }

  /**
   * A stop that tears the header write: the restart shows the old volume, and reports the torn copy unless that
   * volume is a fresh one and the torn copy is still all zero.
   */
  lemma TornRecovered(crc: Checksum, a: World, op: Op, w: Volume, d: Disk, img: Image, b: World) returns (view: View)
    requires WorldOk(crc, a) && Publishing(crc, a.volume, op, a.slot, w)
    requires Performs(crc, a, op, w, EventCount(op) - 1, d) && Stops(crc, d, img) && Restarted(crc, img, b)
    requires |img| == VOLUME_SECTORS && HeaderCopy(crc, img, Other(a.slot)).None?
    ensures Reads(crc, img, view) && From(b, view) && Shows(b, a.volume, a.slot)
    ensures view.recovered <==> !(IsFirst(a.volume.gen, a.slot) && img[HeaderSector(1)] == Zeros(SECTOR))
  {
    InterruptedSafe(crc, a, op, w, EventCount(op) - 1, img, d, b);
    view :| Reads(crc, img, view) && From(b, view);
    RecoveredExactly(crc, img, view);
  }

  /** A freshly provisioned volume is not reported either. */
  lemma ProvisionedNotRecovered(crc: Checksum, d: Disk, lineage: seq<Byte>, view: View)
    requires |lineage| == 16 && lineage != Zeros(16) && DiskOk(d) && |d.durable| == VOLUME_SECTORS
    requires NodesEncodable(InitialNodes()) && EventsFit(ProvisionEvents(crc, lineage), |d.durable|)
    requires Reads(crc, Perform(d, ProvisionEvents(crc, lineage)).durable, view)
    ensures !view.recovered && view.volume.gen == Initial(lineage)
  {
    var img := Perform(d, ProvisionEvents(crc, lineage)).durable;
    var v := Volume(Initial(lineage), PayloadRegion(img));
    ProvisionStarts(crc, d, lineage);
    HoldsReads(crc, img, v, 0);
    ReadsUnique(crc, img, view, View(HeadFor(crc, v.gen, 0), SelectHeader(crc, img).recovered, v));
    ProvisionedDisk(crc, d, lineage);
    FormatImage(crc, Cached(d), Initial(lineage));
    RecoveredExactly(crc, img, view);
  }
}
