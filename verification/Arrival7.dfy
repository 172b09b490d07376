/** One real volume on which the payload check of an interrupted write refuses a device that did nothing wrong. */
module Arrival7 {
  import opened Bytes
  import opened Format7
  import opened Generation7
  import opened Steps7
  import opened Payload7
  import opened Volume7
  import opened Image7
  import opened Device
  import opened Publication7
  import opened Staging7
  import opened History7
  import opened Provision7
  import opened Faults7

  /** A medium of zeros, provisioned; one file created in `data`; then a sector of zeros written to it. */
  function ZeroDisk(): (d: Disk)
    ensures DiskOk(d) && |d.durable| == VOLUME_SECTORS
  {
    Disk(seq(VOLUME_SECTORS, _ => Zeros(SECTOR)), [])
  }

  function Lineage(): (l: seq<Byte>)
    ensures |l| == 16 && l != Zeros(16)
  {
    var l := seq(16, _ => 1);
    assert l[0] != Zeros(16)[0];
    l
  }

  function CreateFile(): Op
  {
    OpCreate(2, [97], File)
  }

  function ZeroWrite(): Op
  {
    OpCommit(Identity(1, 1, NEXT_MIN, 1, 1, 1), 2, Zeros(SECTOR), Some([Run(0, 1)]))
  }

  // ---- The run up to the write ------------------------------------------------

  lemma DataRoot()
    ensures FindNode(InitialNodes(), 2) == Some(1)
  {
    var nodes, r := InitialNodes(), FindNode(InitialNodes(), 2);
    assert Live(nodes, 1) && nodes[1].value == RootNode(2);
    InitialLive(nodes, r.value);
  }

  /** What creating the file makes of the provisioned generation. */
  ghost predicate HoldsFile(g: Generation)
  {
    && g.epoch == 1 && g.sequence == 2 && g.next == NEXT_MIN + 1 && g.used == {}
    && |g.records| == RETAINED && (forall j :: 0 <= j < |g.records| ==> g.records[j].None?)
    && exists i :: OnlyFile(g.nodes, i)
  }

  ghost predicate OnlyFile(nodes: seq<Option<Node>>, i: int)
  {
    && Live(nodes, i) && nodes[i].value.id == NEXT_MIN && nodes[i].value.kind == File && nodes[i].value.version == 2
    && forall k :: Live(nodes, k) && nodes[k].value.id == NEXT_MIN ==> k == i
  }

  lemma CreatePublishes(crc: Checksum, v: Volume)
    requires |v.blocks| == DATA_SECTORS && v.gen == Initial(Lineage())
    ensures Attempt(crc, v, CreateFile()).Publish? && HoldsFile(Attempt(crc, v, CreateFile()).next)
  {
    var nodes := v.gen.nodes;
    DataRoot();
    forall k | Live(nodes, k) ensures nodes[k].value.parent == 0 && nodes[k].value.id <= 4 {
      InitialLive(nodes, k);
    }
    assert nodes[4].None?;
    assert ValidName([97]);
    assert !HasChild(nodes, 2, [97]);
    var slot := FreeSlot(nodes).value;
    assert OnlyFile(Attempt(crc, v, CreateFile()).next.nodes, slot);
  }

  lemma ZeroPlan()
    ensures PlanOk({}, SECTOR, [Run(0, 1)]) && SectorList([Run(0, 1)]) == [0]
  {
    assert [Run(0, 1)][..0] == [];
    var sectors := SectorList([Run(0, 1)]);
    assert RunSectors(Run(0, 1)) == [0];
  }

  lemma WritePublishes(crc: Checksum, v: Volume)
    requires |v.blocks| == DATA_SECTORS && HoldsFile(v.gen)
    ensures Publishes(crc, v, ZeroWrite())
  {
    ZeroPlan();
    var i :| OnlyFile(v.gen.nodes, i);
    assert v.gen.records[0].None?;
    assert FindRetry(v.gen.records, ZeroWrite().id).None?;
    assert FindNode(v.gen.nodes, NEXT_MIN) == Some(i);
  }

  // ---- The payload region stays zero ------------------------------------------

  lemma ProvisionLeavesPayload(crc: Checksum, d: Disk, lineage: seq<Byte>)
    requires |lineage| == 16 && NodesEncodable(InitialNodes()) && DiskOk(d) && |d.durable| == VOLUME_SECTORS
    ensures EventsFit(ProvisionEvents(crc, lineage), |d.durable|)
    ensures Perform(d, ProvisionEvents(crc, lineage)).durable[PAYLOAD_SECTOR] == Cached(d)[PAYLOAD_SECTOR]
  {
    var g := Initial(lineage);
    ProvisionedDisk(crc, d, lineage);
    FormatTargets(crc, g);
    assert !Touches(FormatWrites(crc, g), PAYLOAD_SECTOR);
    ApplyFrame(Cached(d), FormatWrites(crc, g), PAYLOAD_SECTOR);
  }

  lemma CreateLeavesPayload(crc: Checksum, a: World, w: Volume, b: World)
    requires Turned(crc, a, Completed(CreateFile(), w), b) && |a.disk.durable| == VOLUME_SECTORS
    ensures DiskOk(b.disk) && |b.disk.durable| == VOLUME_SECTORS
    ensures Cached(b.disk)[PAYLOAD_SECTOR] == Cached(a.disk)[PAYLOAD_SECTOR]
  {
    Encodable(w.gen);
    WholeSlice(PublicationEvents(crc, CreateFile(), w.gen, Other(a.slot)));
    PublishedPayload(crc, a.disk, CreateFile(), w.gen, Other(a.slot));
    assert PayloadRegion(Cached(b.disk))[0] == PayloadRegion(Cached(a.disk))[0];
  }

  // ---- The write that fails ---------------------------------------------------

  lemma LastFlush(d: Disk, events: seq<Event>)
    requires DiskOk(d) && EventsFit(events, |d.durable|) && |events| > 0 && events[|events| - 1] == Flush
    ensures Perform(d, events).pending == [] && Cached(Perform(d, events)) == Perform(d, events).durable
  {
  }

  /** The provisioned world, sound and with a zero first payload sector. */
  lemma ZeroWorld(crc: Checksum) returns (a: World)
    ensures NodesEncodable(InitialNodes()) && EventsFit(ProvisionEvents(crc, Lineage()), VOLUME_SECTORS)
    ensures a == Provisioned(crc, ZeroDisk(), Lineage()) && WorldOk(crc, a)
    ensures DiskOk(a.disk) && |a.disk.durable| == VOLUME_SECTORS && Cached(a.disk)[PAYLOAD_SECTOR] == Zeros(SECTOR)
  {
    ProvisionStarts(crc, ZeroDisk(), Lineage());
    a := Provisioned(crc, ZeroDisk(), Lineage());
    ProvisionLeavesPayload(crc, ZeroDisk(), Lineage());
    LastFlush(ZeroDisk(), ProvisionEvents(crc, Lineage()));
  }

  /** The file is created on it, and every event of that completes. */
  lemma FileWorld(crc: Checksum, a: World) returns (w: Volume, b: World)
    requires EmptyIsZero(crc) && WorldOk(crc, a) && a.volume.gen == Initial(Lineage()) && a.slot == 0
    requires DiskOk(a.disk) && |a.disk.durable| == VOLUME_SECTORS && Cached(a.disk)[PAYLOAD_SECTOR] == Zeros(SECTOR)
    ensures Turned(crc, a, Completed(CreateFile(), w), b) && WorldOk(crc, b)
    ensures b.slot == 1 && HoldsFile(b.volume.gen) && b.disk.pending == []
    ensures |b.disk.durable| == VOLUME_SECTORS && b.disk.durable[PAYLOAD_SECTOR] == Zeros(SECTOR)
  {
    CreatePublishes(crc, a.volume);
    BeginPublishing(crc, a.volume, CreateFile(), a.slot);
    w := After(crc, a.volume, CreateFile());
    var events := PublicationEvents(crc, CreateFile(), w.gen, Other(a.slot));
    EventsPayloadFirst(crc, CreateFile(), w.gen, Other(a.slot));
    WholeSlice(events);
    b := World(Perform(a.disk, events), w, Other(a.slot));
    CompletedSafe(crc, a, CreateFile(), w, b);
    CreateLeavesPayload(crc, a, w, b);
    LastFlush(a.disk, events);
  }

  /**
   * The payload write is the first event; a device that fails it leaves the image as it was; and the check of the
   * sectors written before cut 0, none, and of the one whose write failed, finds that one in place.
   */
  ghost predicate CountsAsArrived(crc: Checksum, base: Image, g: Generation, slot: U8)
  {
    && |base| == VOLUME_SECTORS && NodesEncodable(g.nodes) && |g.records| == RETAINED && |g.lineage| == 16
    && RunsOk(ZeroWrite().plan.value, |ZeroWrite().bytes|) && SectorList(ZeroWrite().plan.value) == [0]
    && var events := PublicationEvents(crc, ZeroWrite(), g, slot);
       && events[0] == Put(Write(PAYLOAD_SECTOR, Zeros(SECTOR)))
       && FaultImage(base, events, 0) == base
       && Present(base, SectorList(ZeroWrite().plan.value), ZeroWrite().bytes, 0)
  }

  lemma ZeroPresent(crc: Checksum, base: Image, g: Generation, slot: U8)
    requires |base| == VOLUME_SECTORS && base[PAYLOAD_SECTOR] == Zeros(SECTOR)
    requires NodesEncodable(g.nodes) && |g.records| == RETAINED && |g.lineage| == 16
    ensures CountsAsArrived(crc, base, g, slot)
  {
    ZeroPlan();
    assert Block(Zeros(SECTOR), 0) == Zeros(SECTOR);
    var writes := PayloadWrites([Run(0, 1)], Zeros(SECTOR));
    assert PublicationEvents(crc, ZeroWrite(), g, slot)[0] == Put(writes[0]);
    assert PublicationEvents(crc, ZeroWrite(), g, slot)[..0] == [];
  }

  /**
   * A provisioned zero medium, one file created, then 512 zero bytes written to it with the device failing the very
   * first request. The reader accepts the image, the write publishes, nothing was written, and yet the payload
   * check finds the failed sector in place and refuses.
   */
  lemma ArrivedUnwritten(crc: Checksum) returns (a: World, made: Volume, b: World, w: Volume, view: View)
    requires EmptyIsZero(crc)
    ensures NodesEncodable(InitialNodes()) && EventsFit(ProvisionEvents(crc, Lineage()), VOLUME_SECTORS)
    ensures a == Provisioned(crc, ZeroDisk(), Lineage()) && Turned(crc, a, Completed(CreateFile(), made), b)
    ensures b.disk.pending == [] && Reads(crc, b.disk.durable, view) && SameView(b.volume, view.volume)
    ensures Publishing(crc, b.volume, ZeroWrite(), b.slot, w)
    ensures CountsAsArrived(crc, b.disk.durable, w.gen, Other(b.slot))
  {
    a := ZeroWorld(crc);
    made, b := FileWorld(crc, a);
    WritePublishes(crc, b.volume);
    BeginPublishing(crc, b.volume, ZeroWrite(), b.slot);
    w := After(crc, b.volume, ZeroWrite());
    ZeroPresent(crc, b.disk.durable, w.gen, Other(b.slot));
    HoldsReads(crc, b.disk.durable, b.volume, b.slot);
    view := View(HeadFor(crc, b.volume.gen, b.slot), SelectHeader(crc, b.disk.durable).recovered,
                 Volume(b.volume.gen, PayloadRegion(b.disk.durable)));
  }
}
