/** A freshly provisioned volume: where every run starts. */
module Provision7 {
  import opened Bytes
  import opened Format7
  import opened Codec7
  import opened Generation7
  import opened Volume7
  import opened Image7
  import opened Device
  import opened Publication7
  import opened History7

  function RootNode(id: nat): Node
    requires 1 <= id <= 4
  {
    Node(id, 0, 1, 0, Directory, id, 0, [], ROOTS[id - 1])
  }

  function InitialNodes(): (nodes: seq<Option<Node>>)
    ensures |nodes| == NODES
  {
    seq(NODES, i requires 0 <= i < NODES => if i < 4 then Some(RootNode(i + 1)) else None)
  }

  function Initial(lineage: seq<Byte>): Generation
  {
    Generation(lineage, 1, 1, NEXT_MIN, InitialNodes(), seq(RETAINED, _ => None), {})
  }

  lemma RootNodeOk(id: nat)
    requires 1 <= id <= 4
    ensures NodeOk(RootNode(id)) && RootShape(RootNode(id))
  {
    assert ROOTS[id - 1] == ROOTS[0] || ROOTS[id - 1] == ROOTS[1] || ROOTS[id - 1] == ROOTS[2] || ROOTS[id - 1] == ROOTS[3];
  }

  lemma RootNamesDiffer(a: nat, b: nat)
    requires 1 <= a < b <= 4
    ensures ROOTS[a - 1] != ROOTS[b - 1]
  {
    assert |ROOTS[0]| == 6 && |ROOTS[1]| == 4 && |ROOTS[2]| == 6 && |ROOTS[3]| == 10;
    assert ROOTS[0][0] != ROOTS[2][0];
  }

  lemma InitialLive(nodes: seq<Option<Node>>, i: int)
    requires nodes == InitialNodes() && Live(nodes, i)
    ensures 0 <= i < 4 && nodes[i].value == RootNode(i + 1) && NodeOk(nodes[i].value) && RootShape(nodes[i].value)
    ensures ChainFrom(nodes, i, [i])
  {
    RootNodeOk(i + 1);
  }

  lemma InitialNamespace(lineage: seq<Byte>)
    ensures NamespaceOk(Initial(lineage))
  {
    var nodes := InitialNodes();
    forall i | Live(nodes, i)
      ensures nodes[i].value.id == i + 1 && NodeOk(nodes[i].value) && i < 4
      ensures nodes[i].value == RootNode(i + 1) && RootShape(nodes[i].value)
      ensures exists c :: ChainFrom(nodes, i, c)
    {
      InitialLive(nodes, i);
    }
    forall i, j | Live(nodes, i) && Live(nodes, j) && SameSibling(nodes[i].value, nodes[j].value) ensures i == j {
      InitialLive(nodes, i);
      InitialLive(nodes, j);
      if i < j { RootNamesDiffer(i + 1, j + 1); }
      if j < i { RootNamesDiffer(j + 1, i + 1); }
    }
    forall id | 1 <= id <= 4 ensures RootPresent(nodes, id) {
      assert IsRoot(nodes, id - 1, id);
    }
  }

  /** The provisioned generation passes every check. */
  lemma InitialOk(lineage: seq<Byte>)
    requires |lineage| == 16 && lineage != Zeros(16)
    ensures GenerationOk(Initial(lineage))
  {
    InitialNamespace(lineage);
    InitialOwners(lineage);
  }

  lemma InitialOwners(lineage: seq<Byte>)
    ensures OwnershipOk(Initial(lineage))
  {
    var g := Initial(lineage);
    forall i, s: nat ensures !FileOwns(g.nodes, i, s) {
      if Live(g.nodes, i) { InitialLive(g.nodes, i); }
    }
    forall j, s: nat ensures !SnapshotOwns(g.nodes, g.records, j, s) {
    }
  }

  function BlankHeaders(): seq<Write>
  {
    [Write(HeaderSector(0), Zeros(SECTOR)), Write(HeaderSector(1), Zeros(SECTOR))]
  }

  /** The events before the header write: both copies blanked and flushed, generation 0 written and flushed. */
  function FormatEvents(crc: Checksum, g: Generation): (e: seq<Event>)
    requires NodesEncodable(g.nodes) && |g.records| == RETAINED
    ensures |e| == FORMAT_EVENTS
  {
    Puts(BlankHeaders()) + [Flush] + Puts(MetadataWrites(crc, g, 0)) + [Flush]
  }

  const FORMAT_EVENTS := GENERATION_SECTORS + 4

  function ProvisionEvents(crc: Checksum, lineage: seq<Byte>): seq<Event>
    requires |lineage| == 16 && NodesEncodable(InitialNodes())
  {
    FormatEvents(crc, Initial(lineage)) + [Put(HeaderWrite(crc, Initial(lineage), 0)), Flush]
  }

  /** Everything written before the header: both copies blanked, then generation 0. */
  function FormatWrites(crc: Checksum, g: Generation): seq<Write>
    requires NodesEncodable(g.nodes) && |g.records| == RETAINED
  {
    BlankHeaders() + MetadataWrites(crc, g, 0)
  }

  lemma FormatTargets(crc: Checksum, g: Generation)
    requires NodesEncodable(g.nodes) && |g.records| == RETAINED
    ensures |FormatWrites(crc, g)| == 102
    ensures forall k :: 0 <= k < 102 ==> FormatWrites(crc, g)[k].sector == HEADER_SECTOR + k
    ensures FormatWrites(crc, g)[0].data == FormatWrites(crc, g)[1].data == Zeros(SECTOR)
    ensures forall i :: 0 <= i < GENERATION_SECTORS ==> FormatWrites(crc, g)[2 + i].data == Metadata(crc, g)[i]
  {
    var writes, tail := FormatWrites(crc, g), MetadataWrites(crc, g, 0);
    forall k | 0 <= k < 102
      ensures writes[k].sector == HEADER_SECTOR + k
      ensures k >= 2 ==> writes[k] == tail[k - 2]
    {
      if k >= 2 {
        assert tail[k - 2] == Write(NodesSector(0) + (k - 2), Metadata(crc, g)[k - 2]);
      }
    }
    forall i | 0 <= i < GENERATION_SECTORS ensures writes[2 + i].data == Metadata(crc, g)[i] {
      assert writes[2 + i] == tail[i];
    }
  }

  lemma FormatImage(crc: Checksum, base: Image, g: Generation)
    requires |base| == VOLUME_SECTORS && NodesEncodable(g.nodes) && |g.records| == RETAINED
    ensures Fits(FormatWrites(crc, g), |base|)
    ensures HoldsRegions(crc, Apply(base, FormatWrites(crc, g)), g, 0)
    ensures var img := Apply(base, FormatWrites(crc, g)); img[HeaderSector(0)] == img[HeaderSector(1)] == Zeros(SECTOR)
  {
    var writes, m := FormatWrites(crc, g), Metadata(crc, g);
    FormatTargets(crc, g);
    var img := Apply(base, writes);
    ApplyAt(base, writes, 0);
    ApplyAt(base, writes, 1);
    forall i | 0 <= i < GENERATION_SECTORS ensures img[NodesSector(0) + i] == m[i] {
      assert writes[2 + i].data == m[i];
      ApplyAt(base, writes, 2 + i);
    }
    MetadataStored(crc, img, g, 0);
  }

  lemma FormatPuts(crc: Checksum, g: Generation)
    requires NodesEncodable(g.nodes) && |g.records| == RETAINED
    ensures PutsOf(FormatEvents(crc, g)) == FormatWrites(crc, g)
  {
    var a, c := Puts(BlankHeaders()), Puts(MetadataWrites(crc, g, 0));
    PutsOfPuts(BlankHeaders());
    PutsOfPuts(MetadataWrites(crc, g, 0));
    PutsOfConcat(a, [Flush]);
    PutsOfConcat(a + [Flush], c);
    PutsOfConcat(a + [Flush] + c, [Flush]);
    FlushPuts();
  }

  lemma FlushPuts()
    ensures PutsOf([Flush]) == []
  {
    assert PutsOf([Flush]) == PutsOf([Flush][..0]) + [];
  }

  lemma HeadPuts(header: Write)
    ensures PutsOf([Put(header), Flush]) == [header]
  {
    assert [Put(header), Flush][..1] == [Put(header)];
    assert PutsOf([Put(header)]) == [header];
  }

  lemma ProvisionPuts(crc: Checksum, lineage: seq<Byte>)
    requires |lineage| == 16 && NodesEncodable(InitialNodes())
    ensures PutsOf(ProvisionEvents(crc, lineage))
            == FormatWrites(crc, Initial(lineage)) + [HeaderWrite(crc, Initial(lineage), 0)]
  {
    var g := Initial(lineage);
    FormatPuts(crc, g);
    PutsOfConcat(FormatEvents(crc, g), [Put(HeaderWrite(crc, g, 0)), Flush]);
    HeadPuts(HeaderWrite(crc, g, 0));
  }

  lemma FormattedHolds(crc: Checksum, before: Image, g: Generation)
    requires |before| == VOLUME_SECTORS && GenerationOk(g) && g.used == {} && NodesEncodable(g.nodes)
    requires HoldsRegions(crc, before, g, 0) && before[HeaderSector(1)] == Zeros(SECTOR)
    ensures var img := before[HeaderSector(0) := HeaderWrite(crc, g, 0).data];
      Holds(crc, img, Volume(g, PayloadRegion(img)), 0)
  {
    var img := before[HeaderSector(0) := HeaderWrite(crc, g, 0).data];
    RegionsFrame(crc, before, img, g, 0);
    ZeroHeaderRefused(crc, 1);
  }

  lemma InitialIntact(crc: Checksum, blocks: seq<Sector>, lineage: seq<Byte>)
    requires |blocks| == DATA_SECTORS && GenerationOk(Initial(lineage))
    ensures VolumeOk(crc, Volume(Initial(lineage), blocks))
  {
    var g := Initial(lineage);
    forall i | Live(g.nodes, i) ensures g.nodes[i].value.kind == Directory {
      InitialLive(g.nodes, i);
    }
  }

  lemma ProvisionedDisk(crc: Checksum, d: Disk, lineage: seq<Byte>)
    requires |lineage| == 16 && NodesEncodable(InitialNodes())
    requires DiskOk(d) && |d.durable| == VOLUME_SECTORS
    ensures EventsFit(ProvisionEvents(crc, lineage), |d.durable|)
    ensures Fits(FormatWrites(crc, Initial(lineage)), |d.durable|)
    ensures var g := Initial(lineage);
      Perform(d, ProvisionEvents(crc, lineage))
      == Disk(Apply(Cached(d), FormatWrites(crc, g))[HeaderSector(0) := HeaderWrite(crc, g, 0).data], [])
  {
    var g := Initial(lineage);
    var events, writes, header := ProvisionEvents(crc, lineage), FormatWrites(crc, g), HeaderWrite(crc, g, 0);
    FormatTargets(crc, g);
    ProvisionFits(crc, lineage);
    ProvisionPuts(crc, lineage);
    FlushedWrites(d, events, writes + [header]);
    ApplyConcat(Cached(d), writes, [header]);
    assert [header][..0] == [];
  }

  lemma ProvisionFits(crc: Checksum, lineage: seq<Byte>)
    requires |lineage| == 16 && NodesEncodable(InitialNodes())
    ensures EventsFit(ProvisionEvents(crc, lineage), VOLUME_SECTORS)
    ensures EventsFit(FormatEvents(crc, Initial(lineage)), VOLUME_SECTORS)
  {
    var g := Initial(lineage);
    PutsEventsFit(BlankHeaders(), VOLUME_SECTORS);
    MetadataFits(crc, g);
    PutsEventsFit(MetadataWrites(crc, g, 0), VOLUME_SECTORS);
    var a, c := Puts(BlankHeaders()), Puts(MetadataWrites(crc, g, 0));
    EventsFitConcat(a, [Flush], VOLUME_SECTORS);
    EventsFitConcat(a + [Flush], c, VOLUME_SECTORS);
    EventsFitConcat(a + [Flush] + c, [Flush], VOLUME_SECTORS);
    EventsFitConcat(FormatEvents(crc, g), [Put(HeaderWrite(crc, g, 0)), Flush], VOLUME_SECTORS);
  }

  lemma MetadataFits(crc: Checksum, g: Generation)
    requires NodesEncodable(g.nodes) && |g.records| == RETAINED
    ensures Fits(MetadataWrites(crc, g, 0), VOLUME_SECTORS)
  {
    var tail := MetadataWrites(crc, g, 0);
    forall i | 0 <= i < |tail| ensures tail[i].sector < VOLUME_SECTORS {
      assert tail[i] == Write(NodesSector(0) + i, Metadata(crc, g)[i]);
    }
  }

  lemma PutsEventsFit(writes: seq<Write>, size: nat)
    requires Fits(writes, size)
    ensures EventsFit(Puts(writes), size)
  {
  }

  lemma EventsFitConcat(a: seq<Event>, b: seq<Event>, size: nat)
    requires EventsFit(a, size) && EventsFit(b, size)
    ensures EventsFit(a + b, size)
  {
  }

  /** Whatever the medium held before, a completed provisioning leaves a sound world: the start of every run. */
  lemma ProvisionStarts(crc: Checksum, d: Disk, lineage: seq<Byte>)
    requires |lineage| == 16 && lineage != Zeros(16)
    requires DiskOk(d) && |d.durable| == VOLUME_SECTORS
    ensures NodesEncodable(InitialNodes()) && EventsFit(ProvisionEvents(crc, lineage), |d.durable|)
    ensures var e := Perform(d, ProvisionEvents(crc, lineage));
      WorldOk(crc, World(e, Volume(Initial(lineage), PayloadRegion(e.durable)), 0))
  {
    var g := Initial(lineage);
    InitialOk(lineage);
    Encodable(g);
    FormatImage(crc, Cached(d), g);
    ProvisionedDisk(crc, d, lineage);
    FormattedHolds(crc, Apply(Cached(d), FormatWrites(crc, g)), g);
    InitialIntact(crc, PayloadRegion(Perform(d, ProvisionEvents(crc, lineage)).durable), lineage);
  }

  /** The world a completed provisioning of `d` leaves. */
  ghost function Provisioned(crc: Checksum, d: Disk, lineage: seq<Byte>): World
    requires |lineage| == 16 && DiskOk(d) && |d.durable| == VOLUME_SECTORS
    requires NodesEncodable(InitialNodes()) && EventsFit(ProvisionEvents(crc, lineage), |d.durable|)
  {
    var e := Perform(d, ProvisionEvents(crc, lineage));
    World(e, Volume(Initial(lineage), PayloadRegion(e.durable)), 0)
  }

  /**
   * From provisioning on, whatever happens: whenever the power goes, idle or at any event of any publication, the
   * reader accepts whatever the medium holds and shows the volume reached or, from the header write on, the proposed one.
   */
  lemma ProvisionedForEver(crc: Checksum, d: Disk, lineage: seq<Byte>, worlds: seq<World>, turns: seq<Turn>, k: nat,
                           stop: Stop, img: Image) returns (b: World)
    requires EmptyIsZero(crc) && |lineage| == 16 && lineage != Zeros(16)
    requires DiskOk(d) && |d.durable| == VOLUME_SECTORS
    requires NodesEncodable(InitialNodes()) && EventsFit(ProvisionEvents(crc, lineage), |d.durable|)
    requires IsRun(crc, worlds, turns) && worlds[0] == Provisioned(crc, d, lineage)
    requires k <= |turns| && Left(crc, worlds[k], stop, img)
    ensures Recovered(crc, worlds[k], stop, img, b)
  {
    ProvisionStarts(crc, d, lineage);
    b := EveryStopRecovers(crc, worlds, turns, k, stop, img);
  }

  // ---- Stopping while provisioning --------------------------------------------

  /** Both header copies are durably blank and nothing in flight touches them. */
  ghost predicate Blanked(d: Disk)
  {
    && DiskOk(d) && |d.durable| == VOLUME_SECTORS
    && d.durable[HeaderSector(0)] == Zeros(SECTOR) && d.durable[HeaderSector(1)] == Zeros(SECTOR)
    && !Touches(d.pending, HeaderSector(0)) && !Touches(d.pending, HeaderSector(1))
  }

  /** Events `n` to `m` leave both header copies alone. */
  ghost predicate NoHeader(events: seq<Event>, n: nat, m: nat)
    requires m <= |events|
  {
    forall i :: n <= i < m && events[i].Put? ==> !IsHeaderSector(events[i].write.sector)
  }

  lemma BlankedStep(d: Disk, e: Event)
    requires Blanked(d) && EventFits(e, VOLUME_SECTORS) && (e.Put? ==> !IsHeaderSector(e.write.sector))
    ensures Blanked(Step(d, e))
  {
    if e.Flush? {
      ApplyFrame(d.durable, d.pending, HeaderSector(0));
      ApplyFrame(d.durable, d.pending, HeaderSector(1));
    }
  }

  lemma {:induction false} BlankedSince(d: Disk, events: seq<Event>, n: nat, cut: nat)
    requires DiskOk(d) && |d.durable| == VOLUME_SECTORS && EventsFit(events, VOLUME_SECTORS) && n <= cut <= |events|
    requires NoHeader(events, n, cut) && EventsFit(events[..n], VOLUME_SECTORS) && Blanked(Perform(d, events[..n]))
    ensures EventsFit(events[..cut], VOLUME_SECTORS) && Blanked(Perform(d, events[..cut]))
    decreases cut
  {
    if n < cut {
      var k := cut - 1;
      BlankedSince(d, events, n, k);
      PerformNext(d, events, k);
      BlankedStep(Perform(d, events[..k]), events[k]);
    }
  }

  /** With both copies blank there is nothing to mount, whatever the stop tears. */
  lemma BlankRefused(crc: Checksum, d: Disk, img: Image)
    requires Blanked(d) && Stops(crc, d, img)
    ensures |img| == VOLUME_SECTORS && SelectHeader(crc, img) == NoHead
  {
    assert MayLose(crc, d, img, HeaderSector(0)) && MayLose(crc, d, img, HeaderSector(1));
    ZeroHeaderRefused(crc, 0);
    ZeroHeaderRefused(crc, 1);
  }

  lemma BlankedFirst(d: Disk)
    requires DiskOk(d) && |d.durable| == VOLUME_SECTORS
    ensures EventsFit(Puts(BlankHeaders()) + [Flush], VOLUME_SECTORS) && Blanked(Perform(d, Puts(BlankHeaders()) + [Flush]))
  {
    var writes, events := BlankHeaders(), Puts(BlankHeaders()) + [Flush];
    PutsOfConcat(Puts(writes), [Flush]);
    PutsOfPuts(writes);
    FlushPuts();
    FlushedWrites(d, events, writes);
    ApplyAt(Cached(d), writes, 0);
    ApplyAt(Cached(d), writes, 1);
  }

  /** The blanking comes first and is flushed; nothing until the header write touches a header copy. */
  lemma FormatOrder(crc: Checksum, g: Generation)
    requires NodesEncodable(g.nodes) && |g.records| == RETAINED
    ensures FormatEvents(crc, g)[..3] == Puts(BlankHeaders()) + [Flush] && NoHeader(FormatEvents(crc, g), 3, FORMAT_EVENTS)
  {
    var events, tail := FormatEvents(crc, g), MetadataWrites(crc, g, 0);
    forall i | 0 <= i < GENERATION_SECTORS ensures events[i + 3] == Put(tail[i]) && !IsHeaderSector(tail[i].sector) {
      assert tail[i] == Write(NodesSector(0) + i, Metadata(crc, g)[i]);
    }
    forall i | 3 <= i < FORMAT_EVENTS && events[i].Put? ensures !IsHeaderSector(events[i].write.sector) {
      if i < FORMAT_EVENTS - 1 {
        assert events[(i - 3) + 3] == Put(tail[i - 3]);
      }
    }
  }

  lemma StoppedEarly(crc: Checksum, d: Disk, g: Generation, events: seq<Event>, cut: nat, img: Image)
    requires DiskOk(d) && |d.durable| == VOLUME_SECTORS && NodesEncodable(g.nodes) && |g.records| == RETAINED
    requires events == FormatEvents(crc, g) && EventsFit(events, VOLUME_SECTORS) && 3 <= cut <= FORMAT_EVENTS
    requires EventsFit(events[..cut], VOLUME_SECTORS) && Stops(crc, Perform(d, events[..cut]), img)
    ensures |img| == VOLUME_SECTORS && SelectHeader(crc, img) == NoHead
  {
    FormatOrder(crc, g);
    BlankedFirst(d);
    BlankedSince(d, events, 3, cut);
    BlankRefused(crc, Perform(d, events[..cut]), img);
  }

  lemma FormatDone(crc: Checksum, d: Disk, g: Generation)
    requires NodesEncodable(g.nodes) && |g.records| == RETAINED && DiskOk(d) && |d.durable| == VOLUME_SECTORS
    requires EventsFit(FormatEvents(crc, g), VOLUME_SECTORS)
    ensures Fits(FormatWrites(crc, g), VOLUME_SECTORS)
    ensures Perform(d, FormatEvents(crc, g)) == Disk(Apply(Cached(d), FormatWrites(crc, g)), [])
  {
    FormatPuts(crc, g);
    FlushedWrites(d, FormatEvents(crc, g), FormatWrites(crc, g));
  }

  /** Generation 0 is written and both header copies are blank. */
  ghost predicate Formatted(crc: Checksum, img: Image, g: Generation)
  {
    && |img| == VOLUME_SECTORS && GenerationOk(g) && g.used == {} && NodesEncodable(g.nodes)
    && HoldsRegions(crc, img, g, 0) && img[HeaderSector(0)] == img[HeaderSector(1)] == Zeros(SECTOR)
  }

  lemma FormatReached(crc: Checksum, d: Disk, lineage: seq<Byte>)
    requires |lineage| == 16 && lineage != Zeros(16) && DiskOk(d) && |d.durable| == VOLUME_SECTORS
    requires NodesEncodable(InitialNodes()) && Fits(FormatWrites(crc, Initial(lineage)), VOLUME_SECTORS)
    ensures Formatted(crc, Apply(Cached(d), FormatWrites(crc, Initial(lineage))), Initial(lineage))
  {
    InitialOk(lineage);
    FormatImage(crc, Cached(d), Initial(lineage));
  }

  /** A stop around the header write shows nothing or the provisioned volume. */
  lemma HeaderTorn(crc: Checksum, before: Image, g: Generation, img: Image)
    requires Formatted(crc, before, g) && Stops(crc, Disk(before, [HeaderWrite(crc, g, 0)]), img)
    ensures |img| == VOLUME_SECTORS
    ensures SelectHeader(crc, img) == NoHead || Holds(crc, img, Volume(g, PayloadRegion(img)), 0)
  {
    var d, head := Disk(before, [HeaderWrite(crc, g, 0)]), img[HeaderSector(0)];
    assert MayLose(crc, d, img, HeaderSector(0));
    forall s | 0 <= s < |img| && s != HeaderSector(0) ensures img[s] == before[s] {
      assert MayLose(crc, d, img, s) && !Touches(d.pending, s);
    }
    assert img == before[HeaderSector(0) := head];
    ZeroHeaderRefused(crc, 0);
    ZeroHeaderRefused(crc, 1);
    FormattedHolds(crc, before, g);
  }

  /** Once the header is flushed the provisioned volume stays. */
  lemma HeaderKept(crc: Checksum, before: Image, g: Generation, img: Image)
    requires Formatted(crc, before, g)
    requires Stops(crc, Step(Disk(before, [HeaderWrite(crc, g, 0)]), Flush), img)
    ensures |img| == VOLUME_SECTORS && Holds(crc, img, Volume(g, PayloadRegion(img)), 0)
  {
    var d, header := Disk(before, [HeaderWrite(crc, g, 0)]), HeaderWrite(crc, g, 0);
    assert [header][..0] == [];
    assert Apply(before, [header]) == before[header.sector := header.data];
    forall s | 0 <= s < |img| ensures img[s] == Step(d, Flush).durable[s] {
      assert MayLose(crc, Step(d, Flush), img, s);
    }
    assert img == before[HeaderSector(0) := header.data];
    FormattedHolds(crc, before, g);
  }

  lemma HeaderEvents(before: Image, header: Write)
    requires header.sector < |before|
    ensures Perform(Disk(before, []), [Put(header)]) == Disk(before, [header])
    ensures Perform(Disk(before, []), [Put(header), Flush]) == Step(Disk(before, [header]), Flush)
  {
    assert [Put(header), Flush][..1] == [Put(header)] && [Put(header)][..0] == [];
    assert Perform(Disk(before, []), [Put(header)]) == Step(Perform(Disk(before, []), []), Put(header));
  }

  lemma StoppedLate(crc: Checksum, before: Image, g: Generation, more: seq<Event>, img: Image)
    requires Formatted(crc, before, g) && EventsFit(more, VOLUME_SECTORS) && Stops(crc, Perform(Disk(before, []), more), img)
    ensures |img| == VOLUME_SECTORS
    ensures more == [Put(HeaderWrite(crc, g, 0))] ==>
      SelectHeader(crc, img) == NoHead || Holds(crc, img, Volume(g, PayloadRegion(img)), 0)
    ensures more == [Put(HeaderWrite(crc, g, 0)), Flush] ==> Holds(crc, img, Volume(g, PayloadRegion(img)), 0)
  {
    var header := HeaderWrite(crc, g, 0);
    HeaderEvents(before, header);
    if more == [Put(header)] {
      HeaderTorn(crc, before, g, img);
    } else if more == [Put(header), Flush] {
      HeaderKept(crc, before, g, img);
    }
  }

  lemma AfterFormat(crc: Checksum, d: Disk, lineage: seq<Byte>, more: seq<Event>)
    requires |lineage| == 16 && lineage != Zeros(16) && NodesEncodable(InitialNodes())
    requires DiskOk(d) && |d.durable| == VOLUME_SECTORS && EventsFit(FormatEvents(crc, Initial(lineage)) + more, VOLUME_SECTORS)
    ensures EventsFit(more, VOLUME_SECTORS) && Fits(FormatWrites(crc, Initial(lineage)), VOLUME_SECTORS)
    ensures var before := Apply(Cached(d), FormatWrites(crc, Initial(lineage)));
      && Formatted(crc, before, Initial(lineage))
      && Perform(d, FormatEvents(crc, Initial(lineage)) + more) == Perform(Disk(before, []), more)
  {
    var g := Initial(lineage);
    PerformConcat(d, FormatEvents(crc, g), more);
    FormatDone(crc, d, g);
    FormatReached(crc, d, lineage);
  }

  lemma ProvisionCut(crc: Checksum, lineage: seq<Byte>, cut: nat)
    requires |lineage| == 16 && NodesEncodable(InitialNodes()) && cut <= FORMAT_EVENTS + 2
    ensures var g, events := Initial(lineage), ProvisionEvents(crc, lineage);
      var first, header := FormatEvents(crc, g), HeaderWrite(crc, g, 0);
      && |events| == FORMAT_EVENTS + 2
      && events[..cut] == if cut <= FORMAT_EVENTS then first[..cut]
                          else if cut == FORMAT_EVENTS + 1 then first + [Put(header)] else first + [Put(header), Flush]
  {
  }

  /** What a stop after the first `cut` events of a provisioning may leave. */
  ghost predicate ProvisionLeaves(crc: Checksum, lineage: seq<Byte>, cut: nat, img: Image)
  {
    && |img| == VOLUME_SECTORS
    && (cut <= FORMAT_EVENTS ==> SelectHeader(crc, img) == NoHead)
    && (cut == FORMAT_EVENTS + 1 ==>
          SelectHeader(crc, img) == NoHead || Holds(crc, img, Volume(Initial(lineage), PayloadRegion(img)), 0))
    && (cut > FORMAT_EVENTS + 1 ==> Holds(crc, img, Volume(Initial(lineage), PayloadRegion(img)), 0))
  }

  lemma LateLeaves(crc: Checksum, d: Disk, lineage: seq<Byte>, more: seq<Event>, done: seq<Event>, img: Image)
    requires |lineage| == 16 && lineage != Zeros(16) && NodesEncodable(InitialNodes())
    requires DiskOk(d) && |d.durable| == VOLUME_SECTORS && done == FormatEvents(crc, Initial(lineage)) + more
    requires EventsFit(done, VOLUME_SECTORS) && Stops(crc, Perform(d, done), img)
    requires more == [Put(HeaderWrite(crc, Initial(lineage), 0))] || more == [Put(HeaderWrite(crc, Initial(lineage), 0)), Flush]
    ensures ProvisionLeaves(crc, lineage, FORMAT_EVENTS + |more|, img)
  {
    AfterFormat(crc, d, lineage, more);
    StoppedLate(crc, Apply(Cached(d), FormatWrites(crc, Initial(lineage))), Initial(lineage), more, img);
  }

  /**
   * From the blanking flush on, a stop anywhere in a provisioning leaves a medium that mounts as nothing or as the
   * finished volume, never as what was there before: nothing until the header is written, the volume once it is flushed.
   */
  lemma ProvisionStopped(crc: Checksum, d: Disk, lineage: seq<Byte>, cut: nat, done: seq<Event>, img: Image)
    requires |lineage| == 16 && lineage != Zeros(16) && NodesEncodable(InitialNodes())
    requires DiskOk(d) && |d.durable| == VOLUME_SECTORS
    requires 3 <= cut <= |ProvisionEvents(crc, lineage)| && done == ProvisionEvents(crc, lineage)[..cut]
    requires EventsFit(done, VOLUME_SECTORS) && Stops(crc, Perform(d, done), img)
    ensures ProvisionLeaves(crc, lineage, cut, img)
  {
    var g, header := Initial(lineage), HeaderWrite(crc, Initial(lineage), 0);
    ProvisionCut(crc, lineage, cut);
    if cut <= FORMAT_EVENTS {
      ProvisionFits(crc, lineage);
      StoppedEarly(crc, d, g, FormatEvents(crc, g), cut, img);
    } else {
      LateLeaves(crc, d, lineage, if cut == FORMAT_EVENTS + 1 then [Put(header)] else [Put(header), Flush], done, img);
    }
  }
}
