/** Writing a publication to the device, one request at a time, stopping at the first failure. */
module Writer7 {
  import opened Bytes
  import opened Format7
  import opened BitMap
  import opened Generation7
  import opened Payload7
  import opened Image7
  import opened Device
  import opened Publication7

  // ---- The device -------------------------------------------------------------

  /** What reached the medium so far, how many more requests will succeed, and what the one that fails does. */
  datatype Progress = Progress(trace: seq<Event>, credit: nat, partial: bool)

  /** How many of `n` requests reach the medium: a failing one may reach it all the same. */
  function Reached(credit: nat, partial: bool, n: nat): (r: nat)
    ensures r <= n
  {
    if credit >= n then n else if partial then credit + 1 else credit
  }

  /** `events` were issued in order up to the first failure. */
  ghost predicate Ran(a: Progress, events: seq<Event>, b: Progress)
  {
    && b.trace == a.trace + events[..Reached(a.credit, a.partial, |events|)]
    && if a.credit >= |events| then b.credit == a.credit - |events| && b.partial == a.partial
       else b.credit == 0 && !b.partial
  }

  lemma Continues(a: Progress, x: seq<Event>, b: Progress, y: seq<Event>, c: Progress)
    requires Ran(a, x, b) && Ran(b, y, c)
    ensures Ran(a, x + y, c)
  {
    var n := Reached(a.credit, a.partial, |x + y|);
    if a.credit < |x| {
      assert (x + y)[..n] == x[..n];
      assert y[..0] == [];
    } else {
      assert x[..|x|] == x;
      assert (x + y)[..n] == x + y[..n - |x|];
    }
  }

  /** After a failure nothing more is issued. */
  lemma Stopped(a: Progress, x: seq<Event>, b: Progress, y: seq<Event>)
    requires Ran(a, x, b) && a.credit < |x|
    ensures Ran(a, x + y, b)
  {
    assert y[..0] == [];
    Continues(a, x, b, y, b);
  }

  /** A block device whose next `credit` requests succeed; the one after fails, and reaches the medium if `partial`. */
  class BlockDevice {
    var disk: Disk
    var credit: nat
    var partial: bool
    ghost var origin: Disk
    ghost var trace: seq<Event>

    /** The content is what the requests that reached the medium made of the original content. */
    ghost predicate Valid()
      reads this
    {
      DiskOk(origin) && EventsFit(trace, |origin.durable|) && disk == Perform(origin, trace)
    }

    ghost function Now(): Progress
      reads this
    {
      Progress(trace, credit, partial)
    }

    constructor (d: Disk, requests: nat, late: bool)
      requires DiskOk(d)
      ensures Valid() && disk == d && origin == d && Now() == Progress([], requests, late)
    {
      disk, credit, partial := d, requests, late;
      origin, trace := d, [];
    }

    method WriteSector(sector: nat, data: Sector) returns (ok: bool)
      requires Valid() && sector < |disk.durable|
      modifies this
      ensures Valid() && origin == old(origin) && |disk.durable| == old(|disk.durable|)
      ensures ok <==> old(credit) >= 1
      ensures Ran(old(Now()), [Put(Write(sector, data))], Now())
    {
      ok := Issue(Put(Write(sector, data)));
    }

    method Sync() returns (ok: bool)
      requires Valid()
      modifies this
      ensures Valid() && origin == old(origin) && |disk.durable| == old(|disk.durable|)
      ensures ok <==> old(credit) >= 1
      ensures Ran(old(Now()), [Flush], Now())
      ensures ok ==> disk == Disk(old(Cached(disk)), [])
    {
      ok := Issue(Flush);
    }

    /** One request: it succeeds while credit is left, and one that fails may still change the medium. */
    method Issue(event: Event) returns (ok: bool)
      requires Valid() && EventFits(event, |disk.durable|)
      modifies this
      ensures Valid() && origin == old(origin) && |disk.durable| == old(|disk.durable|)
      ensures ok <==> old(credit) >= 1
      ensures Ran(old(Now()), [event], Now())
      ensures ok ==> disk == Step(old(disk), event)
    {
      RanOne(Now(), event);
      ok := credit > 0;
      if ok || partial {
        PerformSplit(origin, trace, event);
        disk := Step(disk, event);
        trace := trace + [event];
      }
      if ok {
        credit := credit - 1;
      } else {
        partial := false;
      }
    }
  }

  lemma RanOne(p: Progress, event: Event)
    ensures p.credit > 0 ==> Ran(p, [event], Progress(p.trace + [event], p.credit - 1, p.partial))
    ensures p.credit == 0 && p.partial ==> Ran(p, [event], Progress(p.trace + [event], 0, false))
    ensures p.credit == 0 && !p.partial ==> Ran(p, [event], Progress(p.trace, 0, false))
  {
    assert [event][..1] == [event] && [event][..0] == [];
  }

  // ---- Payload and metadata ---------------------------------------------------

  /** One more event of a list; if it failed, the whole list went as far as it will. */
  lemma GoesOn(a: Progress, events: seq<Event>, k: nat, b: Progress, c: Progress)
    requires k < |events| && k <= a.credit
    requires Ran(a, events[..k], b) && Ran(b, [events[k]], c)
    ensures b.credit == a.credit - k
    ensures Ran(a, events[..k + 1], c)
    ensures a.credit == k ==> Ran(a, events, c)
  {
    assert events[..k + 1] == events[..k] + [events[k]];
    Continues(a, events[..k], b, [events[k]], c);
    if a.credit == k {
      assert events == events[..k + 1] + events[k + 1..];
      Stopped(a, events[..k + 1], c, events[k + 1..]);
    }
  }

  /** Write consecutive sectors, stopping at the first failure. */
  method WriteRegion(device: BlockDevice, base: nat, sectors: seq<Sector>) returns (ok: bool)
    requires device.Valid() && base + |sectors| <= |device.disk.durable|
    modifies device
    ensures device.Valid() && device.origin == old(device.origin)
    ensures |device.disk.durable| == old(|device.disk.durable|)
    ensures ok <==> old(device.credit) >= |sectors|
    ensures Ran(old(device.Now()), Puts(RegionWrites(base, sectors)), device.Now())
  {
    ghost var events := Puts(RegionWrites(base, sectors));
    for k := 0 to |sectors|
      invariant device.Valid() && device.origin == old(device.origin)
      invariant |device.disk.durable| == old(|device.disk.durable|)
      invariant old(device.credit) >= k
      invariant Ran(old(device.Now()), events[..k], device.Now())
    {
      ghost var p := device.Now();
      ok := device.WriteSector(base + k, sectors[k]);
      GoesOn(old(device.Now()), events, k, p, device.Now());
      if !ok {
        return;
      }
    }
    assert events[..|sectors|] == events;
    ok := true;
  }

  function RegionWrites(base: nat, sectors: seq<Sector>): (w: seq<Write>)
    ensures |w| == |sectors|
  {
    seq(|sectors|, i requires 0 <= i < |sectors| => Write(base + i, sectors[i]))
  }

  lemma MetadataInRegions(crc: Checksum, g: Generation, slot: nat)
    requires NodesEncodable(g.nodes) && |g.records| == RETAINED
    ensures Puts(MetadataWrites(crc, g, slot)) ==
      Puts(RegionWrites(NodesSector(slot), SectorsIn(NodeTable(crc, g.nodes), NODES_SECTORS)))
      + Puts(RegionWrites(MapSector(slot), SectorsIn(EncodeMap(g.used), MAP_SECTORS)))
      + Puts(RegionWrites(ReceiptsSector(slot), SectorsIn(ReceiptBlock(crc, g.records), RECEIPTS_SECTORS)))
  {
    var a := SectorsIn(NodeTable(crc, g.nodes), NODES_SECTORS);
    var b := SectorsIn(EncodeMap(g.used), MAP_SECTORS);
    var c := SectorsIn(ReceiptBlock(crc, g.records), RECEIPTS_SECTORS);
    assert Metadata(crc, g) == a + b + c;
    ThreeRegions(NodesSector(slot), a, b, c);
    assert MetadataWrites(crc, g, slot) == RegionWrites(NodesSector(slot), a + b + c);
  }

  lemma ThreeRegions(base: nat, a: seq<Sector>, b: seq<Sector>, c: seq<Sector>)
    ensures Puts(RegionWrites(base, a + b + c)) ==
      Puts(RegionWrites(base, a)) + Puts(RegionWrites(base + |a|, b)) + Puts(RegionWrites(base + |a| + |b|, c))
  {
  }

  /** The three metadata regions of a generation, in order. */
  method WriteGeneration(crc: Checksum, device: BlockDevice, g: Generation, slot: U8) returns (ok: bool)
    requires device.Valid() && |device.disk.durable| == VOLUME_SECTORS && slot < GENERATIONS
    requires NodesEncodable(g.nodes) && |g.records| == RETAINED
    modifies device
    ensures device.Valid() && device.origin == old(device.origin) && |device.disk.durable| == VOLUME_SECTORS
    ensures ok <==> old(device.credit) >= GENERATION_SECTORS
    ensures Ran(old(device.Now()), Puts(MetadataWrites(crc, g, slot)), device.Now())
  {
    ghost var before := device.Now();
    var nodes := SectorsIn(NodeTable(crc, g.nodes), NODES_SECTORS);
    var words := SectorsIn(EncodeMap(g.used), MAP_SECTORS);
    var receipts := SectorsIn(ReceiptBlock(crc, g.records), RECEIPTS_SECTORS);
    ghost var a := Puts(RegionWrites(NodesSector(slot), nodes));
    ghost var b := Puts(RegionWrites(MapSector(slot), words));
    ghost var c := Puts(RegionWrites(ReceiptsSector(slot), receipts));
    MetadataInRegions(crc, g, slot);
    ok := WriteRegion(device, NodesSector(slot), nodes);
    if !ok {
      Stopped(before, a, device.Now(), b);
      Stopped(before, a + b, device.Now(), c);
      return;
    }
    ghost var p1 := device.Now();
    ok := WriteRegion(device, MapSector(slot), words);
    Continues(before, a, p1, b, device.Now());
    if !ok {
      Stopped(before, a + b, device.Now(), c);
      return;
    }
    ghost var p2 := device.Now();
    ok := WriteRegion(device, ReceiptsSector(slot), receipts);
    Continues(before, a + b, p2, c, device.Now());
  }

  /** Sector `s` of run `r` is where the payload's next block goes. */
  lemma NextPlanned(plan: seq<Run>, bytes: seq<Byte>, r: nat, s: nat)
    requires RunsOk(plan, |bytes|) && r < |plan| && s < plan[r].count
    ensures var k := |SectorList(plan[..r])| + s;
      && k < |PayloadWrites(plan, bytes)|
      && PayloadWrites(plan, bytes)[k] == Write(PAYLOAD_SECTOR + plan[r].start + s, Block(bytes, k))
    ensures PAYLOAD_SECTOR + plan[r].start + s < VOLUME_SECTORS
    ensures |SectorList(plan[..r + 1])| == |SectorList(plan[..r])| + plan[r].count
  {
    SectorListSnoc(plan, r);
    SectorListPrefix(plan, r + 1);
    var k := |SectorList(plan[..r])| + s;
    assert SectorList(plan[..r + 1])[k] == RunSectors(plan[r])[s];
  }

  /** The first `s` events of run `r` of a planned payload. */
  ghost function RunEvents(plan: seq<Run>, bytes: seq<Byte>, r: nat, s: nat): (e: seq<Event>)
    requires RunsOk(plan, |bytes|) && r < |plan| && s <= plan[r].count
    ensures |e| == s
  {
    var from := |SectorList(plan[..r])|;
    RunInPayload(plan, bytes, r);
    seq(s, i requires 0 <= i < s => Put(Write(PAYLOAD_SECTOR + plan[r].start + i, Block(bytes, from + i))))
  }

  lemma RunInPayload(plan: seq<Run>, bytes: seq<Byte>, r: nat)
    requires RunsOk(plan, |bytes|) && r < |plan|
    ensures |SectorList(plan[..r])| + plan[r].count == |SectorList(plan[..r + 1])| <= SectorsNeeded(|bytes|)
  {
    SectorListSnoc(plan, r);
    SectorListPrefix(plan, r + 1);
  }

  lemma RunEventsSnoc(plan: seq<Run>, bytes: seq<Byte>, r: nat, s: nat)
    requires RunsOk(plan, |bytes|) && r < |plan| && s < plan[r].count
    ensures var k := |SectorList(plan[..r])| + s;
      && k < SectorsNeeded(|bytes|)
      && RunEvents(plan, bytes, r, s + 1) ==
         RunEvents(plan, bytes, r, s) + [Put(Write(PAYLOAD_SECTOR + plan[r].start + s, Block(bytes, k)))]
    ensures PAYLOAD_SECTOR + plan[r].start + s < VOLUME_SECTORS
  {
    RunInPayload(plan, bytes, r);
  }

  lemma RunEventsSplit(plan: seq<Run>, bytes: seq<Byte>, r: nat, s: nat)
    requires RunsOk(plan, |bytes|) && r < |plan| && s <= plan[r].count
    ensures RunEvents(plan, bytes, r, plan[r].count) ==
      RunEvents(plan, bytes, r, s) + RunEvents(plan, bytes, r, plan[r].count)[s..]
  {
  }

  /** Bytes written once `s` blocks of run `r`, and all runs before it, are. */
  ghost function BytesWritten(plan: seq<Run>, bytes: seq<Byte>, r: nat, s: nat): nat
    requires r < |plan|
  {
    Least((|SectorList(plan[..r])| + s) * SECTOR, |bytes|)
  }

  /** The event that writes block `s` of run `r`. */
  ghost function BlockEvent(plan: seq<Run>, bytes: seq<Byte>, r: nat, s: nat): Event
    requires RunsOk(plan, |bytes|) && r < |plan| && s < plan[r].count
  {
    RunInPayload(plan, bytes, r);
    Put(Write(PAYLOAD_SECTOR + plan[r].start + s, Block(bytes, |SectorList(plan[..r])| + s)))
  }

  /** Write the next block of run `r`, zero-padded. */
  method WriteBlock(device: BlockDevice, plan: seq<Run>, bytes: seq<Byte>, r: nat, s: nat, from: nat)
    returns (ok: bool, offset: nat)
    requires device.Valid() && |device.disk.durable| == VOLUME_SECTORS
    requires RunsOk(plan, |bytes|) && r < |plan| && s < plan[r].count
    requires from == BytesWritten(plan, bytes, r, s)
    modifies device
    ensures device.Valid() && device.origin == old(device.origin) && |device.disk.durable| == VOLUME_SECTORS
    ensures ok <==> old(device.credit) >= 1
    ensures offset == BytesWritten(plan, bytes, r, s + 1)
    ensures Ran(old(device.Now()), [BlockEvent(plan, bytes, r, s)], device.Now())
  {
    RunEventsSnoc(plan, bytes, r, s);
    var count := Least(|bytes| - from, SECTOR);
    NextBlock(bytes, |SectorList(plan[..r])| + s, from, count);
    ok := device.WriteSector(PAYLOAD_SECTOR + plan[r].start + s, bytes[from..from + count] + Zeros(SECTOR - count));
    offset := from + count;
  }

  lemma RunGoesOn(a: Progress, plan: seq<Run>, bytes: seq<Byte>, r: nat, s: nat, b: Progress, c: Progress)
    requires RunsOk(plan, |bytes|) && r < |plan| && s < plan[r].count
    requires Ran(a, RunEvents(plan, bytes, r, s), b) && Ran(b, [BlockEvent(plan, bytes, r, s)], c)
    requires s <= a.credit
    ensures b.credit == a.credit - s
    ensures Ran(a, RunEvents(plan, bytes, r, s + 1), c)
    ensures a.credit == s ==> Ran(a, RunEvents(plan, bytes, r, plan[r].count), c)
  {
    RunEventsSnoc(plan, bytes, r, s);
    Continues(a, RunEvents(plan, bytes, r, s), b, [BlockEvent(plan, bytes, r, s)], c);
    if a.credit == s {
      RunEventsSplit(plan, bytes, r, s + 1);
      Stopped(a, RunEvents(plan, bytes, r, s + 1), c, RunEvents(plan, bytes, r, plan[r].count)[s + 1..]);
    }
  }

  /** Write one planned run from byte `from` on. */
  method WriteRun(device: BlockDevice, plan: seq<Run>, bytes: seq<Byte>, r: nat, from: nat)
    returns (ok: bool, offset: nat)
    requires device.Valid() && |device.disk.durable| == VOLUME_SECTORS && RunsOk(plan, |bytes|) && r < |plan|
    requires from == BytesWritten(plan, bytes, r, 0)
    modifies device
    ensures device.Valid() && device.origin == old(device.origin) && |device.disk.durable| == VOLUME_SECTORS
    ensures ok <==> old(device.credit) >= plan[r].count
    ensures ok ==> offset == BytesWritten(plan, bytes, r, plan[r].count)
    ensures Ran(old(device.Now()), RunEvents(plan, bytes, r, plan[r].count), device.Now())
  {
    ghost var before := device.Now();
    offset := from;
    assert RunEvents(plan, bytes, r, 0) == [];
    for s := 0 to plan[r].count
      invariant device.Valid() && device.origin == old(device.origin) && |device.disk.durable| == VOLUME_SECTORS
      invariant s <= before.credit
      invariant offset == BytesWritten(plan, bytes, r, s)
      invariant Ran(before, RunEvents(plan, bytes, r, s), device.Now())
    {
      ghost var p := device.Now();
      ok, offset := WriteBlock(device, plan, bytes, r, s, offset);
      RunGoesOn(before, plan, bytes, r, s, p, device.Now());
      if !ok {
        return;
      }
    }
    ok := true;
  }

  lemma RunAfterRun(plan: seq<Run>, bytes: seq<Byte>, r: nat)
    requires RunsOk(plan, |bytes|) && r < |plan|
    ensures |SectorList(plan[..r])| + plan[r].count == |SectorList(plan[..r + 1])| <= |PayloadWrites(plan, bytes)|
    ensures Puts(PayloadWrites(plan, bytes))[..|SectorList(plan[..r + 1])|] ==
      Puts(PayloadWrites(plan, bytes))[..|SectorList(plan[..r])|] + RunEvents(plan, bytes, r, plan[r].count)
  {
    RunInPayload(plan, bytes, r);
    var whole, from, part := Puts(PayloadWrites(plan, bytes)), |SectorList(plan[..r])|, RunEvents(plan, bytes, r, plan[r].count);
    forall s | 0 <= s < |part| ensures whole[from + s] == part[s] {
      NextPlanned(plan, bytes, r, s);
    }
    Append(whole, from, part);
  }

  lemma Append<T>(whole: seq<T>, from: nat, part: seq<T>)
    requires from + |part| <= |whole| && forall i :: 0 <= i < |part| ==> whole[from + i] == part[i]
    ensures whole[..from + |part|] == whole[..from] + part
  {
  }

  /** Stream the bytes into the planned runs, one zero-padded sector at a time. */
  method WritePayload(device: BlockDevice, plan: seq<Run>, bytes: seq<Byte>) returns (ok: bool)
    requires device.Valid() && |device.disk.durable| == VOLUME_SECTORS && RunsOk(plan, |bytes|)
    modifies device
    ensures device.Valid() && device.origin == old(device.origin) && |device.disk.durable| == VOLUME_SECTORS
    ensures ok <==> old(device.credit) >= |PayloadWrites(plan, bytes)|
    ensures Ran(old(device.Now()), Puts(PayloadWrites(plan, bytes)), device.Now())
  {
    ghost var before := device.Now();
    ghost var events := Puts(PayloadWrites(plan, bytes));
    ghost var done := 0;
    var offset := 0;
    assert SectorList(plan[..0]) == [];
    for r := 0 to |plan|
      invariant device.Valid() && device.origin == old(device.origin) && |device.disk.durable| == VOLUME_SECTORS
      invariant done == |SectorList(plan[..r])| && done <= |events| && done <= before.credit
      invariant offset == Least(done * SECTOR, |bytes|)
      invariant Ran(before, events[..done], device.Now())
    {
      ghost var p, part := device.Now(), RunEvents(plan, bytes, r, plan[r].count);
      RunAfterRun(plan, bytes, r);
      ok, offset := WriteRun(device, plan, bytes, r, offset);
      Continues(before, events[..done], p, part, device.Now());
      done := done + plan[r].count;
      if !ok {
        SplitAt(events, done);
        Stopped(before, events[..done], device.Now(), events[done..]);
        return;
      }
    }
    assert plan[..|plan|] == plan;
    SplitAt(events, done);
    AllWritten(bytes, offset);
    ok := true;
  }

  lemma SplitAt<T>(s: seq<T>, k: nat)
    requires k <= |s|
    ensures s == s[..k] + s[k..]
    ensures k == |s| ==> s[..k] == s
  {
  }

  /** Once every planned sector is written no byte is left over. */
  lemma AllWritten(bytes: seq<Byte>, offset: nat)
    requires offset == Least(SectorsNeeded(|bytes|) * SECTOR, |bytes|)
    ensures offset == |bytes|
  {
  }

  lemma NextBlock(bytes: seq<Byte>, k: nat, offset: nat, count: nat)
    requires k < SectorsNeeded(|bytes|) && offset == Least(k * SECTOR, |bytes|)
    requires count == Least(|bytes| - offset, SECTOR)
    ensures bytes[offset..offset + count] + Zeros(SECTOR - count) == Block(bytes, k)
    ensures offset + count == Least((k + 1) * SECTOR, |bytes|)
  {
  }
}
