/** The mounted owner: it mounts what the device holds, plans and publishes requests, and fences itself at the first failure. */
module Owner7 {
  import opened Bytes
  import opened Format7
  import opened Generation7
  import opened Steps7
  import opened Volume7
  import opened Image7
  import opened Device
  import opened Publication7
  import opened Answers7
  import opened Effects7
  import opened Staging7
  import opened History7
  import opened Planner7
  import opened Validator7
  import opened Mount7
  import opened Writer7

  // ---- Requests ---------------------------------------------------------------

  /** What a caller asks for; where the payload goes is the owner's choice. */
  datatype Request =
    | Replace(id: Identity, expected: U64, bytes: seq<Byte>)
    | Admission(id: Identity, expected: U64, bytes: seq<Byte>)
    | Execution(id: Identity, expected: U64)
    | Cancellation(id: Identity, expected: U64, cause: Cause)
    | Maintenance
    | Creation(parent: nat, name: seq<Byte>, kind: Kind)
    | Removal(nodeId: nat)

  /** A plan, or none when no plan of at most eight free runs exists. */
  ghost predicate BestPlan(used: set<nat>, length: nat, plan: Option<seq<Run>>)
  {
    && (plan.Some? ==> PlanOk(used, length, plan.value))
    && (plan.None? ==> forall p :: !PlanOk(used, length, p))
  }

  /** The operation a request becomes once its payload is planned. */
  ghost predicate Carries(request: Request, used: set<nat>, op: Op)
  {
    match request
    case Replace(id, expected, bytes) =>
      op.OpCommit? && op.id == id && op.expected == expected && op.bytes == bytes && BestPlan(used, |bytes|, op.plan)
    case Admission(id, expected, bytes) =>
      op.OpAdmit? && op.id == id && op.expected == expected && op.bytes == bytes && BestPlan(used, |bytes|, op.plan)
    case Execution(id, expected) => op == OpExecute(id, expected)
    case Cancellation(id, expected, cause) => op == OpCancel(id, expected, cause)
    case Maintenance => op == OpMaintain
    case Creation(parent, name, kind) => op == OpCreate(parent, name, kind)
    case Removal(nodeId) => op == OpRemove(nodeId)
  }

  lemma CarriesPlan(request: Request, v: Volume, op: Op)
    requires Carries(request, v.gen.used, op)
    ensures Planned(v, op)
    ensures StagesPayload(op) ==> RunsOk(op.plan.value, |op.bytes|)
  {
  }

  /** Plan the payload of a request over the map of the mounted generation. */
  method Plan(request: Request, used: set<nat>) returns (op: Op)
    ensures Carries(request, used, op)
  {
    match request {
      case Replace(id, expected, bytes) =>
        var plan, _ := PlanPayload(used, |bytes|);
        op := OpCommit(id, expected, bytes, plan);
      case Admission(id, expected, bytes) =>
        var plan, _ := PlanPayload(used, |bytes|);
        op := OpAdmit(id, expected, bytes, plan);
      case Execution(id, expected) => op := OpExecute(id, expected);
      case Cancellation(id, expected, cause) => op := OpCancel(id, expected, cause);
      case Maintenance => op := OpMaintain;
      case Creation(parent, name, kind) => op := OpCreate(parent, name, kind);
      case Removal(nodeId) => op := OpRemove(nodeId);
    }
  }

  // ---- What is in memory ------------------------------------------------------

  ghost predicate Shaped(g: Generation)
  {
    |g.lineage| == 16 && |g.nodes| == NODES && |g.records| == RETAINED && forall s :: s in g.used ==> s < DATA_SECTORS
  }

  /** The cleared state of an owner that holds nothing. */
  function Blank(): (g: Generation)
    ensures Shaped(g)
  {
    Generation(Zeros(16), 1, 1, NEXT_MIN, seq(NODES, _ => None), seq(RETAINED, _ => None), {})
  }

  /** Requests that change memory before they publish, and so clear it when publishing fails. */
  predicate ClearsOnFailure(op: Op)
  {
    op.OpCommit? || op.OpMaintain? || op.OpCreate? || op.OpRemove?
  }

  lemma NextShaped(crc: Checksum, v: Volume, op: Op)
    requires |v.blocks| == DATA_SECTORS && Shaped(v.gen) && Attempt(crc, v, op).Publish?
    requires StagesPayload(op) ==> RunsOk(op.plan.value, |op.bytes|)
    ensures Shaped(Attempt(crc, v, op).next)
  {
  }

  class Owner {
    const crc: Checksum
    const device: BlockDevice
    const scratch: array<nat>
    var gen: Generation
    var slot: U8
    var recovered: bool
    var fenced: bool

    ghost predicate Valid()
      reads this, device
    {
      && EmptyIsZero(crc) && scratch.Length == MAP_WORDS
      && device.Valid() && |device.disk.durable| == VOLUME_SECTORS
      && Shaped(gen) && slot < GENERATIONS
    }

    /** The mounted generation over the payload the device returns. */
    ghost function TheWorld(): World
      requires Valid()
      reads this, device
    {
      World(device.disk, Volume(gen, PayloadRegion(Cached(device.disk))), slot)
    }

    /** While the owner is not fenced, the device holds what the owner has in memory, intact. */
    ghost predicate Sound()
      requires Valid()
      reads this, device
    {
      fenced || WorldOk(crc, TheWorld())
    }

    /** A fenced owner that holds nothing; `Mount` makes it usable. */
    constructor (c: Checksum, d: BlockDevice)
      requires EmptyIsZero(c) && d.Valid() && |d.disk.durable| == VOLUME_SECTORS
      ensures Valid() && Sound() && fenced && gen == Blank() && device == d && crc == c && fresh(this) && fresh(scratch)
    {
      crc, device := c, d;
      scratch := new nat[MAP_WORDS];
      gen, slot, recovered, fenced := Blank(), 0, false, true;
    }

    /**
     * Flush, choose a header, load and verify what it names. The owner becomes usable exactly when the flush
     * succeeds and the independent reader accepts the image, and then it continues from what that reader shows.
     */
    method Mount() returns (ok: bool)
      requires Valid()
      modifies this, device, scratch
      ensures Valid() && Sound() && ok == !fenced
      ensures ok <==> old(device.credit) >= 1 && exists view :: Reads(crc, old(Cached(device.disk)), view)
      ensures ok ==> Mounted(crc, old(Cached(device.disk)), TheWorld())
      ensures ok ==> (recovered <==> CopyIgnored(crc, old(Cached(device.disk))))
      ensures !ok ==> gen == Blank()
    {
      fenced := true;
      gen, slot, recovered := Blank(), 0, false;
      ok := device.Sync();
      if !ok {
        return;
      }
      var img := Cached(device.disk);
      var loaded := MountImage(crc, img, scratch);
      ok := loaded.Some?;
      if ok {
        ghost var view := LoadedView(img, loaded.value);
        LoadedShaped(crc, img, view);
        gen, slot, recovered := loaded.value.generation, loaded.value.header.generation, loaded.value.recovered;
        fenced := false;
        assert From(TheWorld(), view);
        MountOk(crc, img, TheWorld());
      }
    }

    /** Stage the payload and flush it where the protocol asks for that. */
    method Stage(op: Op) returns (ok: bool)
      requires device.Valid() && |device.disk.durable| == VOLUME_SECTORS
      requires StagesPayload(op) ==> RunsOk(op.plan.value, |op.bytes|)
      modifies device
      ensures device.Valid() && device.origin == old(device.origin) && |device.disk.durable| == VOLUME_SECTORS
      ensures ok <==> old(device.credit) >= |Puts(StagedWrites(op)) + StagedFlush(op)|
      ensures Ran(old(device.Now()), Puts(StagedWrites(op)) + StagedFlush(op), device.Now())
    {
      ghost var before := device.Now();
      ok := true;
      if StagesPayload(op) {
        ok := WritePayload(device, op.plan.value, op.bytes);
      }
      ghost var a := Puts(StagedWrites(op));
      assert Ran(before, a, device.Now());
      if !ok {
        Stopped(before, a, device.Now(), StagedFlush(op));
        return;
      }
      ghost var p1 := device.Now();
      if op.OpAdmit? {
        ok := device.Sync();
      }
      assert Ran(p1, StagedFlush(op), device.Now());
      Continues(before, a, p1, StagedFlush(op), device.Now());
    }

    /** Write the candidate generation, flush, name it with its header, flush again. */
    method PublishCandidate(g: Generation, target: U8) returns (ok: bool)
      requires device.Valid() && |device.disk.durable| == VOLUME_SECTORS && target < GENERATIONS
      requires NodesEncodable(g.nodes) && |g.records| == RETAINED && |g.lineage| == 16
      modifies device
      ensures device.Valid() && device.origin == old(device.origin) && |device.disk.durable| == VOLUME_SECTORS
      ensures ok <==> old(device.credit) >= |CandidateEvents(crc, g, target)|
      ensures Ran(old(device.Now()), CandidateEvents(crc, g, target), device.Now())
    {
      ghost var before := device.Now();
      ghost var a := Puts(MetadataWrites(crc, g, target));
      ghost var header := Put(HeaderWrite(crc, g, target));
      ok := WriteGeneration(crc, device, g, target);
      if !ok {
        Stopped(before, a, device.Now(), [Flush]);
        Stopped(before, a + [Flush], device.Now(), [header]);
        Stopped(before, a + [Flush] + [header], device.Now(), [Flush]);
        return;
      }
      ghost var p1 := device.Now();
      ok := device.Sync();
      Continues(before, a, p1, [Flush], device.Now());
      if !ok {
        Stopped(before, a + [Flush], device.Now(), [header]);
        Stopped(before, a + [Flush] + [header], device.Now(), [Flush]);
        return;
      }
      ghost var p2 := device.Now();
      var write := HeaderWrite(crc, g, target);
      ok := device.WriteSector(write.sector, write.data);
      Continues(before, a + [Flush], p2, [header], device.Now());
      if !ok {
        Stopped(before, a + [Flush] + [header], device.Now(), [Flush]);
        return;
      }
      ghost var p3 := device.Now();
      ok := device.Sync();
      Continues(before, a + [Flush] + [header], p3, [Flush], device.Now());
    }

    /** Issue the device events of one publication, up to the first failure. */
    method Publish(op: Op, g: Generation, target: U8) returns (ok: bool)
      requires device.Valid() && |device.disk.durable| == VOLUME_SECTORS && target < GENERATIONS
      requires StagesPayload(op) ==> RunsOk(op.plan.value, |op.bytes|)
      requires NodesEncodable(g.nodes) && |g.records| == RETAINED && |g.lineage| == 16
      modifies device
      ensures device.Valid() && |device.disk.durable| == VOLUME_SECTORS && DiskOk(old(device.disk))
      ensures Issued(crc, op, g, target, old(device.disk), old(device.credit), old(device.partial), device.disk, ok)
    {
      ghost var before := device.Now();
      ghost var a, b := Puts(StagedWrites(op)) + StagedFlush(op), CandidateEvents(crc, g, target);
      SameEvents(crc, op, g, target);
      ok := Stage(op);
      if !ok {
        Stopped(before, a, device.Now(), b);
      } else {
        ghost var p1 := device.Now();
        ok := PublishCandidate(g, target);
        Continues(before, a, p1, b, device.Now());
      }
      FinishRun(device.origin, before, PublicationEvents(crc, op, g, target), device.Now());
    }

    /** Publish a validated candidate and adopt it, or stay fenced. */
    method Adopt(op: Op, next: Generation)
      requires Valid() && GenerationOk(next)
      requires StagesPayload(op) ==> RunsOk(op.plan.value, |op.bytes|)
      modifies this, device
      ensures Valid() && DiskOk(old(device.disk))
      ensures Adopted(crc, old(TheWorld()), op, next, old(device.credit), old(device.partial), TheWorld(), fenced)
      ensures fenced ==> gen == if ClearsOnFailure(op) then Blank() else old(gen)
    {
      Encodable(next);
      ghost var before, p := TheWorld(), device.Now();
      fenced := true;
      var ok := Publish(op, next, Other(slot));
      if ok {
        gen, slot, fenced := next, Other(slot), false;
      } else if ClearsOnFailure(op) {
        gen, recovered := Blank(), false;
      }
      AdoptedBy(crc, before, op, next, p.credit, p.partial, device.disk, gen, slot, fenced);
    }

    /** Decide a planned request, validate the candidate it proposes, and publish it. */
    method Process(op: Op) returns (answer: Outcome)
      requires Valid() && !fenced && (StagesPayload(op) ==> RunsOk(op.plan.value, |op.bytes|))
      modifies this, device, scratch
      ensures Valid()
      ensures Served(crc, old(TheWorld()), op, old(device.credit), old(device.partial), TheWorld(), fenced, answer)
      ensures fenced ==> gen == if ClearsOnFailure(op) then Blank() else old(gen)
    {
      var v := Volume(gen, PayloadRegion(Cached(device.disk)));
      answer := Attempt(crc, v, op);
      if !answer.Publish? {
        return;
      }
      NextShaped(crc, v, op);
      var fine := ValidateGeneration(crc, answer.next, scratch);
      if !fine {
        return Refuse(Corrupt);
      }
      Adopt(op, answer.next);
      if fenced {
        answer := Refuse(Uncertain);
      }
    }

    /** One planned request of a sound owner. */
    method Handle(op: Op) returns (answer: Outcome)
      requires Valid() && !fenced && Sound() && Planned(TheWorld().volume, op)
      modifies this, device, scratch
      ensures Valid() && Sound()
      ensures Handled(crc, old(TheWorld()), op, old(device.credit), old(device.partial), TheWorld(), fenced, answer)
      ensures fenced ==> gen == if ClearsOnFailure(op) then Blank() else old(gen)
    {
      ghost var before, p := TheWorld(), device.Now();
      answer := Process(op);
      ServedHandled(crc, before, op, p.credit, p.partial, TheWorld(), fenced, answer);
    }

    /**
     * Serve one request. A fenced owner refuses it. Otherwise the owner plans the payload and the request is a turn
     * of the protocol: a refusal or a replay changes nothing, a publication issues exactly the protocol's events
     * and is adopted only when all of them succeeded. If one fails the owner is fenced over a device that some
     * prefix of those events has reached. It never finds its own candidate corrupt. Unless it was fenced, the answer
     * is the one the decision table asks for, and a published request has exactly its effect.
     */
    method Serve(request: Request) returns (answer: Outcome, ghost op: Op)
      requires Valid() && Sound()
      modifies this, device, scratch
      ensures Valid() && Sound() && Carries(request, old(gen).used, op)
      ensures old(fenced) ==> answer == Refuse(Uncertain) && fenced && TheWorld() == old(TheWorld())
      ensures !old(fenced) ==>
        Handled(crc, old(TheWorld()), op, old(device.credit), old(device.partial), TheWorld(), fenced, answer)
      ensures !old(fenced) && fenced ==>
        gen == if op.OpAdmit? || op.OpExecute? || op.OpCancel? then old(gen) else Blank()
    {
      var planned := Plan(request, gen.used);
      op := planned;
      if fenced {
        return Refuse(Uncertain), planned;
      }
      CarriesPlan(request, TheWorld().volume, planned);
      answer := Handle(planned);
    }
  }

  // ---- What one request does --------------------------------------------------

  lemma LoadedShaped(crc: Checksum, img: Image, view: View)
    requires Reads(crc, img, view)
    ensures Shaped(view.volume.gen) && view.header.generation < GENERATIONS
  {
    Encodable(view.volume.gen);
  }

  /** The first `n` of `events` made `after` out of `before`. */
  ghost predicate Reaches(before: Disk, events: seq<Event>, n: nat, after: Disk)
    requires DiskOk(before)
  {
    n <= |events| && EventsFit(events[..n], |before.durable|) && after == Perform(before, events[..n])
  }

  /** The events of one publication were issued in order up to the first failure. */
  ghost predicate Issued(crc: Checksum, op: Op, g: Generation, target: U8, before: Disk, credit: nat, partial: bool,
                         after: Disk, ok: bool)
    requires DiskOk(before) && (StagesPayload(op) ==> RunsOk(op.plan.value, |op.bytes|))
    requires NodesEncodable(g.nodes) && |g.records| == RETAINED && |g.lineage| == 16
  {
    var events := PublicationEvents(crc, op, g, target);
    (ok <==> credit >= |events|) && Reaches(before, events, Reached(credit, partial, |events|), after)
  }

  /** What publishing `next` does, given how many device requests succeed. */
  ghost predicate Adopted(crc: Checksum, a: World, op: Op, next: Generation, credit: nat, partial: bool, b: World, fenced: bool)
    requires |a.volume.blocks| == DATA_SECTORS && a.slot < GENERATIONS && DiskOk(a.disk) && GenerationOk(next)
    requires StagesPayload(op) ==> RunsOk(op.plan.value, |op.bytes|)
  {
    Encodable(next);
    && Issued(crc, op, next, Other(a.slot), a.disk, credit, partial, b.disk, !fenced)
    && (!fenced ==> b.volume == Volume(next, Staged(a.volume.blocks, op)) && b.slot == Other(a.slot))
  }

  lemma AdoptedBy(crc: Checksum, a: World, op: Op, next: Generation, credit: nat, partial: bool,
                  after: Disk, gen: Generation, slot: U8, fenced: bool)
    requires DiskOk(a.disk) && |a.disk.durable| == VOLUME_SECTORS && a.volume.blocks == PayloadRegion(Cached(a.disk))
    requires a.slot < GENERATIONS && (StagesPayload(op) ==> RunsOk(op.plan.value, |op.bytes|))
    requires GenerationOk(next) && NodesEncodable(next.nodes)
    requires Issued(crc, op, next, Other(a.slot), a.disk, credit, partial, after, !fenced)
    requires !fenced ==> gen == next && slot == Other(a.slot)
    ensures DiskOk(after) && |after.durable| == VOLUME_SECTORS
    ensures Adopted(crc, a, op, next, credit, partial, World(after, Volume(gen, PayloadRegion(Cached(after))), slot), fenced)
  {
    if !fenced {
      PublishedPayload(crc, a.disk, op, next, Other(a.slot));
      WholeSlice(PublicationEvents(crc, op, next, Other(a.slot)));
    }
  }

  /** What one request does, given how many device requests succeed. */
  ghost predicate Served(crc: Checksum, a: World, op: Op, credit: nat, partial: bool, b: World, fenced: bool, answer: Outcome)
  {
    && |a.volume.blocks| == DATA_SECTORS && a.slot < GENERATIONS && DiskOk(a.disk)
    && (StagesPayload(op) ==> RunsOk(op.plan.value, |op.bytes|))
    && if !Attempt(crc, a.volume, op).Publish? then answer == Attempt(crc, a.volume, op) && !fenced && b == a
       else
         var next := Attempt(crc, a.volume, op).next;
         if !(GenerationOk(next) && EmptyFilesOk(crc, next.nodes)) then answer == Refuse(Corrupt) && !fenced && b == a
         else
           && Adopted(crc, a, op, Attempt(crc, a.volume, op).next, credit, partial, b, fenced)
           && answer == if fenced then Refuse(Uncertain) else Attempt(crc, a.volume, op)
  }

  /** A publication completes a turn, or is stopped by a failing request and fences the owner. */
  ghost predicate PublishTaken(crc: Checksum, a: World, op: Op, w: Volume, credit: nat, partial: bool, b: World, fenced: bool)
  {
    && Publishing(crc, a.volume, op, a.slot, w)
    && (fenced <==> credit < EventCount(op))
    && if fenced then Performs(crc, a, op, w, Reached(credit, partial, EventCount(op)), b.disk)
       else Turned(crc, a, Completed(op, w), b)
  }

  /** One request from a sound world, as a turn of the protocol. */
  ghost predicate TurnTaken(crc: Checksum, a: World, op: Op, credit: nat, partial: bool, b: World, fenced: bool, answer: Outcome)
  {
    && |a.volume.blocks| == DATA_SECTORS && (StagesPayload(op) ==> RunsOk(op.plan.value, |op.bytes|))
    && answer == (if fenced then Refuse(Uncertain) else Attempt(crc, a.volume, op))
    && if Attempt(crc, a.volume, op).Publish? then
         PublishTaken(crc, a, op, After(crc, a.volume, op), credit, partial, b, fenced)
       else !fenced && Turned(crc, a, Declined(op), b)
  }

  /** The answer is the decision table's, and the volume after it is the one before or has exactly the effect asked for. */
  ghost predicate Justified(v: Volume, op: Op, answer: Outcome, w: Volume)
  {
    |v.blocks| == DATA_SECTORS && Explained(v, op, answer) && if answer.Publish? then Effect(v, op, w) else w == v
  }

  lemma AnswerJustified(crc: Checksum, v: Volume, op: Op, w: Volume)
    requires VolumeOk(crc, v) && Planned(v, op)
    requires if Attempt(crc, v, op).Publish? then w == After(crc, v, op) else w == v
    ensures Justified(v, op, Attempt(crc, v, op), w)
  {
    AlwaysExplained(crc, v, op);
    if Attempt(crc, v, op).Publish? {
      PublishedEffect(crc, v, op);
    }
  }

  /** Where a turn that fenced nothing leaves the volume. */
  lemma TurnLeaves(crc: Checksum, a: World, op: Op, credit: nat, partial: bool, b: World, answer: Outcome)
    requires TurnTaken(crc, a, op, credit, partial, b, false, answer)
    ensures |a.volume.blocks| == DATA_SECTORS && answer == Attempt(crc, a.volume, op)
    ensures answer.Publish? ==> b.volume == After(crc, a.volume, op)
    ensures !answer.Publish? ==> b.volume == a.volume
  {
  }

  /** From a sound world no candidate fails validation. */
  lemma NeverCorrupt(crc: Checksum, a: World, op: Op)
    requires EmptyIsZero(crc) && WorldOk(crc, a) && Planned(a.volume, op) && Attempt(crc, a.volume, op).Publish?
    ensures Publishing(crc, a.volume, op, a.slot, After(crc, a.volume, op))
    ensures var next := Attempt(crc, a.volume, op).next; GenerationOk(next) && EmptyFilesOk(crc, next.nodes)
  {
    BeginPublishing(crc, a.volume, op, a.slot);
    IntactFilesOk(crc, After(crc, a.volume, op));
  }

  lemma AdoptedPerforms(crc: Checksum, a: World, op: Op, credit: nat, partial: bool, w: Volume, b: World, fenced: bool)
    requires Publishing(crc, a.volume, op, a.slot, w) && DiskOk(a.disk)
    requires Adopted(crc, a, op, w.gen, credit, partial, b, fenced)
    ensures Performs(crc, a, op, w, Reached(credit, partial, EventCount(op)), b.disk)
    ensures fenced <==> credit < EventCount(op)
    ensures !fenced ==> b.volume == w && b.slot == Other(a.slot)
  {
  }

  /** A publication is a completed turn, or stops where the device failed. */
  lemma AdoptedTurn(crc: Checksum, a: World, op: Op, credit: nat, partial: bool, w: Volume, b: World, fenced: bool)
    requires Publishing(crc, a.volume, op, a.slot, w) && DiskOk(a.disk) && DiskHolds(crc, a.disk, a.volume, a.slot)
    requires Adopted(crc, a, op, w.gen, credit, partial, b, fenced)
    ensures PublishTaken(crc, a, op, w, credit, partial, b, fenced) && (fenced || WorldOk(crc, b))
  {
    AdoptedPerforms(crc, a, op, credit, partial, w, b, fenced);
    if !fenced {
      CompletedSafe(crc, a, op, w, b);
    }
  }

  lemma ServedAdopts(crc: Checksum, a: World, op: Op, credit: nat, partial: bool, b: World, fenced: bool, answer: Outcome)
    requires Served(crc, a, op, credit, partial, b, fenced, answer) && Attempt(crc, a.volume, op).Publish?
    requires var next := Attempt(crc, a.volume, op).next; GenerationOk(next) && EmptyFilesOk(crc, next.nodes)
    ensures Adopted(crc, a, op, Attempt(crc, a.volume, op).next, credit, partial, b, fenced)
    ensures answer == if fenced then Refuse(Uncertain) else Attempt(crc, a.volume, op)
  {
  }

  /** A published request is a turn of the protocol, unless the device fails. */
  lemma PublishedKeeps(crc: Checksum, a: World, op: Op, credit: nat, partial: bool, b: World, fenced: bool, answer: Outcome)
    requires EmptyIsZero(crc) && WorldOk(crc, a) && Planned(a.volume, op)
    requires Served(crc, a, op, credit, partial, b, fenced, answer) && Attempt(crc, a.volume, op).Publish?
    ensures PublishTaken(crc, a, op, After(crc, a.volume, op), credit, partial, b, fenced) && (fenced || WorldOk(crc, b))
    ensures answer == if fenced then Refuse(Uncertain) else Attempt(crc, a.volume, op)
  {
    NeverCorrupt(crc, a, op);
    ServedAdopts(crc, a, op, credit, partial, b, fenced, answer);
    AdoptedTurn(crc, a, op, credit, partial, After(crc, a.volume, op), b, fenced);
  }

  /** A served request is a turn of the protocol, and an owner that is not fenced is sound again. */
  lemma ServedKeeps(crc: Checksum, a: World, op: Op, credit: nat, partial: bool, b: World, fenced: bool, answer: Outcome)
    requires EmptyIsZero(crc) && WorldOk(crc, a) && Planned(a.volume, op)
    requires Served(crc, a, op, credit, partial, b, fenced, answer)
    ensures TurnTaken(crc, a, op, credit, partial, b, fenced, answer)
    ensures fenced || WorldOk(crc, b)
  {
    if Attempt(crc, a.volume, op).Publish? {
      PublishedKeeps(crc, a, op, credit, partial, b, fenced, answer);
    }
  }

  /**
   * A request that fenced the owner is survived: whatever the device is left with, or still returns, mounts, and
   * shows the volume before the request or the one it proposed, as the number of events that got through decides.
   */
  lemma FenceRecovers(crc: Checksum, a: World, op: Op, credit: nat, partial: bool, b: World, answer: Outcome, img: Image)
    returns (c: World)
    requires WorldOk(crc, a) && TurnTaken(crc, a, op, credit, partial, b, true, answer) && DiskOk(b.disk)
    requires Stops(crc, b.disk, img) || img == Cached(b.disk)
    ensures Attempt(crc, a.volume, op).Publish? && Mounted(crc, img, c) && WorldOk(crc, c)
    ensures CutOutcome(a.volume, After(crc, a.volume, op), a.slot, Reached(credit, partial, EventCount(op)), EventCount(op), c)
  {
    FailStopPossible(crc, b.disk);
    c := CutRestarts(crc, a, op, After(crc, a.volume, op), Reached(credit, partial, EventCount(op)), b.disk, img);
  }

  /** One turn of the protocol, and unless it fenced the owner, justified and sound again. */
  ghost predicate Handled(crc: Checksum, a: World, op: Op, credit: nat, partial: bool, b: World, fenced: bool, answer: Outcome)
  {
    && TurnTaken(crc, a, op, credit, partial, b, fenced, answer)
    && (fenced || (WorldOk(crc, b) && Justified(a.volume, op, answer, b.volume)))
  }

  lemma ServedHandled(crc: Checksum, a: World, op: Op, credit: nat, partial: bool, b: World, fenced: bool, answer: Outcome)
    requires EmptyIsZero(crc) && WorldOk(crc, a) && Planned(a.volume, op)
    requires Served(crc, a, op, credit, partial, b, fenced, answer)
    ensures Handled(crc, a, op, credit, partial, b, fenced, answer) && (fenced || WorldOk(crc, b))
  {
    ServedKeeps(crc, a, op, credit, partial, b, fenced, answer);
    if !fenced {
      TurnLeaves(crc, a, op, credit, partial, b, answer);
      AnswerJustified(crc, a.volume, op, b.volume);
    }
  }

  ghost function CandidateEvents(crc: Checksum, g: Generation, target: U8): seq<Event>
    requires NodesEncodable(g.nodes) && |g.records| == RETAINED && |g.lineage| == 16
  {
    Puts(MetadataWrites(crc, g, target)) + [Flush] + [Put(HeaderWrite(crc, g, target))] + [Flush]
  }

  lemma SameEvents(crc: Checksum, op: Op, g: Generation, target: U8)
    requires StagesPayload(op) ==> RunsOk(op.plan.value, |op.bytes|)
    requires NodesEncodable(g.nodes) && |g.records| == RETAINED && |g.lineage| == 16
    ensures PublicationEvents(crc, op, g, target) == Puts(StagedWrites(op)) + StagedFlush(op) + CandidateEvents(crc, g, target)
  {
  }

  /** What the requests that reached the medium made of its content. */
  lemma FinishRun(origin: Disk, a: Progress, events: seq<Event>, b: Progress)
    requires DiskOk(origin) && EventsFit(a.trace, |origin.durable|) && EventsFit(b.trace, |origin.durable|)
    requires Ran(a, events, b)
    ensures Reaches(Perform(origin, a.trace), events, Reached(a.credit, a.partial, |events|), Perform(origin, b.trace))
  {
    PerformConcat(origin, a.trace, events[..Reached(a.credit, a.partial, |events|)]);
  }
}
