/** A whole v7 volume: one accepted generation and the payload sectors it owns. */
module Volume7 {
  import opened Bytes
  import opened Format7
  import opened Generation7
  import opened Steps7
  import opened Preservation7
  import opened Payload7

  datatype Volume = Volume(gen: Generation, blocks: seq<Sector>)

  datatype Op =
    | OpCommit(id: Identity, expected: U64, bytes: seq<Byte>, plan: Option<seq<Run>>)
    | OpAdmit(id: Identity, expected: U64, bytes: seq<Byte>, plan: Option<seq<Run>>)
    | OpExecute(id: Identity, expected: U64)
    | OpCancel(id: Identity, expected: U64, cause: Cause)
    | OpMaintain
    | OpCreate(parent: nat, name: seq<Byte>, kind: Kind)
    | OpRemove(nodeId: nat)

  /** CRC-32 of no bytes is zero; no other value of the checksum is ever used. */
  ghost predicate EmptyIsZero(crc: Checksum)
  {
    crc([]) == 0
  }

  ghost predicate FilesIntact(crc: Checksum, v: Volume)
    requires |v.blocks| == DATA_SECTORS && NodesBounded(v.gen)
  {
    forall i :: Live(v.gen.nodes, i) && v.gen.nodes[i].value.kind == File ==>
      NodeIntact(crc, v.blocks, v.gen.nodes[i].value)
  }

  ghost predicate NodeIntact(crc: Checksum, blocks: seq<Sector>, n: Node)
    requires |blocks| == DATA_SECTORS && NodeOk(n)
  {
    crc(Content(blocks, n.runs, n.length)) == n.crc
  }

  ghost predicate RecordIntact(crc: Checksum, blocks: seq<Sector>, r: Record)
    requires |blocks| == DATA_SECTORS && RecordOk(r)
  {
    crc(Content(blocks, r.runs, r.length)) == r.crc
  }

  ghost predicate SnapshotsIntact(crc: Checksum, v: Volume)
    requires |v.blocks| == DATA_SECTORS && RecordsBounded(v.gen)
  {
    forall j :: Held(v.gen.records, j) ==>
      assert RecordInBounds(v.gen, v.gen.records[j].value); RecordIntact(crc, v.blocks, v.gen.records[j].value)
  }

  /** Everything the reader verifies about a volume. */
  ghost predicate VolumeOk(crc: Checksum, v: Volume)
  {
    && |v.blocks| == DATA_SECTORS
    && GenerationOk(v.gen)
    && FilesIntact(crc, v)
    && SnapshotsIntact(crc, v)
  }

  /** Whether a retry supplied exactly the bytes its retained snapshot holds. */
  predicate SameBytes(v: Volume, id: Identity, bytes: seq<Byte>)
    requires |v.blocks| == DATA_SECTORS
  {
    var j := FindRetry(v.gen.records, id);
    j.Some?
    && RunsOk(v.gen.records[j.value].value.runs, v.gen.records[j.value].value.length)
    && Content(v.blocks, v.gen.records[j.value].value.runs, v.gen.records[j.value].value.length) == bytes
  }

  /** What the owner does with a request: refuse it, replay a retained outcome, or publish the next generation. */
  function Attempt(crc: Checksum, v: Volume, op: Op): (o: Outcome)
    requires |v.blocks| == DATA_SECTORS
  {
    match op
    case OpCommit(id, expected, bytes, plan) =>
      if |bytes| > MAX_FILE then Refuse(Size)
      else Commit(v.gen, id, expected, |bytes|, crc(bytes), plan, SameBytes(v, id, bytes))
    case OpAdmit(id, expected, bytes, plan) =>
      if |bytes| > MAX_FILE then Refuse(Size)
      else Admit(v.gen, id, expected, |bytes|, crc(bytes), plan, SameBytes(v, id, bytes))
    case OpExecute(id, expected) => Execute(v.gen, id, expected)
    case OpCancel(id, expected, cause) => Cancel(v.gen, id, expected, cause)
    case OpMaintain => Maintain(v.gen)
    case OpCreate(parent, name, kind) => Create(v.gen, parent, name, kind)
    case OpRemove(nodeId) => Remove(v.gen, nodeId)
  }

  /** The planner's promise about a request that carries payload. */
  ghost predicate Planned(v: Volume, op: Op)
  {
    (op.OpCommit? || op.OpAdmit?) && op.plan.Some? ==> PlanOk(v.gen.used, |op.bytes|, op.plan.value)
  }

  predicate StagesPayload(op: Op)
  {
    (op.OpCommit? || op.OpAdmit?) && op.plan.Some?
  }

  ghost predicate Publishes(crc: Checksum, v: Volume, op: Op)
  {
    |v.blocks| == DATA_SECTORS && Planned(v, op) && Attempt(crc, v, op).Publish?
  }

  /** The payload region once a request has staged its bytes. */
  function Staged(blocks: seq<Sector>, op: Op): (r: seq<Sector>)
    requires |blocks| == DATA_SECTORS && (StagesPayload(op) ==> RunsOk(op.plan.value, |op.bytes|))
    ensures |r| == DATA_SECTORS
  {
    if StagesPayload(op) then Written(blocks, op.plan.value, op.bytes) else blocks
  }

  /** The volume after a published request. */
  function After(crc: Checksum, v: Volume, op: Op): (w: Volume)
    requires |v.blocks| == DATA_SECTORS && Attempt(crc, v, op).Publish?
    requires StagesPayload(op) ==> RunsOk(op.plan.value, |op.bytes|)
  {
    Volume(Attempt(crc, v, op).next, Staged(v.blocks, op))
  }

  // ---- Preservation -----------------------------------------------------------

  lemma StagedKeeps(crc: Checksum, v: Volume, op: Op)
    requires EmptyIsZero(crc) && VolumeOk(crc, v) && Publishes(crc, v, op) && (op.OpCommit? || op.OpAdmit?)
    ensures GenerationOk(Attempt(crc, v, op).next)
  {
    var g, t, sum := v.gen, FreshTarget(v.gen, op.id, op.expected), crc(op.bytes);
    if op.OpCommit? {
      CommitKeeps(g, op.id, op.expected, |op.bytes|, sum, op.plan.value, t);
    } else {
      AdmitKeeps(g, op.id, op.expected, |op.bytes|, sum, op.plan.value, t);
    }
  }

  lemma SettledKeeps(crc: Checksum, v: Volume, op: Op)
    requires VolumeOk(crc, v) && Publishes(crc, v, op) && (op.OpExecute? || op.OpCancel?)
    ensures GenerationOk(Attempt(crc, v, op).next)
  {
    var g, j := v.gen, FindRetry(v.gen.records, op.id).value;
    if op.OpExecute? {
      ExecuteKeeps(g, FindNode(g.nodes, op.id.objectId).value, j);
    } else {
      CancelKeeps(g, j, op.cause);
    }
  }

  /** Every published request leaves an accepted generation, one sequence later, never rewinding a watermark. */
  lemma AttemptKeeps(crc: Checksum, v: Volume, op: Op)
    requires EmptyIsZero(crc) && VolumeOk(crc, v) && Publishes(crc, v, op)
    ensures GenerationOk(Attempt(crc, v, op).next)
  {
    var g := v.gen;
    match op
    case OpCommit(_, _, _, _) => StagedKeeps(crc, v, op);
    case OpAdmit(_, _, _, _) => StagedKeeps(crc, v, op);
    case OpExecute(_, _) => SettledKeeps(crc, v, op);
    case OpCancel(_, _, _) => SettledKeeps(crc, v, op);
    case OpMaintain => MaintainKeeps(g);
    case OpCreate(parent, name, kind) =>
      CreateKeeps(g, FindNode(g.nodes, parent).value, FreeSlot(g.nodes).value, name, kind);
    case OpRemove(nodeId) => RemoveKeeps(g, FindNode(g.nodes, nodeId).value);
  }

  /** The step's frame: one sequence later, same lineage, and no watermark goes back. */
  lemma AttemptAdvances(crc: Checksum, v: Volume, op: Op)
    requires Publishes(crc, v, op)
    ensures var next := Attempt(crc, v, op).next;
      && next.sequence == v.gen.sequence + 1 && next.lineage == v.gen.lineage
      && next.epoch >= v.gen.epoch && next.next >= v.gen.next
  {
  }

  // ---- Payload integrity ------------------------------------------------------

  /** One owner's view of its bytes. */
  datatype Extent = Extent(runs: seq<Run>, length: nat, crc: nat)

  function NodeExtent(n: Node): Extent { Extent(n.runs, n.length, n.crc) }
  function RecordExtent(r: Record): Extent { Extent(r.runs, r.length, r.crc) }

  ghost predicate Intact(crc: Checksum, blocks: seq<Sector>, e: Extent)
  {
    |blocks| == DATA_SECTORS && RunsOk(e.runs, e.length) && crc(Content(blocks, e.runs, e.length)) == e.crc
  }

  ghost predicate LiveExtent(g: Generation, i: int, e: Extent)
  {
    Live(g.nodes, i) && g.nodes[i].value.kind == File && NodeExtent(g.nodes[i].value) == e
  }

  ghost predicate HeldExtent(g: Generation, j: int, e: Extent)
  {
    Held(g.records, j) && RecordExtent(g.records[j].value) == e
  }

  /** Some live file or retained record of `g` has this extent. */
  ghost predicate KnownExtent(g: Generation, e: Extent)
  {
    (exists i :: LiveExtent(g, i, e)) || (exists j :: HeldExtent(g, j, e))
  }

  /** Payload an owner knows lies in sectors the map marks. */
  lemma KnownExtentIsUsed(g: Generation, e: Extent, s: nat)
    requires GenerationOk(g) && KnownExtent(g, e) && Covers(e.runs, s)
    ensures s in g.used
  {
    if i :| LiveExtent(g, i, e) {
      assert FileOwns(g.nodes, i, s);
    } else {
      var j :| HeldExtent(g, j, e);
      var r := g.records[j].value;
      if Aliases(g.nodes, r) {
        var i :| 0 <= i < |g.nodes| && AliasesAt(g.nodes, i, r);
        assert FileOwns(g.nodes, i, s);
      } else {
        assert SnapshotOwns(g.nodes, g.records, j, s);
      }
    }
    assert Owned(g.nodes, g.records, s);
  }

  lemma KnownExtentIntact(crc: Checksum, v: Volume, e: Extent)
    requires VolumeOk(crc, v) && KnownExtent(v.gen, e)
    ensures Intact(crc, v.blocks, e)
  {
    if i :| LiveExtent(v.gen, i, e) {
      assert NodeOk(v.gen.nodes[i].value);
      assert NodeIntact(crc, v.blocks, v.gen.nodes[i].value);
    } else {
      var j :| HeldExtent(v.gen, j, e);
      assert RecordInBounds(v.gen, v.gen.records[j].value);
      assert RecordIntact(crc, v.blocks, v.gen.records[j].value);
    }
  }

  /** Writing a free plan leaves every known payload as it was. */
  lemma KnownExtentKept(crc: Checksum, v: Volume, op: Op, e: Extent)
    requires VolumeOk(crc, v) && Publishes(crc, v, op) && KnownExtent(v.gen, e)
    ensures Intact(crc, After(crc, v, op).blocks, e)
    ensures RunsOk(e.runs, e.length)
    ensures Content(After(crc, v, op).blocks, e.runs, e.length) == Content(v.blocks, e.runs, e.length)
  {
    KnownExtentIntact(crc, v, e);
    if StagesPayload(op) {
      forall s: nat | s < DATA_SECTORS && Covers(e.runs, s)
        ensures After(crc, v, op).blocks[s] == v.blocks[s]
      {
        KnownExtentIsUsed(v.gen, e, s);
      }
      ContentFrame(After(crc, v, op).blocks, v.blocks, e.runs, e.length);
    }
  }

  /** Where the extents of the next generation come from. */
  ghost predicate ExtentSource(crc: Checksum, v: Volume, op: Op, e: Extent)
  {
    || KnownExtent(v.gen, e)
    || (StagesPayload(op) && e == Extent(op.plan.value, |op.bytes|, crc(op.bytes)))
    || e == Extent([], 0, 0)
  }

  /** A slot the step does not touch keeps its extent. */
  lemma UntouchedExtent(g: Generation, next: Generation, i: int, e: Extent)
    ensures LiveExtent(next, i, e) && 0 <= i < |g.nodes| && next.nodes[i] == g.nodes[i] ==> KnownExtent(g, e)
    ensures HeldExtent(next, i, e) && 0 <= i < |g.records| && next.records[i] == g.records[i] ==> KnownExtent(g, e)
  {
    if LiveExtent(next, i, e) && 0 <= i < |g.nodes| && next.nodes[i] == g.nodes[i] {
      assert LiveExtent(g, i, e);
    }
    if HeldExtent(next, i, e) && 0 <= i < |g.records| && next.records[i] == g.records[i] {
      assert HeldExtent(g, i, e);
    }
  }

  lemma NextLiveExtents(crc: Checksum, v: Volume, op: Op, i: int, e: Extent)
    requires Publishes(crc, v, op) && LiveExtent(Attempt(crc, v, op).next, i, e)
    ensures ExtentSource(crc, v, op, e)
  {
    var g, next := v.gen, Attempt(crc, v, op).next;
    UntouchedExtent(g, next, i, e);
    match op
    case OpCommit(id, expected, bytes, plan) =>
      assert i != FreshTarget(g, id, expected).index ==> next.nodes[i] == g.nodes[i];
    case OpAdmit(id, expected, bytes, plan) =>
      assert next.nodes == g.nodes;
    case OpExecute(id, expected) =>
      var index, slot := FindNode(g.nodes, id.objectId).value, FindRetry(g.records, id).value;
      assert i != index ==> next.nodes[i] == g.nodes[i];
      assert i == index ==> HeldExtent(g, slot, e);
    case OpCancel(id, expected, cause) =>
    case OpMaintain =>
    case OpCreate(parent, name, kind) =>
      assert i != FreeSlot(g.nodes).value ==> next.nodes[i] == g.nodes[i];
    case OpRemove(nodeId) =>
  }

  lemma NextHeldExtents(crc: Checksum, v: Volume, op: Op, j: int, e: Extent)
    requires Publishes(crc, v, op) && HeldExtent(Attempt(crc, v, op).next, j, e)
    ensures ExtentSource(crc, v, op, e)
  {
    var g, next := v.gen, Attempt(crc, v, op).next;
    UntouchedExtent(g, next, j, e);
    match op
    case OpCommit(id, expected, bytes, plan) =>
      assert j != FreshTarget(g, id, expected).slot ==> next.records[j] == g.records[j];
    case OpAdmit(id, expected, bytes, plan) =>
      assert j != FreshTarget(g, id, expected).slot ==> next.records[j] == g.records[j];
    case OpExecute(id, expected) =>
      assert HeldExtent(g, j, e);
    case OpCancel(id, expected, cause) =>
      assert HeldExtent(g, j, e);
    case OpMaintain =>
    case OpCreate(parent, name, kind) =>
    case OpRemove(nodeId) =>
  }

  lemma NextExtents(crc: Checksum, v: Volume, op: Op, e: Extent)
    requires Publishes(crc, v, op) && KnownExtent(Attempt(crc, v, op).next, e)
    ensures ExtentSource(crc, v, op, e)
  {
    if i :| LiveExtent(Attempt(crc, v, op).next, i, e) {
      NextLiveExtents(crc, v, op, i, e);
    } else {
      var j :| HeldExtent(Attempt(crc, v, op).next, j, e);
      NextHeldExtents(crc, v, op, j, e);
    }
  }

  lemma SourceIntact(crc: Checksum, v: Volume, op: Op, e: Extent)
    requires EmptyIsZero(crc) && VolumeOk(crc, v) && Publishes(crc, v, op) && ExtentSource(crc, v, op, e)
    ensures Intact(crc, After(crc, v, op).blocks, e)
  {
    if KnownExtent(v.gen, e) {
      KnownExtentKept(crc, v, op, e);
    } else if StagesPayload(op) && e == Extent(op.plan.value, |op.bytes|, crc(op.bytes)) {
      ContentOfWritten(v.blocks, op.plan.value, op.bytes);
    } else {
      assert Content(After(crc, v, op).blocks, [], 0) == [];
    }
  }

  /** Every published request takes an accepted volume to an accepted volume. */
  lemma AfterKeeps(crc: Checksum, v: Volume, op: Op)
    requires EmptyIsZero(crc) && VolumeOk(crc, v) && Publishes(crc, v, op)
    ensures VolumeOk(crc, After(crc, v, op))
  {
    AttemptKeeps(crc, v, op);
    var w := After(crc, v, op);
    forall i | Live(w.gen.nodes, i) && w.gen.nodes[i].value.kind == File
      ensures NodeIntact(crc, w.blocks, w.gen.nodes[i].value)
    {
      var e := NodeExtent(w.gen.nodes[i].value);
      assert LiveExtent(w.gen, i, e);
      NextExtents(crc, v, op, e);
      SourceIntact(crc, v, op, e);
    }
    forall j | Held(w.gen.records, j)
      ensures RecordIntact(crc, w.blocks, w.gen.records[j].value)
    {
      var e := RecordExtent(w.gen.records[j].value);
      assert RecordInBounds(w.gen, w.gen.records[j].value);
      assert HeldExtent(w.gen, j, e);
      NextExtents(crc, v, op, e);
      SourceIntact(crc, v, op, e);
    }
  }
}
