/** The logical steps of the v7 owner: each refuses, replays a retained outcome or proposes the next generation. */
module Steps7 {
  import opened Bytes
  import opened Format7
  import opened Generation7

  datatype Error =
    | Size | Invalid | Busy | ExpiredEpoch | NotFound | IsDirectory | NotDirectory | Version | Full | Exhausted
    | IdempotencyConflict | OutcomeUnknown | WasCancelled | ReadOnly | Exists | NotEmpty | Corrupt | Uncertain

  datatype Outcome = Publish(next: Generation) | Replay(record: Record) | Refuse(error: Error)

  /** The scoped retry identity of one operation. */
  datatype Identity = Identity(
    subject: U64, workspace: U32, objectId: U32, instance: U64, epoch: U64, key: U64)

  const U64_MAX := 0xFFFF_FFFF_FFFF_FFFF

  // ---- Lookups ----------------------------------------------------------------

  function FindNodeFrom(nodes: seq<Option<Node>>, id: nat, at: nat): (r: Option<nat>)
    requires at <= |nodes|
    ensures r.Some? ==> at <= r.value < |nodes| && Live(nodes, r.value) && nodes[r.value].value.id == id
    ensures r.None? ==> forall i :: at <= i && Live(nodes, i) ==> nodes[i].value.id != id
    decreases |nodes| - at
  {
    if at == |nodes| then None
    else if nodes[at].Some? && nodes[at].value.id == id then Some(at)
    else FindNodeFrom(nodes, id, at + 1)
  }

  function FindNode(nodes: seq<Option<Node>>, id: nat): (r: Option<nat>)
    ensures r.Some? ==> Live(nodes, r.value) && nodes[r.value].value.id == id
    ensures r.None? ==> forall i :: Live(nodes, i) ==> nodes[i].value.id != id
  {
    FindNodeFrom(nodes, id, 0)
  }

  predicate InScope(r: Record, id: Identity)
  {
    r.subject == id.subject && r.workspace == id.workspace && r.epoch == id.epoch && r.key == id.key
  }

  function FindRetryFrom(records: seq<Option<Record>>, id: Identity, at: nat): (r: Option<nat>)
    requires at <= |records|
    ensures r.Some? ==> at <= r.value < |records| && Held(records, r.value) && InScope(records[r.value].value, id)
    ensures r.None? ==> forall j :: at <= j && Held(records, j) ==> !InScope(records[j].value, id)
    decreases |records| - at
  {
    if at == |records| then None
    else if records[at].Some? && InScope(records[at].value, id) then Some(at)
    else FindRetryFrom(records, id, at + 1)
  }

  function FindRetry(records: seq<Option<Record>>, id: Identity): (r: Option<nat>)
    ensures r.Some? ==> Held(records, r.value) && InScope(records[r.value].value, id)
    ensures r.None? ==> forall j :: Held(records, j) ==> !InScope(records[j].value, id)
  {
    FindRetryFrom(records, id, 0)
  }

  /** The first empty slot of a table. */
  function FreeSlotFrom<T>(slots: seq<Option<T>>, at: nat): (r: Option<nat>)
    requires at <= |slots|
    ensures r.Some? ==> at <= r.value < |slots| && slots[r.value].None?
    ensures r.None? ==> forall j :: at <= j < |slots| ==> slots[j].Some?
    decreases |slots| - at
  {
    if at == |slots| then None
    else if slots[at].None? then Some(at)
    else FreeSlotFrom(slots, at + 1)
  }

  function FreeSlot<T>(slots: seq<Option<T>>): (r: Option<nat>)
    ensures r.Some? ==> r.value < |slots| && slots[r.value].None?
    ensures r.None? ==> forall j :: 0 <= j < |slots| ==> slots[j].Some?
  {
    FreeSlotFrom(slots, 0)
  }

  // ---- Payload bookkeeping ----------------------------------------------------

  function SectorsOf(runs: seq<Run>): (s: set<nat>)
  {
    set s: nat | 0 <= s < DATA_SECTORS && Covers(runs, s)
  }

  /** Whether any retained snapshot overlaps `run`. */
  predicate RetainedOwnsRun(records: seq<Option<Record>>, run: Run)
  {
    exists j :: 0 <= j < |records| && records[j].Some?
      && exists k :: 0 <= k < |records[j].value.runs| && Overlap(run, records[j].value.runs[k])
  }

  predicate ReleasesSector(records: seq<Option<Record>>, runs: seq<Run>, s: nat)
  {
    exists i :: 0 <= i < |runs| && InRun(runs[i], s) && !RetainedOwnsRun(records, runs[i])
  }

  /** The sectors a superseded or removed file gives back: its runs no retained snapshot still holds. */
  function Released(records: seq<Option<Record>>, runs: seq<Run>): (s: set<nat>)
  {
    set s: nat | 0 <= s < DATA_SECTORS && ReleasesSector(records, runs, s)
  }

  /** A payload plan: well-formed runs for `length` bytes over sectors the map marks free. */
  ghost predicate PlanOk(used: set<nat>, length: nat, plan: seq<Run>)
  {
    RunsOk(plan, length) && forall s: nat :: Covers(plan, s) ==> s !in used
  }

  // ---- Refusals shared by several steps ---------------------------------------

  predicate IdentityOk(g: Generation, id: Identity)
  {
    && id.subject != 0 && id.workspace != 0 && id.instance != 0 && id.epoch != 0 && id.key != 0
    && id.objectId >= NEXT_MIN
    && id.workspace < g.next && id.objectId < g.next
    && id.workspace != id.objectId
  }

  datatype Target = Found(index: nat, slot: nat) | Missing(error: Error)

  /** The live file and the free record slot a fresh write would use. */
  function FreshTarget(g: Generation, id: Identity, expected: U64): (t: Target)
    ensures t.Found? ==> Live(g.nodes, t.index) && t.slot < |g.records| && g.records[t.slot].None?
    ensures t.Found? ==> g.nodes[t.index].value.id == id.objectId && g.nodes[t.index].value.kind == File
    ensures t.Found? ==> g.nodes[t.index].value.version == expected
    ensures t.Found? ==> id.epoch == g.epoch && g.sequence < U64_MAX && id.instance <= g.sequence + 1
  {
    if id.epoch != g.epoch then Missing(ExpiredEpoch)
    else match FindNode(g.nodes, id.objectId)
      case None => Missing(NotFound)
      case Some(index) =>
        var n := g.nodes[index].value;
        if n.kind != File then Missing(IsDirectory)
        else if n.version != expected then Missing(Version)
        else match FreeSlot(g.records)
          case None => Missing(Full)
          case Some(slot) =>
            if g.sequence == U64_MAX then Missing(Exhausted)
            else if id.instance > g.sequence + 1 then Missing(Invalid)
            else Found(index, slot)
  }

  predicate SameOperation(r: Record, id: Identity, expected: U64)
  {
    r.objectId == id.objectId && r.instance == id.instance && r.previous == expected && InScope(r, id)
  }

  // ---- The records and nodes each step writes ---------------------------------

  function CommittedRecord(g: Generation, id: Identity, expected: U64, length: U32, crc: U32, plan: seq<Run>): Record
    requires g.sequence < U64_MAX
  {
    Record(id.subject, id.workspace, id.objectId, id.instance, id.epoch, id.key,
           expected, g.sequence + 1, 0, g.sequence + 1, length, crc, DirectCommitted, None, plan)
  }

  function AdmittedRecord(g: Generation, id: Identity, expected: U64, length: U32, crc: U32, plan: seq<Run>): Record
    requires g.sequence < U64_MAX
  {
    Record(id.subject, id.workspace, id.objectId, id.instance, id.epoch, id.key,
           expected, 0, g.sequence + 1, 0, length, crc, Admitted, None, plan)
  }

  /** The live file after a commit: same identity and place, the record's version and payload. */
  function Replaced(n: Node, r: Record): Node
  {
    n.(version := r.committed, length := r.length, crc := r.crc, runs := r.runs)
  }

  // ---- The steps --------------------------------------------------------------

  function CommitNext(g: Generation, t: Target, r: Record): Generation
    requires t.Found? && Live(g.nodes, t.index) && t.slot < |g.records| && g.sequence < U64_MAX
  {
    var n := g.nodes[t.index].value;
    g.(sequence := g.sequence + 1,
       nodes := g.nodes[t.index := Some(Replaced(n, r))],
       records := g.records[t.slot := Some(r)],
       used := g.used + SectorsOf(r.runs) - Released(g.records, n.runs))
  }

  /** A direct tracked replacement. `same` says whether a retry supplied the retained bytes. */
  function Commit(g: Generation, id: Identity, expected: U64, length: U32, crc: U32,
                  plan: Option<seq<Run>>, same: bool): (o: Outcome)
  {
    if length > MAX_FILE then Refuse(Size)
    else if !IdentityOk(g, id) then Refuse(Invalid)
    else match FindRetry(g.records, id)
      case Some(j) =>
        var r := g.records[j].value;
        if !SameOperation(r, id, expected) || r.length != length then Refuse(IdempotencyConflict)
        else if r.state != DirectCommitted then Refuse(OutcomeUnknown)
        else if !same then Refuse(IdempotencyConflict)
        else Replay(r)
      case None =>
        var t := FreshTarget(g, id, expected);
        if t.Missing? then Refuse(t.error)
        else if plan.None? then Refuse(Full)
        else Publish(CommitNext(g, t, CommittedRecord(g, id, expected, length, crc, plan.value)))
  }

  function AdmitNext(g: Generation, slot: nat, r: Record): Generation
    requires slot < |g.records| && g.sequence < U64_MAX
  {
    g.(sequence := g.sequence + 1, records := g.records[slot := Some(r)], used := g.used + SectorsOf(r.runs))
  }

  /** A durable staged admission: the candidate is owned, the live file untouched. */
  function Admit(g: Generation, id: Identity, expected: U64, length: U32, crc: U32,
                 plan: Option<seq<Run>>, same: bool): (o: Outcome)
  {
    if length > MAX_FILE then Refuse(Size)
    else if !IdentityOk(g, id) then Refuse(Invalid)
    else match FindRetry(g.records, id)
      case Some(j) =>
        var r := g.records[j].value;
        if !SameOperation(r, id, expected) || r.length != length then Refuse(IdempotencyConflict)
        else if !same then Refuse(IdempotencyConflict)
        else Replay(r)
      case None =>
        var t := FreshTarget(g, id, expected);
        if t.Missing? then Refuse(t.error)
        else if plan.None? then Refuse(Full)
        else Publish(AdmitNext(g, t.slot, AdmittedRecord(g, id, expected, length, crc, plan.value)))
  }

  function ExecutedRecord(g: Generation, r: Record): Record
    requires g.sequence < U64_MAX
  {
    r.(committed := g.sequence + 1, terminal := g.sequence + 1, state := AdmittedCommitted)
  }

  function ExecuteNext(g: Generation, index: nat, slot: nat): Generation
    requires Live(g.nodes, index) && Held(g.records, slot) && g.sequence < U64_MAX
  {
    var n, r := g.nodes[index].value, ExecutedRecord(g, g.records[slot].value);
    g.(sequence := g.sequence + 1,
       nodes := g.nodes[index := Some(Replaced(n, r))],
       records := g.records[slot := Some(r)],
       used := g.used - Released(g.records, n.runs))
  }

  /** Commit an admitted candidate, only while the live file is still the version it was admitted against. */
  function Execute(g: Generation, id: Identity, expected: U64): (o: Outcome)
  {
    if !IdentityOk(g, id) then Refuse(Invalid)
    else match FindRetry(g.records, id)
      case None => Refuse(if id.epoch != g.epoch then ExpiredEpoch else OutcomeUnknown)
      case Some(slot) =>
        var r := g.records[slot].value;
        if !SameOperation(r, id, expected) then Refuse(IdempotencyConflict)
        else if r.state == Cancelled then Refuse(WasCancelled)
        else if r.state == DirectCommitted then Refuse(IdempotencyConflict)
        else if r.state == AdmittedCommitted then Replay(r)
        else match FindNode(g.nodes, id.objectId)
          case None => Refuse(NotFound)
          case Some(index) =>
            var n := g.nodes[index].value;
            if n.kind != File then Refuse(IsDirectory)
            else if n.version != r.previous then Refuse(Version)
            else if g.sequence == U64_MAX then Refuse(Exhausted)
            else Publish(ExecuteNext(g, index, slot))
  }

  function CancelledRecord(g: Generation, r: Record, cause: Cause): Record
    requires g.sequence < U64_MAX
  {
    r.(committed := 0, terminal := g.sequence + 1, state := Cancelled, cause := Some(cause))
  }

  function CancelNext(g: Generation, slot: nat, cause: Cause): Generation
    requires Held(g.records, slot) && g.sequence < U64_MAX
  {
    g.(sequence := g.sequence + 1,
       records := g.records[slot := Some(CancelledRecord(g, g.records[slot].value, cause))])
  }

  /** A durable no-effect end of an admission; its candidate stays owned until maintenance. */
  function Cancel(g: Generation, id: Identity, expected: U64, cause: Cause): (o: Outcome)
  {
    if !IdentityOk(g, id) then Refuse(Invalid)
    else match FindRetry(g.records, id)
      case None => Refuse(if id.epoch != g.epoch then ExpiredEpoch else OutcomeUnknown)
      case Some(slot) =>
        var r := g.records[slot].value;
        if !SameOperation(r, id, expected) then Refuse(IdempotencyConflict)
        else if r.state == Cancelled then
          if r.cause != Some(cause) then Refuse(IdempotencyConflict) else Replay(r)
        else if Committed(r) then Replay(r)
        else if g.sequence == U64_MAX then Refuse(Exhausted)
        else Publish(CancelNext(g, slot, cause))
  }

  predicate Unresolved(records: seq<Option<Record>>)
  {
    exists j :: 0 <= j < |records| && records[j].Some? && records[j].value.state == Admitted
  }

  predicate FileCovers(nodes: seq<Option<Node>>, s: nat)
  {
    exists i :: 0 <= i < |nodes| && FileOwns(nodes, i, s)
  }

  /** The map rebuilt from the live files alone. */
  function LiveSectors(nodes: seq<Option<Node>>): (s: set<nat>)
  {
    set s: nat | 0 <= s < DATA_SECTORS && FileCovers(nodes, s)
  }

  function MaintainNext(g: Generation): Generation
    requires g.sequence < U64_MAX && g.epoch < U64_MAX
  {
    g.(sequence := g.sequence + 1, epoch := g.epoch + 1,
       records := seq(|g.records|, _ => None), used := LiveSectors(g.nodes))
  }

  /** Drop every retained outcome and open the next retry epoch, unless an admission is unresolved. */
  function Maintain(g: Generation): (o: Outcome)
  {
    if Unresolved(g.records) then Refuse(Busy)
    else if g.epoch == U64_MAX || g.sequence == U64_MAX then Refuse(Exhausted)
    else Publish(MaintainNext(g))
  }

  function CreatedNode(g: Generation, parent: Node, name: seq<Byte>, kind: Kind): Node
    requires g.sequence < U64_MAX
  {
    Node(g.next, parent.id, g.sequence + 1, 0, kind, parent.space, 0, [], name)
  }

  function CreateNext(g: Generation, slot: nat, n: Node): Generation
    requires slot < |g.nodes| && g.next < NEXT_EXHAUSTED && g.sequence < U64_MAX
  {
    g.(sequence := g.sequence + 1, next := g.next + 1, nodes := g.nodes[slot := Some(n)])
  }

  predicate HasChild(nodes: seq<Option<Node>>, parent: nat, name: seq<Byte>)
  {
    exists i :: 0 <= i < |nodes| && nodes[i].Some? && nodes[i].value.parent == parent && nodes[i].value.name == name
  }

  /** A new empty file or directory under a live directory, with a never-used identity. */
  function Create(g: Generation, parent: nat, name: seq<Byte>, kind: Kind): (o: Outcome)
  {
    if !ValidName(name) then Refuse(Invalid)
    else match FindNode(g.nodes, parent)
      case None => Refuse(NotFound)
      case Some(p) =>
        var directory := g.nodes[p].value;
        if directory.space == 1 then Refuse(ReadOnly)
        else if directory.kind != Directory then Refuse(NotDirectory)
        else if HasChild(g.nodes, parent, name) then Refuse(Exists)
        else match FreeSlot(g.nodes)
          case None => Refuse(Full)
          case Some(slot) =>
            if g.next == NEXT_EXHAUSTED || g.sequence == U64_MAX then Refuse(Exhausted)
            else Publish(CreateNext(g, slot, CreatedNode(g, directory, name, kind)))
  }

  predicate HasChildren(nodes: seq<Option<Node>>, parent: nat)
  {
    exists i :: 0 <= i < |nodes| && nodes[i].Some? && nodes[i].value.parent == parent
  }

  function RemoveNext(g: Generation, index: nat): Generation
    requires Live(g.nodes, index) && g.sequence < U64_MAX
  {
    g.(sequence := g.sequence + 1, nodes := g.nodes[index := None],
       used := g.used - Released(g.records, g.nodes[index].value.runs))
  }

  /** Remove a file or an empty directory; retained snapshots keep their sectors. */
  function Remove(g: Generation, id: nat): (o: Outcome)
  {
    match FindNode(g.nodes, id)
    case None => Refuse(NotFound)
    case Some(index) =>
      var n := g.nodes[index].value;
      if n.space == 1 || n.parent == 0 then Refuse(ReadOnly)
      else if HasChildren(g.nodes, id) then Refuse(NotEmpty)
      else if g.sequence == U64_MAX then Refuse(Exhausted)
      else Publish(RemoveNext(g, index))
  }
}
