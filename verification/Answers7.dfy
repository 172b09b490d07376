/** The owner's decisions as a table of reasons, and exactly what each published request changes. */
module Answers7 {
  import opened Bytes
  import opened Format7
  import opened Generation7
  import opened Steps7
  import opened Payload7
  import opened Volume7

  // ---- What a request finds ---------------------------------------------------

  /** Slot `j` retains a record of the request's retry scope. */
  ghost predicate RetainedAt(g: Generation, id: Identity, j: int)
  {
    && Held(g.records, j)
    && var r := g.records[j].value;
       r.subject == id.subject && r.workspace == id.workspace && r.epoch == id.epoch && r.key == id.key
  }

  ghost predicate Retained(g: Generation, id: Identity)
  {
    exists j :: RetainedAt(g, id, j)
  }

  /** Slot `i` holds the node `id`. */
  ghost predicate NodeAt(g: Generation, id: nat, i: int)
  {
    Live(g.nodes, i) && g.nodes[i].value.id == id
  }

  ghost predicate Present(g: Generation, id: nat)
  {
    exists i :: NodeAt(g, id, i)
  }

  /** The record was made for this object, instance and version. */
  predicate SameRequest(r: Record, id: Identity, expected: U64)
  {
    r.objectId == id.objectId && r.instance == id.instance && r.previous == expected
  }

  /** The retry lookup finds the one record of a scope. */
  lemma RetryFound(g: Generation, id: Identity, j: int)
    requires GenerationOk(g) && Held(g.records, j) && InScope(g.records[j].value, id)
    ensures FindRetry(g.records, id) == Some(j)
  {
    var k := FindRetry(g.records, id).value;
    var r, found := g.records[j].value, g.records[k].value;
    assert j != k ==> PairOk(r, found);
  }

  lemma OneRecord(g: Generation, id: Identity, j: int, k: int)
    requires GenerationOk(g) && RetainedAt(g, id, j) && RetainedAt(g, id, k)
    ensures j == k
  {
    RetryFound(g, id, j);
    RetryFound(g, id, k);
  }

  lemma NodeFound(g: Generation, id: nat, i: int)
    requires GenerationOk(g) && NodeAt(g, id, i)
    ensures FindNode(g.nodes, id) == Some(i)
  {
  }

  // ---- The decision table -----------------------------------------------------

  /** The reasons not to publish, and the one way to answer without publishing. */
  datatype Row =
    | TooLarge | BadIdentity | OtherRequest | NotDirect | OtherBytes | Answered
    | OtherEpoch | NoRecord | Ended | WasDirect | OtherCause
    | NoObject | NotAFile | OtherVersion | NoSlot | LastNumber | FutureInstance | NoRoom
    | Pending | BadName | SystemSpace | NotADirectory | NameTaken | NoNodeSlot | Fixed | Inhabited

  /** The error a row answers with; `Answered` answers with the retained record instead. */
  function ErrorOf(row: Row): Error
    requires row != Answered
  {
    match row
    case TooLarge => Size
    case BadIdentity => Invalid
    case OtherRequest => IdempotencyConflict
    case NotDirect => OutcomeUnknown
    case OtherBytes => IdempotencyConflict
    case OtherEpoch => ExpiredEpoch
    case NoRecord => OutcomeUnknown
    case Ended => WasCancelled
    case WasDirect => IdempotencyConflict
    case OtherCause => IdempotencyConflict
    case NoObject => NotFound
    case NotAFile => IsDirectory
    case OtherVersion => Version
    case NoSlot => Full
    case LastNumber => Exhausted
    case FutureInstance => Invalid
    case NoRoom => Full
    case Pending => Busy
    case BadName => Invalid
    case SystemSpace => ReadOnly
    case NotADirectory => NotDirectory
    case NameTaken => Exists
    case NoNodeSlot => Full
    case Fixed => ReadOnly
    case Inhabited => NotEmpty
  }

  /** Rows in the order they are tried. */
  datatype Rows = End | Then(row: Row, rest: Rows)

  function Room(): Rows
  {
    Then(NoSlot, Then(LastNumber, Then(FutureInstance, Then(NoRoom, End))))
  }

  function Fresh(): Rows
  {
    Then(OtherEpoch, Then(NoObject, Then(NotAFile, Then(OtherVersion, Room()))))
  }

  function Known(): Rows
  {
    Then(Ended, Then(WasDirect, Then(Answered, Then(NoObject, Then(NotAFile, Then(OtherVersion, Then(LastNumber, End)))))))
  }

  function Lookup(rest: Rows): Rows
  {
    Then(BadIdentity, Then(OtherEpoch, Then(NoRecord, Then(OtherRequest, rest))))
  }

  /** The rows of each request, the first that applies deciding; when none applies it publishes. */
  function Table(op: Op): Rows
  {
    match op
    case OpCommit(_, _, _, _) =>
      Then(TooLarge, Then(BadIdentity, Then(OtherRequest, Then(NotDirect, Then(OtherBytes, Then(Answered, Fresh()))))))
    case OpAdmit(_, _, _, _) =>
      Then(TooLarge, Then(BadIdentity, Then(OtherRequest, Then(OtherBytes, Then(Answered, Fresh())))))
    case OpExecute(_, _) => Lookup(Known())
    case OpCancel(_, _, _) => Lookup(Then(OtherCause, Then(Answered, Then(LastNumber, End))))
    case OpMaintain => Then(Pending, Then(LastNumber, End))
    case OpCreate(_, _, _) =>
      Then(BadName, Then(NoObject, Then(SystemSpace, Then(NotADirectory, Then(NameTaken, Then(NoNodeSlot, Then(LastNumber, End)))))))
    case OpRemove(_) => Then(NoObject, Then(Fixed, Then(Inhabited, Then(LastNumber, End))))
  }

  predicate Scoped(op: Op)
  {
    op.OpCommit? || op.OpAdmit? || op.OpExecute? || op.OpCancel?
  }

  predicate Staging(op: Op)
  {
    op.OpCommit? || op.OpAdmit?
  }

  /** The node a request is about. */
  function Subject(op: Op): nat
    requires !op.OpMaintain?
  {
    match op
    case OpCommit(id, _, _, _) => id.objectId
    case OpAdmit(id, _, _, _) => id.objectId
    case OpExecute(id, _) => id.objectId
    case OpCancel(id, _, _) => id.objectId
    case OpCreate(parent, _, _) => parent
    case OpRemove(nodeId) => nodeId
  }

  /** What a request sees of the volume: the node it is about and the retained record of its scope, if there are any. */
  ghost predicate Sees(g: Generation, op: Op, n: Option<Node>, r: Option<Record>)
  {
    && (if op.OpMaintain? then n.None?
        else if n.Some? then exists i :: NodeAt(g, Subject(op), i) && g.nodes[i] == n
        else !Present(g, Subject(op)))
    && (if !Scoped(op) then r.None?
        else if r.Some? then exists j :: RetainedAt(g, op.id, j) && g.records[j] == r
        else !Retained(g, op.id))
  }

  ghost predicate HoldsBytes(v: Volume, r: Record, bytes: seq<Byte>)
    requires |v.blocks| == DATA_SECTORS
  {
    RunsOk(r.runs, r.length) && Content(v.blocks, r.runs, r.length) == bytes
  }

  /** What a row says of the retained record of the request's scope. */
  ghost predicate OfRecord(v: Volume, op: Op, row: Row, r: Record)
    requires |v.blocks| == DATA_SECTORS && Scoped(op)
  {
    match row
    case OtherRequest => !SameRequest(r, op.id, op.expected) || (Staging(op) && r.length != |op.bytes|)
    case NotDirect => r.state != DirectCommitted
    case OtherBytes => Staging(op) && !HoldsBytes(v, r, op.bytes)
    case Answered =>
      if op.OpExecute? then r.state == AdmittedCommitted else if op.OpCancel? then r.state != Admitted else true
    case Ended => r.state == Cancelled
    case WasDirect => r.state == DirectCommitted
    case OtherCause => op.OpCancel? && r.state == Cancelled && r.cause != Some(op.cause)
    case _ => false
  }

  /** What a row says of the node the request is about. */
  predicate OfNode(op: Op, row: Row, n: Node)
  {
    match row
    case NotAFile => n.kind == Directory
    case OtherVersion => Scoped(op) && n.version != op.expected
    case SystemSpace => n.space == 1
    case NotADirectory => n.kind == File
    case Fixed => n.space == 1 || n.parent == 0
    case _ => false
  }

  /** What a row says of the request itself and of the volume as a whole. */
  ghost predicate OfVolume(g: Generation, op: Op, row: Row)
  {
    match row
    case TooLarge => Staging(op) && |op.bytes| > MAX_FILE
    case BadIdentity => Scoped(op) && !WellFormed(g, op.id)
    case OtherEpoch => Scoped(op) && op.id.epoch != g.epoch
    case NoSlot => forall j :: 0 <= j < |g.records| ==> g.records[j].Some?
    case LastNumber =>
      g.sequence == U64_MAX || (op.OpMaintain? && g.epoch == U64_MAX) || (op.OpCreate? && g.next == NEXT_EXHAUSTED)
    case FutureInstance => Scoped(op) && op.id.instance > g.sequence + 1
    case NoRoom => Staging(op) && op.plan.None?
    case Pending => exists j :: Held(g.records, j) && g.records[j].value.state == Admitted
    case BadName => op.OpCreate? && !ValidName(op.name)
    case NameTaken => op.OpCreate? && exists i :: ChildAt(g, op.parent, i) && g.nodes[i].value.name == op.name
    case NoNodeSlot => forall i :: 0 <= i < |g.nodes| ==> g.nodes[i].Some?
    case Inhabited => op.OpRemove? && exists i :: ChildAt(g, op.nodeId, i)
    case _ => false
  }

  ghost predicate ChildAt(g: Generation, parent: nat, i: int)
  {
    Live(g.nodes, i) && g.nodes[i].value.parent == parent
  }

  ghost predicate Applies(v: Volume, op: Op, row: Row, n: Option<Node>, r: Option<Record>)
    requires |v.blocks| == DATA_SECTORS
  {
    if row == NoObject then n.None?
    else if row == NoRecord then r.None?
    else
      || OfVolume(v.gen, op, row)
      || (n.Some? && OfNode(op, row, n.value))
      || (r.Some? && Scoped(op) && OfRecord(v, op, row, r.value))
  }

  /** A retry identity a volume can have issued: nothing zero, everything below the watermark, two different nodes. */
  predicate WellFormed(g: Generation, id: Identity)
  {
    && id.subject > 0 && id.workspace > 0 && id.instance > 0 && id.epoch > 0 && id.key > 0
    && NEXT_MIN <= id.objectId < g.next && id.workspace < g.next && id.objectId != id.workspace
  }

  /** The answer a row asks for. */
  predicate Answers(row: Row, r: Option<Record>, o: Outcome)
  {
    if row == Answered then r.Some? && o == Replay(r.value) else o == Refuse(ErrorOf(row))
  }

  /** The first of `rows` that applies decides; when none does, the request publishes. */
  ghost predicate Decides(v: Volume, op: Op, n: Option<Node>, r: Option<Record>, rows: Rows, o: Outcome)
    requires |v.blocks| == DATA_SECTORS
  {
    if rows.End? then o.Publish?
    else if Applies(v, op, rows.row, n, r) then Answers(rows.row, r, o)
    else Decides(v, op, n, r, rows.rest, o)
  }

  // ---- The owner decides by the table -----------------------------------------

  function FoundNode(g: Generation, id: nat): Option<Node>
  {
    var i := FindNode(g.nodes, id);
    if i.Some? then g.nodes[i.value] else None
  }

  function FoundRecord(g: Generation, id: Identity): Option<Record>
  {
    var j := FindRetry(g.records, id);
    if j.Some? then g.records[j.value] else None
  }

  /** What a request sees is what the owner's lookups find. */
  lemma SeesFound(g: Generation, op: Op, n: Option<Node>, r: Option<Record>)
    requires GenerationOk(g) && Sees(g, op, n, r)
    ensures !op.OpMaintain? ==> n == FoundNode(g, Subject(op))
    ensures Scoped(op) ==> r == FoundRecord(g, op.id)
    ensures r.Some? ==> RecordInBounds(g, r.value)
  {
    if !op.OpMaintain? {
      if n.Some? {
        var i :| NodeAt(g, Subject(op), i) && g.nodes[i] == n;
        NodeFound(g, Subject(op), i);
      } else if FindNode(g.nodes, Subject(op)).Some? {
        assert NodeAt(g, Subject(op), FindNode(g.nodes, Subject(op)).value);
      }
    }
    if Scoped(op) {
      if r.Some? {
        var j :| RetainedAt(g, op.id, j) && g.records[j] == r;
        RetryFound(g, op.id, j);
      } else if FindRetry(g.records, op.id).Some? {
        assert RetainedAt(g, op.id, FindRetry(g.records, op.id).value);
      }
    }
  }

  /** What is left once a write has found its file at the expected version. */
  lemma RoomByTable(v: Volume, op: Op, n: Option<Node>, r: Option<Record>, o: Outcome)
    requires |v.blocks| == DATA_SECTORS && Staging(op) && r.None?
    requires
      if FreeSlot(v.gen.records).None? then o == Refuse(Full)
      else if v.gen.sequence == U64_MAX then o == Refuse(Exhausted)
      else if op.id.instance > v.gen.sequence + 1 then o == Refuse(Invalid)
      else if op.plan.None? then o == Refuse(Full) else o.Publish?
    ensures Decides(v, op, n, r, Room(), o)
  {
    var second := Room().rest;
    if FreeSlot(v.gen.records).Some? && v.gen.sequence < U64_MAX {
      assert op.id.instance > v.gen.sequence + 1 || Decides(v, op, n, r, second.rest.rest, o);
      assert Decides(v, op, n, r, second.rest, o);
    }
    assert FreeSlot(v.gen.records).None? || Decides(v, op, n, r, second, o);
  }

  /** A write whose scope is not retained. */
  lemma FreshByTable(v: Volume, op: Op, n: Option<Node>, r: Option<Record>, o: Outcome)
    requires |v.blocks| == DATA_SECTORS && Staging(op)
    requires n == FoundNode(v.gen, op.id.objectId) && r.None?
    requires var t := FreshTarget(v.gen, op.id, op.expected);
      if t.Missing? then o == Refuse(t.error) else if op.plan.None? then o == Refuse(Full) else o.Publish?
    ensures Decides(v, op, n, r, Fresh(), o)
  {
    if op.id.epoch == v.gen.epoch && n.Some? && n.value.kind == File && n.value.version == op.expected {
      RoomByTable(v, op, n, r, o);
    }
    TargetByTable(v, op, n, r, Room(), o);
  }

  lemma TargetByTable(v: Volume, op: Op, n: Option<Node>, r: Option<Record>, rest: Rows, o: Outcome)
    requires |v.blocks| == DATA_SECTORS && Staging(op) && r.None?
    requires if op.id.epoch != v.gen.epoch then o == Refuse(ExpiredEpoch)
      else if n.None? then o == Refuse(NotFound)
      else if n.value.kind == Directory then o == Refuse(IsDirectory)
      else if n.value.version != op.expected then o == Refuse(Version)
      else Decides(v, op, n, r, rest, o)
    ensures Decides(v, op, n, r, Then(OtherEpoch, Then(NoObject, Then(NotAFile, Then(OtherVersion, rest)))), o)
  {
    var version := Then(OtherVersion, rest);
    if op.id.epoch == v.gen.epoch {
      assert n.None? || n.value.kind == Directory || Decides(v, op, n, r, version, o);
      assert n.None? || Decides(v, op, n, r, Then(NotAFile, version), o);
      assert Decides(v, op, n, r, Then(NoObject, Then(NotAFile, version)), o);
    }
  }

  /** A commit whose scope is retained. */
  lemma RecommitByTable(crc: Checksum, v: Volume, op: Op, n: Option<Node>, r: Option<Record>, o: Outcome)
    requires |v.blocks| == DATA_SECTORS && op.OpCommit? && r.Some? && r == FoundRecord(v.gen, op.id) && RecordOk(r.value)
    requires o == Attempt(crc, v, op) && |op.bytes| <= MAX_FILE && WellFormed(v.gen, op.id)
    ensures Decides(v, op, n, r, Table(op).rest.rest, o)
  {
    assert SameBytes(v, op.id, op.bytes) <==> HoldsBytes(v, r.value, op.bytes);
    var rows := Table(op).rest.rest;
    if SameRequest(r.value, op.id, op.expected) && r.value.length == |op.bytes| {
      assert r.value.state != DirectCommitted || Decides(v, op, n, r, rows.rest.rest, o);
      assert Decides(v, op, n, r, rows.rest, o);
    }
  }

  lemma ReadmitByTable(crc: Checksum, v: Volume, op: Op, n: Option<Node>, r: Option<Record>, o: Outcome)
    requires |v.blocks| == DATA_SECTORS && op.OpAdmit? && r.Some? && r == FoundRecord(v.gen, op.id) && RecordOk(r.value)
    requires o == Attempt(crc, v, op) && |op.bytes| <= MAX_FILE && WellFormed(v.gen, op.id)
    ensures Decides(v, op, n, r, Table(op).rest.rest, o)
  {
    assert SameBytes(v, op.id, op.bytes) <==> HoldsBytes(v, r.value, op.bytes);
    var rows := Table(op).rest.rest;
    if SameRequest(r.value, op.id, op.expected) && r.value.length == |op.bytes| {
      assert Decides(v, op, n, r, rows.rest, o);
    }
  }

  /** Rows about a retained record do not apply when there is none. */
  lemma UnretainedRows(v: Volume, op: Op, n: Option<Node>, r: Option<Record>, o: Outcome)
    requires |v.blocks| == DATA_SECTORS && Staging(op) && r.None? && Decides(v, op, n, r, Fresh(), o)
    ensures Decides(v, op, n, r, Table(op).rest.rest, o)
  {
    var rows := Table(op).rest.rest;
    assert Decides(v, op, n, r, rows.rest.rest, o);
  }

  /** Without a retained record a write is decided by its target and its plan. */
  lemma FreshAttempt(crc: Checksum, v: Volume, op: Op)
    requires |v.blocks| == DATA_SECTORS && Staging(op) && FoundRecord(v.gen, op.id).None?
    requires |op.bytes| <= MAX_FILE && WellFormed(v.gen, op.id)
    ensures var t, o := FreshTarget(v.gen, op.id, op.expected), Attempt(crc, v, op);
      if t.Missing? then o == Refuse(t.error) else if op.plan.None? then o == Refuse(Full) else o.Publish?
  {
  }

  lemma StagingByTable(crc: Checksum, v: Volume, op: Op, n: Option<Node>, r: Option<Record>, o: Outcome)
    requires |v.blocks| == DATA_SECTORS && Staging(op) && o == Attempt(crc, v, op)
    requires n == FoundNode(v.gen, op.id.objectId) && r == FoundRecord(v.gen, op.id) && (r.Some? ==> RecordOk(r.value))
    ensures Decides(v, op, n, r, Table(op), o)
  {
    if |op.bytes| <= MAX_FILE && WellFormed(v.gen, op.id) {
      SoundByTable(crc, v, op, n, r, o);
    }
    FormByTable(v, op, n, r, Table(op).rest.rest, o);
  }

  /** A write of admissible size and identity. */
  lemma SoundByTable(crc: Checksum, v: Volume, op: Op, n: Option<Node>, r: Option<Record>, o: Outcome)
    requires |v.blocks| == DATA_SECTORS && Staging(op) && o == Attempt(crc, v, op)
    requires n == FoundNode(v.gen, op.id.objectId) && r == FoundRecord(v.gen, op.id) && (r.Some? ==> RecordOk(r.value))
    requires |op.bytes| <= MAX_FILE && WellFormed(v.gen, op.id)
    ensures Decides(v, op, n, r, Table(op).rest.rest, o)
  {
    if r.None? {
      FreshAttempt(crc, v, op);
      FreshByTable(v, op, n, r, o);
      UnretainedRows(v, op, n, r, o);
    } else if op.OpCommit? {
      RecommitByTable(crc, v, op, n, r, o);
    } else {
      ReadmitByTable(crc, v, op, n, r, o);
    }
  }

  lemma FormByTable(v: Volume, op: Op, n: Option<Node>, r: Option<Record>, rest: Rows, o: Outcome)
    requires |v.blocks| == DATA_SECTORS && Staging(op)
    requires if |op.bytes| > MAX_FILE then o == Refuse(Size)
      else if !WellFormed(v.gen, op.id) then o == Refuse(Invalid) else Decides(v, op, n, r, rest, o)
    ensures Decides(v, op, n, r, Then(TooLarge, Then(BadIdentity, rest)), o)
  {
    assert |op.bytes| > MAX_FILE || Decides(v, op, n, r, Then(BadIdentity, rest), o);
  }

  /** Executing an unresolved admission: the last four rows. */
  lemma AdmittedByTable(crc: Checksum, v: Volume, op: Op, n: Option<Node>, r: Option<Record>, o: Outcome)
    requires |v.blocks| == DATA_SECTORS && op.OpExecute? && o == Attempt(crc, v, op)
    requires n == FoundNode(v.gen, op.id.objectId) && r == FoundRecord(v.gen, op.id) && WellFormed(v.gen, op.id)
    requires r.Some? && SameRequest(r.value, op.id, op.expected) && r.value.state == Admitted
    ensures Decides(v, op, n, r, Known().rest.rest.rest, o)
  {
    var rows := Known().rest.rest.rest;
    if n.Some? && n.value.kind == File {
      assert n.value.version != op.expected || Decides(v, op, n, r, rows.rest.rest.rest, o);
      assert Decides(v, op, n, r, rows.rest.rest, o);
    }
    assert n.None? || Decides(v, op, n, r, rows.rest, o);
  }

  /** Executing, with a record of the scope and the request. */
  lemma KnownByTable(crc: Checksum, v: Volume, op: Op, n: Option<Node>, r: Option<Record>, o: Outcome)
    requires |v.blocks| == DATA_SECTORS && op.OpExecute? && o == Attempt(crc, v, op)
    requires n == FoundNode(v.gen, op.id.objectId) && r == FoundRecord(v.gen, op.id) && WellFormed(v.gen, op.id)
    requires r.Some? && SameRequest(r.value, op.id, op.expected)
    ensures Decides(v, op, n, r, Known(), o)
  {
    var third := Known().rest.rest;
    if r.value.state == Admitted {
      AdmittedByTable(crc, v, op, n, r, o);
    }
    assert r.value.state == Cancelled || r.value.state == DirectCommitted || Decides(v, op, n, r, third, o);
    assert r.value.state == Cancelled || Decides(v, op, n, r, Known().rest, o);
  }

  /** Executing and cancelling look their record up in the same way. */
  lemma LookupByTable(v: Volume, op: Op, n: Option<Node>, r: Option<Record>, rest: Rows, o: Outcome)
    requires |v.blocks| == DATA_SECTORS && (op.OpExecute? || op.OpCancel?)
    requires r.Some? ==> op.id.epoch == v.gen.epoch
    requires
      if !WellFormed(v.gen, op.id) then o == Refuse(Invalid)
      else if r.None? then o == Refuse(if op.id.epoch != v.gen.epoch then ExpiredEpoch else OutcomeUnknown)
      else if !SameRequest(r.value, op.id, op.expected) then o == Refuse(IdempotencyConflict)
      else Decides(v, op, n, r, rest, o)
    ensures Decides(v, op, n, r, Lookup(rest), o)
  {
    var second := Lookup(rest).rest;
    if WellFormed(v.gen, op.id) {
      if op.id.epoch == v.gen.epoch {
        assert r.None? || Decides(v, op, n, r, second.rest.rest, o);
        assert Decides(v, op, n, r, second.rest, o);
      }
      assert Decides(v, op, n, r, second, o);
    }
  }

  lemma ExecuteByTable(crc: Checksum, v: Volume, op: Op, n: Option<Node>, r: Option<Record>, o: Outcome)
    requires |v.blocks| == DATA_SECTORS && op.OpExecute? && o == Attempt(crc, v, op)
    requires n == FoundNode(v.gen, op.id.objectId) && r == FoundRecord(v.gen, op.id)
    requires r.Some? ==> r.value.epoch == v.gen.epoch
    ensures Decides(v, op, n, r, Table(op), o)
  {
    if WellFormed(v.gen, op.id) && r.Some? && SameRequest(r.value, op.id, op.expected) {
      KnownByTable(crc, v, op, n, r, o);
    }
    LookupByTable(v, op, n, r, Known(), o);
  }

  lemma CancelByTable(crc: Checksum, v: Volume, op: Op, n: Option<Node>, r: Option<Record>, o: Outcome)
    requires |v.blocks| == DATA_SECTORS && op.OpCancel? && o == Attempt(crc, v, op)
    requires r == FoundRecord(v.gen, op.id) && (r.Some? ==> r.value.epoch == v.gen.epoch)
    ensures Decides(v, op, n, r, Table(op), o)
  {
    var rows := Then(OtherCause, Then(Answered, Then(LastNumber, End)));
    if WellFormed(v.gen, op.id) && r.Some? && SameRequest(r.value, op.id, op.expected) {
      assert r.value.state != Admitted || Decides(v, op, n, r, rows.rest.rest, o);
      assert (r.value.state == Cancelled && r.value.cause != Some(op.cause)) || Decides(v, op, n, r, rows.rest, o);
      assert Decides(v, op, n, r, rows, o);
    }
    LookupByTable(v, op, n, r, rows, o);
  }

  lemma MaintainByTable(crc: Checksum, v: Volume, op: Op, n: Option<Node>, r: Option<Record>, o: Outcome)
    requires |v.blocks| == DATA_SECTORS && op.OpMaintain? && o == Attempt(crc, v, op) && n.None? && r.None?
    ensures Decides(v, op, n, r, Table(op), o)
  {
    assert Unresolved(v.gen.records) <==> OfVolume(v.gen, op, Pending) by {
      if Unresolved(v.gen.records) {
        var j :| 0 <= j < |v.gen.records| && v.gen.records[j].Some? && v.gen.records[j].value.state == Admitted;
        assert Held(v.gen.records, j);
      }
    }
    assert Unresolved(v.gen.records) || Decides(v, op, n, r, Table(op).rest, o);
  }

  lemma CreateByTable(crc: Checksum, v: Volume, op: Op, n: Option<Node>, r: Option<Record>, o: Outcome)
    requires |v.blocks| == DATA_SECTORS && op.OpCreate? && o == Attempt(crc, v, op)
    requires n == FoundNode(v.gen, op.parent) && r.None?
    ensures Decides(v, op, n, r, Table(op), o)
  {
    if ValidName(op.name) && n.Some? && n.value.space != 1 && n.value.kind == Directory {
      PlaceByTable(crc, v, op, n, r, o);
    }
    ParentByTable(v, op, n, r, Then(NameTaken, Then(NoNodeSlot, Then(LastNumber, End))), o);
  }

  lemma ParentByTable(v: Volume, op: Op, n: Option<Node>, r: Option<Record>, rest: Rows, o: Outcome)
    requires |v.blocks| == DATA_SECTORS && op.OpCreate?
    requires if !ValidName(op.name) then o == Refuse(Invalid)
      else if n.None? then o == Refuse(NotFound)
      else if n.value.space == 1 then o == Refuse(ReadOnly)
      else if n.value.kind == File then o == Refuse(NotDirectory)
      else Decides(v, op, n, r, rest, o)
    ensures Decides(v, op, n, r, Then(BadName, Then(NoObject, Then(SystemSpace, Then(NotADirectory, rest)))), o)
  {
    var kind := Then(NotADirectory, rest);
    if ValidName(op.name) {
      assert n.None? || n.value.space == 1 || Decides(v, op, n, r, kind, o);
      assert n.None? || Decides(v, op, n, r, Then(SystemSpace, kind), o);
      assert Decides(v, op, n, r, Then(NoObject, Then(SystemSpace, kind)), o);
    }
  }

  /** Creating under a writable directory: the last three rows. */
  lemma PlaceByTable(crc: Checksum, v: Volume, op: Op, n: Option<Node>, r: Option<Record>, o: Outcome)
    requires |v.blocks| == DATA_SECTORS && op.OpCreate? && o == Attempt(crc, v, op)
    requires n == FoundNode(v.gen, op.parent) && r.None? && ValidName(op.name)
    requires n.Some? && n.value.space != 1 && n.value.kind == Directory
    ensures Decides(v, op, n, r, Then(NameTaken, Then(NoNodeSlot, Then(LastNumber, End))), o)
  {
    TakenMeans(v.gen, op.parent, op.name);
    SpaceByTable(v, op, n, r, HasChild(v.gen.nodes, op.parent, op.name), FreeSlot(v.gen.nodes).None?, o);
  }

  lemma SpaceByTable(v: Volume, op: Op, n: Option<Node>, r: Option<Record>, taken: bool, full: bool, o: Outcome)
    requires |v.blocks| == DATA_SECTORS && op.OpCreate? && r.None?
    requires (taken <==> OfVolume(v.gen, op, NameTaken)) && (full <==> OfVolume(v.gen, op, NoNodeSlot))
    requires if taken then o == Refuse(Exists) else if full then o == Refuse(Full)
      else if v.gen.next == NEXT_EXHAUSTED || v.gen.sequence == U64_MAX then o == Refuse(Exhausted) else o.Publish?
    ensures Decides(v, op, n, r, Then(NameTaken, Then(NoNodeSlot, Then(LastNumber, End))), o)
  {
    var last := Then(LastNumber, End);
    assert taken || full || Decides(v, op, n, r, last, o);
    assert taken || Decides(v, op, n, r, Then(NoNodeSlot, last), o);
  }

  lemma TakenMeans(g: Generation, parent: nat, name: seq<Byte>)
    ensures HasChild(g.nodes, parent, name) <==> exists i :: ChildAt(g, parent, i) && g.nodes[i].value.name == name
    ensures HasChildren(g.nodes, parent) <==> exists i :: ChildAt(g, parent, i)
  {
    if HasChild(g.nodes, parent, name) {
      var i :| 0 <= i < |g.nodes| && g.nodes[i].Some? && g.nodes[i].value.parent == parent && g.nodes[i].value.name == name;
      assert ChildAt(g, parent, i);
    }
    if HasChildren(g.nodes, parent) {
      var i :| 0 <= i < |g.nodes| && g.nodes[i].Some? && g.nodes[i].value.parent == parent;
      assert ChildAt(g, parent, i);
    }
  }

  lemma RemoveByTable(crc: Checksum, v: Volume, op: Op, n: Option<Node>, r: Option<Record>, o: Outcome)
    requires |v.blocks| == DATA_SECTORS && op.OpRemove? && o == Attempt(crc, v, op)
    requires n == FoundNode(v.gen, op.nodeId) && r.None?
    ensures Decides(v, op, n, r, Table(op), o)
  {
    TakenMeans(v.gen, op.nodeId, []);
    LeavingByTable(v, op, n, r, HasChildren(v.gen.nodes, op.nodeId), o);
  }

  lemma LeavingByTable(v: Volume, op: Op, n: Option<Node>, r: Option<Record>, inhabited: bool, o: Outcome)
    requires |v.blocks| == DATA_SECTORS && op.OpRemove? && r.None?
    requires inhabited <==> OfVolume(v.gen, op, Inhabited)
    requires if n.None? then o == Refuse(NotFound)
      else if n.value.space == 1 || n.value.parent == 0 then o == Refuse(ReadOnly)
      else if inhabited then o == Refuse(NotEmpty)
      else if v.gen.sequence == U64_MAX then o == Refuse(Exhausted) else o.Publish?
    ensures Decides(v, op, n, r, Then(NoObject, Then(Fixed, Then(Inhabited, Then(LastNumber, End)))), o)
  {
    var last := Then(LastNumber, End);
    if n.Some? {
      if n.value.space != 1 && n.value.parent != 0 {
        assert inhabited || Decides(v, op, n, r, last, o);
        assert Decides(v, op, n, r, Then(Inhabited, last), o);
      }
      assert Decides(v, op, n, r, Then(Fixed, Then(Inhabited, last)), o);
    }
  }

  /**
   * Every request on an accepted volume is answered by the first row of its table that applies to what it sees:
   * refused with that row's error, or answered with the retained record; and published when no row applies.
   */
  lemma AnsweredByTable(crc: Checksum, v: Volume, op: Op, n: Option<Node>, r: Option<Record>)
    requires VolumeOk(crc, v) && Sees(v.gen, op, n, r)
    ensures Decides(v, op, n, r, Table(op), Attempt(crc, v, op))
  {
    SeesFound(v.gen, op, n, r);
    var o := Attempt(crc, v, op);
    match op
    case OpCommit(_, _, _, _) => StagingByTable(crc, v, op, n, r, o);
    case OpAdmit(_, _, _, _) => StagingByTable(crc, v, op, n, r, o);
    case OpExecute(_, _) => ExecuteByTable(crc, v, op, n, r, o);
    case OpCancel(_, _, _) => CancelByTable(crc, v, op, n, r, o);
    case OpMaintain => MaintainByTable(crc, v, op, n, r, o);
    case OpCreate(_, _, _) => CreateByTable(crc, v, op, n, r, o);
    case OpRemove(_) => RemoveByTable(crc, v, op, n, r, o);
  }

  /** What a request sees always exists. */
  lemma Look(g: Generation, op: Op) returns (n: Option<Node>, r: Option<Record>)
    ensures Sees(g, op, n, r)
  {
    n, r := None, None;
    if !op.OpMaintain? && FindNode(g.nodes, Subject(op)).Some? {
      n := FoundNode(g, Subject(op));
      assert NodeAt(g, Subject(op), FindNode(g.nodes, Subject(op)).value);
    }
    if Scoped(op) && FindRetry(g.records, op.id).Some? {
      r := FoundRecord(g, op.id);
      assert RetainedAt(g, op.id, FindRetry(g.records, op.id).value);
    }
  }

  /** The answer follows from what the request sees. */
  ghost predicate Explained(v: Volume, op: Op, o: Outcome)
    requires |v.blocks| == DATA_SECTORS
  {
    exists n, r :: Sees(v.gen, op, n, r) && Decides(v, op, n, r, Table(op), o)
  }

  lemma AlwaysExplained(crc: Checksum, v: Volume, op: Op)
    requires VolumeOk(crc, v)
    ensures Explained(v, op, Attempt(crc, v, op))
  {
    var n, r := Look(v.gen, op);
    AnsweredByTable(crc, v, op, n, r);
  }
}
