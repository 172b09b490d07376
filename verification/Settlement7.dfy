/** Settling admissions, and what no run ever loses: unresolved admissions and the system space. */
module Settlement7 {
  import opened Bytes
  import opened Format7
  import opened Generation7
  import opened Steps7
  import opened Payload7
  import opened Volume7
  import opened History7
  import opened Answers7
  import opened Effects7
  import opened Outcomes7

  // ---- Executing --------------------------------------------------------------

  /** Slot `j` retains the record of this very operation. */
  ghost predicate OperationAt(g: Generation, id: Identity, expected: U64, j: int)
  {
    RetainedAt(g, id, j) && SameRequest(g.records[j].value, id, expected)
  }

  lemma OperationFound(crc: Checksum, v: Volume, id: Identity, expected: U64, j: int)
    requires VolumeOk(crc, v) && OperationAt(v.gen, id, expected, j)
    ensures FindRetry(v.gen.records, id) == Some(j) && IdentityOk(v.gen, id)
    ensures RecordInBounds(v.gen, v.gen.records[j].value)
  {
    RetryFound(v.gen, id, j);
    assert RecordInBounds(v.gen, v.gen.records[j].value);
  }

  /**
   * Executing an operation that has a record: answered with the record exactly when it was executed, refused when it
   * was cancelled or never an admission, refused when its file is gone or at another version, and carried out else.
   */
  lemma ExecutionAnswers(crc: Checksum, v: Volume, id: Identity, expected: U64, j: int)
    requires VolumeOk(crc, v) && OperationAt(v.gen, id, expected, j)
    ensures var r, o := v.gen.records[j].value, Attempt(crc, v, OpExecute(id, expected));
      && (o.Replay? <==> r.state == AdmittedCommitted) && (o.Replay? ==> o == Replay(r))
      && (r.state == Cancelled ==> o == Refuse(WasCancelled))
      && (r.state == DirectCommitted ==> o == Refuse(IdempotencyConflict))
      && (r.state == Admitted && !Present(v.gen, id.objectId) ==> o == Refuse(NotFound))
      && (forall i :: r.state == Admitted && NodeAt(v.gen, id.objectId, i) ==>
            if v.gen.nodes[i].value.version != expected then o == Refuse(Version)
            else if v.gen.sequence == U64_MAX then o == Refuse(Exhausted) else o.Publish?)
  {
    OperationFound(crc, v, id, expected, j);
    var r := v.gen.records[j].value;
    if FindNode(v.gen.nodes, id.objectId).Some? {
      assert NodeAt(v.gen, id.objectId, FindNode(v.gen.nodes, id.objectId).value);
    }
    forall i | NodeAt(v.gen, id.objectId, i) ensures FindNode(v.gen.nodes, id.objectId) == Some(i) {
      NodeFound(v.gen, id.objectId, i);
    }
    forall i | NodeAt(v.gen, id.objectId, i) ensures TargetOk(r, v.gen.nodes[i].value) {
    }
  }

  /** Cancelling an operation that has a record: only an unresolved admission ends; anything else is told as it is. */
  lemma CancellationAnswers(crc: Checksum, v: Volume, id: Identity, expected: U64, cause: Cause, j: int)
    requires VolumeOk(crc, v) && OperationAt(v.gen, id, expected, j)
    ensures var r, o := v.gen.records[j].value, Attempt(crc, v, OpCancel(id, expected, cause));
      && (Committed(r) ==> o == Replay(r))
      && (r.state == Cancelled ==> o == if r.cause == Some(cause) then Replay(r) else Refuse(IdempotencyConflict))
      && (r.state == Admitted ==> if v.gen.sequence == U64_MAX then o == Refuse(Exhausted) else o.Publish?)
  {
    OperationFound(crc, v, id, expected, j);
  }

  // ---- Through any run of one epoch -------------------------------------------

  /** The record of an operation, found later in the same epoch; a resolved one unchanged. */
  lemma OperationCarried(crc: Checksum, worlds: seq<World>, turns: seq<Turn>, i: nat, k: nat, j: int, id: Identity, expected: U64)
    requires EmptyIsZero(crc) && IsRun(crc, worlds, turns) && WorldOk(crc, worlds[0]) && i <= k <= |turns|
    requires OperationAt(worlds[i].volume.gen, id, expected, j)
    requires worlds[k].volume.gen.epoch == worlds[i].volume.gen.epoch
    ensures WorldOk(crc, worlds[k]) && OperationAt(worlds[k].volume.gen, id, expected, j)
    ensures var r := worlds[i].volume.gen.records[j].value;
      r.state != Admitted ==> worlds[k].volume.gen.records[j] == Some(r)
  {
    RunSafe(crc, worlds, turns, k);
    RunCarries(crc, worlds, turns, i, k, j);
  }

  /** A cancelled operation in one volume. */
  lemma CancelledAnswers(crc: Checksum, v: Volume, id: Identity, expected: U64, cause: Cause, j: int)
    requires VolumeOk(crc, v) && OperationAt(v.gen, id, expected, j)
    requires v.gen.records[j].value.state == Cancelled && v.gen.records[j].value.cause == Some(cause)
    ensures Attempt(crc, v, OpCancel(id, expected, cause)) == Replay(v.gen.records[j].value)
    ensures forall other :: other != cause ==> Attempt(crc, v, OpCancel(id, expected, other)) == Refuse(IdempotencyConflict)
    ensures Attempt(crc, v, OpExecute(id, expected)) == Refuse(WasCancelled)
  {
    forall other ensures Attempt(crc, v, OpCancel(id, expected, other))
      == if other == cause then Replay(v.gen.records[j].value) else Refuse(IdempotencyConflict)
    {
      CancellationAnswers(crc, v, id, expected, other, j);
    }
    ExecutionAnswers(crc, v, id, expected, j);
  }

  /**
   * After a cancellation took effect, through any run of its epoch: the same cancellation is answered with the
   * original record, one with another cause is a conflict, and the operation is never executed.
   */
  lemma CancelledOnce(crc: Checksum, worlds: seq<World>, turns: seq<Turn>, i: nat, k: nat, j: int,
                      id: Identity, expected: U64, cause: Cause)
    requires EmptyIsZero(crc) && IsRun(crc, worlds, turns) && WorldOk(crc, worlds[0]) && i <= k <= |turns|
    requires OperationAt(worlds[i].volume.gen, id, expected, j)
    requires worlds[i].volume.gen.records[j].value.state == Cancelled
    requires worlds[i].volume.gen.records[j].value.cause == Some(cause)
    requires worlds[k].volume.gen.epoch == worlds[i].volume.gen.epoch
    ensures WorldOk(crc, worlds[k])
    ensures Attempt(crc, worlds[k].volume, OpCancel(id, expected, cause)) == Replay(worlds[i].volume.gen.records[j].value)
    ensures forall other :: other != cause ==>
      Attempt(crc, worlds[k].volume, OpCancel(id, expected, other)) == Refuse(IdempotencyConflict)
    ensures Attempt(crc, worlds[k].volume, OpExecute(id, expected)) == Refuse(WasCancelled)
  {
    OperationCarried(crc, worlds, turns, i, k, j, id, expected);
    CancelledAnswers(crc, worlds[k].volume, id, expected, cause, j);
  }

  /** After an execution took effect, executing or cancelling it again is answered with the original record. */
  lemma ExecutedOnce(crc: Checksum, worlds: seq<World>, turns: seq<Turn>, i: nat, k: nat, j: int,
                     id: Identity, expected: U64, cause: Cause)
    requires EmptyIsZero(crc) && IsRun(crc, worlds, turns) && WorldOk(crc, worlds[0]) && i <= k <= |turns|
    requires OperationAt(worlds[i].volume.gen, id, expected, j)
    requires worlds[i].volume.gen.records[j].value.state == AdmittedCommitted
    requires worlds[k].volume.gen.epoch == worlds[i].volume.gen.epoch
    ensures WorldOk(crc, worlds[k])
    ensures Attempt(crc, worlds[k].volume, OpExecute(id, expected)) == Replay(worlds[i].volume.gen.records[j].value)
    ensures Attempt(crc, worlds[k].volume, OpCancel(id, expected, cause)) == Replay(worlds[i].volume.gen.records[j].value)
  {
    OperationCarried(crc, worlds, turns, i, k, j, id, expected);
    ExecutionAnswers(crc, worlds[k].volume, id, expected, j);
    CancellationAnswers(crc, worlds[k].volume, id, expected, cause, j);
  }

  /** What a published cancellation or execution retains is what those two start from. */
  lemma SettledRetained(crc: Checksum, v: Volume, op: Op) returns (j: int)
    requires VolumeOk(crc, v) && Publishes(crc, v, op) && (op.OpExecute? || op.OpCancel?)
    ensures var w := After(crc, v, op);
      && OperationAt(w.gen, op.id, op.expected, j) && w.gen.epoch == v.gen.epoch
      && (op.OpExecute? ==> w.gen.records[j].value.state == AdmittedCommitted)
      && (op.OpCancel? ==> w.gen.records[j].value.state == Cancelled && w.gen.records[j].value.cause == Some(op.cause))
  {
    j := FindRetry(v.gen.records, op.id).value;
  }

  // ---- An unresolved admission is never lost ----------------------------------

  /** The request would resolve the record's scope. */
  predicate ResolvesScope(op: Op, r: Record)
  {
    (op.OpExecute? || op.OpCancel?) && InScope(r, op.id)
  }

  /** No request but one that resolves it touches an unresolved admission, and maintenance is not published beside one. */
  lemma AdmissionKept(v: Volume, op: Op, w: Volume, j: int)
    requires Effect(v, op, w) && Held(v.gen.records, j)
    requires v.gen.records[j].value.state == Admitted && !ResolvesScope(op, v.gen.records[j].value)
    ensures !op.OpMaintain? && w.gen.epoch == v.gen.epoch
    ensures Held(w.gen.records, j) && w.gen.records[j] == v.gen.records[j]
  {
    match op
    case OpCommit(_, _, _, _) => var i, k :| Commits(v, op, w, i, k);
    case OpAdmit(_, _, _, _) => var k :| Admits(v, op, w, k);
    case OpExecute(_, _) => var i, k :| Executes(v, op, w, i, k);
    case OpCancel(_, _, _) => var k :| Cancels(v, op, w, k);
    case OpMaintain =>
    case OpCreate(_, _, _) => var p, i :| Creates(v, op, w, p, i);
    case OpRemove(_) => var i :| Removes(v, op, w, i);
  }

  /** Turn `m` carries out a request that resolves the scope of `r`. */
  ghost predicate SettlesAt(worlds: seq<World>, turns: seq<Turn>, m: int, r: Record)
  {
    && 0 <= m < |turns| && (turns[m].Completed? || turns[m].Interrupted?)
    && TookEffect(worlds, turns, m, turns[m].op) && ResolvesScope(turns[m].op, r)
  }

  /** What a turn leaves is the generation before it, or one with the effect of the request it carried out. */
  lemma TurnEffect(crc: Checksum, worlds: seq<World>, turns: seq<Turn>, m: nat, a: World, b: World)
    requires EmptyIsZero(crc) && IsRun(crc, worlds, turns) && WorldOk(crc, worlds[0]) && m < |turns|
    requires a == worlds[m] && b == worlds[m + 1]
    ensures WorldOk(crc, a) && WorldOk(crc, b)
    ensures b.volume.gen == a.volume.gen ||
      (&& (turns[m].Completed? || turns[m].Interrupted?) && TookEffect(worlds, turns, m, turns[m].op)
       && Effect(a.volume, turns[m].op, turns[m].w) && turns[m].w.gen == b.volume.gen)
  {
    RunSafe(crc, worlds, turns, m);
    assert TurnAt(crc, worlds, turns, m);
    TurnSafe(crc, a, turns[m], b);
    TurnGeneration(crc, a, turns[m], b);
    if b.volume.gen != a.volume.gen {
      PublishedEffect(crc, a.volume, turns[m].op);
    }
  }

  /** Slot `j` still holds the admission `r`. */
  ghost predicate Waiting(g: Generation, epoch: nat, j: int, r: Record)
  {
    g.epoch == epoch && Held(g.records, j) && g.records[j].value == r
  }

  lemma WaitingTurn(crc: Checksum, worlds: seq<World>, turns: seq<Turn>, m: nat, a: World, b: World, epoch: nat, j: int, r: Record)
    requires EmptyIsZero(crc) && IsRun(crc, worlds, turns) && WorldOk(crc, worlds[0]) && m < |turns|
    requires a == worlds[m] && b == worlds[m + 1] && r.state == Admitted && !SettlesAt(worlds, turns, m, r)
    requires Waiting(a.volume.gen, epoch, j, r)
    ensures Waiting(b.volume.gen, epoch, j, r)
  {
    TurnEffect(crc, worlds, turns, m, a, b);
    if b.volume.gen != a.volume.gen {
      AdmissionKept(a.volume, turns[m].op, turns[m].w, j);
    }
  }

  /**
   * An unresolved admission is never lost: through any run, stops and attempts at maintenance included, it stays in
   * its slot, its record and its bytes unchanged, until a turn carries out its execution or cancellation.
   */
  lemma AdmissionStays(crc: Checksum, worlds: seq<World>, turns: seq<Turn>, i: nat, k: nat, j: int)
    requires EmptyIsZero(crc) && IsRun(crc, worlds, turns) && WorldOk(crc, worlds[0]) && i <= k <= |turns|
    requires Held(worlds[i].volume.gen.records, j) && worlds[i].volume.gen.records[j].value.state == Admitted
    requires forall m :: i <= m < k ==> !SettlesAt(worlds, turns, m, worlds[i].volume.gen.records[j].value)
    ensures Waiting(worlds[k].volume.gen, worlds[i].volume.gen.epoch, j, worlds[i].volume.gen.records[j].value)
    ensures var r := worlds[i].volume.gen.records[j].value;
      && RecordOk(r) && |worlds[i].volume.blocks| == |worlds[k].volume.blocks| == DATA_SECTORS
      && Content(worlds[k].volume.blocks, r.runs, r.length) == Content(worlds[i].volume.blocks, r.runs, r.length)
    ensures Attempt(crc, worlds[k].volume, OpMaintain) == Refuse(Busy)
  {
    var epoch, r := worlds[i].volume.gen.epoch, worlds[i].volume.gen.records[j].value;
    var waiting := (a: World) => Waiting(a.volume.gen, epoch, j, r);
    forall m | i <= m < k ensures Passes(waiting, worlds, m) {
      if waiting(worlds[m]) {
        WaitingTurn(crc, worlds, turns, m, worlds[m], worlds[m + 1], epoch, j, r);
      }
    }
    Along(waiting, worlds, i, k);
    RunCarries(crc, worlds, turns, i, k, j);
  }

  // ---- The system space -------------------------------------------------------

  /** Slot `s` holds a node of the system space. */
  predicate SystemAt(nodes: seq<Option<Node>>, s: int)
  {
    Live(nodes, s) && nodes[s].value.space == 1
  }

  /** Both tables have the same nodes of the system space, in the same slots and places. */
  ghost predicate SameSystem(a: seq<Option<Node>>, b: seq<Option<Node>>)
  {
    forall s :: (SystemAt(a, s) <==> SystemAt(b, s)) && (SystemAt(a, s) ==> SamePlace(a[s].value, b[s].value))
  }

  /** Changing one slot changes nothing of the system space if it keeps its place or was and is outside of it. */
  lemma OneSlotSystem(a: seq<Option<Node>>, b: seq<Option<Node>>, i: int)
    requires OnlySlot(a, b, i)
    requires (SystemAt(a, i) || SystemAt(b, i)) ==> Live(a, i) && Live(b, i) && SamePlace(a[i].value, b[i].value)
    ensures SameSystem(a, b)
  {
  }

  /** No request adds, removes, moves or renames a node of the system space. */
  lemma SystemKept(v: Volume, op: Op, w: Volume)
    requires Effect(v, op, w)
    ensures SameSystem(v.gen.nodes, w.gen.nodes)
  {
    match op
    case OpCommit(_, _, _, _) =>
      var i, k :| Commits(v, op, w, i, k);
      OneSlotSystem(v.gen.nodes, w.gen.nodes, i);
    case OpAdmit(_, _, _, _) =>
    case OpExecute(_, _) =>
      var i, k :| Executes(v, op, w, i, k);
      OneSlotSystem(v.gen.nodes, w.gen.nodes, i);
    case OpCancel(_, _, _) =>
    case OpMaintain =>
    case OpCreate(_, _, _) =>
      var p, i :| Creates(v, op, w, p, i);
      OneSlotSystem(v.gen.nodes, w.gen.nodes, i);
    case OpRemove(_) =>
      var i :| Removes(v, op, w, i);
      OneSlotSystem(v.gen.nodes, w.gen.nodes, i);
  }

  lemma SystemTurn(crc: Checksum, worlds: seq<World>, turns: seq<Turn>, m: nat, a: World, b: World)
    requires EmptyIsZero(crc) && IsRun(crc, worlds, turns) && WorldOk(crc, worlds[0]) && m < |turns|
    requires a == worlds[m] && b == worlds[m + 1]
    ensures SameSystem(a.volume.gen.nodes, b.volume.gen.nodes)
  {
    TurnEffect(crc, worlds, turns, m, a, b);
    if b.volume.gen == a.volume.gen {
      SameSystemSelf(a.volume.gen.nodes);
    } else {
      SystemKept(a.volume, turns[m].op, turns[m].w);
    }
  }

  lemma SameSystemSelf(a: seq<Option<Node>>)
    ensures SameSystem(a, a)
  {
  }

  lemma SameSystemTrans(a: seq<Option<Node>>, b: seq<Option<Node>>, c: seq<Option<Node>>)
    requires SameSystem(a, b) && SameSystem(b, c)
    ensures SameSystem(a, c)
  {
    forall s ensures (SystemAt(a, s) <==> SystemAt(c, s)) && (SystemAt(a, s) ==> SamePlace(a[s].value, c[s].value)) {
      assert SystemAt(a, s) <==> SystemAt(b, s);
    }
  }

  /** Through any run the system space keeps its nodes, their identities, kinds and places. */
  lemma SystemFixed(crc: Checksum, worlds: seq<World>, turns: seq<Turn>, i: nat, k: nat)
    requires EmptyIsZero(crc) && IsRun(crc, worlds, turns) && WorldOk(crc, worlds[0]) && i <= k <= |turns|
    ensures SameSystem(worlds[i].volume.gen.nodes, worlds[k].volume.gen.nodes)
  {
    var nodes := worlds[i].volume.gen.nodes;
    var same := (a: World) => SameSystem(nodes, a.volume.gen.nodes);
    forall m | i <= m < k ensures Passes(same, worlds, m) {
      if same(worlds[m]) {
        SystemTurn(crc, worlds, turns, m, worlds[m], worlds[m + 1]);
        SameSystemTrans(nodes, worlds[m].volume.gen.nodes, worlds[m + 1].volume.gen.nodes);
      }
    }
    Along(same, worlds, i, k);
  }
}
