/** Exactly what each published request changes, and what it leaves as it was. */
module Effects7 {
  import opened Bytes
  import opened Format7
  import opened Generation7
  import opened Steps7
  import opened Payload7
  import opened Volume7
  import opened Answers7

  // ---- Frames -----------------------------------------------------------------

  /** The first empty slot of a table. */
  ghost predicate FirstEmpty<T>(slots: seq<Option<T>>, k: int)
  {
    0 <= k < |slots| && slots[k].None? && forall i :: 0 <= i < k ==> slots[i].Some?
  }

  /** The two tables agree everywhere but in slot `k`. */
  ghost predicate OnlySlot<T>(a: seq<Option<T>>, b: seq<Option<T>>, k: int)
  {
    |a| == |b| && 0 <= k < |a| && forall i :: 0 <= i < |a| && i != k ==> b[i] == a[i]
  }

  predicate SamePlace(a: Node, b: Node)
  {
    b.id == a.id && b.parent == a.parent && b.name == a.name && b.kind == a.kind && b.space == a.space
  }

  /** The record was made by this request, in the generation after `g`. */
  predicate MadeFor(g: Generation, op: Op, r: Record)
    requires Staging(op)
  {
    && r.subject == op.id.subject && r.workspace == op.id.workspace && r.epoch == op.id.epoch && r.key == op.id.key
    && r.objectId == op.id.objectId && r.instance == op.id.instance && r.previous == op.expected
    && Observed(r) == g.sequence + 1 && r.cause.None?
  }

  /** File `n` of `w` holds these bytes. */
  ghost predicate FileBytes(w: Volume, n: Node, bytes: seq<Byte>)
  {
    |w.blocks| == DATA_SECTORS && RunsOk(n.runs, n.length) && Content(w.blocks, n.runs, n.length) == bytes
  }

  ghost predicate RecordBytes(w: Volume, r: Record, bytes: seq<Byte>)
  {
    |w.blocks| == DATA_SECTORS && RunsOk(r.runs, r.length) && Content(w.blocks, r.runs, r.length) == bytes
  }

  // ---- What each request does -------------------------------------------------

  /** The file in slot `i` gets the bytes and the next version; the first empty record slot `j` retains them. */
  ghost predicate Commits(v: Volume, op: Op, w: Volume, i: int, j: int)
    requires op.OpCommit?
  {
    && NodeAt(v.gen, op.id.objectId, i) && Live(w.gen.nodes, i) && OnlySlot(v.gen.nodes, w.gen.nodes, i)
    && FirstEmpty(v.gen.records, j) && Held(w.gen.records, j) && OnlySlot(v.gen.records, w.gen.records, j)
    && var n, r := w.gen.nodes[i].value, w.gen.records[j].value;
       && SamePlace(v.gen.nodes[i].value, n) && n.version == v.gen.sequence + 1 && FileBytes(w, n, op.bytes)
       && MadeFor(v.gen, op, r) && r.state == DirectCommitted && Matches(r, n) && r.committed == n.version
       && w.gen.epoch == v.gen.epoch && w.gen.next == v.gen.next
  }

  /** No file changes; the first empty record slot `j` retains the bytes as an admission. */
  ghost predicate Admits(v: Volume, op: Op, w: Volume, j: int)
    requires op.OpAdmit?
  {
    && w.gen.nodes == v.gen.nodes
    && FirstEmpty(v.gen.records, j) && Held(w.gen.records, j) && OnlySlot(v.gen.records, w.gen.records, j)
    && var r := w.gen.records[j].value;
       && MadeFor(v.gen, op, r) && r.state == Admitted && RecordBytes(w, r, op.bytes)
       && w.gen.epoch == v.gen.epoch && w.gen.next == v.gen.next
  }

  /** The file in slot `i` gets the admitted bytes and the next version; record `j` says so and nothing else of it changes. */
  ghost predicate Executes(v: Volume, op: Op, w: Volume, i: int, j: int)
    requires op.OpExecute?
  {
    && NodeAt(v.gen, op.id.objectId, i) && Live(w.gen.nodes, i) && OnlySlot(v.gen.nodes, w.gen.nodes, i)
    && RetainedAt(v.gen, op.id, j) && Held(w.gen.records, j) && OnlySlot(v.gen.records, w.gen.records, j)
    && var n, r, was := w.gen.nodes[i].value, w.gen.records[j].value, v.gen.records[j].value;
       && |v.blocks| == DATA_SECTORS && RunsOk(was.runs, was.length)
       && SamePlace(v.gen.nodes[i].value, n) && n.version == v.gen.sequence + 1
       && FileBytes(w, n, Content(v.blocks, was.runs, was.length))
       && was.state == Admitted && r.state == AdmittedCommitted && r.committed == r.terminal == n.version && Matches(r, n)
       && was == r.(state := Admitted, committed := 0, terminal := 0)
       && w.gen.epoch == v.gen.epoch && w.gen.next == v.gen.next
  }

  /** No file and no owned sector changes; record `j` keeps the cause, and nothing else of it changes. */
  ghost predicate Cancels(v: Volume, op: Op, w: Volume, j: int)
    requires op.OpCancel?
  {
    && w.gen.nodes == v.gen.nodes && w.gen.used == v.gen.used
    && RetainedAt(v.gen, op.id, j) && Held(w.gen.records, j) && OnlySlot(v.gen.records, w.gen.records, j)
    && var r, was := w.gen.records[j].value, v.gen.records[j].value;
       && was.state == Admitted && r.state == Cancelled && r.cause == Some(op.cause) && r.terminal == v.gen.sequence + 1
       && was == r.(state := Admitted, terminal := 0, cause := None)
       && w.gen.epoch == v.gen.epoch && w.gen.next == v.gen.next
  }

  /** Every record, all of them resolved, is dropped and the next epoch opened; no node changes. */
  ghost predicate Maintains(v: Volume, w: Volume)
  {
    && w.gen.nodes == v.gen.nodes && |w.gen.records| == |v.gen.records|
    && (forall j :: 0 <= j < |w.gen.records| ==> w.gen.records[j].None?)
    && (forall j :: Held(v.gen.records, j) ==> v.gen.records[j].value.state != Admitted)
    && w.gen.epoch == v.gen.epoch + 1 && w.gen.next == v.gen.next
  }

  /** One new, empty node with a never-used identity, as asked, outside the system space; nothing else changes. */
  ghost predicate Creates(v: Volume, op: Op, w: Volume, p: int, i: int)
    requires op.OpCreate?
  {
    && NodeAt(v.gen, op.parent, p) && v.gen.nodes[p].value.kind == Directory && v.gen.nodes[p].value.space != 1
    && FirstEmpty(v.gen.nodes, i) && Live(w.gen.nodes, i) && OnlySlot(v.gen.nodes, w.gen.nodes, i)
    && var n := w.gen.nodes[i].value;
       && n.id == v.gen.next && n.parent == op.parent && n.name == op.name && n.kind == op.kind
       && n.space == v.gen.nodes[p].value.space && n.version == v.gen.sequence + 1
       && n.length == 0 && n.runs == [] && n.crc == 0
       && w.gen.records == v.gen.records && w.gen.used == v.gen.used
       && w.gen.epoch == v.gen.epoch && w.gen.next == v.gen.next + 1
  }

  /** One node, not a root, not of the system space and without children, is gone; nothing else changes. */
  ghost predicate Removes(v: Volume, op: Op, w: Volume, i: int)
    requires op.OpRemove?
  {
    && NodeAt(v.gen, op.nodeId, i) && OnlySlot(v.gen.nodes, w.gen.nodes, i) && w.gen.nodes[i].None?
    && v.gen.nodes[i].value.parent != 0 && v.gen.nodes[i].value.space != 1
    && (forall k :: !ChildAt(v.gen, op.nodeId, k))
    && w.gen.records == v.gen.records && w.gen.epoch == v.gen.epoch && w.gen.next == v.gen.next
  }

  ghost predicate Effect(v: Volume, op: Op, w: Volume)
  {
    && w.gen.sequence == v.gen.sequence + 1 && w.gen.lineage == v.gen.lineage
    && match op
       case OpCommit(_, _, _, _) => exists i, j :: Commits(v, op, w, i, j)
       case OpAdmit(_, _, _, _) => exists j :: Admits(v, op, w, j)
       case OpExecute(_, _) => exists i, j :: Executes(v, op, w, i, j)
       case OpCancel(_, _, _) => exists j :: Cancels(v, op, w, j)
       case OpMaintain => Maintains(v, w)
       case OpCreate(_, _, _) => exists p, i :: Creates(v, op, w, p, i)
       case OpRemove(_) => exists i :: Removes(v, op, w, i)
  }

  // ---- Every published request has exactly its effect -------------------------

  lemma {:induction false} FreeIsFirst<T>(slots: seq<Option<T>>, at: nat)
    requires at <= |slots| && FreeSlotFrom(slots, at).Some?
    ensures var k := FreeSlotFrom(slots, at).value; forall i :: at <= i < k ==> slots[i].Some?
    decreases |slots| - at
  {
    if slots[at].Some? {
      FreeIsFirst(slots, at + 1);
    }
  }

  lemma FirstFree<T>(slots: seq<Option<T>>)
    requires FreeSlot(slots).Some?
    ensures FirstEmpty(slots, FreeSlot(slots).value)
  {
    FreeIsFirst(slots, 0);
  }

  lemma CommitEffect(crc: Checksum, v: Volume, op: Op)
    requires VolumeOk(crc, v) && Publishes(crc, v, op) && op.OpCommit?
    ensures Effect(v, op, After(crc, v, op))
  {
    var t, w := FreshTarget(v.gen, op.id, op.expected), After(crc, v, op);
    ContentOfWritten(v.blocks, op.plan.value, op.bytes);
    FirstFree(v.gen.records);
    assert Commits(v, op, w, t.index, t.slot);
  }

  lemma AdmitEffect(crc: Checksum, v: Volume, op: Op)
    requires VolumeOk(crc, v) && Publishes(crc, v, op) && op.OpAdmit?
    ensures Effect(v, op, After(crc, v, op))
  {
    var t, w := FreshTarget(v.gen, op.id, op.expected), After(crc, v, op);
    ContentOfWritten(v.blocks, op.plan.value, op.bytes);
    FirstFree(v.gen.records);
    assert Admits(v, op, w, t.slot);
  }

  lemma ExecuteEffect(crc: Checksum, v: Volume, op: Op)
    requires VolumeOk(crc, v) && Publishes(crc, v, op) && op.OpExecute?
    ensures Effect(v, op, After(crc, v, op))
  {
    var i, j := FindNode(v.gen.nodes, op.id.objectId).value, FindRetry(v.gen.records, op.id).value;
    assert RecordInBounds(v.gen, v.gen.records[j].value);
    assert Executes(v, op, After(crc, v, op), i, j);
  }

  lemma CancelEffect(crc: Checksum, v: Volume, op: Op)
    requires VolumeOk(crc, v) && Publishes(crc, v, op) && op.OpCancel?
    ensures Effect(v, op, After(crc, v, op))
  {
    var j := FindRetry(v.gen.records, op.id).value;
    assert RecordInBounds(v.gen, v.gen.records[j].value);
    assert Cancels(v, op, After(crc, v, op), j);
  }

  lemma CreateEffect(crc: Checksum, v: Volume, op: Op)
    requires VolumeOk(crc, v) && Publishes(crc, v, op) && op.OpCreate?
    ensures Effect(v, op, After(crc, v, op))
  {
    FirstFree(v.gen.nodes);
    assert Creates(v, op, After(crc, v, op), FindNode(v.gen.nodes, op.parent).value, FreeSlot(v.gen.nodes).value);
  }

  lemma RemoveEffect(crc: Checksum, v: Volume, op: Op)
    requires VolumeOk(crc, v) && Publishes(crc, v, op) && op.OpRemove?
    ensures Effect(v, op, After(crc, v, op))
  {
    TakenMeans(v.gen, op.nodeId, []);
    assert Removes(v, op, After(crc, v, op), FindNode(v.gen.nodes, op.nodeId).value);
  }

  lemma MaintainEffect(crc: Checksum, v: Volume, op: Op)
    requires VolumeOk(crc, v) && Publishes(crc, v, op) && op.OpMaintain?
    ensures Effect(v, op, After(crc, v, op))
  {
  }

  /** A published request has exactly its effect. */
  lemma PublishedEffect(crc: Checksum, v: Volume, op: Op)
    requires VolumeOk(crc, v) && Publishes(crc, v, op)
    ensures Effect(v, op, After(crc, v, op))
  {
    match op
    case OpCommit(_, _, _, _) => CommitEffect(crc, v, op);
    case OpAdmit(_, _, _, _) => AdmitEffect(crc, v, op);
    case OpExecute(_, _) => ExecuteEffect(crc, v, op);
    case OpCancel(_, _, _) => CancelEffect(crc, v, op);
    case OpMaintain => MaintainEffect(crc, v, op);
    case OpCreate(_, _, _) => CreateEffect(crc, v, op);
    case OpRemove(_) => RemoveEffect(crc, v, op);
  }
}
