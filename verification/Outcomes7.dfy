/** What a run never loses and never repeats: retained records and the effects of requests. */
module Outcomes7 {
  import opened Bytes
  import opened Format7
  import opened Generation7
  import opened Steps7
  import opened Payload7
  import opened Volume7
  import opened Image7
  import opened Publication7
  import opened Answers7
  import opened History7

  // ---- Outcomes survive -------------------------------------------------------

  /** The same operation, later: a resolved record never changes, an admission may only be resolved. */
  predicate Evolves(r: Record, s: Record)
  {
    && s.subject == r.subject && s.workspace == r.workspace && s.objectId == r.objectId && s.instance == r.instance
    && s.epoch == r.epoch && s.key == r.key && s.previous == r.previous && s.length == r.length && s.runs == r.runs
    && (r.state != Admitted ==> s == r)
  }

  /** Slot `j` of `v` is still there in `w` with the same bytes, unless the retry epoch has moved on. */
  ghost predicate Carries(v: Volume, w: Volume, j: int)
    requires |v.blocks| == |w.blocks| == DATA_SECTORS
    requires Held(v.gen.records, j) && RecordOk(v.gen.records[j].value)
  {
    var r := v.gen.records[j].value;
    && w.gen.epoch >= v.gen.epoch
    && (w.gen.epoch == v.gen.epoch ==>
          && Held(w.gen.records, j) && Evolves(r, w.gen.records[j].value)
          && Content(w.blocks, r.runs, r.length) == Content(v.blocks, r.runs, r.length))
  }

  lemma StepCarriesRecord(crc: Checksum, v: Volume, op: Op, j: int)
    requires Publishes(crc, v, op) && Held(v.gen.records, j)
    ensures var next := Attempt(crc, v, op).next;
      && next.epoch >= v.gen.epoch
      && (next.epoch == v.gen.epoch ==> Held(next.records, j) && Evolves(v.gen.records[j].value, next.records[j].value))
  {
  }

  lemma StepCarries(crc: Checksum, v: Volume, op: Op, j: int)
    requires VolumeOk(crc, v) && Publishes(crc, v, op) && Held(v.gen.records, j) && RecordOk(v.gen.records[j].value)
    ensures Carries(v, After(crc, v, op), j)
  {
    StepCarriesRecord(crc, v, op, j);
    var e := RecordExtent(v.gen.records[j].value);
    assert HeldExtent(v.gen, j, e);
    KnownExtentKept(crc, v, op, e);
  }

  lemma SameViewCarries(crc: Checksum, v: Volume, w: Volume, j: int)
    requires VolumeOk(crc, v) && SameView(v, w) && Held(v.gen.records, j) && RecordOk(v.gen.records[j].value)
    ensures Carries(v, w, j)
  {
    SameViewOk(crc, v, w);
    assert HeldExtent(v.gen, j, RecordExtent(v.gen.records[j].value));
    assert KnownExtent(v.gen, RecordExtent(v.gen.records[j].value));
  }

  lemma CarriesTrans(u: Volume, v: Volume, w: Volume, j: int)
    requires |u.blocks| == |v.blocks| == |w.blocks| == DATA_SECTORS
    requires Held(u.gen.records, j) && RecordOk(u.gen.records[j].value) && Carries(u, v, j)
    requires v.gen.epoch == u.gen.epoch ==> RecordOk(v.gen.records[j].value) && Carries(v, w, j)
    requires w.gen.epoch >= v.gen.epoch
    ensures Carries(u, w, j)
  {
  }

  /** The generation a turn leaves is the old one or the one its request proposed. */
  lemma TurnGeneration(crc: Checksum, a: World, turn: Turn, b: World)
    requires Turned(crc, a, turn, b) && TurnOutcome(crc, a, turn, b)
    ensures b.volume.gen == a.volume.gen || ((turn.Completed? || turn.Interrupted?) && b.volume.gen == turn.w.gen)
  {
  }

  lemma ProposedEpoch(crc: Checksum, v: Volume, op: Op, slot: U8, w: Volume)
    requires Publishing(crc, v, op, slot, w)
    ensures w.gen.epoch >= v.gen.epoch
  {
    AttemptAdvances(crc, v, op);
  }

  lemma TurnEpoch(crc: Checksum, a: World, turn: Turn, b: World)
    requires EmptyIsZero(crc) && WorldOk(crc, a) && Turned(crc, a, turn, b)
    ensures b.volume.gen.epoch >= a.volume.gen.epoch
  {
    TurnSafe(crc, a, turn, b);
    TurnGeneration(crc, a, turn, b);
    if b.volume.gen != a.volume.gen {
      ProposedEpoch(crc, a.volume, turn.op, a.slot, turn.w);
    }
  }

  /** A proposed volume carries every retained record, and so does whatever shows it. */
  lemma ProposedCarries(crc: Checksum, a: World, op: Op, w: Volume, b: World, j: int)
    requires Publishing(crc, a.volume, op, a.slot, w) && SameView(w, b.volume)
    requires Held(a.volume.gen.records, j) && RecordOk(a.volume.gen.records[j].value)
    ensures Carries(a.volume, b.volume, j)
  {
    StepCarries(crc, a.volume, op, j);
    if w.gen.epoch == a.volume.gen.epoch {
      assert RecordInBounds(w.gen, w.gen.records[j].value);
      SameViewCarries(crc, w, b.volume, j);
    }
    CarriesTrans(a.volume, w, b.volume, j);
  }

  lemma TurnCarries(crc: Checksum, a: World, turn: Turn, b: World, j: int)
    requires EmptyIsZero(crc) && WorldOk(crc, a) && Turned(crc, a, turn, b)
    requires Held(a.volume.gen.records, j) && RecordOk(a.volume.gen.records[j].value)
    ensures |b.volume.blocks| == DATA_SECTORS && Carries(a.volume, b.volume, j)
  {
    TurnSafe(crc, a, turn, b);
    if Shows(b, a.volume, a.slot) {
      SameViewCarries(crc, a.volume, b.volume, j);
    } else {
      ProposedCarries(crc, a, turn.op, turn.w, b, j);
    }
  }

  /** `Carries`, with everything it needs. */
  ghost predicate Carried(u: Volume, v: Volume, j: int)
  {
    && |u.blocks| == |v.blocks| == DATA_SECTORS
    && Held(u.gen.records, j) && RecordOk(u.gen.records[j].value)
    && Carries(u, v, j)
  }

  lemma CarriedTurn(crc: Checksum, u: Volume, a: World, turn: Turn, b: World, j: int)
    requires EmptyIsZero(crc) && WorldOk(crc, a) && Turned(crc, a, turn, b) && Carried(u, a.volume, j)
    ensures Carried(u, b.volume, j)
  {
    TurnSafe(crc, a, turn, b);
    TurnEpoch(crc, a, turn, b);
    if a.volume.gen.epoch == u.gen.epoch {
      assert RecordInBounds(a.volume.gen, a.volume.gen.records[j].value);
      TurnCarries(crc, a, turn, b, j);
    }
    CarriesTrans(u, a.volume, b.volume, j);
  }

  lemma CarriedAcross(crc: Checksum, u: Volume, worlds: seq<World>, turns: seq<Turn>, i: nat, a: World, b: World, j: int)
    requires EmptyIsZero(crc) && IsRun(crc, worlds, turns) && WorldOk(crc, worlds[0])
    requires i < |turns| && a == worlds[i] && b == worlds[i + 1] && Carried(u, a.volume, j)
    ensures Carried(u, b.volume, j)
  {
    RunSafe(crc, worlds, turns, i);
    assert TurnAt(crc, worlds, turns, i);
    CarriedTurn(crc, u, a, turns[i], b, j);
  }

  lemma CarriedSelf(crc: Checksum, v: Volume, j: int)
    requires VolumeOk(crc, v) && Held(v.gen.records, j)
    ensures Carried(v, v, j)
  {
    assert RecordInBounds(v.gen, v.gen.records[j].value);
    SameViewCarries(crc, v, v, j);
  }

  /** Through any run of one retry epoch, crashes included, a retained record stays and keeps its bytes. */
  lemma RunCarries(crc: Checksum, worlds: seq<World>, turns: seq<Turn>, i: nat, k: nat, j: int)
    requires EmptyIsZero(crc) && IsRun(crc, worlds, turns) && WorldOk(crc, worlds[0])
    requires i <= k <= |turns| && Held(worlds[i].volume.gen.records, j)
    ensures Carried(worlds[i].volume, worlds[k].volume, j)
  {
    var u := worlds[i].volume;
    var kept := (a: World) => Carried(u, a.volume, j);
    RunSafe(crc, worlds, turns, i);
    CarriedSelf(crc, u, j);
    forall m | i <= m < k ensures Passes(kept, worlds, m) {
      if kept(worlds[m]) {
        CarriedAcross(crc, u, worlds, turns, m, worlds[m], worlds[m + 1], j);
      }
    }
    Along(kept, worlds, i, k);
  }

  // ---- Exactly once -----------------------------------------------------------

  /** Record `r` is the outcome of this very request. */
  ghost predicate OutcomeOf(r: Record, id: Identity, expected: U64, bytes: seq<Byte>, blocks: seq<Sector>)
    requires |blocks| == DATA_SECTORS
  {
    && RecordOk(r) && SameOperation(r, id, expected) && r.length == |bytes|
    && Content(blocks, r.runs, r.length) == bytes
  }

  /** A request whose outcome is retained is answered from it and publishes nothing, whatever plan it carries. */
  lemma OutcomeReplays(crc: Checksum, v: Volume, id: Identity, expected: U64, bytes: seq<Byte>,
                       plan: Option<seq<Run>>, j: int)
    requires VolumeOk(crc, v) && Held(v.gen.records, j)
    requires OutcomeOf(v.gen.records[j].value, id, expected, bytes, v.blocks)
    ensures v.gen.records[j].value.state == DirectCommitted ==>
      Attempt(crc, v, OpCommit(id, expected, bytes, plan)) == Replay(v.gen.records[j].value)
    ensures Attempt(crc, v, OpAdmit(id, expected, bytes, plan)) == Replay(v.gen.records[j].value)
  {
    var r := v.gen.records[j].value;
    assert RecordInBounds(v.gen, r);
    RetryFound(v.gen, id, j);
    assert SameBytes(v, id, bytes);
  }

  /**
   * Exactly once: after a direct commit took effect, through any run of the same retry epoch - further
   * requests, abandoned or cut-off publications, restarts - repeating the request returns the original
   * record and publishes nothing.
   */
  lemma CommittedOnce(crc: Checksum, worlds: seq<World>, turns: seq<Turn>, i: nat, k: nat, j: int,
                      id: Identity, expected: U64, bytes: seq<Byte>, plan: Option<seq<Run>>)
    requires EmptyIsZero(crc) && IsRun(crc, worlds, turns) && WorldOk(crc, worlds[0])
    requires i <= k <= |turns| && Held(worlds[i].volume.gen.records, j)
    requires |worlds[i].volume.blocks| == DATA_SECTORS
    requires OutcomeOf(worlds[i].volume.gen.records[j].value, id, expected, bytes, worlds[i].volume.blocks)
    requires worlds[i].volume.gen.records[j].value.state == DirectCommitted
    requires worlds[k].volume.gen.epoch == worlds[i].volume.gen.epoch
    ensures WorldOk(crc, worlds[k])
    ensures Attempt(crc, worlds[k].volume, OpCommit(id, expected, bytes, plan))
            == Replay(worlds[i].volume.gen.records[j].value)
  {
    RunSafe(crc, worlds, turns, k);
    RunCarries(crc, worlds, turns, i, k, j);
    OutcomeReplays(crc, worlds[k].volume, id, expected, bytes, plan, j);
  }

  /** The commit that took effect is what the record retains: its request, its bytes, its new version. */
  lemma CommitRetained(crc: Checksum, v: Volume, id: Identity, expected: U64, bytes: seq<Byte>, plan: Option<seq<Run>>)
    requires EmptyIsZero(crc) && VolumeOk(crc, v) && Publishes(crc, v, OpCommit(id, expected, bytes, plan))
    ensures var t, w := FreshTarget(v.gen, id, expected), After(crc, v, OpCommit(id, expected, bytes, plan));
      && t.Found? && Held(w.gen.records, t.slot) && Live(w.gen.nodes, t.index)
      && OutcomeOf(w.gen.records[t.slot].value, id, expected, bytes, w.blocks)
      && w.gen.records[t.slot].value.state == DirectCommitted
      && AliasesAt(w.gen.nodes, t.index, w.gen.records[t.slot].value)
      && w.gen.nodes[t.index].value.version == v.gen.sequence + 1
  {
    var t, w := FreshTarget(v.gen, id, expected), After(crc, v, OpCommit(id, expected, bytes, plan));
    AfterKeeps(crc, v, OpCommit(id, expected, bytes, plan));
    assert RecordInBounds(w.gen, w.gen.records[t.slot].value);
    ContentOfWritten(v.blocks, plan.value, bytes);
  }

  // ---- At most once, whatever happens -----------------------------------------

  /** The request uses this retry scope for a new operation. */
  predicate Opens(op: Op, id: Identity)
  {
    (op.OpCommit? || op.OpAdmit?) && op.id == id
  }

  /** The request would resolve an admission of this retry scope. */
  predicate Resolves(op: Op, id: Identity)
  {
    (op.OpExecute? || op.OpCancel?) && op.id == id
  }

  /** A scope is spent once a record of it is retained, or its epoch is over. */
  ghost predicate Spent(g: Generation, id: Identity)
  {
    id.epoch < g.epoch || exists j :: Held(g.records, j) && InScope(g.records[j].value, id)
  }

  /** An operation is settled once its record is no admission any more, or its epoch is over. */
  ghost predicate Settled(g: Generation, id: Identity)
  {
    id.epoch < g.epoch || exists j :: SettledAt(g.records, j, id)
  }

  predicate SettledAt(records: seq<Option<Record>>, j: int, id: Identity)
  {
    Held(records, j) && InScope(records[j].value, id) && records[j].value.state != Admitted
  }

  /** In a spent scope nothing new is ever opened, whatever the request carries. */
  lemma SpentRefuses(crc: Checksum, v: Volume, id: Identity, op: Op)
    requires VolumeOk(crc, v) && Spent(v.gen, id) && Opens(op, id)
    ensures !Attempt(crc, v, op).Publish?
  {
    if j :| Held(v.gen.records, j) && InScope(v.gen.records[j].value, id) {
      RetryFound(v.gen, id, j);
    }
  }

  /** A settled operation is neither executed nor cancelled again. */
  lemma SettledRefuses(crc: Checksum, v: Volume, id: Identity, op: Op)
    requires VolumeOk(crc, v) && Settled(v.gen, id) && Resolves(op, id)
    ensures !Attempt(crc, v, op).Publish?
  {
    if j :| SettledAt(v.gen.records, j, id) {
      RetryFound(v.gen, id, j);
    } else {
      forall j | Held(v.gen.records, j) ensures v.gen.records[j].value.epoch == v.gen.epoch {
        assert RecordInBounds(v.gen, v.gen.records[j].value);
      }
    }
  }

  /** Being spent or settled survives a retained record and an epoch change alike. */
  lemma CarriedSpent(crc: Checksum, u: Volume, v: Volume, id: Identity, j: int)
    requires VolumeOk(crc, u) && Carried(u, v, j) && InScope(u.gen.records[j].value, id)
    ensures Spent(v.gen, id)
    ensures u.gen.records[j].value.state != Admitted ==> Settled(v.gen, id)
  {
    assert RecordInBounds(u.gen, u.gen.records[j].value);
    if v.gen.epoch == u.gen.epoch {
      assert Held(v.gen.records, j) && InScope(v.gen.records[j].value, id);
      assert u.gen.records[j].value.state != Admitted ==> SettledAt(v.gen.records, j, id);
    }
  }

  lemma EpochStep(crc: Checksum, worlds: seq<World>, turns: seq<Turn>, i: nat, a: World, b: World)
    requires EmptyIsZero(crc) && IsRun(crc, worlds, turns) && i < |turns| && a == worlds[i] && b == worlds[i + 1]
    requires WorldOk(crc, worlds[0])
    ensures a.volume.gen.epoch <= b.volume.gen.epoch
  {
    RunSafe(crc, worlds, turns, i);
    assert TurnAt(crc, worlds, turns, i);
    TurnEpoch(crc, a, turns[i], b);
  }

  lemma EpochGrows(crc: Checksum, worlds: seq<World>, turns: seq<Turn>, i: nat, k: nat)
    requires EmptyIsZero(crc) && IsRun(crc, worlds, turns) && WorldOk(crc, worlds[0]) && i <= k <= |turns|
    ensures worlds[i].volume.gen.epoch <= worlds[k].volume.gen.epoch
  {
    var epoch := worlds[i].volume.gen.epoch;
    var later := (a: World) => epoch <= a.volume.gen.epoch;
    forall m | i <= m < k ensures Passes(later, worlds, m) {
      EpochStep(crc, worlds, turns, m, worlds[m], worlds[m + 1]);
    }
    Along(later, worlds, i, k);
  }

  /** A spent scope stays spent, and a settled operation settled, through any run: stops, restarts and maintenance included. */
  lemma StaysSpent(crc: Checksum, worlds: seq<World>, turns: seq<Turn>, i: nat, k: nat, id: Identity)
    requires EmptyIsZero(crc) && IsRun(crc, worlds, turns) && WorldOk(crc, worlds[0]) && i <= k <= |turns|
    ensures Spent(worlds[i].volume.gen, id) ==> Spent(worlds[k].volume.gen, id)
    ensures Settled(worlds[i].volume.gen, id) ==> Settled(worlds[k].volume.gen, id)
  {
    var g := worlds[i].volume.gen;
    EpochGrows(crc, worlds, turns, i, k);
    RunSafe(crc, worlds, turns, i);
    forall j | Held(g.records, j) && InScope(g.records[j].value, id)
      ensures Spent(worlds[k].volume.gen, id)
      ensures g.records[j].value.state != Admitted ==> Settled(worlds[k].volume.gen, id)
    {
      RunCarries(crc, worlds, turns, i, k, j);
      CarriedSpent(crc, worlds[i].volume, worlds[k].volume, id, j);
    }
  }

  /** Turn `i` carried out its request: the volume it proposed is what the run continued with. */
  ghost predicate TookEffect(worlds: seq<World>, turns: seq<Turn>, i: int, op: Op)
  {
    && 0 <= i < |turns| && i + 1 < |worlds|
    && (turns[i].Completed? || turns[i].Interrupted?) && turns[i].op == op
    && worlds[i + 1].volume.gen == turns[i].w.gen
  }

  /** A published opening leaves its record, and a published execution or cancellation leaves it settled. */
  lemma PublishedSpends(crc: Checksum, v: Volume, op: Op, id: Identity)
    requires Publishes(crc, v, op)
    ensures Opens(op, id) ==> Spent(Attempt(crc, v, op).next, id)
    ensures Opens(op, id) && op.OpCommit? ==> Settled(Attempt(crc, v, op).next, id)
    ensures Resolves(op, id) ==> Settled(Attempt(crc, v, op).next, id)
  {
    var g, next := v.gen, Attempt(crc, v, op).next;
    if Opens(op, id) {
      var t := FreshTarget(g, id, op.expected);
      assert Held(next.records, t.slot) && InScope(next.records[t.slot].value, id);
      assert op.OpCommit? ==> SettledAt(next.records, t.slot, id);
    }
    if Resolves(op, id) {
      var slot := FindRetry(g.records, id).value;
      assert SettledAt(next.records, slot, id);
    }
  }

  /** From the turn that carried a request out, the proposed volume's state follows. */
  lemma EffectSpends(crc: Checksum, worlds: seq<World>, turns: seq<Turn>, i: nat, op: Op, id: Identity)
    requires IsRun(crc, worlds, turns) && TookEffect(worlds, turns, i, op)
    ensures Opens(op, id) ==> Spent(worlds[i + 1].volume.gen, id)
    ensures Opens(op, id) && op.OpCommit? ==> Settled(worlds[i + 1].volume.gen, id)
    ensures Resolves(op, id) ==> Settled(worlds[i + 1].volume.gen, id)
  {
    assert TurnAt(crc, worlds, turns, i);
    PublishedSpends(crc, worlds[i].volume, op, id);
  }

  /**
   * At most once: once a commit or an admission took effect, no request of its retry scope is ever carried out again
   * in that run, whoever repeats it and with whatever content - stops, restarts and maintenance included.
   */
  lemma OpenedOnce(crc: Checksum, worlds: seq<World>, turns: seq<Turn>, i: nat, k: nat, id: Identity, op: Op, again: Op)
    requires EmptyIsZero(crc) && IsRun(crc, worlds, turns) && WorldOk(crc, worlds[0]) && i < k <= |turns|
    requires TookEffect(worlds, turns, i, op) && Opens(op, id) && Opens(again, id)
    ensures WorldOk(crc, worlds[k]) && !Attempt(crc, worlds[k].volume, again).Publish?
  {
    EffectSpends(crc, worlds, turns, i, op, id);
    StaysSpent(crc, worlds, turns, i + 1, k, id);
    RunSafe(crc, worlds, turns, k);
    SpentRefuses(crc, worlds[k].volume, id, again);
  }

  /** And once an admission was executed or cancelled, or a direct commit took effect, neither ever happens again. */
  lemma ResolvedOnce(crc: Checksum, worlds: seq<World>, turns: seq<Turn>, i: nat, k: nat, id: Identity, op: Op, again: Op)
    requires EmptyIsZero(crc) && IsRun(crc, worlds, turns) && WorldOk(crc, worlds[0]) && i < k <= |turns|
    requires TookEffect(worlds, turns, i, op) && (Resolves(op, id) || (Opens(op, id) && op.OpCommit?)) && Resolves(again, id)
    ensures WorldOk(crc, worlds[k]) && !Attempt(crc, worlds[k].volume, again).Publish?
  {
    EffectSpends(crc, worlds, turns, i, op, id);
    StaysSpent(crc, worlds, turns, i + 1, k, id);
    RunSafe(crc, worlds, turns, k);
    SettledRefuses(crc, worlds[k].volume, id, again);
  }

  /** A request that took effect was published. */
  lemma EffectPublished(crc: Checksum, worlds: seq<World>, turns: seq<Turn>, i: nat, op: Op)
    requires IsRun(crc, worlds, turns) && TookEffect(worlds, turns, i, op)
    ensures |worlds[i].volume.blocks| == DATA_SECTORS && Attempt(crc, worlds[i].volume, op).Publish?
  {
    assert TurnAt(crc, worlds, turns, i);
  }

  /** No two turns of a run carry out the same opening, or settle the same operation. */
  lemma OneEffect(crc: Checksum, worlds: seq<World>, turns: seq<Turn>, i: nat, k: nat, id: Identity, op: Op, again: Op)
    requires EmptyIsZero(crc) && IsRun(crc, worlds, turns) && WorldOk(crc, worlds[0])
    requires TookEffect(worlds, turns, i, op) && TookEffect(worlds, turns, k, again)
    requires (Opens(op, id) && Opens(again, id)) || (Resolves(op, id) && Resolves(again, id))
    ensures i == k
  {
    EffectPublished(crc, worlds, turns, i, op);
    EffectPublished(crc, worlds, turns, k, again);
    if i < k {
      if Opens(op, id) { OpenedOnce(crc, worlds, turns, i, k, id, op, again); }
      else { ResolvedOnce(crc, worlds, turns, i, k, id, op, again); }
    } else if k < i {
      if Opens(op, id) { OpenedOnce(crc, worlds, turns, k, i, id, again, op); }
      else { ResolvedOnce(crc, worlds, turns, k, i, id, again, op); }
    }
  }
}
