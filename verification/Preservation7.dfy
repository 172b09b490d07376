/** Every step takes an accepted generation to an accepted generation. */
module Preservation7 {
  import opened Bytes
  import opened Format7
  import opened Generation7
  import opened Steps7
  import opened Ownership7

  // ---- Namespace --------------------------------------------------------------

  predicate SamePlace(a: Node, b: Node)
  {
    a.id == b.id && a.parent == b.parent && a.name == b.name && a.kind == b.kind && a.space == b.space
  }

  /** Both tables hold the same tree; only versions and payload may differ. */
  ghost predicate SamePlaces(nodes: seq<Option<Node>>, after: seq<Option<Node>>)
  {
    && |nodes| == |after|
    && forall i :: (Live(nodes, i) <==> Live(after, i)) && (Live(nodes, i) ==> SamePlace(nodes[i].value, after[i].value))
  }

  lemma {:induction false} ChainKept(nodes: seq<Option<Node>>, after: seq<Option<Node>>, c: seq<int>)
    requires SamePlaces(nodes, after) && Chain(nodes, c)
    ensures Chain(after, c)
  {
    if |c| > 1 {
      ChainKept(nodes, after, c[1..]);
    }
  }

  lemma PlacesKept(nodes: seq<Option<Node>>, after: seq<Option<Node>>)
    requires SamePlaces(nodes, after)
    requires IdsDistinct(nodes) && SiblingsDistinct(nodes) && RootsOk(nodes) && Rooted(nodes)
    ensures IdsDistinct(after) && SiblingsDistinct(after) && RootsOk(after) && Rooted(after)
  {
    forall i | Live(after, i) ensures exists c :: ChainFrom(after, i, c) {
      assert Live(nodes, i);
      var c :| ChainFrom(nodes, i, c);
      ChainKept(nodes, after, c);
      assert ChainFrom(after, i, c);
    }
    forall i, j | Live(after, i) && Live(after, j) && SameSibling(after[i].value, after[j].value) ensures i == j {
      assert Live(nodes, i) && Live(nodes, j);
    }
    forall id | 1 <= id <= 4 ensures RootPresent(after, id) {
      assert RootPresent(nodes, id);
      var i :| IsRoot(nodes, i, id);
      assert Live(nodes, i);
      assert IsRoot(after, i, id);
    }
  }

  lemma ReplacePlaces(nodes: seq<Option<Node>>, i: int, n: Node)
    requires Live(nodes, i) && SamePlace(nodes[i].value, n)
    ensures SamePlaces(nodes, nodes[i := Some(n)])
  {
  }

  // ---- A direct commit --------------------------------------------------------

  /** What a fresh write has established before it proposes a candidate. */
  ghost predicate FreshWrite(g: Generation, id: Identity, expected: U64, length: U32, crc: U32, plan: seq<Run>, t: Target)
  {
    && GenerationOk(g)
    && IdentityOk(g, id)
    && FindRetry(g.records, id).None?
    && t == FreshTarget(g, id, expected)
    && t.Found?
    && PlanOk(g.used, length, plan)
    && (length == 0 ==> crc == 0)
  }

  /** A record created now follows everything retained and everything it saw. */
  /** A record made at the next sequence fits every record its object's current version is consistent with. */
  lemma NewPair(r: Record, o: Record, n: Node, sequence: nat)
    requires RecordOk(o) && o.previous <= sequence && o.committed <= sequence && o.admission <= sequence && o.terminal <= sequence
    requires !SameRetry(r, o) && r.previous == n.version <= sequence
    requires o.objectId == r.objectId ==> TargetOk(o, n)
    requires r.state == DirectCommitted || r.state == Admitted
    requires Observed(r) == sequence + 1
    requires r.state == DirectCommitted ==> r.admission == 0 && r.terminal == r.committed
    requires r.state == Admitted ==> r.committed == 0 && r.terminal == 0
    ensures PairOk(r, o) && PairOk(o, r)
  {
  }

  lemma NewRecordPairs(g: Generation, id: Identity, r: Record, i: int, j: int)
    requires GenerationOk(g) && Live(g.nodes, i) && Held(g.records, j)
    requires FindRetry(g.records, id).None? && InScope(r, id)
    requires g.sequence < U64_MAX
    requires r.objectId == g.nodes[i].value.id && r.previous == g.nodes[i].value.version
    requires r.state == DirectCommitted || r.state == Admitted
    requires Observed(r) == g.sequence + 1
    requires r.state == DirectCommitted ==> r.admission == 0 && r.terminal == r.committed
    requires r.state == Admitted ==> r.committed == 0 && r.terminal == 0
    ensures PairOk(r, g.records[j].value) && PairOk(g.records[j].value, r)
  {
    var o := g.records[j].value;
    assert RecordInBounds(g, o);
    assert NodeOk(g.nodes[i].value);
    if o.objectId == r.objectId {
      assert TargetOk(o, g.nodes[i].value);
    }
    NewPair(r, o, g.nodes[i].value, g.sequence);
  }

  lemma CommitRecords(g: Generation, id: Identity, expected: U64, length: U32, crc: U32, plan: seq<Run>, t: Target)
    requires FreshWrite(g, id, expected, length, crc, plan, t)
    ensures RecordsOk(CommitNext(g, t, CommittedRecord(g, id, expected, length, crc, plan)))
  {
    var r := CommittedRecord(g, id, expected, length, crc, plan);
    var g' := CommitNext(g, t, r);
    var n := g.nodes[t.index].value;
    assert NodeOk(n) && n.version <= g.sequence;
    forall j | Held(g.records, j) ensures PairOk(r, g.records[j].value) && PairOk(g.records[j].value, r) {
      NewRecordPairs(g, id, r, t.index, j);
    }
    forall j | Held(g'.records, j) ensures RecordInBounds(g', g'.records[j].value) {
      if j != t.slot {
        assert Held(g.records, j);
      }
    }
    forall j, i | Held(g'.records, j) && Live(g'.nodes, i) && g'.nodes[i].value.id == g'.records[j].value.objectId
      ensures TargetOk(g'.records[j].value, g'.nodes[i].value)
    {
      assert Live(g.nodes, i);
      if j != t.slot {
        assert Held(g.records, j);
        assert RecordInBounds(g, g.records[j].value);
        assert TargetOk(g.records[j].value, g.nodes[i].value);
      }
    }
    forall j, k | Held(g'.records, j) && Held(g'.records, k) && j != k
      ensures PairOk(g'.records[j].value, g'.records[k].value)
    {
      assert j != t.slot ==> Held(g.records, j);
      assert k != t.slot ==> Held(g.records, k);
    }
  }

  lemma CommitNamespace(g: Generation, id: Identity, expected: U64, length: U32, crc: U32, plan: seq<Run>, t: Target)
    requires FreshWrite(g, id, expected, length, crc, plan, t)
    ensures NamespaceOk(CommitNext(g, t, CommittedRecord(g, id, expected, length, crc, plan)))
  {
    var r := CommittedRecord(g, id, expected, length, crc, plan);
    var g' := CommitNext(g, t, r);
    var n := g.nodes[t.index].value;
    ReplacePlaces(g.nodes, t.index, Replaced(n, r));
    PlacesKept(g.nodes, g'.nodes);
    forall i | Live(g'.nodes, i)
      ensures NodeOk(g'.nodes[i].value) && g'.nodes[i].value.id < g'.next && g'.nodes[i].value.version <= g'.sequence
    {
      assert Live(g.nodes, i);
    }
  }

  lemma CommitOwners(g: Generation, id: Identity, expected: U64, length: U32, crc: U32, plan: seq<Run>, t: Target)
    requires FreshWrite(g, id, expected, length, crc, plan, t)
    ensures OwnershipOk(CommitNext(g, t, CommittedRecord(g, id, expected, length, crc, plan)))
  {
    var r := CommittedRecord(g, id, expected, length, crc, plan);
    var g' := CommitNext(g, t, r);
    var i, n := t.index, Replaced(g.nodes[t.index].value, r);
    assert AliasesAt(g'.nodes, i, r);
    assert Updated(g, i, Some(n), g'.nodes);
    SnapshotsStayApart(g, i, Some(n), g'.nodes);
    forall j, s: nat
      ensures SnapshotOwns(g'.nodes, g'.records, j, s) <==> SnapshotOwns(g'.nodes, g.records, j, s)
    {
      assert j != t.slot ==> (Held(g'.records, j) <==> Held(g.records, j));
    }
    forall k, s: nat
      ensures FileOwns(g'.nodes, k, s) <==> if k == i then Covers(plan, s) else FileOwns(g.nodes, k, s)
    {
    }
    forall s: nat
      ensures s in g'.used <==> Owned(g'.nodes, g'.records, s)
    {
      RemainingUse(g, i, Some(n), g'.nodes, s);
      if Covers(plan, s) {
        CoversInBounds(plan, length, s);
        assert FileOwns(g'.nodes, i, s);
      }
      ReleasedExactly(g, i);
      assert FileOwns(g.nodes, i, s) ==> Owned(g.nodes, g.records, s);
    }
    forall s: nat, k, j | FileOwns(g'.nodes, k, s)
      ensures !SnapshotOwns(g'.nodes, g'.records, j, s)
    {
      RemainingUse(g, i, Some(n), g'.nodes, s);
      SnapshotAfterUpdate(g, i, Some(n), g'.nodes, j, s);
    }
    forall s: nat, k, m | FileOwns(g'.nodes, k, s) && FileOwns(g'.nodes, m, s)
      ensures k == m
    {
      RemainingUse(g, i, Some(n), g'.nodes, s);
    }
    forall j | Held(g'.records, j) && g'.records[j].value.length == 0 ensures g'.records[j].value.crc == 0 {
      assert j != t.slot ==> Held(g.records, j);
    }
  }

  /** A direct commit keeps every rule. */
  lemma CommitKeeps(g: Generation, id: Identity, expected: U64, length: U32, crc: U32, plan: seq<Run>, t: Target)
    requires FreshWrite(g, id, expected, length, crc, plan, t)
    ensures GenerationOk(CommitNext(g, t, CommittedRecord(g, id, expected, length, crc, plan)))
  {
    CommitNamespace(g, id, expected, length, crc, plan, t);
    CommitRecords(g, id, expected, length, crc, plan, t);
    CommitOwners(g, id, expected, length, crc, plan, t);
  }

  // ---- An admission -----------------------------------------------------------

  lemma AdmitRecords(g: Generation, id: Identity, expected: U64, length: U32, crc: U32, plan: seq<Run>, t: Target)
    requires FreshWrite(g, id, expected, length, crc, plan, t)
    ensures RecordsOk(AdmitNext(g, t.slot, AdmittedRecord(g, id, expected, length, crc, plan)))
  {
    var r := AdmittedRecord(g, id, expected, length, crc, plan);
    var g' := AdmitNext(g, t.slot, r);
    var n := g.nodes[t.index].value;
    assert NodeOk(n) && n.version <= g.sequence;
    forall j | Held(g.records, j) ensures PairOk(r, g.records[j].value) && PairOk(g.records[j].value, r) {
      NewRecordPairs(g, id, r, t.index, j);
    }
    forall j | Held(g'.records, j) ensures RecordInBounds(g', g'.records[j].value) {
      assert j != t.slot ==> Held(g.records, j);
    }
    forall j, i | Held(g'.records, j) && Live(g'.nodes, i) && g'.nodes[i].value.id == g'.records[j].value.objectId
      ensures TargetOk(g'.records[j].value, g'.nodes[i].value)
    {
      assert j != t.slot ==> Held(g.records, j);
      assert j == t.slot ==> i == t.index;
    }
    forall j, k | Held(g'.records, j) && Held(g'.records, k) && j != k
      ensures PairOk(g'.records[j].value, g'.records[k].value)
    {
      assert j != t.slot ==> Held(g.records, j);
      assert k != t.slot ==> Held(g.records, k);
    }
  }

  /** After an admission its record owns the planned sectors, and every other snapshot what it owned before. */
  lemma AdmitOwns(g: Generation, id: Identity, expected: U64, length: U32, crc: U32, plan: seq<Run>, t: Target, j: int, s: nat)
    requires FreshWrite(g, id, expected, length, crc, plan, t)
    ensures var next := AdmitNext(g, t.slot, AdmittedRecord(g, id, expected, length, crc, plan));
      SnapshotOwns(next.nodes, next.records, j, s) <==>
        if j == t.slot then Covers(plan, s) else SnapshotOwns(g.nodes, g.records, j, s)
  {
  }

  lemma AdmitUse(g: Generation, id: Identity, expected: U64, length: U32, crc: U32, plan: seq<Run>, t: Target, s: nat)
    requires FreshWrite(g, id, expected, length, crc, plan, t)
    ensures var next := AdmitNext(g, t.slot, AdmittedRecord(g, id, expected, length, crc, plan));
      s in next.used <==> Owned(next.nodes, next.records, s)
    ensures Covers(plan, s) ==> !Owned(g.nodes, g.records, s)
  {
    var next := AdmitNext(g, t.slot, AdmittedRecord(g, id, expected, length, crc, plan));
    if Covers(plan, s) {
      CoversInBounds(plan, length, s);
      AdmitOwns(g, id, expected, length, crc, plan, t, t.slot, s);
    }
    assert s in g.used <==> Owned(g.nodes, g.records, s);
    if j :| SnapshotOwns(next.nodes, next.records, j, s) {
      AdmitOwns(g, id, expected, length, crc, plan, t, j, s);
    }
    if j :| SnapshotOwns(g.nodes, g.records, j, s) {
      AdmitOwns(g, id, expected, length, crc, plan, t, j, s);
    }
  }

  lemma AdmitOwners(g: Generation, id: Identity, expected: U64, length: U32, crc: U32, plan: seq<Run>, t: Target)
    requires FreshWrite(g, id, expected, length, crc, plan, t)
    ensures OwnershipOk(AdmitNext(g, t.slot, AdmittedRecord(g, id, expected, length, crc, plan)))
  {
    var r := AdmittedRecord(g, id, expected, length, crc, plan);
    var g' := AdmitNext(g, t.slot, r);
    forall j, s: nat
      ensures SnapshotOwns(g'.nodes, g'.records, j, s) <==>
        if j == t.slot then Covers(plan, s) else SnapshotOwns(g.nodes, g.records, j, s)
    {
      AdmitOwns(g, id, expected, length, crc, plan, t, j, s);
    }
    forall s: nat
      ensures s in g'.used <==> Owned(g'.nodes, g'.records, s)
      ensures Covers(plan, s) ==> !Owned(g.nodes, g.records, s)
    {
      AdmitUse(g, id, expected, length, crc, plan, t, s);
    }
    assert forall s: nat, j :: SnapshotOwns(g.nodes, g.records, j, s) ==> Owned(g.nodes, g.records, s);
    assert forall s: nat, i :: FileOwns(g.nodes, i, s) ==> Owned(g.nodes, g.records, s);
    forall j | Held(g'.records, j) && g'.records[j].value.length == 0 ensures g'.records[j].value.crc == 0 {
      assert j != t.slot ==> Held(g.records, j);
    }
  }

  /** An admission keeps every rule. */
  lemma AdmitKeeps(g: Generation, id: Identity, expected: U64, length: U32, crc: U32, plan: seq<Run>, t: Target)
    requires FreshWrite(g, id, expected, length, crc, plan, t)
    ensures GenerationOk(AdmitNext(g, t.slot, AdmittedRecord(g, id, expected, length, crc, plan)))
  {
    AdmitRecords(g, id, expected, length, crc, plan, t);
    AdmitOwners(g, id, expected, length, crc, plan, t);
  }

  // ---- An execution -----------------------------------------------------------

  /** An admission whose live file is still the version it was admitted against. */
  ghost predicate Executable(g: Generation, i: int, slot: int)
  {
    && GenerationOk(g)
    && Live(g.nodes, i) && Held(g.records, slot)
    && g.records[slot].value.state == Admitted
    && g.nodes[i].value.id == g.records[slot].value.objectId
    && g.nodes[i].value.kind == File
    && g.nodes[i].value.version == g.records[slot].value.previous
    && g.sequence < U64_MAX
  }

  /** The executed record against another one: no observation fell between with another version. */
  lemma ExecutePairs(g: Generation, i: int, slot: int, j: int)
    requires Executable(g, i, slot) && Held(g.records, j) && j != slot
    ensures var r := ExecutedRecord(g, g.records[slot].value);
      PairOk(r, g.records[j].value) && PairOk(g.records[j].value, r)
  {
    var r, o := g.records[slot].value, g.records[j].value;
    assert RecordInBounds(g, r) && RecordInBounds(g, o);
    assert PairOk(r, o) && PairOk(o, r);
    if o.objectId == r.objectId {
      assert TargetOk(o, g.nodes[i].value);
    }
  }

  lemma ExecuteRecords(g: Generation, i: int, slot: int)
    requires Executable(g, i, slot)
    ensures RecordsOk(ExecuteNext(g, i, slot))
  {
    var g' := ExecuteNext(g, i, slot);
    assert RecordInBounds(g, g.records[slot].value);
    forall j | Held(g'.records, j) ensures RecordInBounds(g', g'.records[j].value) {
      assert Held(g.records, j);
    }
    ExecuteTargets(g, i, slot);
    ExecutePairsOk(g, i, slot);
  }

  lemma ExecutePairsOk(g: Generation, i: int, slot: int)
    requires Executable(g, i, slot)
    ensures PairsOk(ExecuteNext(g, i, slot).records)
  {
    var r := ExecutedRecord(g, g.records[slot].value);
    var records := ExecuteNext(g, i, slot).records;
    forall j | Held(g.records, j) && j != slot ensures PairOk(r, g.records[j].value) && PairOk(g.records[j].value, r) {
      ExecutePairs(g, i, slot, j);
    }
    forall j, k | Held(records, j) && Held(records, k) && j != k ensures PairOk(records[j].value, records[k].value) {
      assert Held(g.records, j) && Held(g.records, k);
    }
  }

  lemma ExecuteTargets(g: Generation, i: int, slot: int)
    requires Executable(g, i, slot)
    ensures TargetsOk(ExecuteNext(g, i, slot))
  {
    var g' := ExecuteNext(g, i, slot);
    forall j, k | Held(g'.records, j) && Live(g'.nodes, k) && g'.nodes[k].value.id == g'.records[j].value.objectId
      ensures TargetOk(g'.records[j].value, g'.nodes[k].value)
    {
      assert Held(g.records, j) && Live(g.nodes, k);
      assert RecordInBounds(g, g.records[j].value);
      assert TargetOk(g.records[j].value, g.nodes[k].value);
      assert j == slot ==> k == i;
    }
  }

  lemma ExecuteNamespace(g: Generation, i: int, slot: int)
    requires Executable(g, i, slot)
    ensures NamespaceOk(ExecuteNext(g, i, slot))
  {
    var r := ExecutedRecord(g, g.records[slot].value);
    var g' := ExecuteNext(g, i, slot);
    assert RecordInBounds(g, g.records[slot].value);
    ReplacePlaces(g.nodes, i, Replaced(g.nodes[i].value, r));
    PlacesKept(g.nodes, g'.nodes);
    forall k | Live(g'.nodes, k)
      ensures NodeOk(g'.nodes[k].value) && g'.nodes[k].value.id < g'.next && g'.nodes[k].value.version <= g'.sequence
    {
      assert Live(g.nodes, k);
    }
  }

  lemma ExecuteOwners(g: Generation, i: int, slot: int)
    requires Executable(g, i, slot)
    ensures OwnershipOk(ExecuteNext(g, i, slot))
  {
    var r := ExecutedRecord(g, g.records[slot].value);
    var g' := ExecuteNext(g, i, slot);
    var n := Replaced(g.nodes[i].value, r);
    assert AliasesAt(g'.nodes, i, r);
    assert Updated(g, i, Some(n), g'.nodes);
    SnapshotsStayApart(g, i, Some(n), g'.nodes);
    forall j, s: nat
      ensures SnapshotOwns(g'.nodes, g'.records, j, s) <==> j != slot && SnapshotOwns(g'.nodes, g.records, j, s)
    {
      assert j != slot ==> (Held(g'.records, j) <==> Held(g.records, j));
    }
    forall s: nat
      ensures SnapshotOwns(g'.nodes, g.records, slot, s) <==> Covers(r.runs, s)
      ensures SnapshotOwns(g.nodes, g.records, slot, s) <==> Covers(r.runs, s)
    {
    }
    forall k, s: nat
      ensures FileOwns(g'.nodes, k, s) <==> if k == i then Covers(r.runs, s) else FileOwns(g.nodes, k, s)
    {
    }
    forall s: nat
      ensures s in g'.used <==> Owned(g'.nodes, g'.records, s)
    {
      RemainingUse(g, i, Some(n), g'.nodes, s);
      if exists j :: SnapshotOwns(g'.nodes, g.records, j, s) {
        var j :| SnapshotOwns(g'.nodes, g.records, j, s);
        assert j == slot ==> FileOwns(g'.nodes, i, s);
        assert j != slot ==> SnapshotOwns(g'.nodes, g'.records, j, s);
      }
      if exists k :: k != i && FileOwns(g.nodes, k, s) {
        var k :| k != i && FileOwns(g.nodes, k, s);
        assert FileOwns(g'.nodes, k, s);
      }
    }
    forall s: nat, k, j | FileOwns(g'.nodes, k, s)
      ensures !SnapshotOwns(g'.nodes, g'.records, j, s)
    {
      SnapshotAfterUpdate(g, i, Some(n), g'.nodes, j, s);
    }
    forall j | Held(g'.records, j) && g'.records[j].value.length == 0 ensures g'.records[j].value.crc == 0 {
      assert Held(g.records, j);
    }
  }

  /** Executing an admission at its admitted version keeps every rule. */
  lemma ExecuteKeeps(g: Generation, i: int, slot: int)
    requires Executable(g, i, slot)
    ensures GenerationOk(ExecuteNext(g, i, slot))
  {
    ExecuteNamespace(g, i, slot);
    ExecuteRecords(g, i, slot);
    ExecuteOwners(g, i, slot);
  }

  // ---- A cancellation ---------------------------------------------------------

  /** A cancelled record stands where the admission stood; only its fresh terminal event is new. */
  lemma CancelPairs(g: Generation, slot: int, cause: Cause, j: int)
    requires RecordsOk(g) && Held(g.records, slot) && Held(g.records, j) && j != slot
    requires g.records[slot].value.state == Admitted && g.sequence < U64_MAX
    ensures var r := CancelledRecord(g, g.records[slot].value, cause);
      PairOk(r, g.records[j].value) && PairOk(g.records[j].value, r)
  {
    var r, o := g.records[slot].value, g.records[j].value;
    assert RecordInBounds(g, r) && RecordInBounds(g, o);
    assert PairOk(r, o) && PairOk(o, r);
  }

  lemma CancelRecords(g: Generation, slot: int, cause: Cause)
    requires GenerationOk(g) && Held(g.records, slot) && g.records[slot].value.state == Admitted && g.sequence < U64_MAX
    ensures RecordsOk(CancelNext(g, slot, cause))
  {
    var g' := CancelNext(g, slot, cause);
    var r := g.records[slot].value;
    assert RecordInBounds(g, r);
    forall j | Held(g'.records, j) ensures RecordInBounds(g', g'.records[j].value) {
      assert Held(g.records, j);
    }
    forall j, i | Held(g'.records, j) && Live(g'.nodes, i) && g'.nodes[i].value.id == g'.records[j].value.objectId
      ensures TargetOk(g'.records[j].value, g'.nodes[i].value)
    {
      assert TargetOk(g.records[j].value, g.nodes[i].value) by { assert Held(g.records, j); }
    }
    forall j | Held(g.records, j) && j != slot
      ensures PairOk(g'.records[slot].value, g.records[j].value) && PairOk(g.records[j].value, g'.records[slot].value)
    {
      CancelPairs(g, slot, cause, j);
    }
    forall j, k | Held(g'.records, j) && Held(g'.records, k) && j != k
      ensures PairOk(g'.records[j].value, g'.records[k].value)
    {
      assert Held(g.records, j) && Held(g.records, k);
    }
  }

  /** Cancelling an admission keeps every rule and every owner. */
  lemma CancelKeeps(g: Generation, slot: int, cause: Cause)
    requires GenerationOk(g) && Held(g.records, slot) && g.records[slot].value.state == Admitted && g.sequence < U64_MAX
    ensures GenerationOk(CancelNext(g, slot, cause))
  {
    var g' := CancelNext(g, slot, cause);
    CancelRecords(g, slot, cause);
    forall j, s: nat
      ensures SnapshotOwns(g'.nodes, g'.records, j, s) <==> SnapshotOwns(g.nodes, g.records, j, s)
    {
      assert Held(g'.records, j) <==> Held(g.records, j);
    }
    forall s: nat ensures Owned(g'.nodes, g'.records, s) <==> Owned(g.nodes, g.records, s) {
    }
    forall j | Held(g'.records, j) && g'.records[j].value.length == 0 ensures g'.records[j].value.crc == 0 {
      assert Held(g.records, j);
    }
  }

  // ---- Maintenance ------------------------------------------------------------

  /** Dropping every record keeps the live files, their sectors and nothing else. */
  lemma MaintainKeeps(g: Generation)
    requires GenerationOk(g) && g.sequence < U64_MAX && g.epoch < U64_MAX
    ensures GenerationOk(MaintainNext(g))
  {
    var g' := MaintainNext(g);
    assert NamespaceOk(g');
    forall s: nat
      ensures s in g'.used <==> Owned(g'.nodes, g'.records, s)
    {
      if i :| FileOwns(g.nodes, i, s) {
        assert NodeOk(g.nodes[i].value);
        CoversInBounds(g.nodes[i].value.runs, g.nodes[i].value.length, s);
        assert FileCovers(g.nodes, s);
      }
    }
  }

  // ---- Creation and removal ---------------------------------------------------

  lemma {:induction false} ChainGrows(nodes: seq<Option<Node>>, slot: int, n: Node, c: seq<int>)
    requires 0 <= slot < |nodes| && nodes[slot].None? && Chain(nodes, c)
    ensures Chain(nodes[slot := Some(n)], c)
  {
    if |c| > 1 {
      ChainGrows(nodes, slot, n, c[1..]);
    }
  }

  ghost predicate Creatable(g: Generation, p: int, slot: int, name: seq<Byte>)
  {
    && GenerationOk(g)
    && Live(g.nodes, p) && g.nodes[p].value.kind == Directory
    && 0 <= slot < |g.nodes| && g.nodes[slot].None?
    && ValidName(name) && !HasChild(g.nodes, g.nodes[p].value.id, name)
    && g.next < NEXT_EXHAUSTED && g.sequence < U64_MAX
  }

  lemma CreateNamespace(g: Generation, p: int, slot: int, name: seq<Byte>, kind: Kind)
    requires Creatable(g, p, slot, name)
    ensures NamespaceOk(CreateNext(g, slot, CreatedNode(g, g.nodes[p].value, name, kind)))
  {
    var n := CreatedNode(g, g.nodes[p].value, name, kind);
    var g' := CreateNext(g, slot, n);
    assert NodeOk(g.nodes[p].value);
    forall i | Live(g'.nodes, i)
      ensures NodeOk(g'.nodes[i].value) && g'.nodes[i].value.id < g'.next && g'.nodes[i].value.version <= g'.sequence
      ensures exists c :: ChainFrom(g'.nodes, i, c)
    {
      var at := if i == slot then p else i;
      assert Live(g.nodes, at);
      var c :| ChainFrom(g.nodes, at, c);
      ChainGrows(g.nodes, slot, n, c);
      if i == slot {
        assert ([slot] + c)[1..] == c;
        assert ParentOf(g'.nodes, slot, p);
        assert ChainFrom(g'.nodes, slot, [slot] + c);
      } else {
        assert ChainFrom(g'.nodes, i, c);
      }
    }
    forall i, j | Live(g'.nodes, i) && Live(g'.nodes, j)
      ensures g'.nodes[i].value.id == g'.nodes[j].value.id ==> i == j
      ensures SameSibling(g'.nodes[i].value, g'.nodes[j].value) ==> i == j
    {
      assert i != slot ==> Live(g.nodes, i);
      assert j != slot ==> Live(g.nodes, j);
    }
    forall id | 1 <= id <= 4 ensures RootPresent(g'.nodes, id) {
      assert RootPresent(g.nodes, id);
      var i :| IsRoot(g.nodes, i, id);
      assert IsRoot(g'.nodes, i, id);
    }
    forall i | Live(g'.nodes, i) && g'.nodes[i].value.parent == 0 ensures RootShape(g'.nodes[i].value) {
      assert Live(g.nodes, i);
    }
  }

  /** A new node under a live directory, with a fresh identity and no payload, keeps every rule. */
  /** No retained record aliases a file that has no payload yet. */
  lemma CreateAliases(g: Generation, p: int, slot: int, name: seq<Byte>, kind: Kind, j: int)
    requires Creatable(g, p, slot, name) && Held(g.records, j)
    ensures var next := CreateNext(g, slot, CreatedNode(g, g.nodes[p].value, name, kind));
      && RecordInBounds(next, g.records[j].value)
      && (Aliases(next.nodes, g.records[j].value) <==> Aliases(g.nodes, g.records[j].value))
  {
    var next, r := CreateNext(g, slot, CreatedNode(g, g.nodes[p].value, name, kind)), g.records[j].value;
    assert RecordInBounds(g, r);
    forall i ensures AliasesAt(next.nodes, i, r) <==> AliasesAt(g.nodes, i, r) {
    }
  }

  lemma CreateRecords(g: Generation, p: int, slot: int, name: seq<Byte>, kind: Kind)
    requires Creatable(g, p, slot, name)
    ensures RecordsOk(CreateNext(g, slot, CreatedNode(g, g.nodes[p].value, name, kind)))
  {
    var next := CreateNext(g, slot, CreatedNode(g, g.nodes[p].value, name, kind));
    forall j | Held(g.records, j) ensures RecordInBounds(next, g.records[j].value) {
      CreateAliases(g, p, slot, name, kind, j);
    }
    forall j, i | Held(next.records, j) && Live(next.nodes, i) && next.nodes[i].value.id == next.records[j].value.objectId
      ensures TargetOk(next.records[j].value, next.nodes[i].value)
    {
      CreateAliases(g, p, slot, name, kind, j);
      assert i != slot ==> Live(g.nodes, i);
    }
  }

  lemma CreateOwnership(g: Generation, p: int, slot: int, name: seq<Byte>, kind: Kind)
    requires Creatable(g, p, slot, name)
    ensures OwnershipOk(CreateNext(g, slot, CreatedNode(g, g.nodes[p].value, name, kind)))
  {
    var next := CreateNext(g, slot, CreatedNode(g, g.nodes[p].value, name, kind));
    forall j | Held(g.records, j)
      ensures Aliases(next.nodes, g.records[j].value) <==> Aliases(g.nodes, g.records[j].value)
    {
      CreateAliases(g, p, slot, name, kind, j);
    }
    forall i, s: nat ensures FileOwns(next.nodes, i, s) <==> FileOwns(g.nodes, i, s) {
    }
    forall j, s: nat ensures SnapshotOwns(next.nodes, next.records, j, s) <==> SnapshotOwns(g.nodes, g.records, j, s) {
    }
    forall s: nat ensures Owned(next.nodes, next.records, s) <==> Owned(g.nodes, g.records, s) {
    }
  }

  lemma CreateKeeps(g: Generation, p: int, slot: int, name: seq<Byte>, kind: Kind)
    requires Creatable(g, p, slot, name)
    ensures GenerationOk(CreateNext(g, slot, CreatedNode(g, g.nodes[p].value, name, kind)))
  {
    CreateNamespace(g, p, slot, name, kind);
    CreateRecords(g, p, slot, name, kind);
    CreateOwnership(g, p, slot, name, kind);
  }

  lemma {:induction false} ChainShrinks(nodes: seq<Option<Node>>, index: int, c: seq<int>)
    requires Live(nodes, index) && !HasChildren(nodes, nodes[index].value.id) && Chain(nodes, c)
    requires c[0] != index
    ensures Chain(nodes[index := None], c)
  {
    if |c| > 1 {
      assert ParentOf(nodes, c[0], c[1]);
      ChainShrinks(nodes, index, c[1..]);
    }
  }

  ghost predicate Removable(g: Generation, index: int)
  {
    && GenerationOk(g)
    && Live(g.nodes, index)
    && g.nodes[index].value.parent != 0
    && !HasChildren(g.nodes, g.nodes[index].value.id)
    && g.sequence < U64_MAX
  }

  lemma RemoveNamespace(g: Generation, index: int)
    requires Removable(g, index)
    ensures NamespaceOk(RemoveNext(g, index))
  {
    var g' := RemoveNext(g, index);
    forall i | Live(g'.nodes, i)
      ensures Live(g.nodes, i) && i != index && g'.nodes[i] == g.nodes[i]
      ensures exists c :: ChainFrom(g'.nodes, i, c)
    {
      assert Live(g.nodes, i);
      var c :| ChainFrom(g.nodes, i, c);
      ChainShrinks(g.nodes, index, c);
      assert ChainFrom(g'.nodes, i, c);
    }
    forall id | 1 <= id <= 4 ensures RootPresent(g'.nodes, id) {
      assert RootPresent(g.nodes, id);
      var i :| IsRoot(g.nodes, i, id);
      assert IsRoot(g'.nodes, i, id);
    }
  }

  lemma RemoveRecords(g: Generation, index: int)
    requires Removable(g, index)
    ensures RecordsOk(RemoveNext(g, index))
  {
    var g' := RemoveNext(g, index);
    forall j, i | Held(g'.records, j) && Live(g'.nodes, i) && g'.nodes[i].value.id == g'.records[j].value.objectId
      ensures TargetOk(g'.records[j].value, g'.nodes[i].value)
    {
      assert Live(g.nodes, i);
    }
    forall j | Held(g'.records, j) ensures RecordInBounds(g', g'.records[j].value) {
      assert RecordInBounds(g, g.records[j].value);
    }
  }

  lemma RemoveOwners(g: Generation, index: int)
    requires Removable(g, index)
    ensures OwnershipOk(RemoveNext(g, index))
  {
    var g' := RemoveNext(g, index);
    assert Updated(g, index, None, g'.nodes);
    SnapshotsStayApart(g, index, None, g'.nodes);
    forall k, s: nat ensures FileOwns(g'.nodes, k, s) <==> k != index && FileOwns(g.nodes, k, s) {
    }
    forall s: nat ensures s in g'.used <==> Owned(g'.nodes, g'.records, s) {
      RemainingUse(g, index, None, g'.nodes, s);
    }
    forall s: nat, k, j | FileOwns(g'.nodes, k, s) ensures !SnapshotOwns(g'.nodes, g'.records, j, s) {
      SnapshotAfterUpdate(g, index, None, g'.nodes, j, s);
    }
  }

  /** Removing a file or an empty directory keeps every rule; aliased payload passes to its record. */
  lemma RemoveKeeps(g: Generation, index: int)
    requires Removable(g, index)
    ensures GenerationOk(RemoveNext(g, index))
  {
    RemoveNamespace(g, index);
    RemoveRecords(g, index);
    RemoveOwners(g, index);
  }
}
