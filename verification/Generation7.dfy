/** What the reader checks across one decoded generation: namespace, retained records, ownership. */
module Generation7 {
  import opened Bytes
  import opened Format7

  /** A decoded generation; `used` is the set of payload sectors its allocation map marks. */
  datatype Generation = Generation(
    lineage: seq<Byte>, epoch: U64, sequence: U64, next: U32,
    nodes: seq<Option<Node>>, records: seq<Option<Record>>, used: set<nat>)

  const ROOTS: seq<seq<Byte>> := [
    [115, 121, 115, 116, 101, 109],                      // system
    [100, 97, 116, 97],                                  // data
    [99, 111, 110, 102, 105, 103],                       // config
    [119, 111, 114, 107, 115, 112, 97, 99, 101, 115]     // workspaces
  ]

  predicate Live(nodes: seq<Option<Node>>, i: int)
  {
    0 <= i < |nodes| && nodes[i].Some?
  }

  predicate Held(records: seq<Option<Record>>, j: int)
  {
    0 <= j < |records| && records[j].Some?
  }

  // ---- Namespace --------------------------------------------------------------

  ghost predicate NodesBounded(g: Generation)
  {
    forall i :: Live(g.nodes, i) ==>
      NodeOk(g.nodes[i].value) && g.nodes[i].value.id < g.next && g.nodes[i].value.version <= g.sequence
  }

  ghost predicate IdsDistinct(nodes: seq<Option<Node>>)
  {
    forall i, j :: Live(nodes, i) && Live(nodes, j) && nodes[i].value.id == nodes[j].value.id ==> i == j
  }

  predicate SameSibling(a: Node, b: Node)
  {
    a.parent == b.parent && a.name == b.name
  }

  ghost predicate SiblingsDistinct(nodes: seq<Option<Node>>)
  {
    forall i, j :: Live(nodes, i) && Live(nodes, j) && SameSibling(nodes[i].value, nodes[j].value) ==> i == j
  }

  predicate RootShape(n: Node)
  {
    1 <= n.id <= 4 && n.kind == Directory && n.space == n.id && n.name == ROOTS[n.id - 1]
  }

  predicate IsRoot(nodes: seq<Option<Node>>, i: int, id: nat)
  {
    Live(nodes, i) && nodes[i].value.id == id && nodes[i].value.parent == 0
  }

  ghost predicate RootPresent(nodes: seq<Option<Node>>, id: nat)
  {
    exists i :: IsRoot(nodes, i, id)
  }

  ghost predicate RootsOk(nodes: seq<Option<Node>>)
  {
    && (forall i :: Live(nodes, i) && nodes[i].value.parent == 0 ==> RootShape(nodes[i].value))
    && (forall id :: 1 <= id <= 4 ==> RootPresent(nodes, id))
  }

  /** `p` is the parent the ancestry walk steps to from `i`. */
  predicate ParentOf(nodes: seq<Option<Node>>, i: int, p: int)
  {
    && Live(nodes, i) && Live(nodes, p)
    && nodes[i].value.parent != 0
    && nodes[p].value.id == nodes[i].value.parent
    && nodes[p].value.kind == Directory
    && nodes[p].value.space == nodes[i].value.space
  }

  /** `c` lists the slots from a node up to a root. */
  ghost predicate Chain(nodes: seq<Option<Node>>, c: seq<int>)
  {
    && |c| > 0
    && Live(nodes, c[0])
    && if |c| == 1 then nodes[c[0]].value.parent == 0
       else ParentOf(nodes, c[0], c[1]) && Chain(nodes, c[1..])
  }

  ghost predicate ChainFrom(nodes: seq<Option<Node>>, i: int, c: seq<int>)
  {
    Chain(nodes, c) && c[0] == i
  }

  ghost predicate Rooted(nodes: seq<Option<Node>>)
  {
    forall i :: Live(nodes, i) ==> exists c :: ChainFrom(nodes, i, c)
  }

  ghost predicate NamespaceOk(g: Generation)
  {
    NodesBounded(g) && IdsDistinct(g.nodes) && SiblingsDistinct(g.nodes) && RootsOk(g.nodes) && Rooted(g.nodes)
  }

  // ---- Retained records -------------------------------------------------------

  predicate RecordInBounds(g: Generation, r: Record)
  {
    && RecordOk(r)
    && r.workspace < g.next && r.objectId < g.next
    && r.epoch <= g.sequence && r.previous <= g.sequence && r.committed <= g.sequence
    && r.admission <= g.sequence && r.terminal <= g.sequence
    && r.epoch == g.epoch
  }

  predicate Matches(r: Record, n: Node)
  {
    n.kind == File && n.length == r.length && n.crc == r.crc && n.runs == r.runs
  }

  /** What a live target must still say about a record that names it. */
  predicate TargetOk(r: Record, n: Node)
  {
    && n.kind == File
    && n.version >= r.previous
    && (r.state == Admitted || r.state == Cancelled ==> !(r.previous < n.version <= r.admission))
    && (Committed(r) ==> n.version >= r.committed && (n.version == r.committed ==> Matches(r, n)))
  }

  predicate SameRetry(a: Record, b: Record)
  {
    a.subject == b.subject && a.workspace == b.workspace && a.epoch == b.epoch && a.key == b.key
  }

  predicate HasEvent(r: Record, e: nat)
  {
    e != 0 && (e == r.admission || e == r.terminal || e == r.committed)
  }

  predicate ShareEvent(a: Record, b: Record)
  {
    HasEvent(b, a.admission) || HasEvent(b, a.terminal) || HasEvent(b, a.committed)
  }

  /** One direction of the temporal rules: what `other` may have seen around the commit `c`. */
  predicate CommitSeenBy(c: Record, other: Record)
  {
    && (c.state == AdmittedCommitted && c.admission < Observed(other) < c.committed ==> other.previous == c.previous)
    && (Committed(c) && Observed(other) > c.committed ==> other.previous >= c.committed)
  }

  /** Same-object temporal rules between two retained records. */
  predicate HistoryOk(a: Record, b: Record)
  {
    && Observed(a) != Observed(b)
    && (if Observed(a) < Observed(b) then a.previous <= b.previous else b.previous <= a.previous)
    && CommitSeenBy(a, b) && CommitSeenBy(b, a)
    && (Committed(a) && Committed(b) ==>
          if a.committed <= b.committed then b.previous >= a.committed else a.previous >= b.committed)
  }

  predicate PairOk(a: Record, b: Record)
  {
    && !SameRetry(a, b)
    && !ShareEvent(a, b)
    && (a.objectId == b.objectId ==> HistoryOk(a, b))
  }

  ghost predicate RecordsBounded(g: Generation)
  {
    forall j :: Held(g.records, j) ==> RecordInBounds(g, g.records[j].value)
  }

  ghost predicate TargetsOk(g: Generation)
  {
    forall j, i :: Held(g.records, j) && Live(g.nodes, i) && g.nodes[i].value.id == g.records[j].value.objectId ==>
      TargetOk(g.records[j].value, g.nodes[i].value)
  }

  ghost predicate PairsOk(records: seq<Option<Record>>)
  {
    forall j, k :: Held(records, j) && Held(records, k) && j != k ==> PairOk(records[j].value, records[k].value)
  }

  ghost predicate RecordsOk(g: Generation)
  {
    RecordsBounded(g) && TargetsOk(g) && PairsOk(g.records)
  }

  // ---- Ownership of payload sectors -------------------------------------------

  predicate AliasesAt(nodes: seq<Option<Node>>, i: int, r: Record)
  {
    && Committed(r)
    && Live(nodes, i)
    && nodes[i].value.id == r.objectId
    && nodes[i].value.version == r.committed
    && Matches(r, nodes[i].value)
  }

  /** The record's snapshot is the current version of its live target. */
  predicate Aliases(nodes: seq<Option<Node>>, r: Record)
  {
    exists i :: 0 <= i < |nodes| && AliasesAt(nodes, i, r)
  }

  predicate FileOwns(nodes: seq<Option<Node>>, i: int, s: nat)
  {
    Live(nodes, i) && nodes[i].value.kind == File && Covers(nodes[i].value.runs, s)
  }

  predicate SnapshotOwns(nodes: seq<Option<Node>>, records: seq<Option<Record>>, j: int, s: nat)
  {
    Held(records, j) && !Aliases(nodes, records[j].value) && Covers(records[j].value.runs, s)
  }

  ghost predicate OwnersApart(nodes: seq<Option<Node>>, records: seq<Option<Record>>)
  {
    && (forall s: nat, i, k :: FileOwns(nodes, i, s) && FileOwns(nodes, k, s) ==> i == k)
    && (forall s: nat, i, j :: FileOwns(nodes, i, s) ==> !SnapshotOwns(nodes, records, j, s))
    && (forall s: nat, j, k :: SnapshotOwns(nodes, records, j, s) && SnapshotOwns(nodes, records, k, s) ==> j == k)
  }

  ghost predicate Owned(nodes: seq<Option<Node>>, records: seq<Option<Record>>, s: nat)
  {
    (exists i :: FileOwns(nodes, i, s)) || (exists j :: SnapshotOwns(nodes, records, j, s))
  }

  ghost predicate EmptySnapshotsOk(records: seq<Option<Record>>)
  {
    forall j :: Held(records, j) && records[j].value.length == 0 ==> records[j].value.crc == 0
  }

  ghost predicate OwnershipOk(g: Generation)
  {
    && OwnersApart(g.nodes, g.records)
    && (forall s: nat :: s in g.used <==> Owned(g.nodes, g.records, s))
    && EmptySnapshotsOk(g.records)
  }

  // ---- The whole generation ---------------------------------------------------

  ghost predicate HeadOk(g: Generation)
  {
    && |g.lineage| == 16 && g.lineage != Zeros(16)
    && 1 <= g.epoch <= g.sequence
    && NEXT_MIN <= g.next
    && |g.nodes| == NODES && |g.records| == RETAINED
  }

  ghost predicate GenerationOk(g: Generation)
  {
    HeadOk(g) && NamespaceOk(g) && RecordsOk(g) && OwnershipOk(g)
  }

  // ---- Consequences of acceptance ---------------------------------------------

  /** The pairwise rules do not depend on which record is looked at first. */
  lemma PairSymmetric(a: Record, b: Record)
    requires RecordOk(a) && RecordOk(b)
    ensures PairOk(a, b) <==> PairOk(b, a)
  {
  }

  /** Non-empty runs overlap exactly when they share a sector. */
  lemma OverlapShares(a: Run, b: Run)
    requires a.count != 0 && b.count != 0
    ensures Overlap(a, b) <==> exists s: nat :: InRun(a, s) && InRun(b, s)
  {
    if Overlap(a, b) {
      var s: nat := if a.start < b.start then b.start else a.start;
      assert InRun(a, s) && InRun(b, s);
    }
  }

  /** No two records alias one live file: the reader's check for that can never fire. */
  lemma AliasUnique(g: Generation, i: int, j: int, k: int)
    requires PairsOk(g.records)
    requires Held(g.records, j) && Held(g.records, k)
    requires RecordOk(g.records[j].value) && RecordOk(g.records[k].value)
    requires AliasesAt(g.nodes, i, g.records[j].value) && AliasesAt(g.nodes, i, g.records[k].value)
    ensures j == k
  {
  }

  /** A file and a retained record share payload exactly when the record aliases it. */
  lemma FileVersusRecord(g: Generation, i: int, j: int, s: nat)
    requires IdsDistinct(g.nodes) && OwnersApart(g.nodes, g.records)
    requires FileOwns(g.nodes, i, s)
    requires Held(g.records, j) && Covers(g.records[j].value.runs, s)
    ensures AliasesAt(g.nodes, i, g.records[j].value)
  {
    var r := g.records[j].value;
    if !Aliases(g.nodes, r) {
      assert SnapshotOwns(g.nodes, g.records, j, s);
      assert false;
    }
    var k :| 0 <= k < |g.nodes| && AliasesAt(g.nodes, k, r);
    assert FileOwns(g.nodes, k, s);
  }
}
