/** How a replaced or removed file changes who owns which payload sector. */
module Ownership7 {
  import opened Bytes
  import opened Format7
  import opened Generation7
  import opened Steps7

  /** Some retained record is the current version of the file in slot `i`. */
  ghost predicate AliasedAt(g: Generation, i: int)
  {
    exists j :: Held(g.records, j) && AliasesAt(g.nodes, i, g.records[j].value)
  }

  lemma CoversInBounds(runs: seq<Run>, length: nat, s: nat)
    requires RunsOk(runs, length) && Covers(runs, s)
    ensures s < DATA_SECTORS
  {
  }

  /** A run of a file overlaps a retained snapshot exactly when a record aliases the file. */
  lemma RetainedRunIffAliased(g: Generation, i: int, k: int)
    requires GenerationOk(g) && Live(g.nodes, i)
    requires 0 <= k < |g.nodes[i].value.runs|
    ensures RetainedOwnsRun(g.records, g.nodes[i].value.runs[k]) <==> AliasedAt(g, i)
  {
    var run := g.nodes[i].value.runs[k];
    assert NodeOk(g.nodes[i].value);
    if RetainedOwnsRun(g.records, run) {
      var j :| 0 <= j < |g.records| && g.records[j].Some?
        && exists m :: 0 <= m < |g.records[j].value.runs| && Overlap(run, g.records[j].value.runs[m]);
      var m :| 0 <= m < |g.records[j].value.runs| && Overlap(run, g.records[j].value.runs[m]);
      assert RecordInBounds(g, g.records[j].value) by { assert Held(g.records, j); }
      OverlapShares(run, g.records[j].value.runs[m]);
      var s: nat :| InRun(run, s) && InRun(g.records[j].value.runs[m], s);
      assert FileOwns(g.nodes, i, s);
      FileVersusRecord(g, i, j, s);
    }
    if AliasedAt(g, i) {
      var j :| Held(g.records, j) && AliasesAt(g.nodes, i, g.records[j].value);
      assert Overlap(run, g.records[j].value.runs[k]);
    }
  }

  /** A file releases all of its sectors, or none when a retained record is its current version. */
  lemma ReleasedExactly(g: Generation, i: int)
    requires GenerationOk(g) && Live(g.nodes, i)
    ensures forall s: nat ::
      s in Released(g.records, g.nodes[i].value.runs) <==> FileOwns(g.nodes, i, s) && !AliasedAt(g, i)
  {
    var n := g.nodes[i].value;
    assert NodeOk(n);
    forall s: nat
      ensures s in Released(g.records, n.runs) <==> FileOwns(g.nodes, i, s) && !AliasedAt(g, i)
    {
      forall k | 0 <= k < |n.runs|
        ensures RetainedOwnsRun(g.records, n.runs[k]) <==> AliasedAt(g, i)
      {
        RetainedRunIffAliased(g, i, k);
      }
      if Covers(n.runs, s) {
        CoversInBounds(n.runs, n.length, s);
        var k :| 0 <= k < |n.runs| && InRun(n.runs[k], s);
        assert ReleasesSector(g.records, n.runs, s) <==> !AliasedAt(g, i);
      }
    }
  }

  /** Once slot `i` moves past every retained commit, a record aliases only if it aliased elsewhere. */
  lemma AliasesAfterUpdate(nodes: seq<Option<Node>>, i: int, update: Option<Node>, r: Record)
    requires IdsDistinct(nodes) && Live(nodes, i)
    requires update.Some? ==> update.value.version > r.committed
    ensures Aliases(nodes[i := update], r) <==> Aliases(nodes, r) && !AliasesAt(nodes, i, r)
  {
    var after := nodes[i := update];
    if Aliases(after, r) {
      var k :| 0 <= k < |after| && AliasesAt(after, k, r);
      assert k != i && AliasesAt(nodes, k, r);
    }
    if Aliases(nodes, r) && !AliasesAt(nodes, i, r) {
      var k :| 0 <= k < |nodes| && AliasesAt(nodes, k, r);
      assert AliasesAt(after, k, r);
    }
  }

  /** `after` is `g.nodes` with slot `i` moved past the current sequence, or emptied. */
  ghost predicate Updated(g: Generation, i: int, update: Option<Node>, after: seq<Option<Node>>)
  {
    && Live(g.nodes, i)
    && after == g.nodes[i := update]
    && (update.Some? ==> update.value.version > g.sequence)
  }

  /** A record of the old table that aliased slot `i` now owns the old payload itself. */
  ghost predicate Inherits(g: Generation, i: int, j: int, s: nat)
  {
    Held(g.records, j) && AliasesAt(g.nodes, i, g.records[j].value) && FileOwns(g.nodes, i, s)
  }

  lemma SnapshotAfterUpdate(g: Generation, i: int, update: Option<Node>, after: seq<Option<Node>>, j: int, s: nat)
    requires GenerationOk(g) && Updated(g, i, update, after)
    ensures SnapshotOwns(after, g.records, j, s) <==> SnapshotOwns(g.nodes, g.records, j, s) || Inherits(g, i, j, s)
  {
    if Held(g.records, j) {
      var r := g.records[j].value;
      assert RecordInBounds(g, r);
      AliasesAfterUpdate(g.nodes, i, update, r);
    }
  }

  lemma InheritsOnce(g: Generation, i: int, j: int, k: int, s: nat)
    requires GenerationOk(g)
    requires Inherits(g, i, j, s) && (Inherits(g, i, k, s) || SnapshotOwns(g.nodes, g.records, k, s))
    ensures j == k
  {
    if Inherits(g, i, k, s) {
      assert RecordInBounds(g, g.records[j].value) && RecordInBounds(g, g.records[k].value);
      AliasUnique(g, i, j, k);
    }
  }

  /** Snapshots stay apart from each other, and own only what was used and is not released. */
  lemma SnapshotsStayApart(g: Generation, i: int, update: Option<Node>, after: seq<Option<Node>>)
    requires GenerationOk(g) && Updated(g, i, update, after)
    ensures forall s: nat, j, k :: SnapshotOwns(after, g.records, j, s) && SnapshotOwns(after, g.records, k, s) ==> j == k
  {
    forall s: nat, j, k | SnapshotOwns(after, g.records, j, s) && SnapshotOwns(after, g.records, k, s)
      ensures j == k
    {
      SnapshotAfterUpdate(g, i, update, after, j, s);
      SnapshotAfterUpdate(g, i, update, after, k, s);
      if Inherits(g, i, j, s) {
        InheritsOnce(g, i, j, k, s);
      } else if Inherits(g, i, k, s) {
        InheritsOnce(g, i, k, j, s);
      }
    }
  }

  /** What remains used besides the updated file: other files, snapshots and inherited payload. */
  lemma RemainingUse(g: Generation, i: int, update: Option<Node>, after: seq<Option<Node>>, s: nat)
    requires GenerationOk(g) && Updated(g, i, update, after)
    ensures s in g.used - Released(g.records, g.nodes[i].value.runs) <==>
      || (exists k :: k != i && FileOwns(g.nodes, k, s))
      || (exists j :: SnapshotOwns(after, g.records, j, s))
  {
    ReleasedExactly(g, i);
    forall j ensures SnapshotOwns(after, g.records, j, s) <==> SnapshotOwns(g.nodes, g.records, j, s) || Inherits(g, i, j, s) {
      SnapshotAfterUpdate(g, i, update, after, j, s);
    }
    if FileOwns(g.nodes, i, s) && AliasedAt(g, i) {
      var j :| Held(g.records, j) && AliasesAt(g.nodes, i, g.records[j].value);
      assert Inherits(g, i, j, s);
      assert SnapshotOwns(after, g.records, j, s);
    }
    assert Owned(g.nodes, g.records, s) <==> s in g.used;
  }
}
