/** What acceptance implies: a linear history per object and exact accounting of payload space. */
module Accounting7 {
  import opened Bytes
  import opened Format7
  import opened Generation7
  import opened Steps7
  import opened Preservation7
  import opened Payload7

  // ---- Linear history ---------------------------------------------------------

  /** `a` was committed no later than the version `b` replaced. */
  predicate CommittedBefore(a: Record, b: Record)
  {
    a.committed <= b.previous
  }

  /** Version `v` was reached while the commit was the newest one. */
  predicate Spans(r: Record, v: nat)
  {
    r.previous < v <= r.committed
  }

  ghost predicate CommitOn(g: Generation, j: int, objectId: nat)
  {
    Held(g.records, j) && Committed(g.records[j].value) && g.records[j].value.objectId == objectId
  }

  /** A commit and any other record on the same object: the other observed a version outside the commit's interval. */
  lemma ObservedOutside(c: Record, o: Record)
    requires RecordOk(c) && RecordOk(o) && PairOk(c, o) && Committed(c) && c.objectId == o.objectId
    ensures o.previous <= c.previous || c.committed <= o.previous
  {
  }

  /**
   * The commits on one object form a strict total order of disjoint intervals (previous, committed]; no retained
   * record, committed or not, observed a version inside one of them; and the live version is past them all.
   */
  lemma LinearHistory(g: Generation, objectId: nat)
    requires RecordsOk(g)
    ensures forall j, k :: CommitOn(g, j, objectId) && CommitOn(g, k, objectId) && j != k ==>
      (CommittedBefore(g.records[j].value, g.records[k].value) <==> !CommittedBefore(g.records[k].value, g.records[j].value))
    ensures forall j, k, v: nat ::
      CommitOn(g, j, objectId) && CommitOn(g, k, objectId) && j != k && Spans(g.records[j].value, v) ==>
        !Spans(g.records[k].value, v)
    ensures forall j, k :: CommitOn(g, j, objectId) && Held(g.records, k) && g.records[k].value.objectId == objectId && j != k ==>
      g.records[k].value.previous <= g.records[j].value.previous || g.records[j].value.committed <= g.records[k].value.previous
    ensures forall i, j :: Live(g.nodes, i) && g.nodes[i].value.id == objectId && CommitOn(g, j, objectId) ==>
      g.records[j].value.committed <= g.nodes[i].value.version
  {
    forall j | Held(g.records, j) ensures RecordOk(g.records[j].value) {
      assert RecordInBounds(g, g.records[j].value);
    }
    forall j, k | CommitOn(g, j, objectId) && Held(g.records, k) && g.records[k].value.objectId == objectId && j != k
      ensures g.records[k].value.previous <= g.records[j].value.previous || g.records[j].value.committed <= g.records[k].value.previous
    {
      ObservedOutside(g.records[j].value, g.records[k].value);
    }
  }

  /** `h` holds the records of `g` in other slots: slot `j` of `h` is slot `at[j]` of `g`. */
  ghost predicate Reordered(g: Generation, h: Generation, at: seq<int>)
  {
    && h == g.(records := h.records)
    && |h.records| == |g.records| == |at|
    && (forall j :: 0 <= j < |at| ==> 0 <= at[j] < |at| && h.records[j] == g.records[at[j]])
    && (forall j, k :: 0 <= j < |at| && 0 <= k < |at| && at[j] == at[k] ==> j == k)
    && (forall k :: Held(g.records, k) ==> k in at)
  }

  /** Acceptance does not depend on which slots the records occupy. */
  lemma SlotOrderIrrelevant(g: Generation, h: Generation, at: seq<int>)
    requires Reordered(g, h, at) && GenerationOk(g)
    ensures GenerationOk(h)
  {
    forall j ensures Held(h.records, j) <==> 0 <= j < |at| && Held(g.records, at[j]) {
    }
    forall j, s: nat ensures SnapshotOwns(h.nodes, h.records, j, s) <==>
      0 <= j < |at| && SnapshotOwns(g.nodes, g.records, at[j], s) {
    }
    forall s: nat ensures Owned(h.nodes, h.records, s) <==> Owned(g.nodes, g.records, s) {
      if k :| SnapshotOwns(g.nodes, g.records, k, s) {
        var j :| 0 <= j < |at| && at[j] == k;
        assert SnapshotOwns(h.nodes, h.records, j, s);
      }
      if j :| SnapshotOwns(h.nodes, h.records, j, s) {
        assert SnapshotOwns(g.nodes, g.records, at[j], s);
      }
    }
  }

  // ---- Counting sectors -------------------------------------------------------

  function UnionOf(claims: seq<seq<Run>>): (s: set<nat>)
  {
    if claims == [] then {} else SectorsOf(claims[0]) + UnionOf(claims[1..])
  }

  function CountOf(claims: seq<seq<Run>>): nat
  {
    if claims == [] then 0 else TotalCount(claims[0]) + CountOf(claims[1..])
  }

  ghost predicate ClaimOk(runs: seq<Run>)
  {
    RunsApart(runs) && RunsInside(runs, DATA_SECTORS)
  }

  ghost predicate ClaimsOk(claims: seq<seq<Run>>)
  {
    && (forall i :: 0 <= i < |claims| ==> ClaimOk(claims[i]))
    && (forall i, j, s: nat :: 0 <= i < |claims| && 0 <= j < |claims| && Covers(claims[i], s) && Covers(claims[j], s) ==> i == j)
  }

  function Elements(s: seq<nat>): set<nat>
  {
    set x | x in s
  }

  lemma {:induction false} SetOfDistinct(s: seq<nat>)
    requires NoRepeats(s)
    ensures |Elements(s)| == |s|
  {
    if s != [] {
      var rest, last := s[..|s| - 1], s[|s| - 1];
      SetOfDistinct(rest);
      assert s == rest + [last];
      assert Elements(s) == Elements(rest) + {last};
      assert last !in Elements(rest);
    }
  }

  /** Runs that do not overlap hold as many sectors as they count. */
  lemma CountOfRuns(runs: seq<Run>)
    requires ClaimOk(runs)
    ensures |SectorsOf(runs)| == TotalCount(runs)
  {
    var list := SectorList(runs);
    SectorListDistinct(runs);
    SetOfDistinct(list);
    assert SectorsOf(runs) == Elements(list) by {
      forall s: nat ensures s in SectorsOf(runs) <==> s in list {
        SectorListCovers(runs, s);
      }
    }
  }

  lemma {:induction false} InUnion(claims: seq<seq<Run>>, s: nat)
    requires s < DATA_SECTORS
    ensures s in UnionOf(claims) <==> exists i :: 0 <= i < |claims| && Covers(claims[i], s)
  {
    if claims != [] {
      InUnion(claims[1..], s);
      if i :| 0 <= i < |claims| && Covers(claims[i], s) {
        if i > 0 { assert Covers(claims[1..][i - 1], s); }
      }
      if i :| 0 <= i < |claims[1..]| && Covers(claims[1..][i], s) {
        assert Covers(claims[i + 1], s);
      }
    }
  }

  lemma {:induction false} UnionInBounds(claims: seq<seq<Run>>)
    ensures forall s :: s in UnionOf(claims) ==> s < DATA_SECTORS
  {
    if claims != [] {
      UnionInBounds(claims[1..]);
    }
  }

  /** Claims that keep apart hold, together, exactly the sectors they count. */
  lemma {:induction false} CountOfClaims(claims: seq<seq<Run>>)
    requires ClaimsOk(claims)
    ensures |UnionOf(claims)| == CountOf(claims)
  {
    if claims != [] {
      var rest := claims[1..];
      assert ClaimsOk(rest) by {
        forall i, j, s: nat | 0 <= i < |rest| && 0 <= j < |rest| && Covers(rest[i], s) && Covers(rest[j], s) ensures i == j {
          assert claims[i + 1] == rest[i] && claims[j + 1] == rest[j];
        }
      }
      CountOfClaims(rest);
      assert ClaimOk(claims[0]);
      CountOfRuns(claims[0]);
      assert SectorsOf(claims[0]) !! UnionOf(rest) by {
        forall s: nat | s in SectorsOf(claims[0]) ensures s !in UnionOf(rest) {
          InUnion(rest, s);
          forall i | 0 <= i < |rest| ensures !Covers(rest[i], s) {
            assert claims[i + 1] == rest[i];
          }
        }
      }
    }
  }

  // ---- Used, free and reclaimable ---------------------------------------------

  function FileRuns(nodes: seq<Option<Node>>): (c: seq<seq<Run>>)
    ensures |c| == |nodes|
  {
    seq(|nodes|, i requires 0 <= i < |nodes| =>
      if Live(nodes, i) && nodes[i].value.kind == File then nodes[i].value.runs else [])
  }

  function SnapshotRuns(nodes: seq<Option<Node>>, records: seq<Option<Record>>): (c: seq<seq<Run>>)
    ensures |c| == |records|
  {
    seq(|records|, j requires 0 <= j < |records| =>
      if Held(records, j) && !Aliases(nodes, records[j].value) then records[j].value.runs else [])
  }

  /** Payload sectors held only by retained snapshots. */
  function Reclaimable(g: Generation): nat
  {
    CountOf(SnapshotRuns(g.nodes, g.records))
  }

  function FreeSectors(g: Generation): int
  {
    DATA_SECTORS - |g.used|
  }

  lemma {:induction false} CountOfConcat(a: seq<seq<Run>>, b: seq<seq<Run>>)
    ensures CountOf(a + b) == CountOf(a) + CountOf(b)
  {
    if a == [] {
      assert a + b == b;
    } else {
      CountOfConcat(a[1..], b);
      assert (a + b)[1..] == a[1..] + b;
    }
  }

  function ClaimsOf(g: Generation): seq<seq<Run>>
  {
    FileRuns(g.nodes) + SnapshotRuns(g.nodes, g.records)
  }

  lemma ClaimMeaning(g: Generation, i: int, s: nat)
    requires 0 <= i < |ClaimsOf(g)|
    ensures Covers(ClaimsOf(g)[i], s) <==>
      if i < |g.nodes| then FileOwns(g.nodes, i, s) else SnapshotOwns(g.nodes, g.records, i - |g.nodes|, s)
  {
  }

  lemma ClaimsApart(g: Generation)
    requires GenerationOk(g)
    ensures ClaimsOk(ClaimsOf(g))
  {
    var claims := ClaimsOf(g);
    forall i | 0 <= i < |claims| ensures ClaimOk(claims[i]) {
      if i < |g.nodes| {
        assert Live(g.nodes, i) ==> NodeOk(g.nodes[i].value);
      } else {
        var j := i - |g.nodes|;
        assert Held(g.records, j) ==> RecordInBounds(g, g.records[j].value);
      }
    }
    forall i, j, s: nat | 0 <= i < |claims| && 0 <= j < |claims| && Covers(claims[i], s) && Covers(claims[j], s) ensures i == j {
      ClaimMeaning(g, i, s);
      ClaimMeaning(g, j, s);
    }
  }

  lemma ClaimsAreUsed(g: Generation)
    requires GenerationOk(g)
    ensures UnionOf(ClaimsOf(g)) == g.used
  {
    var claims := ClaimsOf(g);
    ClaimsApart(g);
    UnionInBounds(claims);
    forall s: nat ensures s in UnionOf(claims) <==> s in g.used {
      assert s in g.used <==> Owned(g.nodes, g.records, s);
      forall i | 0 <= i < |claims| ensures Covers(claims[i], s) ==> Owned(g.nodes, g.records, s) && s < DATA_SECTORS {
        ClaimMeaning(g, i, s);
        assert ClaimOk(claims[i]);
      }
      if i :| FileOwns(g.nodes, i, s) {
        ClaimMeaning(g, i, s);
      }
      if j :| SnapshotOwns(g.nodes, g.records, j, s) {
        ClaimMeaning(g, |g.nodes| + j, s);
      }
      if s < DATA_SECTORS {
        InUnion(claims, s);
      }
    }
  }

  /** The map is the disjoint union of live files and non-aliasing snapshots, counted run by run. */
  lemma SpaceConserved(g: Generation)
    requires GenerationOk(g)
    ensures |g.used| == CountOf(FileRuns(g.nodes)) + Reclaimable(g)
    ensures FreeSectors(g) >= 0
  {
    ClaimsApart(g);
    ClaimsAreUsed(g);
    CountOfClaims(ClaimsOf(g));
    CountOfConcat(FileRuns(g.nodes), SnapshotRuns(g.nodes, g.records));
    UsedFits(g.used);
  }

  lemma UsedFits(used: set<nat>)
    requires forall s :: s in used ==> s < DATA_SECTORS
    ensures |used| <= DATA_SECTORS
  {
    SubsetOfRange(used, DATA_SECTORS);
  }

  lemma {:induction false} SubsetOfRange(used: set<nat>, n: nat)
    requires forall s :: s in used ==> s < n
    ensures |used| <= n
    decreases n
  {
    if n == 0 {
      assert used == {};
    } else {
      SubsetOfRange(used - {n - 1}, n - 1);
    }
  }

  lemma NoSnapshotsLeft(nodes: seq<Option<Node>>, n: nat)
    ensures CountOf(SnapshotRuns(nodes, seq(n, _ => None))) == 0
  {
    EmptyClaims(SnapshotRuns(nodes, seq(n, _ => None)));
  }

  lemma {:induction false} EmptyClaims(claims: seq<seq<Run>>)
    requires forall i :: 0 <= i < |claims| ==> claims[i] == []
    ensures CountOf(claims) == 0
  {
    if claims != [] {
      EmptyClaims(claims[1..]);
    }
  }

  /** Maintenance frees exactly the reclaimable sectors and touches no live file. */
  lemma MaintenanceFrees(g: Generation)
    requires GenerationOk(g) && g.sequence < U64_MAX && g.epoch < U64_MAX
    ensures FreeSectors(MaintainNext(g)) == FreeSectors(g) + Reclaimable(g)
    ensures Reclaimable(MaintainNext(g)) == 0
    ensures MaintainNext(g).nodes == g.nodes
  {
    MaintainKeeps(g);
    SpaceConserved(g);
    SpaceConserved(MaintainNext(g));
    NoSnapshotsLeft(g.nodes, |g.records|);
  }
}
