/** Choosing free sectors for a payload: the owner's greedy planner and the harness's single-run mirror of it. */
module Planner7 {
  import opened Bytes
  import opened Format7
  import opened Generation7
  import opened Steps7
  import opened Payload7
  import opened Accounting7
  import opened Reader7

  // ---- Maximal free runs ------------------------------------------------------

  predicate FreeRun(used: set<nat>, m: Run)
  {
    && m.count > 0 && m.start + m.count <= DATA_SECTORS
    && forall s :: m.start <= s < m.start + m.count ==> s !in used
  }

  /** A free run that cannot be extended on either side. */
  predicate Maximal(used: set<nat>, m: Run)
  {
    && FreeRun(used, m)
    && (m.start == 0 || m.start - 1 in used)
    && (m.start + m.count == DATA_SECTORS || m.start + m.count in used)
  }

  predicate Within(c: Run, m: Run)
  {
    m.start <= c.start && c.start + c.count <= m.start + m.count
  }

  /** Maximal free runs are equal or apart. */
  lemma MaximalApart(used: set<nat>, a: Run, b: Run)
    requires Maximal(used, a) && Maximal(used, b) && Overlap(a, b)
    ensures a == b
  {
  }

  lemma {:induction false} ExtendLeft(used: set<nat>, c: Run) returns (m: Run)
    requires FreeRun(used, c)
    ensures FreeRun(used, m) && Within(c, m) && (m.start == 0 || m.start - 1 in used)
    ensures m.start + m.count == c.start + c.count
    decreases c.start
  {
    m := c;
    if c.start > 0 && c.start - 1 !in used {
      m := ExtendLeft(used, Run(c.start - 1, c.count + 1));
    }
  }

  lemma {:induction false} ExtendRight(used: set<nat>, c: Run) returns (m: Run)
    requires FreeRun(used, c)
    ensures FreeRun(used, m) && Within(c, m) && m.start == c.start
    ensures m.start + m.count == DATA_SECTORS || m.start + m.count in used
    decreases DATA_SECTORS - c.start - c.count
  {
    m := c;
    if c.start + c.count < DATA_SECTORS && c.start + c.count !in used {
      m := ExtendRight(used, Run(c.start, c.count + 1));
    }
  }

  /** Every free run lies in a maximal one. */
  lemma InMaximal(used: set<nat>, c: Run) returns (m: Run)
    requires FreeRun(used, c)
    ensures Maximal(used, m) && Within(c, m)
  {
    var left := ExtendLeft(used, c);
    m := ExtendRight(used, left);
  }

  // ---- One scan of the allocation map -----------------------------------------

  predicate Taken(chosen: seq<Run>, m: Run)
  {
    exists k :: 0 <= k < |chosen| && Overlap(m, chosen[k])
  }

  predicate Better(b: Run, m: Run)
  {
    m.count < b.count || (m.count == b.count && b.start <= m.start)
  }

  /** `best` is the leftmost longest maximal run ending by `limit` that `chosen` has not touched. */
  ghost predicate BestBy(used: set<nat>, chosen: seq<Run>, limit: int, best: Option<Run>)
  {
    && (best.Some? ==> Maximal(used, best.value) && !Taken(chosen, best.value)
                       && best.value.start + best.value.count <= limit)
    && forall m :: Maximal(used, m) && m.start + m.count <= limit && !Taken(chosen, m) ==>
         best.Some? && Better(best.value, m)
  }

  /** The stretch between two boundaries holds one maximal run at most. */
  lemma NextRun(used: set<nat>, from: nat, start: nat, to: nat, m: Run)
    requires from <= start <= to <= DATA_SECTORS
    requires from == 0 || from == DATA_SECTORS || from in used
    requires forall s: nat :: from <= s < start ==> s in used
    requires forall s: nat :: start <= s < to ==> s !in used
    requires to == DATA_SECTORS || to in used
    requires Maximal(used, m) && from < m.start + m.count <= to
    ensures m == Run(start, to - start)
  {
    var last := m.start + m.count - 1;
    assert last !in used;
    assert last >= start;
    assert start > from ==> start - 1 in used;
  }

  /** Scan the whole map for the best run not yet chosen. */
  method LargestRun(used: set<nat>, chosen: seq<Run>) returns (best: Option<Run>)
    ensures BestBy(used, chosen, DATA_SECTORS, best)
  {
    best := None;
    var cursor := 0;
    while cursor < DATA_SECTORS
      invariant 0 <= cursor <= DATA_SECTORS
      invariant cursor == 0 || cursor == DATA_SECTORS || cursor in used
      invariant BestBy(used, chosen, cursor, best)
    {
      ghost var from := cursor;
      while cursor < DATA_SECTORS && cursor in used
        invariant from <= cursor <= DATA_SECTORS
        invariant forall s: nat :: from <= s < cursor ==> s in used
      {
        cursor := cursor + 1;
      }
      var start := cursor;
      while cursor < DATA_SECTORS && cursor !in used
        invariant start <= cursor <= DATA_SECTORS
        invariant forall s: nat :: start <= s < cursor ==> s !in used
      {
        cursor := cursor + 1;
      }
      forall m | Maximal(used, m) && from < m.start + m.count <= cursor ensures m == Run(start, cursor - start) {
        NextRun(used, from, start, cursor, m);
      }
      if cursor > start {
        var found := Run(start, cursor - start);
        assert start > from ==> start - 1 in used;
        assert start == from ==> start == 0;
        assert Maximal(used, found);
        if !Taken(chosen, found) && (best.None? || found.count > best.value.count) {
          best := Some(found);
        }
      }
    }
  }

  // ---- Greedy is optimal ------------------------------------------------------

  ghost function Spread(runs: set<Run>): set<nat>
  {
    set s: nat | s < DATA_SECTORS && InAny(runs, s)
  }

  ghost predicate InAny(runs: set<Run>, s: nat)
  {
    exists r :: r in runs && InRun(r, s)
  }

  function Stretch(r: Run): set<nat>
  {
    set s: nat | r.start <= s < r.start + r.count && InRun(r, s)
  }

  lemma {:induction false} StretchSize(r: Run)
    ensures |Stretch(r)| == r.count
    decreases r.count
  {
    if r.count == 0 {
      assert Stretch(r) == {};
    } else {
      var less := Run(r.start, r.count - 1);
      StretchSize(less);
      assert Stretch(r) == Stretch(less) + {r.start + r.count - 1};
    }
  }

  lemma {:induction false} SubsetSize(a: set<nat>, b: set<nat>)
    requires a <= b
    ensures |a| <= |b|
  {
    if a != {} {
      var x :| x in a;
      SubsetSize(a - {x}, b - {x});
    }
  }

  /** Runs inside `m`, together with the rest, spread over at most `m.count` more sectors than the rest. */
  lemma SpreadSplit(cands: set<Run>, inside: set<Run>, size: nat, m: Run)
    requires inside <= cands && m.count <= size
    requires forall c :: c in inside ==> Within(c, m)
    ensures |Spread(cands)| <= size + |Spread(cands - inside)|
  {
    var rest := cands - inside;
    forall s | s in Spread(cands) ensures s in Stretch(m) + Spread(rest) {
      var r :| r in cands && InRun(r, s);
      if r !in inside {
        assert r in rest && InRun(r, s);
      }
    }
    StretchSize(m);
    SubsetSize(Spread(cands), Stretch(m) + Spread(rest));
  }

  ghost predicate InSome(c: Run, greedy: seq<Run>)
  {
    exists j :: 0 <= j < |greedy| && Within(c, greedy[j])
  }

  ghost predicate NoLonger(c: Run, greedy: seq<Run>)
  {
    forall j :: 0 <= j < |greedy| ==> c.count <= greedy[j].count
  }

  /** The greedy runs hold as many sectors as any other choice of no more runs. */
  lemma {:induction false} GreedyBound(cands: set<Run>, greedy: seq<Run>)
    requires forall c :: c in cands ==> InSome(c, greedy) || NoLonger(c, greedy)
    requires |cands| <= |greedy| || forall c :: c in cands ==> InSome(c, greedy)
    ensures |Spread(cands)| <= TotalCount(greedy)
    decreases |greedy|
  {
    if greedy == [] {
      assert forall c :: !InSome(c, greedy);
      assert cands == {};
      assert Spread(cands) == {};
      return;
    }
    var g, shorter := greedy[0], greedy[1..];
    var inside := set c | c in cands && Within(c, g);
    forall c | c in cands - inside ensures InSome(c, shorter) || (!InSome(c, greedy) && NoLonger(c, shorter)) {
      if InSome(c, greedy) {
        var j :| 0 <= j < |greedy| && Within(c, greedy[j]);
        assert shorter[j - 1] == greedy[j];
      } else {
        assert NoLonger(c, greedy);
        assert forall j :: 0 <= j < |shorter| ==> shorter[j] == greedy[j + 1];
      }
    }
    if inside == {} && exists c :: c in cands && !InSome(c, greedy) {
      var c :| c in cands && !InSome(c, greedy);
      assert NoLonger(c, greedy);
      SpreadSplit(cands, {c}, g.count, c);
      GreedyBound(cands - {c}, shorter);
    } else {
      SpreadSplit(cands, inside, g.count, g);
      GreedyBound(cands - inside, shorter);
    }
  }

  ghost function RunSet(runs: seq<Run>): set<Run>
  {
    set r | r in runs
  }

  lemma {:induction false} RunSetSize(runs: seq<Run>)
    ensures |RunSet(runs)| <= |runs|
  {
    if runs != [] {
      var last := |runs| - 1;
      RunSetSize(runs[..last]);
      assert runs == runs[..last] + [runs[last]];
      assert RunSet(runs) == RunSet(runs[..last]) + {runs[last]};
    }
  }

  /** The chosen runs are whole maximal runs, and nothing left over is longer than any of them. */
  ghost predicate Greedy(used: set<nat>, chosen: seq<Run>)
  {
    && (forall k :: 0 <= k < |chosen| ==> Maximal(used, chosen[k]))
    && (forall m :: Maximal(used, m) && !Taken(chosen, m) ==> NoLonger(m, chosen))
  }

  /** A run of any plan lies in a greedy run, or is no longer than any of them. */
  lemma PlannedRun(used: set<nat>, chosen: seq<Run>, length: nat, plan: seq<Run>, c: Run)
    requires Greedy(used, chosen) && PlanOk(used, length, plan) && c in RunSet(plan)
    ensures InSome(c, chosen) || (NoLonger(c, chosen) && exists m :: Maximal(used, m) && !Taken(chosen, m))
  {
    assert FreeRun(used, c) by {
      forall s | c.start <= s < c.start + c.count ensures s !in used {
        assert InRun(c, s) && Covers(plan, s);
      }
    }
    var m := InMaximal(used, c);
    if Taken(chosen, m) {
      var k :| 0 <= k < |chosen| && Overlap(m, chosen[k]);
      MaximalApart(used, m, chosen[k]);
    }
  }

  lemma PlanSpread(plan: seq<Run>, length: nat)
    requires RunsOk(plan, length)
    ensures SectorsNeeded(length) <= |Spread(RunSet(plan))|
  {
    CountOfRuns(plan);
    forall s | s in SectorsOf(plan) ensures s in Spread(RunSet(plan)) {
      var i :| 0 <= i < |plan| && InRun(plan[i], s);
      assert plan[i] in RunSet(plan);
    }
    SubsetSize(SectorsOf(plan), Spread(RunSet(plan)));
  }

  /** When eight greedy runs, or all there are, hold too little, every plan holds too little. */
  lemma NoPlanFits(used: set<nat>, chosen: seq<Run>, length: nat, plan: seq<Run>)
    requires Greedy(used, chosen) && TotalCount(chosen) < SectorsNeeded(length)
    requires |chosen| == EXTENTS || forall m :: Maximal(used, m) ==> Taken(chosen, m)
    ensures !PlanOk(used, length, plan)
  {
    if PlanOk(used, length, plan) {
      forall c | c in RunSet(plan) ensures InSome(c, chosen) || (NoLonger(c, chosen) && |chosen| == EXTENTS) {
        PlannedRun(used, chosen, length, plan, c);
      }
      RunSetSize(plan);
      GreedyBound(RunSet(plan), chosen);
      PlanSpread(plan, length);
    }
  }

  // ---- The owner's planner ----------------------------------------------------

  /** Runs taken so far: free, apart and in bounds. */
  ghost predicate Picked(used: set<nat>, runs: seq<Run>)
  {
    && (forall k :: 0 <= k < |runs| ==> FreeRun(used, runs[k]))
    && RunsApart(runs)
  }

  lemma {:induction false} TotalSnoc(runs: seq<Run>, r: Run)
    ensures TotalCount(runs + [r]) == TotalCount(runs) + r.count
  {
    if runs == [] {
      assert runs + [r] == [r] && [r][1..] == [];
    } else {
      TotalSnoc(runs[1..], r);
      assert (runs + [r])[1..] == runs[1..] + [r];
    }
  }

  lemma PickedStep(used: set<nat>, runs: seq<Run>, best: Run, count: nat)
    requires Picked(used, runs) && Maximal(used, best) && !Taken(runs, best) && 0 < count <= best.count
    ensures Picked(used, runs + [Run(best.start, count)])
  {
    var next := runs + [Run(best.start, count)];
    assert FreeRun(used, Run(best.start, count)) by {
      assert forall s :: best.start <= s < best.start + count ==> InRun(best, s);
    }
    forall i, j | 0 <= i < j < |next| ensures !Overlap(next[i], next[j]) {
      if j == |runs| {
        assert !Overlap(best, runs[i]);
      }
    }
  }

  lemma GreedyStep(used: set<nat>, chosen: seq<Run>, best: Run)
    requires Greedy(used, chosen) && BestBy(used, chosen, DATA_SECTORS, Some(best))
    ensures Greedy(used, chosen + [best])
  {
    var next := chosen + [best];
    forall m | Maximal(used, m) && !Taken(next, m) ensures NoLonger(m, next) {
      assert !Taken(chosen, m) by {
        assert forall k :: 0 <= k < |chosen| ==> next[k] == chosen[k];
      }
      assert m.start + m.count <= DATA_SECTORS;
      assert Better(best, m);
    }
  }

  lemma PickedIsPlan(used: set<nat>, runs: seq<Run>, length: nat)
    requires Picked(used, runs) && |runs| <= EXTENTS && length <= MAX_FILE && TotalCount(runs) == SectorsNeeded(length)
    ensures PlanOk(used, length, runs)
  {
    forall s: nat | Covers(runs, s) ensures s !in used {
      var i :| 0 <= i < |runs| && InRun(runs[i], s);
      assert FreeRun(used, runs[i]);
    }
    assert forall i :: 0 <= i < |runs| ==> FreeRun(used, runs[i]);
  }

  ghost predicate LongestFirst(used: set<nat>, b: Run)
  {
    BestBy(used, [], DATA_SECTORS, Some(b))
  }

  /** The first run of a plan comes from the leftmost longest free run. */
  ghost predicate FirstPick(used: set<nat>, needed: nat, first: Run)
  {
    exists b :: LongestFirst(used, b) && first == Run(b.start, Least(b.count, needed))
  }

  /** When the longest free run can hold the payload, its beginning is the whole plan. */
  lemma SingleRunPlan(used: set<nat>, length: nat, plan: seq<Run>, b: Run)
    requires PlanOk(used, length, plan) && plan != [] && FirstPick(used, SectorsNeeded(length), plan[0])
    requires LongestFirst(used, b) && SectorsNeeded(length) <= b.count
    ensures plan == [Run(b.start, SectorsNeeded(length))]
  {
    var c :| LongestFirst(used, c) && plan[0] == Run(c.start, Least(c.count, SectorsNeeded(length)));
    LongestUnique(used, b, c);
    OnlyRun(plan);
  }

  lemma LongestUnique(used: set<nat>, a: Run, b: Run)
    requires LongestFirst(used, a) && LongestFirst(used, b)
    ensures a == b
  {
    assert Better(a, b) && Better(b, a);
  }

  lemma OnlyRun(plan: seq<Run>)
    requires plan != [] && plan[0].count == TotalCount(plan)
    requires forall i :: 0 <= i < |plan| ==> plan[i].count != 0
    ensures plan == [plan[0]]
  {
    if |plan| > 1 {
      AtLeastTwo(plan);
    }
  }

  lemma AtLeastTwo(plan: seq<Run>)
    requires |plan| > 1
    ensures TotalCount(plan) >= plan[0].count + plan[1].count
  {
    assert plan[1..][0] == plan[1];
  }

  lemma FirstPickStep(used: set<nat>, needed: nat, runs: seq<Run>, best: Run, next: Run)
    requires BestBy(used, runs, DATA_SECTORS, Some(best))
    requires runs != [] ==> FirstPick(used, needed, runs[0])
    requires runs == [] ==> next == Run(best.start, Least(best.count, needed))
    ensures FirstPick(used, needed, (runs + [next])[0])
  {
    if runs == [] {
      assert LongestFirst(used, best);
    }
  }

  /** What the greedy loop keeps: `remaining` of `needed` sectors are still to be found. */
  ghost predicate Picking(used: set<nat>, needed: nat, runs: seq<Run>, remaining: nat)
  {
    && Picked(used, runs) && TotalCount(runs) + remaining == needed
    && (remaining > 0 ==> Greedy(used, runs))
    && (runs != [] ==> FirstPick(used, needed, runs[0]))
  }

  /** One round of the greedy loop. */
  lemma PickKeeps(used: set<nat>, needed: nat, runs: seq<Run>, remaining: nat, best: Run, sectors: nat)
    requires Picking(used, needed, runs, remaining) && remaining > 0 && BestBy(used, runs, DATA_SECTORS, Some(best))
    requires sectors == Least(best.count, remaining)
    ensures Picking(used, needed, runs + [Run(best.start, sectors)], remaining - sectors)
  {
    PickedStep(used, runs, best, sectors);
    TotalSnoc(runs, Run(best.start, sectors));
    FirstPickStep(used, needed, runs, best, Run(best.start, sectors));
    if sectors == best.count {
      GreedyStep(used, runs, best);
      assert best == Run(best.start, sectors);
    }
  }

  /** When nothing is left to pick, or all eight runs are, there is no plan. */
  lemma NoPlan(used: set<nat>, length: nat, runs: seq<Run>, remaining: nat, best: Option<Run>)
    requires Picking(used, SectorsNeeded(length), runs, remaining) && remaining > 0
    requires |runs| == EXTENTS || (best.None? && BestBy(used, runs, DATA_SECTORS, best))
    ensures !exists p :: PlanOk(used, length, p)
  {
    assert best.None? && BestBy(used, runs, DATA_SECTORS, best) ==>
      forall m :: Maximal(used, m) ==> m.start + m.count <= DATA_SECTORS && Taken(runs, m);
    forall p ensures !PlanOk(used, length, p) { NoPlanFits(used, runs, length, p); }
  }

  /**
   * Up to eight free runs, largest first, the last one cut to size. It gives up with `Full`
   * exactly when no plan of at most eight free runs can hold the payload at all.
   */
  method PlanPayload(used: set<nat>, length: nat) returns (plan: Option<seq<Run>>, error: Error)
    ensures plan.Some? ==> PlanOk(used, length, plan.value)
    ensures plan.Some? && plan.value != [] ==> FirstPick(used, SectorsNeeded(length), plan.value[0])
    ensures plan.None? <==> !exists p :: PlanOk(used, length, p)
    ensures plan.None? ==> error == if length > MAX_FILE then Size else Full
  {
    error := Full;
    if length > MAX_FILE {
      return None, Size;
    }
    var needed := SectorsNeeded(length);
    var remaining: nat, runs: seq<Run> := needed, [];
    while remaining > 0
      invariant |runs| <= EXTENTS && Picking(used, needed, runs, remaining)
      decreases remaining
    {
      if |runs| == EXTENTS {
        NoPlan(used, length, runs, remaining, None);
        return None, Full;
      }
      var best := LargestRun(used, runs);
      if best.None? {
        NoPlan(used, length, runs, remaining, best);
        return None, Full;
      }
      var sectors := Least(best.value.count, remaining);
      PickKeeps(used, needed, runs, remaining, best.value, sectors);
      runs := runs + [Run(best.value.start, sectors)];
      remaining := remaining - sectors;
    }
    PickedIsPlan(used, runs, length);
    plan := Some(runs);
  }

  // ---- The harness's mirror ---------------------------------------------------

  method AddRuns(before: set<nat>, runs: seq<Run>) returns (after: set<nat>)
    ensures forall s: nat :: s in after <==> s in before || Covers(runs, s)
  {
    after := before;
    for k := 0 to |runs|
      invariant forall s: nat :: s in after <==> s in before || Covers(runs[..k], s)
    {
      var run := runs[k];
      after := after + Stretch(run);
      CoversSnoc(runs, k);
    }
    assert runs[..|runs|] == runs;
  }

  /** The sectors owned by live files and by snapshots that alias none of them. */
  method ClaimedSectors(g: Generation, kept: seq<Kept>) returns (claimed: set<nat>)
    requires KeptOk(g, kept, |g.records|)
    ensures forall s: nat :: s in claimed <==> Owned(g.nodes, g.records, s)
  {
    claimed := {};
    for i := 0 to |g.nodes|
      invariant forall s: nat :: s in claimed <==> exists k :: k < i && FileOwns(g.nodes, k, s)
    {
      ghost var before := claimed;
      if g.nodes[i].Some? && g.nodes[i].value.kind == File {
        claimed := AddRuns(claimed, g.nodes[i].value.runs);
        assert forall s: nat :: Covers(g.nodes[i].value.runs, s) <==> FileOwns(g.nodes, i, s);
      } else {
        assert forall s: nat :: !FileOwns(g.nodes, i, s);
      }
      forall s: nat ensures s in claimed <==> exists k :: k < i + 1 && FileOwns(g.nodes, k, s) {
        if k :| k < i && FileOwns(g.nodes, k, s) {
          assert k < i + 1 && FileOwns(g.nodes, k, s);
        }
      }
    }
    for d := 0 to |kept|
      invariant forall s: nat :: s in claimed <==>
        (exists k :: FileOwns(g.nodes, k, s)) || (exists e :: e < d && KeptOwns(kept, e, s))
    {
      if !kept[d].aliases {
        claimed := AddRuns(claimed, kept[d].record.runs);
        assert forall s: nat :: Covers(kept[d].record.runs, s) <==> KeptOwns(kept, d, s);
      }
      forall s: nat ensures (exists e :: e < d + 1 && KeptOwns(kept, e, s)) <==>
        KeptOwns(kept, d, s) || (exists e :: e < d && KeptOwns(kept, e, s))
      {
        if e :| e < d && KeptOwns(kept, e, s) {
          assert e < d + 1 && KeptOwns(kept, e, s);
        }
      }
    }
    forall s: nat ensures s in claimed <==> Owned(g.nodes, g.records, s) {
      if e :| e < |kept| && KeptOwns(kept, e, s) {
        assert SnapshotOwns(g.nodes, g.records, kept[e].slot, s);
      }
      if j :| SnapshotOwns(g.nodes, g.records, j, s) {
        var d :| 0 <= d < |kept| && kept[d].slot == j;
        assert KeptOwns(kept, d, s);
      }
    }
  }

  /** Where a fresh payload of `size` bytes goes when one run can hold it; refused exactly when none can. */
  method PlannedSectors(g: Generation, kept: seq<Kept>, size: nat) returns (r: Option<seq<nat>>)
    requires OwnershipOk(g) && KeptOk(g, kept, |g.records|)
    ensures r.None? <==> !exists m :: FreeRun(g.used, m) && m.count >= SectorsNeeded(size)
    ensures r.Some? ==> exists b :: LongestFirst(g.used, b) && SectorsNeeded(size) <= b.count
                                    && r.value == RunSectors(Run(b.start, SectorsNeeded(size)))
    ensures r.Some? ==> forall s :: s in r.value ==> s < DATA_SECTORS && !Owned(g.nodes, g.records, s)
  {
    var claimed := ClaimedSectors(g, kept);
    assert claimed == g.used;
    var best := LargestRun(claimed, []);
    var sectors := SectorsNeeded(size);
    if best.None? || best.value.count < sectors {
      forall m | FreeRun(g.used, m) ensures m.count < sectors {
        var whole := InMaximal(g.used, m);
        assert !Taken([], whole);
      }
      return None;
    }
    r := Some(RunSectors(Run(best.value.start, sectors)));
    assert LongestFirst(g.used, best.value);
    assert Maximal(g.used, best.value);
  }
}
