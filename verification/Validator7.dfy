/** The owner's own validation of a generation: pairwise scans, a bounded ancestor walk and a scratch bitmap. */
module Validator7 {
  import opened Bytes
  import opened Format7
  import opened BitMap
  import opened Generation7
  import opened Steps7
  import opened Preservation7
  import opened Payload7
  import opened Volume7
  import opened Namespace7
  import opened Accounting7
  import opened Reader7
  import opened Structures7

  /** An empty file carries the checksum of no bytes. */
  ghost predicate EmptyFilesOk(crc: Checksum, nodes: seq<Option<Node>>)
  {
    forall i :: Live(nodes, i) && nodes[i].value.kind == File && nodes[i].value.length == 0 ==> nodes[i].value.crc == crc([])
  }

  // ---- Nodes, one at a time ---------------------------------------------------

  /** What the first pass checks of node `i` alone. */
  ghost predicate NodePasses(crc: Checksum, g: Generation, i: int)
  {
    Live(g.nodes, i) ==>
      && NodeOk(g.nodes[i].value) && NodeScanned(g, i)
      && (g.nodes[i].value.kind == File && g.nodes[i].value.length == 0 ==> g.nodes[i].value.crc == crc([]))
  }

  /** Whether an earlier node has the same identity, or the same name under the same parent. */
  method RepeatsEarlier(nodes: seq<Option<Node>>, index: nat) returns (found: bool)
    requires Live(nodes, index)
    ensures found <==> exists j :: j < index && Clash(nodes, j, index)
  {
    for j := 0 to index
      invariant forall k :: k < j ==> !Clash(nodes, k, index)
    {
      if nodes[j].Some? && (nodes[j].value.id == nodes[index].value.id
        || (nodes[j].value.parent == nodes[index].value.parent && nodes[j].value.name == nodes[index].value.name)) {
        assert Clash(nodes, j, index);
        return true;
      }
    }
    found := false;
  }

  lemma ClashRefused(g: Generation, i: int, j: int)
    requires Clash(g.nodes, i, j) && i != j
    ensures !IdsDistinct(g.nodes) || !SiblingsDistinct(g.nodes)
  {
  }

  ghost predicate RootBefore(nodes: seq<Option<Node>>, n: int, id: nat)
  {
    exists i :: i < n && IsRoot(nodes, i, id)
  }

  /** Root `r + 1` was met before slot `n` exactly when its flag is set. */
  ghost predicate RootFlags(nodes: seq<Option<Node>>, n: int, roots: seq<bool>)
  {
    |roots| == 4 && forall r :: 0 <= r < 4 ==> (roots[r] <==> RootBefore(nodes, n, r + 1))
  }

  lemma RootBeforeStep(nodes: seq<Option<Node>>, n: nat, id: nat)
    ensures RootBefore(nodes, n + 1, id) <==> RootBefore(nodes, n, id) || IsRoot(nodes, n, id)
  {
    if i :| i < n && IsRoot(nodes, i, id) {
      assert i < n + 1 && IsRoot(nodes, i, id);
    }
    if IsRoot(nodes, n, id) {
      assert n < n + 1 && IsRoot(nodes, n, id);
    }
  }

  lemma RootFlagsStep(nodes: seq<Option<Node>>, n: nat, roots: seq<bool>, after: seq<bool>)
    requires RootFlags(nodes, n, roots) && |after| == 4
    requires forall r :: 0 <= r < 4 ==> (after[r] <==> roots[r] || IsRoot(nodes, n, r + 1))
    ensures RootFlags(nodes, n + 1, after)
  {
    forall r | 0 <= r < 4 ensures after[r] <==> RootBefore(nodes, n + 1, r + 1) {
      RootBeforeStep(nodes, n, r + 1);
    }
  }

  lemma ScannedMore(g: Generation, n: nat)
    requires Scanned(g, n) && NodeScanned(g, n) && (Live(g.nodes, n) ==> forall j :: j < n ==> !Clash(g.nodes, j, n))
    ensures Scanned(g, n + 1)
  {
    forall i, j | i < n + 1 && j < n + 1 && Clash(g.nodes, i, j) ensures i == j {
      assert Clash(g.nodes, j, i);
    }
  }

  /** The first pass over the node table. */
  method FirstPass(crc: Checksum, g: Generation) returns (ok: bool)
    ensures ok ==> Scanned(g, |g.nodes|) && forall i :: NodePasses(crc, g, i)
    ensures ok ==> forall id :: 1 <= id <= 4 ==> RootPresent(g.nodes, id)
    ensures !ok ==> !NamespaceOk(g) || !EmptyFilesOk(crc, g.nodes)
  {
    var roots := [false, false, false, false];
    for index := 0 to |g.nodes|
      invariant Scanned(g, index) && forall i :: i < index ==> NodePasses(crc, g, i)
      invariant RootFlags(g.nodes, index, roots)
    {
      if g.nodes[index].None? {
        RootFlagsStep(g.nodes, index, roots, roots);
        ScannedMore(g, index);
        continue;
      }
      var n := g.nodes[index].value;
      assert Live(g.nodes, index);
      var sound := CheckNode(n);
      if !sound {
        return false;
      }
      if n.kind == File && n.length == 0 && n.crc != crc([]) {
        return false;
      }
      if n.id >= g.next || n.version > g.sequence {
        return false;
      }
      var repeated := RepeatsEarlier(g.nodes, index);
      if repeated {
        ghost var j :| j < index && Clash(g.nodes, j, index);
        ClashRefused(g, j, index);
        return false;
      }
      ghost var before := roots;
      if n.parent == 0 {
        if n.id < 1 || n.id > 4 || n.kind != Directory || n.space != n.id || n.name != ROOTS[n.id - 1] {
          return false;
        }
        roots := roots[n.id - 1 := true];
      }
      RootFlagsStep(g.nodes, index, before, roots);
      ScannedMore(g, index);
    }
    ok := roots[0] && roots[1] && roots[2] && roots[3];
    RootsFound(g.nodes, roots);
  }

  lemma RootsFound(nodes: seq<Option<Node>>, roots: seq<bool>)
    requires RootFlags(nodes, |nodes|, roots)
    ensures (roots[0] && roots[1] && roots[2] && roots[3]) <==> forall id :: 1 <= id <= 4 ==> RootPresent(nodes, id)
  {
    RootFound(nodes, 1);
    RootFound(nodes, 2);
    RootFound(nodes, 3);
    RootFound(nodes, 4);
    assert roots[0] <==> RootPresent(nodes, 1);
    assert roots[1] <==> RootPresent(nodes, 2);
    assert roots[2] <==> RootPresent(nodes, 3);
    assert roots[3] <==> RootPresent(nodes, 4);
  }

  lemma RootFound(nodes: seq<Option<Node>>, id: nat)
    ensures RootBefore(nodes, |nodes|, id) <==> RootPresent(nodes, id)
  {
    if i :| IsRoot(nodes, i, id) {
      assert i < |nodes|;
    }
  }

  // ---- The bounded ancestor walk ----------------------------------------------

  /** Slots linked by parent identity alone. */
  ghost predicate IdTrail(nodes: seq<Option<Node>>, t: seq<int>)
  {
    && |t| > 0
    && (forall k :: 0 <= k < |t| ==> Live(nodes, t[k]))
    && (forall k :: 0 <= k < |t| - 1 ==> IdLink(nodes, t[k], t[k + 1]))
  }

  predicate IdLink(nodes: seq<Option<Node>>, i: int, p: int)
  {
    Live(nodes, i) && Live(nodes, p) && nodes[i].value.parent != 0 && nodes[p].value.id == nodes[i].value.parent
  }

  ghost predicate ClimbsFrom(nodes: seq<Option<Node>>, i: int, t: seq<int>)
  {
    IdTrail(nodes, t) && t[0] == i && nodes[t[|t| - 1]].value.parent == 0
  }

  /** Whatever the walk has visited is how any chain from the same node begins. */
  lemma {:induction false} ClimbBeginsChain(nodes: seq<Option<Node>>, t: seq<int>, c: seq<int>, k: nat)
    requires IdsDistinct(nodes) && IdTrail(nodes, t) && ChainFrom(nodes, t[0], c) && k < |t|
    ensures k < |c| && c[k] == t[k]
    decreases k
  {
    if k > 0 {
      ClimbBeginsChain(nodes, t, c, k - 1);
      ChainLive(nodes, c, k - 1);
      assert IdLink(nodes, t[k - 1], t[k - 1 + 1]);
    }
  }

  /** A chain has no more links than the table has slots. */
  lemma ChainShort(nodes: seq<Option<Node>>, c: seq<int>)
    requires IdsDistinct(nodes) && Chain(nodes, c)
    ensures |c| <= |nodes|
  {
    forall k | 0 <= k < |c| ensures 0 <= c[k] < |nodes| {
      ChainLive(nodes, c, k);
    }
    var slots: seq<nat> := Naturals(c);
    forall i, j | 0 <= i < j < |slots| ensures slots[i] != slots[j] {
      ChainAcyclic(nodes, c, i, j);
    }
    SetOfDistinct(slots);
    UpToSize(|nodes|);
    SmallerSet(Elements(slots), UpTo(|nodes|));
  }

  ghost function Naturals(c: seq<int>): (n: seq<nat>)
    requires forall k :: 0 <= k < |c| ==> c[k] >= 0
    ensures |n| == |c| && forall k :: 0 <= k < |c| ==> n[k] == c[k]
  {
    if c == [] then [] else Naturals(c[..|c| - 1]) + [c[|c| - 1] as nat]
  }

  ghost function UpTo(n: nat): set<nat>
  {
    if n == 0 then {} else UpTo(n - 1) + {n - 1}
  }

  lemma {:induction false} UpToSize(n: nat)
    ensures |UpTo(n)| <= n
    ensures forall s: nat :: s in UpTo(n) <==> s < n
  {
    if n > 0 {
      UpToSize(n - 1);
    }
  }

  lemma {:induction false} SmallerSet(a: set<nat>, b: set<nat>)
    requires a <= b
    ensures |a| <= |b|
  {
    if a != {} {
      var x :| x in a;
      SmallerSet(a - {x}, b - {x});
    }
  }

  /** Any chain from the start goes on to a live node with the identity the walk looks for next. */
  lemma ChainGoesOn(nodes: seq<Option<Node>>, t: seq<int>, c: seq<int>)
    requires IdsDistinct(nodes) && IdTrail(nodes, t) && ChainFrom(nodes, t[0], c)
    requires nodes[t[|t| - 1]].value.parent != 0
    ensures |t| < |c| && Live(nodes, c[|t|]) && nodes[c[|t|]].value.id == nodes[t[|t| - 1]].value.parent
    ensures c[|t|] != t[0]
  {
    ClimbBeginsChain(nodes, t, c, |t| - 1);
    ChainLive(nodes, c, |t| - 1);
    assert ParentOf(nodes, c[|t| - 1], c[|t| - 1 + 1]);
    ChainAcyclic(nodes, c, 0, |t|);
  }

  /** At most as many ancestors as there are slots, by identity, until the parentless one. */
  method Climb(nodes: seq<Option<Node>>, start: nat) returns (reached: bool)
    requires IdsDistinct(nodes) && Live(nodes, start) && nodes[start].value.parent != 0
    ensures reached ==> exists t :: ClimbsFrom(nodes, start, t)
    ensures !reached ==> !exists c :: ChainFrom(nodes, start, c)
  {
    var ancestor := nodes[start].value.parent as nat;
    ghost var t: seq<int> := [start];
    reached := false;
    for step := 0 to |nodes|
      invariant IdTrail(nodes, t) && t[0] == start && |t| == step + 1
      invariant ancestor == nodes[t[|t| - 1]].value.parent
    {
      if ancestor == 0 {
        assert ClimbsFrom(nodes, start, t);
        return true;
      }
      forall c | ChainFrom(nodes, start, c)
        ensures |t| < |c| && Live(nodes, c[|t|]) && nodes[c[|t|]].value.id == ancestor && c[|t|] != start
      {
        ChainGoesOn(nodes, t, c);
      }
      if ancestor == nodes[start].value.id {
        return false;
      }
      var found := FindNode(nodes, ancestor);
      if found.None? {
        return false;
      }
      t := t + [found.value as int];
      ancestor := nodes[found.value].value.parent;
    }
    if ancestor == 0 {
      assert ClimbsFrom(nodes, start, t);
      return true;
    }
    forall c ensures !ChainFrom(nodes, start, c) {
      if ChainFrom(nodes, start, c) {
        ClimbBeginsChain(nodes, t, c, |t| - 1);
        ChainShort(nodes, c);
      }
    }
  }

  ghost predicate ParentAccepted(nodes: seq<Option<Node>>, i: int)
  {
    Live(nodes, i) && nodes[i].value.parent != 0 ==> exists p :: ParentOf(nodes, i, p)
  }

  /** When every direct parent is acceptable, a climb by identity is an ancestry chain. */
  lemma ClimbIsChain(nodes: seq<Option<Node>>, i: int, t: seq<int>)
    requires IdsDistinct(nodes) && (forall k :: ParentAccepted(nodes, k)) && ClimbsFrom(nodes, i, t)
    ensures ChainFrom(nodes, i, t)
  {
    assert Trail(nodes, t) by {
      forall k | 0 <= k < |t| - 1 ensures ParentOf(nodes, t[k], t[k + 1]) {
        assert IdLink(nodes, t[k], t[k + 1]);
        assert ParentAccepted(nodes, t[k]);
        var p :| ParentOf(nodes, t[k], p);
        assert p == t[k + 1];
      }
    }
    TrailIsChain(nodes, t);
  }

  lemma RootedIsAccepted(nodes: seq<Option<Node>>, i: int)
    ensures (exists c :: ChainFrom(nodes, i, c)) ==> ParentAccepted(nodes, i)
  {
    if c :| ChainFrom(nodes, i, c) && nodes[i].value.parent != 0 {
      assert ParentOf(nodes, c[0], c[1]);
    }
  }

  /** The second pass: every direct parent, then the bounded walk. */
  method SecondPass(nodes: seq<Option<Node>>) returns (ok: bool)
    requires IdsDistinct(nodes)
    ensures ok <==> Rooted(nodes)
  {
    for index := 0 to |nodes|
      invariant forall i :: i < index ==> ParentAccepted(nodes, i)
      invariant forall i :: i < index && Live(nodes, i) ==> exists t :: ClimbsFrom(nodes, i, t)
    {
      if nodes[index].None? {
        continue;
      }
      assert Live(nodes, index);
      if nodes[index].value.parent == 0 {
        assert ClimbsFrom(nodes, index, [index]);
        continue;
      }
      var p := FindNode(nodes, nodes[index].value.parent);
      if p.None? || nodes[p.value].value.kind != Directory || nodes[p.value].value.space != nodes[index].value.space {
        RootedIsAccepted(nodes, index);
        return false;
      }
      assert ParentOf(nodes, index, p.value);
      var reached := Climb(nodes, index);
      if !reached {
        return false;
      }
    }
    ok := true;
    forall i | Live(nodes, i) ensures exists c :: ChainFrom(nodes, i, c) {
      var t :| ClimbsFrom(nodes, i, t);
      ClimbIsChain(nodes, i, t);
    }
  }

  /** All namespace rules, and that empty files carry the checksum of no bytes. */
  method ValidateNodes(crc: Checksum, g: Generation) returns (ok: bool)
    ensures ok <==> NamespaceOk(g) && EmptyFilesOk(crc, g.nodes)
  {
    ok := FirstPass(crc, g);
    if ok {
      ScannedMeans(g);
      PassedMeans(crc, g);
      ok := SecondPass(g.nodes);
    }
  }

  lemma PassedMeans(crc: Checksum, g: Generation)
    requires forall i :: NodePasses(crc, g, i)
    ensures NodesBounded(g) && EmptyFilesOk(crc, g.nodes)
  {
    forall i | Live(g.nodes, i)
      ensures NodeOk(g.nodes[i].value) && g.nodes[i].value.id < g.next && g.nodes[i].value.version <= g.sequence
    {
      assert NodePasses(crc, g, i);
    }
    forall i | Live(g.nodes, i) && g.nodes[i].value.kind == File && g.nodes[i].value.length == 0
      ensures g.nodes[i].value.crc == crc([])
    {
      assert NodePasses(crc, g, i);
    }
  }

  // ---- Retained records -------------------------------------------------------

  predicate ObservationsMonotonic(l: Record, r: Record)
  {
    if Observed(l) < Observed(r) then l.previous <= r.previous
    else Observed(l) != Observed(r) && r.previous <= l.previous
  }

  predicate AdmissionUnchanged(committing: Record, other: Record)
  {
    committing.state == AdmittedCommitted && committing.admission < Observed(other) < committing.committed ==>
      other.previous == committing.previous
  }

  predicate CommitsMonotonic(l: Record, r: Record)
  {
    Committed(l) && Committed(r) ==>
      if l.committed < r.committed then r.previous >= l.committed else l.previous >= r.committed
  }

  predicate LateObservation(committed: Record, other: Record)
  {
    Committed(committed) && Observed(other) > committed.committed && other.previous < committed.committed
  }

  /** The owner's form of the same-object rules. */
  predicate ConsistentHistory(l: Record, r: Record)
  {
    l.objectId == r.objectId ==>
      && ObservationsMonotonic(l, r)
      && AdmissionUnchanged(l, r) && AdmissionUnchanged(r, l)
      && CommitsMonotonic(l, r)
      && !LateObservation(l, r) && !LateObservation(r, l)
  }

  /** The retry identity of a record. */
  function IdentityOf(r: Record): (nat, nat, nat, nat)
  {
    (r.subject, r.workspace, r.epoch, r.key)
  }

  function EventsOf(r: Record): seq<nat>
  {
    [r.admission, r.terminal, r.committed]
  }

  predicate SharesEvent(l: Record, r: Record)
  {
    exists e :: e in EventsOf(l) && e != 0 && e in EventsOf(r)
  }

  lemma SharedEvent(l: Record, r: Record)
    ensures SharesEvent(l, r) <==> ShareEvent(l, r)
  {
    var a, b := EventsOf(l), EventsOf(r);
    assert a[0] in a && a[1] in a && a[2] in a && b[0] in b && b[1] in b && b[2] in b;
    if ShareEvent(l, r) {
      assert (a[0] != 0 && a[0] in b) || (a[1] != 0 && a[1] in b) || (a[2] != 0 && a[2] in b);
    }
  }

  predicate Compatible(l: Record, r: Record)
  {
    IdentityOf(l) != IdentityOf(r) && !SharesEvent(l, r) && ConsistentHistory(l, r)
  }

  /** The owner and the independent reader apply the same pairwise rules. */
  lemma CompatibleIsPairOk(prior: Record, r: Record)
    requires RecordOk(prior) && RecordOk(r)
    ensures Compatible(r, prior) <==> PairOk(prior, r)
  {
    SharedEvent(r, prior);
    PairSymmetric(r, prior);
  }

  /** Compare one record with every record in an earlier slot. */
  method FitsEarlier(records: seq<Option<Record>>, index: nat) returns (ok: bool)
    requires Held(records, index) && forall j :: Held(records, j) && j <= index ==> RecordOk(records[j].value)
    ensures ok <==> forall j :: 0 <= j < index && Held(records, j) ==> PairOk(records[j].value, records[index].value)
  {
    var r := records[index].value;
    for j := 0 to index
      invariant forall k :: 0 <= k < j && Held(records, k) ==> PairOk(records[k].value, r)
    {
      if records[j].Some? {
        assert Held(records, j);
        CompatibleIsPairOk(records[j].value, r);
        if !Compatible(r, records[j].value) {
          return false;
        }
      }
    }
    ok := true;
  }

  method ValidateReceipts(g: Generation) returns (ok: bool)
    requires NamespaceOk(g)
    ensures ok <==> RecordsOk(g)
  {
    for slot := 0 to |g.records|
      invariant Reviewed(g, slot)
    {
      if g.records[slot].None? {
        continue;
      }
      var r := g.records[slot].value;
      assert Held(g.records, slot);
      var bounded := CheckBounds(g, r);
      if !bounded {
        return false;
      }
      var index := FindNode(g.nodes, r.objectId);
      if index.Some? {
        var consistent := CheckTarget(r, g.nodes[index.value].value);
        if !consistent {
          return false;
        }
      }
      var fits := FitsEarlier(g.records, slot);
      if !fits {
        return false;
      }
      ReviewedStep(g, slot);
    }
    ok := true;
  }

  // ---- The scratch bitmap -----------------------------------------------------

  /** Test and set one bit of the scratch map. */
  method MarkSector(scratch: array<nat>, sector: nat) returns (ok: bool)
    requires scratch.Length == MAP_WORDS && WordsFit(scratch[..]) && sector < DATA_SECTORS
    modifies scratch
    ensures WordsFit(scratch[..])
    ensures ok <==> sector !in Marked(old(scratch[..]))
    ensures ok ==> forall t: nat :: t in Marked(scratch[..]) <==> t in Marked(old(scratch[..])) || t == sector
  {
    var word, bit := scratch[sector / WORD_BITS], Pow2(sector % WORD_BITS);
    AndTestsBit(word, sector % WORD_BITS);
    if BitAnd(word, bit) != 0 {
      return false;
    }
    MarkedAfterOr(scratch[..], sector, WORD_BITS);
    ghost var before := scratch[..];
    scratch[sector / WORD_BITS] := BitOr(word, bit);
    assert scratch[..] == before[sector / WORD_BITS := BitOr(word, bit)];
    ok := true;
  }

  /** Mark every sector of some runs; refuse one that is marked already. */
  method MarkRuns(scratch: array<nat>, runs: seq<Run>) returns (ok: bool)
    requires scratch.Length == MAP_WORDS && WordsFit(scratch[..]) && RunsApart(runs) && RunsInside(runs, DATA_SECTORS)
    modifies scratch
    ensures WordsFit(scratch[..])
    ensures ok <==> forall s: nat :: Covers(runs, s) ==> s !in Marked(old(scratch[..]))
    ensures ok ==> forall s: nat :: s in Marked(scratch[..]) <==> s in Marked(old(scratch[..])) || Covers(runs, s)
  {
    ghost var before := Marked(scratch[..]);
    for k := 0 to |runs|
      invariant WordsFit(scratch[..])
      invariant forall s: nat :: s in Marked(scratch[..]) <==> s in before || Covers(runs[..k], s)
      invariant forall s: nat :: Covers(runs[..k], s) ==> s !in before
    {
      var run := runs[k];
      for sector := run.start to run.start + run.count
        invariant WordsFit(scratch[..])
        invariant forall s: nat :: s in Marked(scratch[..]) <==>
          s in before || Covers(runs[..k], s) || run.start <= s < sector
        invariant forall s: nat :: run.start <= s < sector ==> s !in before
      {
        NotCoveredYet(runs, k, sector);
        ok := MarkSector(scratch, sector);
        if !ok {
          assert InRun(runs[k], sector) && Covers(runs, sector);
          return;
        }
      }
      CoversSnoc(runs, k);
    }
    assert runs[..|runs|] == runs;
    ok := true;
  }

  lemma NotCoveredYet(runs: seq<Run>, k: nat, s: nat)
    requires RunsApart(runs) && k < |runs| && InRun(runs[k], s)
    ensures !Covers(runs[..k], s)
  {
    assert forall i :: 0 <= i < k ==> !Overlap(runs[i], runs[k]) && runs[..k][i] == runs[i];
  }

  /** `claimed` is what all files and the snapshots in slots before `n` own, all of them apart. */
  ghost predicate SlotsClaimed(g: Generation, n: int, claimed: set<nat>)
  {
    && (forall s: nat :: s in claimed <==>
          (exists i :: FileOwns(g.nodes, i, s)) || (exists j :: j < n && SnapshotOwns(g.nodes, g.records, j, s)))
    && (forall s: nat, i, j :: j < n && FileOwns(g.nodes, i, s) ==> !SnapshotOwns(g.nodes, g.records, j, s))
    && (forall s: nat, j, k ::
          j < n && k < n && SnapshotOwns(g.nodes, g.records, j, s) && SnapshotOwns(g.nodes, g.records, k, s) ==> j == k)
  }

  lemma SlotsClaimedStep(g: Generation, n: nat, claimed: set<nat>, more: set<nat>)
    requires SlotsClaimed(g, n, claimed)
    requires forall s: nat :: SnapshotOwns(g.nodes, g.records, n, s) ==> s !in claimed
    requires forall s: nat :: s in more <==> s in claimed || SnapshotOwns(g.nodes, g.records, n, s)
    ensures SlotsClaimed(g, n + 1, more)
  {
    forall s: nat
      ensures s in more <==>
        (exists i :: FileOwns(g.nodes, i, s)) || (exists j :: j < n + 1 && SnapshotOwns(g.nodes, g.records, j, s))
    {
      if j :| j < n && SnapshotOwns(g.nodes, g.records, j, s) {
        assert j < n + 1 && SnapshotOwns(g.nodes, g.records, j, s);
      }
      if SnapshotOwns(g.nodes, g.records, n, s) {
        assert n < n + 1 && SnapshotOwns(g.nodes, g.records, n, s);
      }
    }
  }

  lemma SlotShared(g: Generation, n: nat, claimed: set<nat>, s: nat)
    requires SlotsClaimed(g, n, claimed) && SnapshotOwns(g.nodes, g.records, n, s) && s in claimed
    ensures !OwnersApart(g.nodes, g.records)
  {
    if i :| FileOwns(g.nodes, i, s) {
    } else {
      var j :| j < n && SnapshotOwns(g.nodes, g.records, j, s);
    }
  }

  lemma SlotsMean(g: Generation, claimed: set<nat>)
    requires SlotsClaimed(g, |g.records|, claimed)
    requires forall s: nat, i, k :: FileOwns(g.nodes, i, s) && FileOwns(g.nodes, k, s) ==> i == k
    ensures OwnersApart(g.nodes, g.records)
    ensures forall s: nat :: s in claimed <==> Owned(g.nodes, g.records, s)
  {
    forall s: nat, j | SnapshotOwns(g.nodes, g.records, j, s) ensures j < |g.records| {
    }
  }

  method MarkFiles(nodes: seq<Option<Node>>, scratch: array<nat>) returns (ok: bool)
    requires forall i :: Live(nodes, i) ==> NodeOk(nodes[i].value)
    requires scratch.Length == MAP_WORDS && WordsFit(scratch[..]) && Marked(scratch[..]) == {}
    modifies scratch
    ensures WordsFit(scratch[..])
    ensures ok ==> FilesClaimed(nodes, |nodes|, Marked(scratch[..]))
    ensures !ok ==> exists s: nat, i, k :: i != k && FileOwns(nodes, i, s) && FileOwns(nodes, k, s)
  {
    for index := 0 to |nodes|
      invariant WordsFit(scratch[..]) && FilesClaimed(nodes, index, Marked(scratch[..]))
    {
      if nodes[index].None? || nodes[index].value.kind != File {
        assert forall s: nat :: !FileOwns(nodes, index, s);
        continue;
      }
      assert Live(nodes, index) && NodeOk(nodes[index].value);
      ghost var before := Marked(scratch[..]);
      ok := MarkRuns(scratch, nodes[index].value.runs);
      if !ok {
        ghost var s: nat :| Covers(nodes[index].value.runs, s) && s in before;
        ghost var i :| i < index && FileOwns(nodes, i, s);
        assert FileOwns(nodes, index, s) && i != index;
        return;
      }
      FilesClaimedStep(nodes, index, before, Marked(scratch[..]));
    }
    ok := true;
  }

  /** Whether an earlier record also aliases the same live file. */
  predicate AliasedEarlier(g: Generation, slot: nat)
    requires Held(g.records, slot)
  {
    exists j :: 0 <= j < slot && g.records[j].Some? && g.records[j].value.objectId == g.records[slot].value.objectId
      && Aliases(g.nodes, g.records[j].value)
  }

  lemma NeverAliasedEarlier(g: Generation, slot: nat)
    requires RecordsOk(g) && IdsDistinct(g.nodes) && Held(g.records, slot) && Aliases(g.nodes, g.records[slot].value)
    ensures !AliasedEarlier(g, slot)
  {
    forall j | 0 <= j < slot && Held(g.records, j) && Aliases(g.nodes, g.records[j].value)
      ensures g.records[j].value.objectId != g.records[slot].value.objectId
    {
      var i :| 0 <= i < |g.nodes| && AliasesAt(g.nodes, i, g.records[j].value);
      var k :| 0 <= k < |g.nodes| && AliasesAt(g.nodes, k, g.records[slot].value);
      assert RecordInBounds(g, g.records[j].value) && RecordInBounds(g, g.records[slot].value);
      if i == k {
        AliasUnique(g, i, j, slot);
      }
    }
  }

  /** The record is the current version of the file it names. */
  method AliasesCurrent(g: Generation, r: Record) returns (aliases: bool)
    requires NamespaceOk(g)
    ensures aliases <==> Aliases(g.nodes, r)
  {
    if r.state != DirectCommitted && r.state != AdmittedCommitted {
      return false;
    }
    var index := FindNode(g.nodes, r.objectId);
    if index.None? {
      return false;
    }
    var n := g.nodes[index.value].value;
    aliases := n.version == r.committed && SameContent(r, n);
    assert aliases ==> AliasesAt(g.nodes, index.value, r);
  }

  method MarkSnapshots(g: Generation, scratch: array<nat>, crc: Checksum) returns (ok: bool)
    requires EmptyIsZero(crc) && NamespaceOk(g) && RecordsOk(g)
    requires scratch.Length == MAP_WORDS && WordsFit(scratch[..]) && SlotsClaimed(g, 0, Marked(scratch[..]))
    modifies scratch
    ensures WordsFit(scratch[..])
    ensures ok ==> SlotsClaimed(g, |g.records|, Marked(scratch[..])) && EmptySnapshotsOk(g.records)
    ensures !ok ==> !OwnersApart(g.nodes, g.records) || !EmptySnapshotsOk(g.records)
  {
    for slot := 0 to |g.records|
      invariant WordsFit(scratch[..]) && SlotsClaimed(g, slot, Marked(scratch[..]))
      invariant forall j :: j < slot && Held(g.records, j) && g.records[j].value.length == 0 ==> g.records[j].value.crc == 0
    {
      ghost var before := Marked(scratch[..]);
      if g.records[slot].None? {
        SlotsClaimedStep(g, slot, before, before);
        continue;
      }
      var r := g.records[slot].value;
      assert Held(g.records, slot) && RecordInBounds(g, r);
      if r.length == 0 && r.crc != crc([]) {
        return false;
      }
      var aliases := AliasesCurrent(g, r);
      if !aliases {
        ok := MarkRuns(scratch, r.runs);
        if !ok {
          ghost var s: nat :| Covers(r.runs, s) && s in before;
          SlotShared(g, slot, before, s);
          return;
        }
      }
      SlotsClaimedStep(g, slot, before, Marked(scratch[..]));
      if aliases {
        NeverAliasedEarlier(g, slot);
        if AliasedEarlier(g, slot) {
          assert false;
        }
      }
    }
    ok := true;
  }

  // ---- The whole generation ---------------------------------------------------

  lemma ZeroWords(words: seq<nat>)
    requires forall i :: 0 <= i < |words| ==> words[i] == 0
    ensures WordsFit(words) && Marked(words) == {}
  {
    forall s: nat ensures s !in Marked(words) {
      ZeroHasNoBits(s % WORD_BITS);
    }
  }

  lemma SameMap(words: seq<nat>, used: set<nat>)
    requires |words| == MAP_WORDS && WordsFit(words) && forall s :: s in used ==> s < DATA_SECTORS
    ensures words == WordsOf(used) <==> Marked(words) == used
  {
    MarkedOfWordsOf(used);
    WordsOfMarked(words);
  }

  /** Mark all owners in the cleared scratch map and compare it with the allocation map. */
  method MarkOwners(crc: Checksum, g: Generation, scratch: array<nat>) returns (ok: bool)
    requires EmptyIsZero(crc) && NamespaceOk(g) && RecordsOk(g) && scratch.Length == MAP_WORDS
    requires forall s :: s in g.used ==> s < DATA_SECTORS
    modifies scratch
    ensures ok <==> OwnershipOk(g)
  {
    forall i | 0 <= i < scratch.Length {
      scratch[i] := 0;
    }
    ZeroWords(scratch[..]);
    ok := MarkFiles(g.nodes, scratch);
    if !ok {
      return;
    }
    ok := MarkSnapshots(g, scratch, crc);
    if !ok {
      return;
    }
    SlotsMean(g, Marked(scratch[..]));
    SameMap(scratch[..], g.used);
    ok := scratch[..] == WordsOf(g.used);
  }

  /**
   * Accepts exactly the generations the independent reader's rules accept whose empty files also carry the
   * checksum of no bytes.
   */
  method ValidateGeneration(crc: Checksum, g: Generation, scratch: array<nat>) returns (ok: bool)
    requires EmptyIsZero(crc) && scratch.Length == MAP_WORDS
    requires |g.lineage| == 16 && |g.nodes| == NODES && |g.records| == RETAINED
    requires forall s :: s in g.used ==> s < DATA_SECTORS
    modifies scratch
    ensures ok <==> GenerationOk(g) && EmptyFilesOk(crc, g.nodes)
  {
    if g.lineage == Zeros(16) || g.sequence < 1 || g.epoch < 1 || g.epoch > g.sequence || g.next < NEXT_MIN {
      return false;
    }
    ok := ValidateNodes(crc, g);
    if !ok {
      return;
    }
    ok := ValidateReceipts(g);
    if !ok {
      return;
    }
    ok := MarkOwners(crc, g, scratch);
  }

  /** Where payload checksums hold, the extra rule adds nothing. */
  lemma IntactFilesOk(crc: Checksum, v: Volume)
    requires VolumeOk(crc, v)
    ensures EmptyFilesOk(crc, v.gen.nodes)
  {
    forall i | Live(v.gen.nodes, i) && v.gen.nodes[i].value.kind == File && v.gen.nodes[i].value.length == 0
      ensures v.gen.nodes[i].value.crc == crc([])
    {
      var n := v.gen.nodes[i].value;
      assert NodeIntact(crc, v.blocks, n);
      assert Content(v.blocks, n.runs, 0) == [];
    }
  }

  predicate IsEmptyFile(g: Generation, i: int)
  {
    Live(g.nodes, i) && g.nodes[i].value.kind == File && g.nodes[i].value.length == 0
  }

  /** `g` with another checksum on the file in slot `i`. */
  function Rechecked(g: Generation, i: int, other: U32): Generation
    requires Live(g.nodes, i)
  {
    g.(nodes := g.nodes[i := Some(g.nodes[i].value.(crc := other))])
  }

  /** No retained record is about the file in slot `i`. */
  predicate Unrecorded(g: Generation, i: int)
    requires Live(g.nodes, i)
  {
    forall j :: 0 <= j < |g.records| && g.records[j].Some? ==> g.records[j].value.objectId != g.nodes[i].value.id
  }

  lemma RecheckedNamespace(g: Generation, i: int, other: U32)
    requires NamespaceOk(g) && IsEmptyFile(g, i)
    ensures NamespaceOk(Rechecked(g, i, other))
  {
    var h := Rechecked(g, i, other);
    ReplacePlaces(g.nodes, i, h.nodes[i].value);
    PlacesKept(g.nodes, h.nodes);
    forall k | Live(h.nodes, k)
      ensures NodeOk(h.nodes[k].value) && h.nodes[k].value.id < h.next && h.nodes[k].value.version <= h.sequence
    {
      assert Live(g.nodes, k);
    }
  }

  lemma RecheckedRecords(g: Generation, i: int, other: U32)
    requires RecordsOk(g) && IsEmptyFile(g, i) && Unrecorded(g, i)
    ensures RecordsOk(Rechecked(g, i, other))
    ensures forall j :: Held(g.records, j) ==>
      (Aliases(Rechecked(g, i, other).nodes, g.records[j].value) <==> Aliases(g.nodes, g.records[j].value))
  {
    var h := Rechecked(g, i, other);
    forall j | Held(g.records, j) ensures RecordInBounds(h, h.records[j].value) {
      assert RecordInBounds(g, g.records[j].value);
    }
    forall j | Held(g.records, j) ensures Aliases(h.nodes, g.records[j].value) <==> Aliases(g.nodes, g.records[j].value) {
      assert forall k :: AliasesAt(h.nodes, k, g.records[j].value) <==> AliasesAt(g.nodes, k, g.records[j].value);
    }
    forall j, k | Held(h.records, j) && Live(h.nodes, k) && h.nodes[k].value.id == h.records[j].value.objectId
      ensures TargetOk(h.records[j].value, h.nodes[k].value)
    {
      assert Live(g.nodes, k) && k != i;
    }
  }

  /** The rule is not among the independent reader's: there, only the payload checksum refuses such a file. */
  lemma EmptyFileRuleExtra(crc: Checksum, g: Generation, i: int, other: U32)
    requires EmptyIsZero(crc) && GenerationOk(g) && IsEmptyFile(g, i) && Unrecorded(g, i) && other != 0
    ensures GenerationOk(Rechecked(g, i, other)) && !EmptyFilesOk(crc, Rechecked(g, i, other).nodes)
  {
    var h := Rechecked(g, i, other);
    RecheckedNamespace(g, i, other);
    RecheckedRecords(g, i, other);
    forall k, s: nat ensures FileOwns(h.nodes, k, s) <==> FileOwns(g.nodes, k, s) {
    }
    forall j, s: nat ensures SnapshotOwns(h.nodes, h.records, j, s) <==> SnapshotOwns(g.nodes, g.records, j, s) {
    }
    forall s: nat ensures Owned(h.nodes, h.records, s) <==> Owned(g.nodes, g.records, s) {
    }
    assert Live(h.nodes, i);
  }
}
