/** The independent reader, loop by loop, against what acceptance means. */
module Reader7 {
  import opened Bytes
  import opened Format7
  import opened Codec7
  import opened BitMap
  import opened Generation7
  import opened Payload7
  import opened Image7
  import opened Namespace7

  // ---- Header selection -------------------------------------------------------

  /** `valid` and `rejected` split the copies into decoded heads and refused slots. */
  ghost predicate Sorted(copies: seq<Option<Header>>, valid: map<nat, Header>, rejected: set<nat>)
  {
    && (forall k: nat :: k in valid <==> k < |copies| && copies[k].Some?)
    && (forall k: nat :: k in valid ==> copies[k] == Some(valid[k]))
    && (forall k: nat :: k in rejected <==> k < |copies| && copies[k].None?)
  }

  function Copies(crc: Checksum, img: Image): (c: seq<Option<Header>>)
    requires |img| == VOLUME_SECTORS
    ensures |c| == GENERATIONS
  {
    [HeaderCopy(crc, img, 0), HeaderCopy(crc, img, 1)]
  }

  method SortCopies(copies: seq<Option<Header>>) returns (valid: map<nat, Header>, rejected: set<nat>)
    ensures Sorted(copies, valid, rejected)
  {
    valid, rejected := map[], {};
    for slot := 0 to |copies|
      invariant Sorted(copies[..slot], valid, rejected)
    {
      if copies[slot].Some? {
        valid := valid[slot := copies[slot].value];
      } else {
        rejected := rejected + {slot};
      }
    }
    assert copies[..|copies|] == copies;
  }

  /** The selection rule over the copies that decoded. */
  method ChooseHead(copies: seq<Option<Header>>, valid: map<nat, Header>, rejected: set<nat>, raw: seq<Sector>)
    returns (r: Selection)
    requires |copies| == |raw| == GENERATIONS && Sorted(copies, valid, rejected)
    ensures r == Select(copies[0], copies[1], raw[0], raw[1])
  {
    if 0 !in valid && 1 !in valid {
      return NoHead;
    }
    if 0 !in valid || 1 !in valid {
      var slot := if 0 in valid then 0 else 1;
      return Selected(valid[slot], !Genesis(valid[slot], raw[1 - slot]));
    }
    var older, newer := valid[0], valid[1];
    if older.sequence > newer.sequence {
      older, newer := newer, older;
    }
    if older.lineage != newer.lineage
      || newer.sequence - older.sequence != 1
      || newer.epoch < older.epoch || newer.next < older.next {
      return NoHead;
    }
    return Selected(newer, false);
  }

  /** Try both copies, then apply the selection rule to the ones that decoded. */
  method SelectCopies(crc: Checksum, img: Image) returns (r: Selection, rejected: set<nat>)
    requires |img| == VOLUME_SECTORS
    ensures r == SelectHeader(crc, img)
    ensures forall slot: nat :: slot in rejected <==> slot < GENERATIONS && HeaderCopy(crc, img, slot).None?
  {
    var valid;
    valid, rejected := SortCopies(Copies(crc, img));
    r := ChooseHead(Copies(crc, img), valid, rejected, [img[HeaderSector(0)], img[HeaderSector(1)]]);
  }

  // ---- Regions ----------------------------------------------------------------

  /** Verify the aggregates the selected header names, then decode its three regions. */
  method DecodeRegions(crc: Checksum, img: Image, h: Header) returns (r: Option<Generation>)
    requires |img| == VOLUME_SECTORS && h.generation < GENERATIONS
    ensures r.Some? <==> RegionsDecode(crc, img, h)
    ensures r.Some? ==> r.value == ReadGeneration(crc, img, h)
  {
    var table, words, block := NodesAt(img, h.generation), MapAt(img, h.generation), ReceiptsAt(img, h.generation);
    if crc(table) != h.nodesChecksum || !NodesDecode(crc, table) {
      return None;
    }
    if crc(words) != h.mapChecksum {
      return None;
    }
    var marked := DecodeByLowestBit(ReadWords(words));
    if crc(block) != h.receiptsChecksum || !RecordsDecode(crc, block) {
      return None;
    }
    return Some(Generation(h.lineage, h.epoch, h.sequence, h.next,
                           DecodeNodes(crc, table), DecodeRecords(crc, block), marked));
  }

  /** What the slot decoders already guarantee about every decoded structure. */
  ghost predicate Decoded(g: Generation)
  {
    && (forall i :: Live(g.nodes, i) ==> NodeOk(g.nodes[i].value))
    && (forall j :: Held(g.records, j) ==> RecordOk(g.records[j].value))
  }

  lemma ReadIsDecoded(crc: Checksum, img: Image, h: Header)
    requires |img| == VOLUME_SECTORS && h.generation < GENERATIONS && RegionsDecode(crc, img, h)
    ensures Decoded(ReadGeneration(crc, img, h))
  {
    var g := ReadGeneration(crc, img, h);
    var table, block := NodesAt(img, h.generation), ReceiptsAt(img, h.generation);
    forall i | Live(g.nodes, i) ensures NodeOk(g.nodes[i].value) {
      assert NodeSlot(crc, table, i).Some?;
      NodeCanonical(crc, Piece(table, NODE_BYTES, i));
    }
    forall j | Held(g.records, j) ensures RecordOk(g.records[j].value) {
      assert RecordSlot(crc, block, j).Some?;
      RecordCanonical(crc, Piece(block, RECORD_BYTES, j));
    }
  }

  // ---- The ancestry walk ------------------------------------------------------

  /** `live` finds exactly the live nodes by identity. */
  ghost predicate Indexes(live: map<nat, nat>, nodes: seq<Option<Node>>)
  {
    && (forall id :: id in live ==> Live(nodes, live[id]) && nodes[live[id]].value.id == id)
    && (forall i :: Live(nodes, i) ==> nodes[i].value.id in live && live[nodes[i].value.id] == i)
  }

  /** Slots visited so far, each the parent of the one before. */
  ghost predicate Trail(nodes: seq<Option<Node>>, t: seq<int>)
  {
    && |t| > 0
    && (forall k :: 0 <= k < |t| ==> Live(nodes, t[k]))
    && (forall k :: 0 <= k < |t| - 1 ==> ParentOf(nodes, t[k], t[k + 1]))
  }

  lemma {:induction false} TrailIsChain(nodes: seq<Option<Node>>, t: seq<int>)
    requires Trail(nodes, t) && nodes[t[|t| - 1]].value.parent == 0
    ensures Chain(nodes, t)
  {
    if |t| > 1 {
      assert ParentOf(nodes, t[0], t[1]);
      assert Trail(nodes, t[1..]) by {
        forall k | 0 <= k < |t[1..]| - 1 ensures ParentOf(nodes, t[1..][k], t[1..][k + 1]) {
          assert ParentOf(nodes, t[k + 1], t[k + 1 + 1]);
        }
      }
      TrailIsChain(nodes, t[1..]);
    }
  }

  /** Whatever the walk has visited is how any chain from the same node begins. */
  lemma {:induction false} TrailBeginsChain(nodes: seq<Option<Node>>, t: seq<int>, c: seq<int>, k: nat)
    requires IdsDistinct(nodes) && Trail(nodes, t) && ChainFrom(nodes, t[0], c) && k < |t|
    ensures k < |c| && c[k] == t[k]
    decreases k
  {
    if k > 0 {
      TrailBeginsChain(nodes, t, c, k - 1);
      ChainLive(nodes, c, k - 1);
      assert ParentOf(nodes, t[k - 1], t[k - 1 + 1]);
    }
  }

  /** A walk that comes back to a visited node is on no chain. */
  lemma CycleHasNoChain(nodes: seq<Option<Node>>, t: seq<int>, m: nat)
    requires IdsDistinct(nodes) && Trail(nodes, t) && m < |t| - 1 && t[m] == t[|t| - 1]
    ensures !exists c :: ChainFrom(nodes, t[0], c)
  {
    if c :| ChainFrom(nodes, t[0], c) {
      TrailBeginsChain(nodes, t, c, m);
      TrailBeginsChain(nodes, t, c, |t| - 1);
      ChainAcyclic(nodes, c, m, |t| - 1);
      assert false;
    }
  }

  /** A walk that finds no acceptable parent is on no chain. */
  lemma OrphanHasNoChain(nodes: seq<Option<Node>>, t: seq<int>, last: int)
    requires IdsDistinct(nodes) && Trail(nodes, t) && t[|t| - 1] == last
    requires nodes[last].value.parent != 0 && !exists p :: ParentOf(nodes, last, p)
    ensures !exists c :: ChainFrom(nodes, t[0], c)
  {
    if c :| ChainFrom(nodes, t[0], c) {
      TrailBeginsChain(nodes, t, c, |t| - 1);
      ChainLive(nodes, c, |t| - 1);
      assert false;
    }
  }

  /** Climb from one node to its root, refusing cycles and unacceptable parents; returns the path string. */
  method Walk(nodes: seq<Option<Node>>, live: map<nat, nat>, start: nat) returns (path: Option<seq<Byte>>)
    requires Indexes(live, nodes) && IdsDistinct(nodes) && Live(nodes, start)
    ensures path.Some? <==> exists c :: ChainFrom(nodes, start, c)
    ensures forall c :: path.Some? && ChainFrom(nodes, start, c) ==> path.value == PathOf(nodes, c)
  {
    var names: seq<seq<Byte>>, cursor, seen: set<nat> := [], start, {};
    ghost var t: seq<int> := [start];
    while nodes[cursor].value.parent != 0
      invariant Trail(nodes, t) && t[0] == start && t[|t| - 1] == cursor
      invariant names == NamesOf(nodes, t[..|t| - 1])
      invariant forall id :: id in seen ==> exists m :: 0 <= m < |t| - 1 && nodes[t[m]].value.id == id
      invariant seen <= live.Keys
      decreases live.Keys - seen
    {
      var n := nodes[cursor].value;
      if n.id in seen {
        ghost var m :| 0 <= m < |t| - 1 && nodes[t[m]].value.id == n.id;
        CycleHasNoChain(nodes, t, m);
        return None;
      }
      seen := seen + {n.id};
      if n.parent !in live
        || nodes[live[n.parent]].value.kind != Directory
        || nodes[live[n.parent]].value.space != n.space {
        OrphanHasNoChain(nodes, t, cursor);
        return None;
      }
      names := names + [n.name];
      cursor := live[n.parent];
      ghost var longer := t + [cursor as int];
      assert longer[..|longer| - 1] == t;
      assert t[..|t| - 1] + [t[|t| - 1]] == t;
      t := longer;
    }
    names := names + [nodes[cursor].value.name];
    TrailIsChain(nodes, t);
    assert t[..|t| - 1] + [t[|t| - 1]] == t;
    assert names == NamesOf(nodes, t);
    assert ChainFrom(nodes, start, t);
    forall c | ChainFrom(nodes, start, c) ensures c == t {
      ChainUnique(nodes, c, t);
    }
    path := Some(Slashed(names));
  }

  // ---- Namespace --------------------------------------------------------------

  ghost predicate NodeScanned(g: Generation, i: int)
  {
    Live(g.nodes, i) ==>
      && g.nodes[i].value.id < g.next && g.nodes[i].value.version <= g.sequence
      && (g.nodes[i].value.parent == 0 ==> RootShape(g.nodes[i].value))
  }

  ghost predicate Clash(nodes: seq<Option<Node>>, i: int, j: int)
  {
    Live(nodes, i) && Live(nodes, j)
    && (nodes[i].value.id == nodes[j].value.id || SameSibling(nodes[i].value, nodes[j].value))
  }

  /** The first pass over the table has accepted every node before `n`. */
  ghost predicate Scanned(g: Generation, n: int)
  {
    && (forall i :: i < n ==> NodeScanned(g, i))
    && (forall i, j :: i < n && j < n && Clash(g.nodes, i, j) ==> i == j)
  }

  ghost function SiblingKey(n: Node): (nat, seq<Byte>) { (n.parent as nat, n.name) }

  ghost predicate Sibling(nodes: seq<Option<Node>>, i: int, p: (nat, seq<Byte>))
  {
    Live(nodes, i) && SiblingKey(nodes[i].value) == p
  }

  /** `live` and `siblings` describe the nodes before `n`. */
  ghost predicate Collected(nodes: seq<Option<Node>>, n: int, live: map<nat, nat>, siblings: set<(nat, seq<Byte>)>)
  {
    && (forall id :: id in live ==> live[id] < n && Live(nodes, live[id]) && nodes[live[id]].value.id == id)
    && (forall i :: i < n && Live(nodes, i) ==> nodes[i].value.id in live && live[nodes[i].value.id] == i)
    && (forall p :: p in siblings <==> exists i :: i < n && Sibling(nodes, i, p))
  }

  lemma CollectedStep(nodes: seq<Option<Node>>, n: nat, live: map<nat, nat>, siblings: set<(nat, seq<Byte>)>)
    requires Collected(nodes, n, live, siblings) && Live(nodes, n) && nodes[n].value.id !in live
    ensures Collected(nodes, n + 1, live[nodes[n].value.id := n], siblings + {SiblingKey(nodes[n].value)})
  {
    forall p ensures p in siblings + {SiblingKey(nodes[n].value)} <==> exists i :: i < n + 1 && Sibling(nodes, i, p) {
      if p == SiblingKey(nodes[n].value) {
        assert Sibling(nodes, n, p);
      }
      if p in siblings {
        var i :| i < n && Sibling(nodes, i, p);
        assert i < n + 1 && Sibling(nodes, i, p);
      }
    }
  }

  /** A node whose identity and place are new extends the accepted prefix. */
  lemma ScannedStep(g: Generation, n: nat, live: map<nat, nat>, siblings: set<(nat, seq<Byte>)>)
    requires Scanned(g, n) && Collected(g.nodes, n, live, siblings) && Live(g.nodes, n) && NodeScanned(g, n)
    requires g.nodes[n].value.id !in live && SiblingKey(g.nodes[n].value) !in siblings
    ensures Scanned(g, n + 1)
  {
    forall i | i < n ensures !Clash(g.nodes, i, n) && !Clash(g.nodes, n, i) {
      if Live(g.nodes, i) {
        assert Sibling(g.nodes, i, SiblingKey(g.nodes[i].value));
      }
    }
  }

  lemma SiblingTaken(nodes: seq<Option<Node>>, n: nat, live: map<nat, nat>, siblings: set<(nat, seq<Byte>)>)
    requires Collected(nodes, n, live, siblings) && Live(nodes, n) && SiblingKey(nodes[n].value) in siblings
    ensures !SiblingsDistinct(nodes)
  {
    var i: int :| i < n && Sibling(nodes, i, SiblingKey(nodes[n].value));
    assert Live(nodes, i) && SameSibling(nodes[i].value, nodes[n].value);
  }

  /** The first pass: watermarks, unique identities, unique siblings and the shape of parentless nodes. */
  method ScanNodes(g: Generation) returns (ok: bool, live: map<nat, nat>)
    requires Decoded(g)
    ensures ok ==> Scanned(g, |g.nodes|) && Indexes(live, g.nodes)
    ensures !ok ==> !NamespaceOk(g)
  {
    live := map[];
    var siblings: set<(nat, seq<Byte>)> := {};
    for index := 0 to |g.nodes|
      invariant Scanned(g, index) && Collected(g.nodes, index, live, siblings)
    {
      if g.nodes[index].None? {
        assert Collected(g.nodes, index + 1, live, siblings) && Scanned(g, index + 1);
        continue;
      }
      var n := g.nodes[index].value;
      assert Live(g.nodes, index);
      if n.id >= g.next || n.version > g.sequence {
        return false, live;
      }
      if n.id in live {
        return false, live;
      }
      if (n.parent as nat, n.name) in siblings {
        SiblingTaken(g.nodes, index, live, siblings);
        return false, live;
      }
      if n.parent == 0 && !RootShape(n) {
        return false, live;
      }
      ScannedStep(g, index, live, siblings);
      CollectedStep(g.nodes, index, live, siblings);
      live := live[n.id := index];
      siblings := siblings + {(n.parent as nat, n.name)};
    }
    ok := true;
  }

  lemma ScannedMeans(g: Generation)
    requires Scanned(g, |g.nodes|)
    ensures IdsDistinct(g.nodes) && SiblingsDistinct(g.nodes)
    ensures forall i :: Live(g.nodes, i) ==>
      g.nodes[i].value.id < g.next && g.nodes[i].value.version <= g.sequence
      && (g.nodes[i].value.parent == 0 ==> RootShape(g.nodes[i].value))
  {
    forall i, j | Live(g.nodes, i) && Live(g.nodes, j)
      ensures g.nodes[i].value.id == g.nodes[j].value.id || SameSibling(g.nodes[i].value, g.nodes[j].value) ==> i == j
    {
      assert Clash(g.nodes, i, j) ==> i == j;
    }
    forall i | Live(g.nodes, i) ensures NodeScanned(g, i) {
    }
  }

  /** Whether all four named roots are present. */
  method RootsPresent(nodes: seq<Option<Node>>, live: map<nat, nat>) returns (ok: bool)
    requires Indexes(live, nodes)
    ensures ok <==> forall id :: 1 <= id <= 4 ==> RootPresent(nodes, id)
  {
    for id := 1 to 5
      invariant forall k :: 1 <= k < id ==> RootPresent(nodes, k)
    {
      if id !in live || nodes[live[id]].value.parent != 0 {
        assert !RootPresent(nodes, id) by {
          assert forall i :: !IsRoot(nodes, i, id);
        }
        return false;
      }
      assert IsRoot(nodes, live[id], id);
    }
    ok := true;
  }

  /** Every live node's path string, keyed by identity. */
  ghost predicate PathsOf(nodes: seq<Option<Node>>, n: int, paths: map<nat, seq<Byte>>)
  {
    && (forall i :: i < n && Live(nodes, i) ==> nodes[i].value.id in paths)
    && (forall i, c :: i < n && Live(nodes, i) && ChainFrom(nodes, i, c) ==> paths[nodes[i].value.id] == PathOf(nodes, c))
  }

  method ClimbAll(nodes: seq<Option<Node>>, live: map<nat, nat>) returns (ok: bool, paths: map<nat, seq<Byte>>)
    requires Indexes(live, nodes) && IdsDistinct(nodes)
    ensures ok <==> Rooted(nodes)
    ensures ok ==> PathsOf(nodes, |nodes|, paths)
  {
    paths := map[];
    for index := 0 to |nodes|
      invariant forall i :: i < index && Live(nodes, i) ==> exists c :: ChainFrom(nodes, i, c)
      invariant PathsOf(nodes, index, paths)
    {
      if nodes[index].None? {
        continue;
      }
      assert Live(nodes, index);
      var path := Walk(nodes, live, index);
      if path.None? {
        return false, paths;
      }
      paths := paths[nodes[index].value.id := path.value];
    }
    ok := true;
  }

  /** The namespace check: accepts exactly the tables that pass every namespace rule. */
  method CheckNamespace(g: Generation) returns (ok: bool, live: map<nat, nat>, paths: map<nat, seq<Byte>>)
    requires Decoded(g)
    ensures ok <==> NamespaceOk(g)
    ensures ok ==> Indexes(live, g.nodes) && PathsOf(g.nodes, |g.nodes|, paths)
  {
    paths := map[];
    ok, live := ScanNodes(g);
    if !ok {
      return;
    }
    ScannedMeans(g);
    ok := RootsPresent(g.nodes, live);
    if !ok {
      return;
    }
    ok, paths := ClimbAll(g.nodes, live);
  }

  // ---- Retained records -------------------------------------------------------

  /** A record the reader has accepted, with the slot it came from. */
  datatype Kept = Kept(slot: nat, record: Record, aliases: bool)

  ghost predicate KeptOk(g: Generation, kept: seq<Kept>, n: int)
  {
    && (forall d :: 0 <= d < |kept| ==>
          && kept[d].slot < n && Held(g.records, kept[d].slot)
          && g.records[kept[d].slot].value == kept[d].record
          && (kept[d].aliases <==> Aliases(g.nodes, kept[d].record)))
    && (forall j :: 0 <= j < n && Held(g.records, j) ==> exists d :: 0 <= d < |kept| && kept[d].slot == j)
    && (forall d, e :: 0 <= d < e < |kept| ==> kept[d].slot < kept[e].slot)
  }

  /** Everything checked about the records in slots before `n`. */
  ghost predicate Reviewed(g: Generation, n: int)
  {
    && (forall j :: j < n && Held(g.records, j) ==> RecordInBounds(g, g.records[j].value))
    && (forall j, i :: j < n && Held(g.records, j) && Live(g.nodes, i) && g.nodes[i].value.id == g.records[j].value.objectId ==>
          TargetOk(g.records[j].value, g.nodes[i].value))
    && (forall j, k :: j < n && k < n && Held(g.records, j) && Held(g.records, k) && j != k ==>
          PairOk(g.records[j].value, g.records[k].value))
  }

  /** Compare one record with every record accepted before it. */
  method ComparePriors(g: Generation, kept: seq<Kept>, slot: nat) returns (ok: bool)
    requires Decoded(g) && KeptOk(g, kept, slot) && Held(g.records, slot)
    ensures ok <==> forall j :: 0 <= j < slot && Held(g.records, j) ==> PairOk(g.records[j].value, g.records[slot].value)
  {
    var r := g.records[slot].value;
    for d := 0 to |kept|
      invariant forall e :: 0 <= e < d ==> PairOk(kept[e].record, r)
    {
      if !PairOk(kept[d].record, r) {
        assert Held(g.records, kept[d].slot);
        return false;
      }
    }
    ok := true;
  }

  lemma AliasFound(g: Generation, live: map<nat, nat>, r: Record)
    requires Indexes(live, g.nodes)
    ensures Aliases(g.nodes, r) <==> r.objectId in live && AliasesAt(g.nodes, live[r.objectId], r)
  {
    if r.objectId in live && AliasesAt(g.nodes, live[r.objectId], r) {
      assert Aliases(g.nodes, r);
    }
  }

  lemma KeptStep(g: Generation, kept: seq<Kept>, slot: nat, next: Kept)
    requires KeptOk(g, kept, slot) && Held(g.records, slot)
    requires next.slot == slot && next.record == g.records[slot].value
    requires next.aliases <==> Aliases(g.nodes, next.record)
    ensures KeptOk(g, kept + [next], slot + 1)
  {
    var longer := kept + [next];
    assert forall d :: 0 <= d < |kept| ==> longer[d] == kept[d];
    assert longer[|kept|] == next;
    forall j | 0 <= j < slot + 1 && Held(g.records, j) ensures exists d :: 0 <= d < |longer| && longer[d].slot == j {
      if j < slot {
        var d :| 0 <= d < |kept| && kept[d].slot == j;
        assert longer[d].slot == j;
      }
    }
  }

  /** A record within bounds, fitting its live target and every earlier record, extends the reviewed prefix. */
  lemma ReviewedStep(g: Generation, slot: nat)
    requires Reviewed(g, slot) && Held(g.records, slot)
    requires RecordInBounds(g, g.records[slot].value)
    requires forall i :: Live(g.nodes, i) && g.nodes[i].value.id == g.records[slot].value.objectId ==>
      TargetOk(g.records[slot].value, g.nodes[i].value)
    requires forall j :: 0 <= j < slot && Held(g.records, j) ==> PairOk(g.records[j].value, g.records[slot].value)
    ensures Reviewed(g, slot + 1)
  {
    forall j | 0 <= j < slot && Held(g.records, j) ensures PairOk(g.records[slot].value, g.records[j].value) {
      assert RecordOk(g.records[j].value);
      PairSymmetric(g.records[j].value, g.records[slot].value);
    }
  }

  /** Check one record against the header, its live target and every earlier record; keep it. */
  method CheckRecord(g: Generation, live: map<nat, nat>, kept: seq<Kept>, slot: nat) returns (next: Option<Kept>)
    requires Decoded(g) && Indexes(live, g.nodes) && Held(g.records, slot)
    requires Reviewed(g, slot) && KeptOk(g, kept, slot)
    ensures next.None? ==> !RecordsOk(g)
    ensures next.Some? ==> Reviewed(g, slot + 1) && KeptOk(g, kept + [next.value], slot + 1)
  {
    var r := g.records[slot].value;
    assert RecordOk(r);
    if !RecordInBounds(g, r) {
      return None;
    }
    if r.objectId in live && !TargetOk(r, g.nodes[live[r.objectId]].value) {
      return None;
    }
    var fits := ComparePriors(g, kept, slot);
    if !fits {
      return None;
    }
    ReviewedStep(g, slot);
    AliasFound(g, live, r);
    next := Some(Kept(slot, r, r.objectId in live && AliasesAt(g.nodes, live[r.objectId], r)));
    KeptStep(g, kept, slot, next.value);
  }

  /** The record check: accepts exactly the tables that pass every record rule. */
  method CheckRecords(g: Generation, live: map<nat, nat>) returns (ok: bool, kept: seq<Kept>)
    requires Decoded(g) && Indexes(live, g.nodes)
    ensures ok <==> RecordsOk(g)
    ensures ok ==> KeptOk(g, kept, |g.records|)
  {
    kept := [];
    for slot := 0 to |g.records|
      invariant Reviewed(g, slot) && KeptOk(g, kept, slot)
    {
      if g.records[slot].None? {
        continue;
      }
      var next := CheckRecord(g, live, kept, slot);
      if next.None? {
        return false, kept;
      }
      kept := kept + [next.value];
    }
    ok := true;
  }

  // ---- Ownership --------------------------------------------------------------

  /** Add every sector of `runs` to the claimed set; refuse one that is already owned. */
  method Claim(before: set<nat>, runs: seq<Run>) returns (ok: bool, claimed: set<nat>)
    requires RunsApart(runs)
    ensures ok <==> forall s: nat :: Covers(runs, s) ==> s !in before
    ensures ok ==> forall s: nat :: s in claimed <==> s in before || Covers(runs, s)
  {
    claimed := before;
    for k := 0 to |runs|
      invariant forall s: nat :: s in claimed <==> s in before || Covers(runs[..k], s)
      invariant forall s: nat :: Covers(runs[..k], s) ==> s !in before
    {
      var run := runs[k];
      for sector := run.start to run.start + run.count
        invariant forall s: nat :: s in claimed <==>
          s in before || Covers(runs[..k], s) || run.start <= s < sector
        invariant forall s: nat :: run.start <= s < sector ==> s !in before
      {
        if sector in claimed {
          assert InRun(runs[k], sector) && Covers(runs, sector);
          assert !Covers(runs[..k], sector) by {
            assert forall i :: 0 <= i < k ==> !Overlap(runs[i], runs[k]) && runs[..k][i] == runs[i];
          }
          return false, claimed;
        }
        claimed := claimed + {sector};
      }
      CoversSnoc(runs, k);
    }
    assert runs[..|runs|] == runs;
    ok := true;
  }

  lemma CoversSnoc(runs: seq<Run>, k: nat)
    requires k < |runs|
    ensures forall s: nat :: Covers(runs[..k + 1], s) <==> Covers(runs[..k], s) || InRun(runs[k], s)
  {
    forall s: nat ensures Covers(runs[..k + 1], s) <==> Covers(runs[..k], s) || InRun(runs[k], s) {
      assert forall i :: 0 <= i < k ==> runs[..k + 1][i] == runs[..k][i];
      if Covers(runs[..k], s) {
        var i :| 0 <= i < k && InRun(runs[..k][i], s);
        assert InRun(runs[..k + 1][i], s);
      }
      if InRun(runs[k], s) {
        assert InRun(runs[..k + 1][k], s);
      }
    }
  }

  /** `claimed` is what the files before slot `n` own, and no two of them share a sector. */
  ghost predicate FilesClaimed(nodes: seq<Option<Node>>, n: int, claimed: set<nat>)
  {
    && (forall s: nat :: s in claimed <==> exists i :: i < n && FileOwns(nodes, i, s))
    && (forall s: nat, i, k :: i < n && k < n && FileOwns(nodes, i, s) && FileOwns(nodes, k, s) ==> i == k)
  }

  method ClaimFiles(nodes: seq<Option<Node>>) returns (ok: bool, claimed: set<nat>)
    requires forall i :: Live(nodes, i) ==> NodeOk(nodes[i].value)
    ensures ok ==> FilesClaimed(nodes, |nodes|, claimed)
    ensures !ok ==> exists s: nat, i, k :: i != k && FileOwns(nodes, i, s) && FileOwns(nodes, k, s)
  {
    claimed := {};
    for index := 0 to |nodes|
      invariant FilesClaimed(nodes, index, claimed)
    {
      if nodes[index].None? || nodes[index].value.kind != File {
        assert forall s: nat :: !FileOwns(nodes, index, s);
        continue;
      }
      assert Live(nodes, index) && NodeOk(nodes[index].value);
      var fits, more := Claim(claimed, nodes[index].value.runs);
      if !fits {
        ghost var s: nat :| Covers(nodes[index].value.runs, s) && s in claimed;
        ghost var i :| i < index && FileOwns(nodes, i, s);
        assert FileOwns(nodes, index, s) && i != index;
        return false, claimed;
      }
      FilesClaimedStep(nodes, index, claimed, more);
      claimed := more;
    }
    ok := true;
  }

  lemma FilesClaimedStep(nodes: seq<Option<Node>>, n: nat, claimed: set<nat>, more: set<nat>)
    requires FilesClaimed(nodes, n, claimed) && Live(nodes, n) && nodes[n].value.kind == File
    requires forall s: nat :: FileOwns(nodes, n, s) ==> s !in claimed
    requires forall s: nat :: s in more <==> s in claimed || Covers(nodes[n].value.runs, s)
    ensures FilesClaimed(nodes, n + 1, more)
  {
    forall s: nat ensures s in more <==> exists i :: i < n + 1 && FileOwns(nodes, i, s) {
      if s in claimed {
        var i :| i < n && FileOwns(nodes, i, s);
        assert i < n + 1 && FileOwns(nodes, i, s);
      }
      if Covers(nodes[n].value.runs, s) {
        assert FileOwns(nodes, n, s);
      }
    }
  }

  ghost predicate KeptOwns(kept: seq<Kept>, d: int, s: nat)
  {
    0 <= d < |kept| && !kept[d].aliases && Covers(kept[d].record.runs, s)
  }

  /** `claimed` is what all files and the first `n` kept snapshots own, all of them apart. */
  ghost predicate SnapshotsClaimed(nodes: seq<Option<Node>>, kept: seq<Kept>, n: int, claimed: set<nat>)
  {
    && (forall s: nat :: s in claimed <==>
          (exists i :: FileOwns(nodes, i, s)) || (exists d :: d < n && KeptOwns(kept, d, s)))
    && (forall s: nat, i, d :: d < n && FileOwns(nodes, i, s) ==> !KeptOwns(kept, d, s))
    && (forall s: nat, d, e :: d < n && e < n && KeptOwns(kept, d, s) && KeptOwns(kept, e, s) ==> d == e)
  }

  lemma SnapshotsClaimedStep(nodes: seq<Option<Node>>, kept: seq<Kept>, n: nat, claimed: set<nat>, more: set<nat>)
    requires n < |kept| && SnapshotsClaimed(nodes, kept, n, claimed)
    requires forall s: nat :: KeptOwns(kept, n, s) ==> s !in claimed
    requires forall s: nat :: s in more <==> s in claimed || KeptOwns(kept, n, s)
    ensures SnapshotsClaimed(nodes, kept, n + 1, more)
  {
    forall s: nat
      ensures s in more <==> (exists i :: FileOwns(nodes, i, s)) || (exists d :: d < n + 1 && KeptOwns(kept, d, s))
    {
      if d :| d < n && KeptOwns(kept, d, s) {
        assert d < n + 1 && KeptOwns(kept, d, s);
      }
      if KeptOwns(kept, n, s) {
        assert n < n + 1 && KeptOwns(kept, n, s);
      }
    }
  }

  /** A sector two owners want shows the generation breaks ownership. */
  lemma SharedSector(g: Generation, kept: seq<Kept>, n: nat, claimed: set<nat>, s: nat)
    requires KeptOk(g, kept, |g.records|) && SnapshotsClaimed(g.nodes, kept, n, claimed) && n < |kept|
    requires KeptOwns(kept, n, s) && s in claimed
    ensures !OwnersApart(g.nodes, g.records)
  {
    assert SnapshotOwns(g.nodes, g.records, kept[n].slot, s);
    if i :| FileOwns(g.nodes, i, s) {
    } else {
      var d :| d < n && KeptOwns(kept, d, s);
      assert SnapshotOwns(g.nodes, g.records, kept[d].slot, s);
    }
  }

  lemma ClaimedMeans(g: Generation, kept: seq<Kept>, claimed: set<nat>)
    requires KeptOk(g, kept, |g.records|) && SnapshotsClaimed(g.nodes, kept, |kept|, claimed)
    requires forall s: nat, i, k :: FileOwns(g.nodes, i, s) && FileOwns(g.nodes, k, s) ==> i == k
    ensures OwnersApart(g.nodes, g.records)
    ensures forall s: nat :: s in claimed <==> Owned(g.nodes, g.records, s)
  {
    forall j, s: nat | SnapshotOwns(g.nodes, g.records, j, s)
      ensures exists d :: KeptOwns(kept, d, s) && kept[d].slot == j
    {
      var d :| 0 <= d < |kept| && kept[d].slot == j;
      assert KeptOwns(kept, d, s);
    }
    forall d, s: nat | KeptOwns(kept, d, s) ensures SnapshotOwns(g.nodes, g.records, kept[d].slot, s) {
    }
  }

  /** Claim the sectors of a snapshot that is nobody's live version. */
  method ClaimSnapshot(g: Generation, kept: seq<Kept>, d: nat, before: set<nat>) returns (ok: bool, claimed: set<nat>)
    requires RecordsOk(g) && KeptOk(g, kept, |g.records|) && d < |kept| && !kept[d].aliases
    requires SnapshotsClaimed(g.nodes, kept, d, before)
    ensures ok ==> SnapshotsClaimed(g.nodes, kept, d + 1, claimed)
    ensures !ok ==> !OwnersApart(g.nodes, g.records)
  {
    var r := kept[d].record;
    assert Held(g.records, kept[d].slot) && RecordInBounds(g, r);
    ok, claimed := Claim(before, r.runs);
    if ok {
      SnapshotsClaimedStep(g.nodes, kept, d, before, claimed);
    } else {
      ghost var s: nat :| Covers(r.runs, s) && s in before;
      SharedSector(g, kept, d, before, s);
    }
  }

  ghost predicate EmptyKeptOk(kept: seq<Kept>, n: nat)
    requires n <= |kept|
  {
    forall e :: 0 <= e < n && kept[e].record.length == 0 ==> kept[e].record.crc == 0
  }

  /** No record from `n` on aliases a file that an earlier one aliases. */
  ghost predicate AliasesFresh(kept: seq<Kept>, n: nat, aliased: set<nat>)
  {
    forall e :: n <= e < |kept| && kept[e].aliases ==> kept[e].record.objectId !in aliased
  }

  lemma AliasStep(g: Generation, kept: seq<Kept>, d: nat, claimed: set<nat>, aliased: set<nat>)
    requires RecordsOk(g) && IdsDistinct(g.nodes) && KeptOk(g, kept, |g.records|)
    requires d < |kept| && kept[d].aliases
    requires SnapshotsClaimed(g.nodes, kept, d, claimed) && AliasesFresh(kept, d, aliased)
    ensures kept[d].record.objectId !in aliased
    ensures SnapshotsClaimed(g.nodes, kept, d + 1, claimed)
    ensures AliasesFresh(kept, d + 1, aliased + {kept[d].record.objectId})
  {
    OtherAliases(g, kept, d);
    SnapshotsClaimedStep(g.nodes, kept, d, claimed, claimed);
  }

  lemma EmptyKeptBad(g: Generation, kept: seq<Kept>, d: nat)
    requires KeptOk(g, kept, |g.records|) && d < |kept| && kept[d].record.length == 0 && kept[d].record.crc != 0
    ensures !OwnershipOk(g)
  {
    assert Held(g.records, kept[d].slot);
  }

  lemma AllClaimed(g: Generation, kept: seq<Kept>, claimed: set<nat>)
    requires KeptOk(g, kept, |g.records|) && SnapshotsClaimed(g.nodes, kept, |kept|, claimed)
    requires forall s: nat, i, k :: FileOwns(g.nodes, i, s) && FileOwns(g.nodes, k, s) ==> i == k
    requires EmptyKeptOk(kept, |kept|)
    ensures OwnershipOk(g) <==> g.used == claimed
  {
    ClaimedMeans(g, kept, claimed);
    EmptyMeans(g, kept);
  }

  /** The ownership check; its test for a second alias of one live file can never fire. */
  method CheckOwnership(g: Generation, kept: seq<Kept>) returns (ok: bool, claimed: set<nat>)
    requires Decoded(g) && RecordsOk(g) && IdsDistinct(g.nodes) && KeptOk(g, kept, |g.records|)
    ensures ok <==> OwnershipOk(g)
    ensures ok ==> claimed == g.used
  {
    ok, claimed := ClaimFiles(g.nodes);
    if !ok {
      return;
    }
    ClaimStarts(g.nodes, kept, claimed);
    ok, claimed := ClaimSnapshots(g, kept, claimed);
    if !ok {
      return;
    }
    AllClaimed(g, kept, claimed);
    ok := g.used <= claimed && claimed <= g.used;
  }

  lemma ClaimStarts(nodes: seq<Option<Node>>, kept: seq<Kept>, claimed: set<nat>)
    requires FilesClaimed(nodes, |nodes|, claimed)
    ensures SnapshotsClaimed(nodes, kept, 0, claimed)
    ensures forall s: nat, i, k :: FileOwns(nodes, i, s) && FileOwns(nodes, k, s) ==> i == k
  {
  }

  /** Claim the sectors of every snapshot that is nobody's live version. */
  method ClaimSnapshots(g: Generation, kept: seq<Kept>, before: set<nat>) returns (ok: bool, claimed: set<nat>)
    requires RecordsOk(g) && IdsDistinct(g.nodes) && KeptOk(g, kept, |g.records|)
    requires SnapshotsClaimed(g.nodes, kept, 0, before)
    ensures ok ==> SnapshotsClaimed(g.nodes, kept, |kept|, claimed) && EmptyKeptOk(kept, |kept|)
    ensures !ok ==> !OwnershipOk(g)
  {
    claimed := before;
    var aliased: set<nat> := {};
    for d := 0 to |kept|
      invariant SnapshotsClaimed(g.nodes, kept, d, claimed)
      invariant EmptyKeptOk(kept, d) && AliasesFresh(kept, d, aliased)
    {
      var r := kept[d].record;
      if r.length == 0 && r.crc != 0 {
        EmptyKeptBad(g, kept, d);
        return false, claimed;
      }
      if kept[d].aliases {
        AliasStep(g, kept, d, claimed, aliased);
        if r.objectId in aliased {
          assert false;
        }
        aliased := aliased + {r.objectId};
      } else {
        ok, claimed := ClaimSnapshot(g, kept, d, claimed);
        if !ok {
          return;
        }
      }
    }
    ok := true;
  }

  lemma EmptyMeans(g: Generation, kept: seq<Kept>)
    requires KeptOk(g, kept, |g.records|) && EmptyKeptOk(kept, |kept|)
    ensures EmptySnapshotsOk(g.records)
  {
    forall j | Held(g.records, j) && g.records[j].value.length == 0 ensures g.records[j].value.crc == 0 {
      var d :| 0 <= d < |kept| && kept[d].slot == j;
    }
  }

  /** Two records cannot both be the current version of one file. */
  lemma TwoAliases(g: Generation, kept: seq<Kept>, d: nat, e: nat)
    requires RecordsOk(g) && IdsDistinct(g.nodes) && KeptOk(g, kept, |g.records|)
    requires d < |kept| && e < |kept| && kept[d].aliases && kept[e].aliases
    ensures kept[d].record.objectId == kept[e].record.objectId ==> d == e
  {
    var i :| 0 <= i < |g.nodes| && AliasesAt(g.nodes, i, kept[d].record);
    var k :| 0 <= k < |g.nodes| && AliasesAt(g.nodes, k, kept[e].record);
    assert RecordInBounds(g, kept[d].record) && RecordInBounds(g, kept[e].record);
    if kept[d].record.objectId == kept[e].record.objectId {
      AliasUnique(g, i, kept[d].slot, kept[e].slot);
    }
  }

  lemma OtherAliases(g: Generation, kept: seq<Kept>, d: nat)
    requires RecordsOk(g) && IdsDistinct(g.nodes) && KeptOk(g, kept, |g.records|)
    requires d < |kept| && kept[d].aliases
    ensures forall e :: d < e < |kept| && kept[e].aliases ==> kept[e].record.objectId != kept[d].record.objectId
  {
    forall e | 0 <= e < |kept| && kept[e].aliases ensures kept[e].record.objectId == kept[d].record.objectId ==> e == d {
      TwoAliases(g, kept, d, e);
    }
  }
}
