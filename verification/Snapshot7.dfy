/** Reading a whole image: every check of the independent reader in order, and the files it reports. */
module Snapshot7 {
  import opened Bytes
  import opened Format7
  import opened Generation7
  import opened Payload7
  import opened Volume7
  import opened Image7
  import opened Namespace7
  import opened Reader7

  // ---- One payload ------------------------------------------------------------

  lemma {:induction false} JoinConcat(a: seq<seq<Byte>>, b: seq<seq<Byte>>)
    ensures Join(a + b) == Join(a) + Join(b)
  {
    if a == [] {
      assert a + b == b;
    } else {
      var head, mid, tail := a[0], Join(a[1..]), Join(b);
      assert (a + b)[1..] == a[1..] + b && (a + b)[0] == head;
      JoinConcat(a[1..], b);
      assert head + (mid + tail) == (head + mid) + tail;
    }
  }

  /** A run's bytes are the next pieces of the gathered payload. */
  lemma RunBytes(img: Image, runs: seq<Run>, k: nat)
    requires |img| == VOLUME_SECTORS && RunsInside(runs, DATA_SECTORS) && k < |runs|
    ensures forall j :: 0 <= j <= |runs| ==> RunsInside(runs[..j], DATA_SECTORS)
    ensures forall j, i :: 0 <= j <= |runs| && 0 <= i < |SectorList(runs[..j])| ==> SectorList(runs[..j])[i] < DATA_SECTORS
    ensures var first := PAYLOAD_SECTOR + runs[k].start;
      first + runs[k].count <= |img|
      && Join(Gather(PayloadRegion(img), SectorList(runs[..k + 1])))
         == Join(Gather(PayloadRegion(img), SectorList(runs[..k]))) + Region(img, first, runs[k].count)
  {
    forall j | 0 <= j <= |runs|
      ensures RunsInside(runs[..j], DATA_SECTORS)
      ensures forall i :: 0 <= i < |SectorList(runs[..j])| ==> SectorList(runs[..j])[i] < DATA_SECTORS
    {
      SectorListInside(runs[..j], DATA_SECTORS);
    }
    var blocks, first := PayloadRegion(img), PAYLOAD_SECTOR + runs[k].start;
    SectorListSnoc(runs, k);
    var before, more := Gather(blocks, SectorList(runs[..k])), img[first..first + runs[k].count];
    assert Gather(blocks, SectorList(runs[..k + 1])) == before + more;
    JoinConcat(before, more);
  }

  /** Collect the bytes of some runs, cut them to length and compare their checksum. */
  method ReadPayload(crc: Checksum, img: Image, runs: seq<Run>, length: nat, expected: U32)
    returns (r: Option<seq<Byte>>)
    requires |img| == VOLUME_SECTORS && RunsOk(runs, length)
    ensures r.Some? <==> crc(Content(PayloadRegion(img), runs, length)) == expected
    ensures r.Some? ==> r.value == Content(PayloadRegion(img), runs, length)
  {
    var out: seq<Byte> := [];
    assert runs[..0] == [];
    SectorListInside(runs[..0], DATA_SECTORS);
    for k := 0 to |runs|
      invariant forall i :: 0 <= i < |SectorList(runs[..k])| ==> SectorList(runs[..k])[i] < DATA_SECTORS
      invariant out == Join(Gather(PayloadRegion(img), SectorList(runs[..k])))
    {
      RunBytes(img, runs, k);
      var first := PAYLOAD_SECTOR + runs[k].start;
      out := out + Region(img, first, runs[k].count);
    }
    assert runs[..|runs|] == runs;
    JoinLength(Gather(PayloadRegion(img), SectorList(runs)), SECTOR);
    RoomForLength(length);
    out := out[..length];
    if crc(out) != expected {
      return None;
    }
    return Some(out);
  }

  // ---- Every file and every retained snapshot ---------------------------------

  predicate IsFile(nodes: seq<Option<Node>>, i: int)
  {
    Live(nodes, i) && nodes[i].value.kind == File
  }

  /** `contents` holds the bytes of exactly the files before slot `n`, each under its own path. */
  ghost predicate ContentsOf(g: Generation, blocks: seq<Sector>, paths: map<nat, seq<Byte>>, n: int,
                             contents: map<seq<Byte>, seq<Byte>>)
    requires |blocks| == DATA_SECTORS && NodesBounded(g)
  {
    && (forall i :: i < n && IsFile(g.nodes, i) ==>
          FileListed(g.nodes[i].value, blocks, paths, contents))
    && (forall p :: p in contents ==> exists i :: i < n && HasPath(g.nodes, i, paths, p))
  }

  ghost predicate FileListed(f: Node, blocks: seq<Sector>, paths: map<nat, seq<Byte>>, contents: map<seq<Byte>, seq<Byte>>)
    requires |blocks| == DATA_SECTORS && NodeOk(f)
  {
    && f.id in paths && paths[f.id] in contents
    && contents[paths[f.id]] == Content(blocks, f.runs, f.length)
  }

  ghost predicate HasPath(nodes: seq<Option<Node>>, i: int, paths: map<nat, seq<Byte>>, p: seq<Byte>)
  {
    IsFile(nodes, i) && nodes[i].value.id in paths && paths[nodes[i].value.id] == p
  }

  /** No two nodes were given the same path string. */
  lemma PathsApart(g: Generation, paths: map<nat, seq<Byte>>, i: int, j: int)
    requires NamespaceOk(g) && PathsOf(g.nodes, |g.nodes|, paths) && Live(g.nodes, i) && Live(g.nodes, j)
    requires paths[g.nodes[i].value.id] == paths[g.nodes[j].value.id]
    ensures i == j
  {
    var c :| ChainFrom(g.nodes, i, c);
    var d :| ChainFrom(g.nodes, j, d);
    PathsDistinct(g, c, d);
  }

  /** The identities of a table in ascending order. */
  ghost predicate Ascending(ids: seq<nat>)
  {
    forall a, b :: 0 <= a < b < |ids| ==> ids[a] < ids[b]
  }

  lemma {:induction false} HasLeast(s: set<nat>) returns (least: nat)
    requires s != {}
    ensures least in s && forall x :: x in s ==> least <= x
  {
    var x :| x in s;
    var rest := s - {x};
    assert forall y :: y in s ==> y == x || y in rest;
    least := x;
    if rest != {} {
      var other := HasLeast(rest);
      least := if other < x then other else x;
    }
  }

  method SortIds(live: map<nat, nat>) returns (ids: seq<nat>)
    ensures Ascending(ids) && forall x :: x in ids <==> x in live
  {
    var left := live.Keys;
    ids := [];
    while left != {}
      invariant left <= live.Keys && Ascending(ids)
      invariant forall x :: x in ids <==> x in live && x !in left
      invariant forall a, y :: 0 <= a < |ids| && y in left ==> ids[a] < y
      decreases |left|
    {
      ghost var first := HasLeast(left);
      var least :| least in left && forall x :: x in left ==> least <= x;
      ids, left := ids + [least], left - {least};
    }
  }

  // ---- Listing the files ------------------------------------------------------

  /** SHA-256; no property of it is used. */
  type Digest = seq<Byte> -> seq<Byte>

  /** One line of the file list. */
  datatype Entry = Entry(path: seq<Byte>, id: nat, version: nat, size: nat, digest: seq<Byte>)

  ghost predicate Describes(sha: Digest, g: Generation, blocks: seq<Sector>, paths: map<nat, seq<Byte>>, i: int, e: Entry)
    requires |blocks| == DATA_SECTORS && NodesBounded(g)
  {
    && IsFile(g.nodes, i) && g.nodes[i].value.id in paths
    && var f := g.nodes[i].value;
       e == Entry(paths[f.id], f.id, f.version, f.length, sha(Content(blocks, f.runs, f.length)))
  }

  ghost predicate Described(sha: Digest, g: Generation, blocks: seq<Sector>, paths: map<nat, seq<Byte>>, e: Entry)
    requires |blocks| == DATA_SECTORS && NodesBounded(g)
  {
    exists i :: Describes(sha, g, blocks, paths, i, e)
  }

  ghost predicate Lists(files: seq<Entry>, id: nat)
  {
    exists a :: 0 <= a < |files| && files[a].id == id
  }

  /** The files with identities in `ids`, each once, by ascending identity. */
  ghost predicate FileList(sha: Digest, g: Generation, blocks: seq<Sector>, paths: map<nat, seq<Byte>>, ids: set<nat>, files: seq<Entry>)
    requires |blocks| == DATA_SECTORS && NodesBounded(g)
  {
    && (forall a, b :: 0 <= a < b < |files| ==> files[a].id < files[b].id)
    && (forall a :: 0 <= a < |files| ==> files[a].id in ids && Described(sha, g, blocks, paths, files[a]))
    && (forall i :: IsFile(g.nodes, i) && g.nodes[i].value.id in ids ==> Lists(files, g.nodes[i].value.id))
  }

  /** Their bytes, each under its own path. */
  ghost predicate Gathered(g: Generation, blocks: seq<Sector>, paths: map<nat, seq<Byte>>, ids: set<nat>,
                           contents: map<seq<Byte>, seq<Byte>>)
    requires |blocks| == DATA_SECTORS && NodesBounded(g)
  {
    && (forall i :: IsFile(g.nodes, i) && g.nodes[i].value.id in ids ==>
          FileListed(g.nodes[i].value, blocks, paths, contents))
    && (forall p :: p in contents ==> exists i :: HasPath(g.nodes, i, paths, p))
  }

  ghost predicate IntactIn(crc: Checksum, g: Generation, blocks: seq<Sector>, ids: set<nat>)
    requires |blocks| == DATA_SECTORS && NodesBounded(g)
  {
    forall i :: IsFile(g.nodes, i) && g.nodes[i].value.id in ids ==> NodeIntact(crc, blocks, g.nodes[i].value)
  }

  lemma GatheredStep(g: Generation, blocks: seq<Sector>, paths: map<nat, seq<Byte>>, ids: set<nat>, n: nat,
                     contents: map<seq<Byte>, seq<Byte>>, more: map<seq<Byte>, seq<Byte>>)
    requires |blocks| == DATA_SECTORS && NamespaceOk(g) && PathsOf(g.nodes, |g.nodes|, paths)
    requires Gathered(g, blocks, paths, ids, contents) && IsFile(g.nodes, n)
    requires var f := g.nodes[n].value; more == contents[paths[f.id] := Content(blocks, f.runs, f.length)]
    ensures Gathered(g, blocks, paths, ids + {g.nodes[n].value.id}, more)
  {
    forall i | IsFile(g.nodes, i) && g.nodes[i].value.id in ids + {g.nodes[n].value.id}
      ensures FileListed(g.nodes[i].value, blocks, paths, more)
    {
      if paths[g.nodes[i].value.id] == paths[g.nodes[n].value.id] {
        PathsApart(g, paths, i, n);
      }
    }
    forall p | p in more ensures exists i :: HasPath(g.nodes, i, paths, p) {
      if p !in contents {
        assert HasPath(g.nodes, n, paths, p);
      }
    }
  }

  lemma ListsMore(files: seq<Entry>, e: Entry, id: nat)
    requires Lists(files, id) || id == e.id
    ensures Lists(files + [e], id)
  {
    var more := files + [e];
    if Lists(files, id) {
      var a :| 0 <= a < |files| && files[a].id == id;
      assert more[a].id == id;
    } else {
      assert more[|files|].id == id;
    }
  }

  lemma DescribedMore(sha: Digest, g: Generation, blocks: seq<Sector>, paths: map<nat, seq<Byte>>, ids: set<nat>,
                      files: seq<Entry>, e: Entry)
    requires |blocks| == DATA_SECTORS && NodesBounded(g) && FileList(sha, g, blocks, paths, ids, files)
    requires Described(sha, g, blocks, paths, e) && forall id :: id in ids ==> id < e.id
    ensures var more := files + [e];
      && (forall a, b :: 0 <= a < b < |more| ==> more[a].id < more[b].id)
      && (forall a :: 0 <= a < |more| ==> more[a].id in ids + {e.id} && Described(sha, g, blocks, paths, more[a]))
  {
    var more := files + [e];
    forall a | 0 <= a < |more| ensures more[a].id in ids + {e.id} && Described(sha, g, blocks, paths, more[a]) {
      assert more[a] == if a < |files| then files[a] else e;
    }
    forall a, b | 0 <= a < b < |more| ensures more[a].id < more[b].id {
      assert more[a] == files[a] && more[b] == if b < |files| then files[b] else e;
    }
  }

  lemma FileListStep(sha: Digest, g: Generation, blocks: seq<Sector>, paths: map<nat, seq<Byte>>, ids: set<nat>, n: nat,
                     files: seq<Entry>, e: Entry)
    requires |blocks| == DATA_SECTORS && NodesBounded(g) && FileList(sha, g, blocks, paths, ids, files)
    requires Describes(sha, g, blocks, paths, n, e) && forall id :: id in ids ==> id < e.id
    ensures FileList(sha, g, blocks, paths, ids + {e.id}, files + [e])
  {
    DescribedMore(sha, g, blocks, paths, ids, files, e);
    forall i | IsFile(g.nodes, i) && g.nodes[i].value.id in ids + {e.id} ensures Lists(files + [e], g.nodes[i].value.id) {
      ListsMore(files, e, g.nodes[i].value.id);
    }
  }

  /** The live files with identities in `ids` are intact, listed, and their bytes gathered. */
  ghost predicate Visited(crc: Checksum, sha: Digest, g: Generation, blocks: seq<Sector>, paths: map<nat, seq<Byte>>,
                          ids: set<nat>, files: seq<Entry>, contents: map<seq<Byte>, seq<Byte>>)
    requires |blocks| == DATA_SECTORS && NodesBounded(g)
  {
    && IntactIn(crc, g, blocks, ids)
    && FileList(sha, g, blocks, paths, ids, files) && Gathered(g, blocks, paths, ids, contents)
  }

  /** A directory adds nothing. */
  lemma SkipStep(crc: Checksum, sha: Digest, g: Generation, blocks: seq<Sector>, paths: map<nat, seq<Byte>>, ids: set<nat>,
                 n: nat, files: seq<Entry>, contents: map<seq<Byte>, seq<Byte>>)
    requires |blocks| == DATA_SECTORS && NamespaceOk(g) && Live(g.nodes, n) && !IsFile(g.nodes, n)
    requires Visited(crc, sha, g, blocks, paths, ids, files, contents)
    ensures Visited(crc, sha, g, blocks, paths, ids + {g.nodes[n].value.id}, files, contents)
  {
    forall i | IsFile(g.nodes, i) && g.nodes[i].value.id in ids + {g.nodes[n].value.id} ensures g.nodes[i].value.id in ids {
    }
  }

  lemma FileStep(crc: Checksum, sha: Digest, g: Generation, blocks: seq<Sector>, paths: map<nat, seq<Byte>>, ids: set<nat>,
                 n: nat, files: seq<Entry>, contents: map<seq<Byte>, seq<Byte>>, payload: seq<Byte>)
    requires |blocks| == DATA_SECTORS && NamespaceOk(g) && PathsOf(g.nodes, |g.nodes|, paths) && IsFile(g.nodes, n)
    requires Visited(crc, sha, g, blocks, paths, ids, files, contents)
    requires forall id :: id in ids ==> id < g.nodes[n].value.id
    requires var f := g.nodes[n].value;
      payload == Content(blocks, f.runs, f.length) && NodeIntact(crc, blocks, f)
    ensures var f := g.nodes[n].value;
      Visited(crc, sha, g, blocks, paths, ids + {f.id},
              files + [Entry(paths[f.id], f.id, f.version, f.length, sha(payload))], contents[paths[f.id] := payload])
  {
    var f := g.nodes[n].value;
    GatheredStep(g, blocks, paths, ids, n, contents, contents[paths[f.id] := payload]);
    FileListStep(sha, g, blocks, paths, ids, n, files, Entry(paths[f.id], f.id, f.version, f.length, sha(payload)));
    IntactStep(crc, g, blocks, ids, n);
  }

  lemma IntactStep(crc: Checksum, g: Generation, blocks: seq<Sector>, ids: set<nat>, n: nat)
    requires |blocks| == DATA_SECTORS && NamespaceOk(g) && IsFile(g.nodes, n)
    requires IntactIn(crc, g, blocks, ids) && NodeIntact(crc, blocks, g.nodes[n].value)
    ensures IntactIn(crc, g, blocks, ids + {g.nodes[n].value.id})
  {
  }

  /** Every live identity was visited. */
  lemma AllListed(crc: Checksum, sha: Digest, g: Generation, blocks: seq<Sector>, live: map<nat, nat>,
                  paths: map<nat, seq<Byte>>, files: seq<Entry>, contents: map<seq<Byte>, seq<Byte>>)
    requires |blocks| == DATA_SECTORS && NamespaceOk(g) && Indexes(live, g.nodes)
    requires Visited(crc, sha, g, blocks, paths, live.Keys, files, contents)
    ensures FilesIntact(crc, Volume(g, blocks)) && ContentsOf(g, blocks, paths, |g.nodes|, contents)
    ensures FileList(sha, g, blocks, paths, live.Keys, files)
  {
    forall i | Live(g.nodes, i) && g.nodes[i].value.kind == File ensures NodeIntact(crc, blocks, g.nodes[i].value) {
      assert IsFile(g.nodes, i);
    }
    forall p | p in contents ensures exists i :: i < |g.nodes| && HasPath(g.nodes, i, paths, p) {
      var i :| HasPath(g.nodes, i, paths, p);
      assert i < |g.nodes| && HasPath(g.nodes, i, paths, p);
    }
  }

  /** Verify the node in one slot; list it if it is a file. */
  method ReadFile(crc: Checksum, sha: Digest, img: Image, g: Generation, paths: map<nat, seq<Byte>>, slot: nat,
                  before: seq<Entry>, gathered: map<seq<Byte>, seq<Byte>>, ghost ids: set<nat>)
    returns (ok: bool, files: seq<Entry>, contents: map<seq<Byte>, seq<Byte>>)
    requires |img| == VOLUME_SECTORS && NamespaceOk(g) && PathsOf(g.nodes, |g.nodes|, paths) && Live(g.nodes, slot)
    requires forall id :: id in ids ==> id < g.nodes[slot].value.id
    requires Visited(crc, sha, g, PayloadRegion(img), paths, ids, before, gathered)
    ensures !ok ==> !FilesIntact(crc, Volume(g, PayloadRegion(img)))
    ensures ok ==> Visited(crc, sha, g, PayloadRegion(img), paths, ids + {g.nodes[slot].value.id}, files, contents)
  {
    ok, files, contents := true, before, gathered;
    var f := g.nodes[slot].value;
    if f.kind == File {
      var payload := ReadPayload(crc, img, f.runs, f.length, f.crc);
      if payload.None? {
        assert !NodeIntact(crc, PayloadRegion(img), f);
        return false, files, contents;
      }
      files := files + [Entry(paths[f.id], f.id, f.version, f.length, sha(payload.value))];
      contents := contents[paths[f.id] := payload.value];
      FileStep(crc, sha, g, PayloadRegion(img), paths, ids, slot, before, gathered, payload.value);
    } else {
      SkipStep(crc, sha, g, PayloadRegion(img), paths, ids, slot, files, contents);
    }
  }

  /** Verify every live file, by ascending identity; list it, and its bytes under its path. */
  method ReadFiles(crc: Checksum, sha: Digest, img: Image, g: Generation, live: map<nat, nat>, paths: map<nat, seq<Byte>>)
    returns (ok: bool, files: seq<Entry>, contents: map<seq<Byte>, seq<Byte>>)
    requires |img| == VOLUME_SECTORS && NamespaceOk(g) && Indexes(live, g.nodes) && PathsOf(g.nodes, |g.nodes|, paths)
    ensures ok <==> FilesIntact(crc, Volume(g, PayloadRegion(img)))
    ensures ok ==> ContentsOf(g, PayloadRegion(img), paths, |g.nodes|, contents)
    ensures ok ==> FileList(sha, g, PayloadRegion(img), paths, live.Keys, files)
  {
    ghost var blocks := PayloadRegion(img);
    files, contents := [], map[];
    var ids := SortIds(live);
    ghost var done: set<nat> := {};
    for k := 0 to |ids|
      invariant done == Prefix(ids, k) && Visited(crc, sha, g, blocks, paths, done, files, contents)
    {
      PrefixStep(ids, k);
      assert ids[k] in live;
      ok, files, contents := ReadFile(crc, sha, img, g, paths, live[ids[k]], files, contents, done);
      if !ok {
        return;
      }
      done := done + {ids[k]};
    }
    PrefixAll(ids, live);
    AllListed(crc, sha, g, blocks, live, paths, files, contents);
    ok := true;
  }

  /** The first `k` identities of a list. */
  ghost function Prefix(ids: seq<nat>, k: nat): set<nat>
    requires k <= |ids|
  {
    set a | 0 <= a < k :: ids[a]
  }

  lemma PrefixStep(ids: seq<nat>, k: nat)
    requires Ascending(ids) && k < |ids|
    ensures Prefix(ids, k + 1) == Prefix(ids, k) + {ids[k]} && forall id :: id in Prefix(ids, k) ==> id < ids[k]
  {
  }

  lemma PrefixAll(ids: seq<nat>, live: map<nat, nat>)
    requires forall x :: x in ids <==> x in live
    ensures Prefix(ids, |ids|) == live.Keys
  {
    forall x | x in live ensures x in Prefix(ids, |ids|) {
      var a :| 0 <= a < |ids| && ids[a] == x;
    }
  }

  // ---- Listing the retained records -------------------------------------------

  /** Where a record's object is now, if it still exists. */
  datatype Place = Place(path: seq<Byte>, version: nat)

  /** One retained record as reported: its digest, and its live target. */
  datatype Retained = Retained(slot: nat, record: Record, aliases: bool, digest: seq<Byte>, target: Option<Place>)

  ghost predicate TargetShown(nodes: seq<Option<Node>>, paths: map<nat, seq<Byte>>, id: nat, target: Option<Place>)
  {
    && (target.None? <==> forall i :: Live(nodes, i) ==> nodes[i].value.id != id)
    && (forall i :: Live(nodes, i) && nodes[i].value.id == id ==>
          id in paths && target == Some(Place(paths[id], nodes[i].value.version)))
  }

  ghost predicate RetainedOf(sha: Digest, g: Generation, blocks: seq<Sector>, paths: map<nat, seq<Byte>>, k: Kept, r: Retained)
    requires |blocks| == DATA_SECTORS && RecordOk(k.record)
  {
    && r.slot == k.slot && r.record == k.record && r.aliases == k.aliases
    && r.digest == sha(Content(blocks, k.record.runs, k.record.length))
    && TargetShown(g.nodes, paths, k.record.objectId, r.target)
  }

  /** Every retained record once, by ascending slot, with the digest of its snapshot and its live target. */
  ghost predicate RecordList(sha: Digest, g: Generation, blocks: seq<Sector>, paths: map<nat, seq<Byte>>, records: seq<Retained>)
    requires |blocks| == DATA_SECTORS && RecordsBounded(g)
  {
    exists kept :: KeptOk(g, kept, |g.records|) && RecordPrefix(sha, g, blocks, paths, kept, records) && |records| == |kept|
  }

  ghost predicate RecordPrefix(sha: Digest, g: Generation, blocks: seq<Sector>, paths: map<nat, seq<Byte>>, kept: seq<Kept>, records: seq<Retained>)
    requires |blocks| == DATA_SECTORS
  {
    |records| <= |kept| &&
    forall d :: 0 <= d < |records| ==> RecordOk(kept[d].record) && RetainedOf(sha, g, blocks, paths, kept[d], records[d])
  }

  lemma RecordPrefixStep(sha: Digest, g: Generation, blocks: seq<Sector>, paths: map<nat, seq<Byte>>, kept: seq<Kept>,
                         records: seq<Retained>, next: Retained)
    requires |blocks| == DATA_SECTORS && RecordPrefix(sha, g, blocks, paths, kept, records) && |records| < |kept|
    requires RecordOk(kept[|records|].record) && RetainedOf(sha, g, blocks, paths, kept[|records|], next)
    ensures RecordPrefix(sha, g, blocks, paths, kept, records + [next])
  {
    var more := records + [next];
    forall d | 0 <= d < |more| ensures RecordOk(kept[d].record) && RetainedOf(sha, g, blocks, paths, kept[d], more[d]) {
      assert more[d] == if d < |records| then records[d] else next;
    }
  }

  lemma KeptRecord(g: Generation, kept: seq<Kept>, d: nat)
    requires RecordsBounded(g) && KeptOk(g, kept, |g.records|) && d < |kept|
    ensures Held(g.records, kept[d].slot) && g.records[kept[d].slot].value == kept[d].record && RecordOk(kept[d].record)
  {
    assert RecordInBounds(g, kept[d].record);
  }

  method TargetOf(g: Generation, live: map<nat, nat>, paths: map<nat, seq<Byte>>, id: nat) returns (target: Option<Place>)
    requires Indexes(live, g.nodes) && PathsOf(g.nodes, |g.nodes|, paths)
    ensures TargetShown(g.nodes, paths, id, target)
  {
    if id in live {
      assert Live(g.nodes, live[id]);
      target := Some(Place(paths[id], g.nodes[live[id]].value.version));
    } else {
      target := None;
    }
  }

  /** Verify one retained snapshot and report its record. */
  method ReadRetained(crc: Checksum, sha: Digest, img: Image, g: Generation, live: map<nat, nat>, paths: map<nat, seq<Byte>>,
                      k: Kept) returns (r: Option<Retained>)
    requires |img| == VOLUME_SECTORS && RecordOk(k.record)
    requires Indexes(live, g.nodes) && PathsOf(g.nodes, |g.nodes|, paths)
    ensures r.Some? <==> RecordIntact(crc, PayloadRegion(img), k.record)
    ensures r.Some? ==> RetainedOf(sha, g, PayloadRegion(img), paths, k, r.value)
  {
    var payload := ReadPayload(crc, img, k.record.runs, k.record.length, k.record.crc);
    if payload.None? {
      return None;
    }
    var target := TargetOf(g, live, paths, k.record.objectId);
    return Some(Retained(k.slot, k.record, k.aliases, sha(payload.value), target));
  }

  ghost predicate IntactKept(crc: Checksum, blocks: seq<Sector>, kept: seq<Kept>, n: nat)
    requires |blocks| == DATA_SECTORS && n <= |kept|
  {
    forall d :: 0 <= d < n ==> RecordOk(kept[d].record) && RecordIntact(crc, blocks, kept[d].record)
  }

  lemma AllKeptIntact(crc: Checksum, g: Generation, blocks: seq<Sector>, kept: seq<Kept>)
    requires |blocks| == DATA_SECTORS && RecordsBounded(g) && KeptOk(g, kept, |g.records|)
    requires IntactKept(crc, blocks, kept, |kept|)
    ensures SnapshotsIntact(crc, Volume(g, blocks))
  {
  }

  lemma KeptDamaged(crc: Checksum, g: Generation, blocks: seq<Sector>, kept: seq<Kept>, d: nat)
    requires |blocks| == DATA_SECTORS && RecordsBounded(g) && KeptOk(g, kept, |g.records|) && d < |kept|
    requires RecordOk(kept[d].record) && !RecordIntact(crc, blocks, kept[d].record)
    ensures !SnapshotsIntact(crc, Volume(g, blocks))
  {
    KeptRecord(g, kept, d);
  }

  /** Verify the bytes of every retained snapshot and report each record. */
  method ReadSnapshots(crc: Checksum, sha: Digest, img: Image, g: Generation, live: map<nat, nat>, paths: map<nat, seq<Byte>>,
                       kept: seq<Kept>) returns (ok: bool, records: seq<Retained>)
    requires |img| == VOLUME_SECTORS && RecordsOk(g) && KeptOk(g, kept, |g.records|)
    requires Indexes(live, g.nodes) && PathsOf(g.nodes, |g.nodes|, paths)
    ensures ok <==> SnapshotsIntact(crc, Volume(g, PayloadRegion(img)))
    ensures ok ==> RecordList(sha, g, PayloadRegion(img), paths, records)
  {
    ghost var blocks := PayloadRegion(img);
    records := [];
    for d := 0 to |kept|
      invariant |records| == d && RecordPrefix(sha, g, blocks, paths, kept, records)
      invariant IntactKept(crc, blocks, kept, d)
    {
      KeptRecord(g, kept, d);
      var next := ReadRetained(crc, sha, img, g, live, paths, kept[d]);
      if next.None? {
        KeptDamaged(crc, g, blocks, kept, d);
        return false, records;
      }
      RecordPrefixStep(sha, g, blocks, paths, kept, records, next.value);
      records := records + [next.value];
    }
    AllKeptIntact(crc, g, blocks, kept);
    assert RecordList(sha, g, blocks, paths, records);
    ok := true;
  }

  // ---- The whole image --------------------------------------------------------

  datatype Report = Report(header: Header, recovered: bool, rejected: set<nat>, generation: Generation,
                           paths: map<nat, seq<Byte>>, files: seq<Entry>, contents: map<seq<Byte>, seq<Byte>>,
                           records: seq<Retained>, usedSectors: nat, freeSectors: int)

  ghost function LiveIds(nodes: seq<Option<Node>>): set<nat>
  {
    set i | 0 <= i < |nodes| && nodes[i].Some? :: nodes[i].value.id
  }

  lemma LiveIdsAre(live: map<nat, nat>, nodes: seq<Option<Node>>)
    requires Indexes(live, nodes)
    ensures live.Keys == LiveIds(nodes)
  {
    forall id | id in LiveIds(nodes) ensures id in live {
      var i :| 0 <= i < |nodes| && nodes[i].Some? && nodes[i].value.id == id;
      assert Live(nodes, i);
    }
    forall id | id in live ensures id in LiveIds(nodes) {
      assert Live(nodes, live[id]);
    }
  }

  /** The lists of a report: the files with their bytes, and the retained records. */
  ghost predicate Listed(sha: Digest, img: Image, g: Generation, r: Report)
    requires |img| == VOLUME_SECTORS
  {
    && NodesBounded(g) && RecordsBounded(g)
    && FileList(sha, g, PayloadRegion(img), r.paths, LiveIds(g.nodes), r.files)
    && ContentsOf(g, PayloadRegion(img), r.paths, NODES, r.contents)
    && RecordList(sha, g, PayloadRegion(img), r.paths, r.records)
  }

  function ViewOf(img: Image, r: Report): View
    requires |img| == VOLUME_SECTORS
  {
    View(r.header, r.recovered, Volume(r.generation, PayloadRegion(img)))
  }

  lemma ReadHeadOk(crc: Checksum, img: Image, h: Header)
    requires |img| == VOLUME_SECTORS && HeaderOk(h) && h.generation < GENERATIONS && RegionsDecode(crc, img, h)
    ensures HeadOk(ReadGeneration(crc, img, h))
  {
  }

  /** What a read that got as far as the decoded generation `g` can still conclude. */
  lemma RefusedView(crc: Checksum, img: Image, h: Header, recovered: bool, g: Generation)
    requires |img| == VOLUME_SECTORS && SelectHeader(crc, img) == Selected(h, recovered)
    requires h.generation < GENERATIONS && RegionsDecode(crc, img, h) && g == ReadGeneration(crc, img, h)
    requires !VolumeOk(crc, Volume(g, PayloadRegion(img)))
    ensures !exists view :: Reads(crc, img, view)
  {
  }

  /**
   * Read and verify an image. It is accepted exactly when some view of it passes every rule;
   * the report is that view, and its contents list every live file once, under its own path.
   */
  method Snapshot(crc: Checksum, sha: Digest, img: Image) returns (r: Option<Report>)
    ensures r.Some? <==> exists view :: Reads(crc, img, view)
    ensures r.Some? ==> |img| == VOLUME_SECTORS && Reads(crc, img, ViewOf(img, r.value))
    ensures r.Some? ==> PathsOf(r.value.generation.nodes, NODES, r.value.paths)
    ensures r.Some? ==> Listed(sha, img, r.value.generation, r.value)
    ensures r.Some? ==> (r.value.recovered <==> CopyIgnored(crc, img))
    ensures r.Some? ==> r.value.usedSectors == |r.value.generation.used|
    ensures r.Some? ==> r.value.usedSectors + r.value.freeSectors == DATA_SECTORS
    ensures r.Some? ==> forall slot: nat ::
      slot in r.value.rejected <==> slot < GENERATIONS && HeaderCopy(crc, img, slot).None?
  {
    if |img| != VOLUME_SECTORS {
      return None;
    }
    var selection, rejected := SelectCopies(crc, img);
    if selection.NoHead? {
      return None;
    }
    var h := selection.header;
    SelectedSlot(crc, img);
    RecoveredMeans(crc, img);
    var decoded := DecodeRegions(crc, img, h);
    if decoded.None? {
      return None;
    }
    var g := decoded.value;
    ReadIsDecoded(crc, img, h);
    ReadHeadOk(crc, img, h);
    r := Verify(crc, sha, img, h, selection.recovered, rejected, g);
    if r.None? {
      RefusedView(crc, img, h, selection.recovered, g);
    } else {
      assert Reads(crc, img, ViewOf(img, r.value));
    }
  }

  /** The semantic checks on a decoded generation and its payloads. */
  method Verify(crc: Checksum, sha: Digest, img: Image, h: Header, recovered: bool, rejected: set<nat>, g: Generation)
    returns (r: Option<Report>)
    requires |img| == VOLUME_SECTORS && Decoded(g) && HeadOk(g)
    ensures r.Some? <==> VolumeOk(crc, Volume(g, PayloadRegion(img)))
    ensures r.Some? ==>
      && r.value.header == h && r.value.recovered == recovered && r.value.rejected == rejected
      && r.value.generation == g
      && PathsOf(g.nodes, NODES, r.value.paths)
      && Listed(sha, img, g, r.value)
      && r.value.usedSectors == |g.used| && r.value.usedSectors + r.value.freeSectors == DATA_SECTORS
  {
    var ok, live, paths := CheckNamespace(g);
    if !ok {
      return None;
    }
    var kept;
    ok, kept := CheckRecords(g, live);
    if !ok {
      return None;
    }
    var claimed;
    ok, claimed := CheckOwnership(g, kept);
    if !ok {
      return None;
    }
    var files, contents;
    ok, files, contents := ReadFiles(crc, sha, img, g, live, paths);
    if !ok {
      return None;
    }
    var records;
    ok, records := ReadSnapshots(crc, sha, img, g, live, paths, kept);
    if !ok {
      return None;
    }
    LiveIdsAre(live, g.nodes);
    return Some(Report(h, recovered, rejected, g, paths, files, contents, records, |claimed|, DATA_SECTORS - |claimed|));
  }
}
