/** The harness's verdict on an interrupted operation, from the facts of the image before and after. */
module Classify7 {
  import opened Bytes
  import opened Format7
  import opened Generation7
  import opened Steps7
  import opened Payload7
  import opened Volume7
  import opened Image7
  import opened Canonical7
  import opened Device
  import opened Publication7
  import opened Namespace7
  import opened Accounting7
  import opened Reader7
  import opened Snapshot7
  import opened Faults7

  datatype FileFacts = FileFacts(path: seq<Byte>, id: nat, version: nat, size: nat, digest: seq<Byte>)
  datatype RecordFacts = RecordFacts(slot: nat, subject: nat, epoch: nat, key: nat, state: RecordState, objectId: nat,
                                     previous: nat, committed: nat, length: nat, digest: seq<Byte>)

  /** The fields of a snapshot the classifiers look at; `files` is keyed by identity, `records` in slot order. */
  datatype Facts = Facts(epoch: nat, sequence: nat, files: map<nat, FileFacts>, records: seq<RecordFacts>,
                         free: int, reclaimable: nat)

  // ---- The facts of a volume --------------------------------------------------

  ghost function PathAt(nodes: seq<Option<Node>>, i: int): seq<Byte>
  {
    if exists c :: ChainFrom(nodes, i, c) then
      var c :| ChainFrom(nodes, i, c);
      PathOf(nodes, c)
    else []
  }

  function BytesIn(blocks: seq<Sector>, runs: seq<Run>, length: nat): seq<Byte>
  {
    if |blocks| == DATA_SECTORS && RunsOk(runs, length) then Content(blocks, runs, length) else []
  }

  ghost function FileFact(sha: Digest, v: Volume, i: int): FileFacts
    requires Live(v.gen.nodes, i)
  {
    var n := v.gen.nodes[i].value;
    FileFacts(PathAt(v.gen.nodes, i), n.id, n.version, n.length, sha(BytesIn(v.blocks, n.runs, n.length)))
  }

  function FileIds(nodes: seq<Option<Node>>): set<nat>
  {
    set i | 0 <= i < |nodes| && IsFile(nodes, i) :: nodes[i].value.id as nat
  }

  ghost function FilesOf(sha: Digest, v: Volume): map<nat, FileFacts>
  {
    map id | id in FileIds(v.gen.nodes) ::
      FileFact(sha, v, FindNode(v.gen.nodes, id).value)
  }

  function RecordFact(sha: Digest, v: Volume, j: int): RecordFacts
    requires Held(v.gen.records, j)
  {
    var r := v.gen.records[j].value;
    RecordFacts(j, r.subject, r.epoch, r.key, r.state, r.objectId, r.previous, r.committed, r.length,
                sha(BytesIn(v.blocks, r.runs, r.length)))
  }

  /** The records in slots before `n`, in slot order. */
  function RecordsBefore(sha: Digest, v: Volume, n: nat): seq<RecordFacts>
    requires n <= |v.gen.records|
    decreases n
  {
    if n == 0 then []
    else RecordsBefore(sha, v, n - 1) + (if Held(v.gen.records, n - 1) then [RecordFact(sha, v, n - 1)] else [])
  }

  ghost function FactsOf(sha: Digest, v: Volume): Facts
  {
    Facts(v.gen.epoch, v.gen.sequence, FilesOf(sha, v), RecordsBefore(sha, v, |v.gen.records|),
          FreeSectors(v.gen), Reclaimable(v.gen))
  }

  /** The report of a read lists, for every file, the path and the bytes these facts are made of. */
  lemma ReportShowsFacts(sha: Digest, g: Generation, blocks: seq<Sector>, paths: map<nat, seq<Byte>>,
                         contents: map<seq<Byte>, seq<Byte>>, i: int)
    requires |blocks| == DATA_SECTORS && NamespaceOk(g) && |g.nodes| == NODES && IsFile(g.nodes, i)
    requires PathsOf(g.nodes, NODES, paths) && ContentsOf(g, blocks, paths, NODES, contents)
    ensures var n := g.nodes[i].value;
      && n.id in paths && paths[n.id] in contents && n.id in FileIds(g.nodes)
      && FilesOf(sha, Volume(g, blocks))[n.id]
         == FileFacts(paths[n.id], n.id, n.version, n.length, sha(contents[paths[n.id]]))
  {
    FindsFile(g, i);
    PathShown(g.nodes, paths, i);
    assert FileListed(g.nodes[i].value, blocks, paths, contents);
  }

  lemma PathShown(nodes: seq<Option<Node>>, paths: map<nat, seq<Byte>>, i: int)
    requires PathsOf(nodes, |nodes|, paths) && Live(nodes, i) && exists c :: ChainFrom(nodes, i, c)
    ensures paths[nodes[i].value.id] == PathAt(nodes, i)
  {
  }

  lemma FindsFile(g: Generation, i: int)
    requires NamespaceOk(g) && IsFile(g.nodes, i)
    ensures FindNode(g.nodes, g.nodes[i].value.id) == Some(i) && g.nodes[i].value.id in FileIds(g.nodes)
  {
  }

  lemma FindsId(g: Generation, id: nat)
    requires NamespaceOk(g) && id in FileIds(g.nodes)
    ensures FindNode(g.nodes, id).Some? && IsFile(g.nodes, FindNode(g.nodes, id).value)
  {
    var i :| 0 <= i < |g.nodes| && IsFile(g.nodes, i) && g.nodes[i].value.id == id;
    FindsFile(g, i);
  }

  // ---- The classifiers --------------------------------------------------------

  function Ours(records: seq<RecordFacts>, shell: nat, key: nat): seq<RecordFacts>
  {
    if records == [] then []
    else
      var last := records[|records| - 1];
      Ours(records[..|records| - 1], shell, key) + (if last.subject == shell && last.key == key then [last] else [])
  }

  /** The record identities a snapshot lists, in any order. */
  function RecordKeys(records: seq<RecordFacts>): multiset<(nat, nat, nat, nat)>
  {
    multiset(seq(|records|, i requires 0 <= i < |records| =>
      (records[i].subject, records[i].epoch, records[i].key, records[i].committed)))
  }

  predicate IsNewRecord(r: RecordFacts, scratch: nat, previous: nat, sequence: nat, length: nat, digest: seq<Byte>)
  {
    && r.state == DirectCommitted && r.objectId == scratch && r.previous == previous
    && r.committed == sequence && r.length == length && r.digest == digest
  }

  /** `Some(true)` for the new generation, `Some(false)` for the old one, `None` for a failed assertion. */
  function ClassifyWrite(sha: Digest, shell: nat, base: Facts, observed: Facts, scratch: nat, key: nat,
                         content: seq<Byte>): Option<bool>
  {
    if scratch !in observed.files || scratch !in base.files then None
    else
      var live, previous := observed.files[scratch], base.files[scratch];
      var ours, digest := Ours(observed.records, shell, key), sha(content);
      if observed.sequence == base.sequence + 1 then
        if |ours| != 1 || |observed.records| != |base.records| + 1 then None
        else if !IsNewRecord(ours[0], scratch, previous.version, observed.sequence, |content|, digest) then None
        else if (live.version, live.size, live.digest) != (ours[0].committed, |content|, digest) then None
        else Some(true)
      else if observed.sequence != base.sequence then None
      else if ours != [] || RecordKeys(observed.records) != RecordKeys(base.records) then None
      else if live != previous || observed.files != base.files || observed.free != base.free then None
      else Some(false)
  }

  function ClassifyMaintenance(base: Facts, observed: Facts): Option<bool>
  {
    if observed.epoch == base.epoch + 1 then
      if observed.records != [] then None
      else if observed.sequence != base.sequence + 1 then None
      else if observed.free != base.free + base.reclaimable then None
      else if observed.files != base.files then None
      else Some(true)
    else if (observed.epoch, observed.sequence) != (base.epoch, base.sequence) then None
    else if RecordKeys(observed.records) != RecordKeys(base.records)
      || observed.files != base.files || observed.free != base.free then None
    else Some(false)
  }

  // ---- Volumes that show the same have the same facts -------------------------

  /** The bytes of every file and retained snapshot of `v` are the same in `blocks`. */
  ghost predicate SameContent(v: Volume, blocks: seq<Sector>)
  {
    forall e :: KnownExtent(v.gen, e) ==> BytesIn(blocks, e.runs, e.length) == BytesIn(v.blocks, e.runs, e.length)
  }

  lemma SameViewContent(crc: Checksum, v: Volume, w: Volume)
    requires VolumeOk(crc, v) && SameView(v, w)
    ensures SameContent(v, w.blocks)
  {
    SameViewOk(crc, v, w);
  }

  lemma FileFactSame(sha: Digest, v: Volume, w: Volume, i: int)
    requires w.gen.nodes == v.gen.nodes && SameContent(v, w.blocks) && IsFile(v.gen.nodes, i)
    ensures FileFact(sha, w, i) == FileFact(sha, v, i)
  {
    var e := NodeExtent(v.gen.nodes[i].value);
    assert LiveExtent(v.gen, i, e);
    assert KnownExtent(v.gen, e);
  }

  lemma FilesSame(sha: Digest, v: Volume, w: Volume)
    requires NamespaceOk(v.gen) && w.gen.nodes == v.gen.nodes && SameContent(v, w.blocks)
    ensures FilesOf(sha, w) == FilesOf(sha, v)
  {
    forall id | id in FileIds(v.gen.nodes)
      ensures FilesOf(sha, w)[id] == FilesOf(sha, v)[id]
    {
      FindsId(v.gen, id);
      FileFactSame(sha, v, w, FindNode(v.gen.nodes, id).value);
    }
  }

  lemma RecordFactSame(sha: Digest, v: Volume, w: Volume, j: int)
    requires Held(v.gen.records, j) && Held(w.gen.records, j) && w.gen.records[j] == v.gen.records[j]
    requires SameContent(v, w.blocks)
    ensures RecordFact(sha, w, j) == RecordFact(sha, v, j)
  {
    var e := RecordExtent(v.gen.records[j].value);
    assert HeldExtent(v.gen, j, e);
    assert KnownExtent(v.gen, e);
  }

  lemma {:induction false} RecordsSame(sha: Digest, v: Volume, w: Volume, n: nat)
    requires n <= |v.gen.records| && w.gen.records == v.gen.records && SameContent(v, w.blocks)
    ensures RecordsBefore(sha, w, n) == RecordsBefore(sha, v, n)
    decreases n
  {
    if n > 0 {
      RecordsSame(sha, v, w, n - 1);
      if Held(v.gen.records, n - 1) {
        RecordFactSame(sha, v, w, n - 1);
      }
    }
  }

  lemma FactsSame(crc: Checksum, sha: Digest, v: Volume, w: Volume)
    requires VolumeOk(crc, v) && SameView(v, w)
    ensures FactsOf(sha, w) == FactsOf(sha, v)
  {
    SameViewContent(crc, v, w);
    FilesSame(sha, v, w);
    RecordsSame(sha, v, w, |v.gen.records|);
  }

  // ---- A tracked write --------------------------------------------------------

  /** No retained record of the subject uses the key. */
  ghost predicate FreshKey(g: Generation, shell: nat, key: nat)
  {
    forall j :: Held(g.records, j) ==> g.records[j].value.subject != shell || g.records[j].value.key != key
  }

  lemma {:induction false} NoneOurs(sha: Digest, v: Volume, shell: nat, key: nat, n: nat)
    requires FreshKey(v.gen, shell, key) && n <= |v.gen.records|
    ensures Ours(RecordsBefore(sha, v, n), shell, key) == []
    decreases n
  {
    if n > 0 {
      var m := n - 1;
      NoneOurs(sha, v, shell, key, m);
      RecordsSnoc(sha, v, m);
      if Held(v.gen.records, m) {
        var before, fact := RecordsBefore(sha, v, m), RecordFact(sha, v, m);
        OursSnoc(before, fact, shell, key);
      }
    }
  }

  lemma OursSnoc(records: seq<RecordFacts>, last: RecordFacts, shell: nat, key: nat)
    ensures Ours(records + [last], shell, key) ==
      Ours(records, shell, key) + (if last.subject == shell && last.key == key then [last] else [])
  {
    assert (records + [last])[..|records|] == records;
  }

  lemma RecordsSnoc(sha: Digest, v: Volume, n: nat)
    requires n < |v.gen.records|
    ensures v.gen.records[n].None? ==> RecordsBefore(sha, v, n + 1) == RecordsBefore(sha, v, n)
    ensures Held(v.gen.records, n) ==> RecordsBefore(sha, v, n + 1) == RecordsBefore(sha, v, n) + [RecordFact(sha, v, n)]
  {
  }

  /** One generation holds one record more than the other, in a slot that was free, and shares the rest. */
  ghost predicate OneAdded(v: Volume, w: Volume, slot: nat)
  {
    && slot < |v.gen.records| == |w.gen.records|
    && v.gen.records[slot].None? && Held(w.gen.records, slot)
    && (forall j :: 0 <= j < |v.gen.records| && j != slot ==> w.gen.records[j] == v.gen.records[j])
    && SameContent(v, w.blocks)
  }

  /** Filling one free slot adds one record, and only that record can be ours. */
  lemma {:induction false} OneMore(sha: Digest, v: Volume, w: Volume, slot: nat, shell: nat, key: nat, n: nat)
    requires OneAdded(v, w, slot) && n <= |v.gen.records| && FreshKey(v.gen, shell, key)
    requires w.gen.records[slot].value.subject == shell && w.gen.records[slot].value.key == key
    ensures |RecordsBefore(sha, w, n)| == |RecordsBefore(sha, v, n)| + if n > slot then 1 else 0
    ensures Ours(RecordsBefore(sha, w, n), shell, key) == if n > slot then [RecordFact(sha, w, slot)] else []
    decreases n
  {
    if n > 0 {
      var m := n - 1;
      OneMore(sha, v, w, slot, shell, key, m);
      RecordsSnoc(sha, v, m);
      RecordsSnoc(sha, w, m);
      if Held(w.gen.records, m) {
        OursSnoc(RecordsBefore(sha, w, m), RecordFact(sha, w, m), shell, key);
      }
    }
  }

  /** What a published write leaves behind, in the classifier's terms. */
  lemma WriteFacts(crc: Checksum, sha: Digest, v: Volume, op: Op, w: Volume)
    requires EmptyIsZero(crc) && VolumeOk(crc, v) && op.OpCommit? && Publishes(crc, v, op) && w == After(crc, v, op)
    ensures var t := FreshTarget(v.gen, op.id, op.expected);
      && t.Found? && IsFile(v.gen.nodes, t.index) && IsFile(w.gen.nodes, t.index)
      && v.gen.nodes[t.index].value.id == op.id.objectId && w.gen.nodes[t.index].value.id == op.id.objectId
      && w.gen.sequence == v.gen.sequence + 1
      && v.gen.records[t.slot].None? && Held(w.gen.records, t.slot)
      && (forall j :: 0 <= j < |v.gen.records| && j != t.slot ==> w.gen.records[j] == v.gen.records[j])
      && w.gen.records[t.slot].value.subject == op.id.subject && w.gen.records[t.slot].value.key == op.id.key
      && IsNewRecord(RecordFact(sha, w, t.slot), op.id.objectId, v.gen.nodes[t.index].value.version,
                     w.gen.sequence, |op.bytes|, sha(op.bytes))
      && w.gen.nodes[t.index].value.version == w.gen.sequence && w.gen.nodes[t.index].value.length == |op.bytes|
      && BytesIn(w.blocks, w.gen.nodes[t.index].value.runs, |op.bytes|) == op.bytes
  {
    ContentOfWritten(v.blocks, op.plan.value, op.bytes);
  }

  lemma KeepsContent(crc: Checksum, v: Volume, op: Op)
    requires VolumeOk(crc, v) && Publishes(crc, v, op)
    ensures SameContent(v, After(crc, v, op).blocks)
  {
    forall e | KnownExtent(v.gen, e)
      ensures BytesIn(After(crc, v, op).blocks, e.runs, e.length) == BytesIn(v.blocks, e.runs, e.length)
    {
      KnownExtentKept(crc, v, op, e);
    }
  }

  lemma NewWriteClassified(crc: Checksum, sha: Digest, v: Volume, op: Op, w: Volume)
    requires EmptyIsZero(crc) && VolumeOk(crc, v) && op.OpCommit? && Publishes(crc, v, op) && w == After(crc, v, op)
    requires VolumeOk(crc, w) && FreshKey(v.gen, op.id.subject, op.id.key)
    ensures ClassifyWrite(sha, op.id.subject, FactsOf(sha, v), FactsOf(sha, w), op.id.objectId, op.id.key, op.bytes) == Some(true)
  {
    WriteFacts(crc, sha, v, op, w);
    KeepsContent(crc, v, op);
    var t := FreshTarget(v.gen, op.id, op.expected);
    OneMore(sha, v, w, t.slot, op.id.subject, op.id.key, |v.gen.records|);
    FindsFile(v.gen, t.index);
    FindsFile(w.gen, t.index);
  }

  lemma OldWriteClassified(sha: Digest, v: Volume, op: Op)
    requires op.OpCommit? && op.id.objectId in FileIds(v.gen.nodes) && FreshKey(v.gen, op.id.subject, op.id.key)
    ensures ClassifyWrite(sha, op.id.subject, FactsOf(sha, v), FactsOf(sha, v), op.id.objectId, op.id.key, op.bytes) == Some(false)
  {
    NoneOurs(sha, v, op.id.subject, op.id.key, |v.gen.records|);
  }

  /** The facts of a fault image are those of the old volume up to the header event and of the new one after it. */
  lemma FaultFacts(crc: Checksum, sha: Digest, base: Image, before: View, slot: U8, op: Op, w: Volume, cut: nat) returns (after: View)
    requires Reads(crc, base, before) && slot == before.header.generation && Publishing(crc, before.volume, op, slot, w)
    requires cut <= EventCount(op)
    ensures EventsFit(PublicationEvents(crc, op, w.gen, Other(slot))[..cut], |base|)
    ensures Reads(crc, FaultImage(base, PublicationEvents(crc, op, w.gen, Other(slot)), cut), after)
    ensures FactsOf(sha, after.volume)
      == FactsOf(sha, if cut > EventCount(op) - 2 then w else before.volume)
  {
    after := FaultView(crc, base, before, slot, op, w, cut);
    ShownFacts(crc, sha, before.volume, w, cut > EventCount(op) - 2,
               after.volume);
  }

  lemma FaultView(crc: Checksum, base: Image, before: View, slot: U8, op: Op, w: Volume, cut: nat) returns (after: View)
    requires Reads(crc, base, before) && slot == before.header.generation && Publishing(crc, before.volume, op, slot, w)
    requires cut <= EventCount(op)
    ensures EventsFit(PublicationEvents(crc, op, w.gen, Other(slot))[..cut], |base|)
    ensures Reads(crc, FaultImage(base, PublicationEvents(crc, op, w.gen, Other(slot)), cut), after)
    ensures SameView(if cut > EventCount(op) - 2 then w else before.volume,
                     after.volume)
  {
    ReadsHolds(crc, base, before);
    after := FaultImageReads(crc, base, before.volume, op, slot, w, cut);
  }

  lemma ShownFacts(crc: Checksum, sha: Digest, v: Volume, w: Volume, late: bool, after: Volume)
    requires VolumeOk(crc, v) && VolumeOk(crc, w) && SameView(if late then w else v, after)
    ensures FactsOf(sha, after) == FactsOf(sha, if late then w else v)
  {
    FactsSame(crc, sha, if late then w else v, after);
  }

  /** The harness predicts from the kinds alone what the event count says. */
  lemma WriteAdopts(op: Op, cut: nat)
    requires op.OpCommit? && op.plan.Some?
    ensures AdoptsNewGeneration(WriteKinds(|op.bytes|), cut) == Some(cut > EventCount(op) - 2)
  {
  }

  lemma MaintenanceAdopts(cut: nat)
    ensures AdoptsNewGeneration(PublicationKinds(), cut) == Some(cut > EventCount(OpMaintain) - 2)
  {
  }

  /** The two possible facts of an interrupted write are told apart. */
  lemma WriteFactsTold(crc: Checksum, sha: Digest, v: Volume, op: Op, w: Volume)
    requires EmptyIsZero(crc) && VolumeOk(crc, v) && op.OpCommit? && Publishes(crc, v, op) && w == After(crc, v, op)
    requires VolumeOk(crc, w) && FreshKey(v.gen, op.id.subject, op.id.key)
    ensures WriteTold(sha, op, FactsOf(sha, v), FactsOf(sha, w)) == Some(true)
    ensures WriteTold(sha, op, FactsOf(sha, v), FactsOf(sha, v)) == Some(false)
  {
    NewWriteClassified(crc, sha, v, op, w);
    WriteFacts(crc, sha, v, op, w);
    FindsFile(v.gen, FreshTarget(v.gen, op.id, op.expected).index);
    OldWriteClassified(sha, v, op);
  }

  lemma ToldLate(crc: Checksum, sha: Digest, v: Volume, op: Op, w: Volume, late: bool, observed: Facts)
    requires EmptyIsZero(crc) && VolumeOk(crc, v) && op.OpCommit? && Publishes(crc, v, op) && w == After(crc, v, op)
    requires VolumeOk(crc, w) && FreshKey(v.gen, op.id.subject, op.id.key)
    requires observed == FactsOf(sha, if late then w else v)
    ensures WriteTold(sha, op, FactsOf(sha, v), observed) == Some(late)
  {
    WriteFactsTold(crc, sha, v, op, w);
  }

  /** The verdict on the write `op` itself. */
  function WriteTold(sha: Digest, op: Op, base: Facts, observed: Facts): Option<bool>
    requires op.OpCommit?
  {
    ClassifyWrite(sha, op.id.subject, base, observed, op.id.objectId, op.id.key, op.bytes)
  }

  /**
   * For every cut of a tracked write with a fresh key, the reader accepts the image, and comparing its facts
   * with the base image's never fails and says exactly what the cut index predicts.
   */
  lemma WriteVerdict(crc: Checksum, sha: Digest, base: Image, before: View, slot: U8, op: Op, w: Volume, cut: nat) returns (after: View)
    requires op.OpCommit? && FreshKey(before.volume.gen, op.id.subject, op.id.key)
    requires Reads(crc, base, before) && slot == before.header.generation && Publishing(crc, before.volume, op, slot, w)
    requires cut <= EventCount(op)
    ensures EventsFit(PublicationEvents(crc, op, w.gen, Other(slot))[..cut], |base|)
    ensures Reads(crc, FaultImage(base, PublicationEvents(crc, op, w.gen, Other(slot)), cut), after)
    ensures AdoptsNewGeneration(WriteKinds(|op.bytes|), cut).Some?
    ensures WriteTold(sha, op, FactsOf(sha, before.volume), FactsOf(sha, after.volume))
      == AdoptsNewGeneration(WriteKinds(|op.bytes|), cut)
  {
    PublishingShape(crc, before.volume, op, slot, w);
    WriteAdopts(op, cut);
    after := FaultFacts(crc, sha, base, before, slot, op, w, cut);
    ToldLate(crc, sha, before.volume, op, w, cut > EventCount(op) - 2, FactsOf(sha, after.volume));
  }

  // ---- Maintenance ------------------------------------------------------------

  lemma {:induction false} NoRecordsLeft(sha: Digest, w: Volume, n: nat)
    requires n <= |w.gen.records| && forall j :: 0 <= j < |w.gen.records| ==> w.gen.records[j].None?
    ensures RecordsBefore(sha, w, n) == []
    decreases n
  {
    if n > 0 {
      NoRecordsLeft(sha, w, n - 1);
    }
  }

  /** Dropping all records keeps every file and gives back exactly the reclaimable sectors. */
  lemma MaintainedFacts(sha: Digest, v: Volume, w: Volume)
    requires GenerationOk(v.gen) && v.gen.sequence < U64_MAX && v.gen.epoch < U64_MAX
    requires w == Volume(MaintainNext(v.gen), v.blocks)
    ensures FilesOf(sha, w) == FilesOf(sha, v) && RecordsBefore(sha, w, |w.gen.records|) == []
    ensures FreeSectors(w.gen) == FreeSectors(v.gen) + Reclaimable(v.gen)
  {
    MaintenanceFrees(v.gen);
    FilesSame(sha, v, w);
    NoRecordsLeft(sha, w, |w.gen.records|);
  }

  lemma MaintenanceClassified(crc: Checksum, sha: Digest, v: Volume, w: Volume)
    requires VolumeOk(crc, v) && Publishes(crc, v, OpMaintain) && w == After(crc, v, OpMaintain)
    ensures ClassifyMaintenance(FactsOf(sha, v), FactsOf(sha, w)) == Some(true)
  {
    MaintainedFacts(sha, v, w);
  }

  /** The two possible facts of an interrupted maintenance are told apart. */
  lemma MaintenanceTold(crc: Checksum, sha: Digest, v: Volume, w: Volume)
    requires EmptyIsZero(crc) && VolumeOk(crc, v) && Publishes(crc, v, OpMaintain) && w == After(crc, v, OpMaintain)
    ensures ClassifyMaintenance(FactsOf(sha, v), FactsOf(sha, w)) == Some(true)
    ensures ClassifyMaintenance(FactsOf(sha, v), FactsOf(sha, v)) == Some(false)
  {
    MaintenanceClassified(crc, sha, v, w);
  }

  /** For every cut of a maintenance, the verdict never fails and says exactly what the cut index predicts. */
  lemma MaintenanceVerdict(crc: Checksum, sha: Digest, base: Image, before: View, slot: U8, w: Volume, cut: nat) returns (after: View)
    requires Reads(crc, base, before) && slot == before.header.generation && Publishing(crc, before.volume, OpMaintain, slot, w)
    requires cut <= EventCount(OpMaintain)
    ensures EventsFit(PublicationEvents(crc, OpMaintain, w.gen, Other(slot))[..cut], |base|)
    ensures Reads(crc, FaultImage(base, PublicationEvents(crc, OpMaintain, w.gen, Other(slot)), cut), after)
    ensures AdoptsNewGeneration(PublicationKinds(), cut).Some?
    ensures ClassifyMaintenance(FactsOf(sha, before.volume), FactsOf(sha, after.volume))
      == AdoptsNewGeneration(PublicationKinds(), cut)
  {
    MaintenanceAdopts(cut);
    MaintenanceTold(crc, sha, before.volume, w);
    after := FaultFacts(crc, sha, base, before, slot, OpMaintain, w, cut);
  }
}
