/** What a verdict of the fault harness means: each one holds exactly when the two volumes are related as it says. */
module Verdicts7 {
  import opened Bytes
  import opened Format7
  import opened Generation7
  import opened Steps7
  import opened Volume7
  import opened Accounting7
  import opened Snapshot7
  import opened Classify7

  // ---- Files ------------------------------------------------------------------

  /** The file in slot `i` of `v` and the one in slot `k` of `w` are told alike. */
  ghost predicate ToldAlike(sha: Digest, v: Volume, i: int, w: Volume, k: int)
  {
    && IsFile(v.gen.nodes, i) && IsFile(w.gen.nodes, k)
    && var m, n := v.gen.nodes[i].value, w.gen.nodes[k].value;
       && m.id == n.id && m.version == n.version && m.length == n.length
       && PathAt(v.gen.nodes, i) == PathAt(w.gen.nodes, k)
       && sha(BytesIn(v.blocks, m.runs, m.length)) == sha(BytesIn(w.blocks, n.runs, n.length))
  }

  /** Every file of `v` is in `w`, with path, version, size and digest unchanged. */
  ghost predicate FilesWithin(sha: Digest, v: Volume, w: Volume)
  {
    forall i :: IsFile(v.gen.nodes, i) ==> exists k :: ToldAlike(sha, v, i, w, k)
  }

  lemma FileFactAt(sha: Digest, v: Volume, i: int)
    requires NamespaceOk(v.gen) && IsFile(v.gen.nodes, i)
    ensures v.gen.nodes[i].value.id in FilesOf(sha, v)
    ensures FilesOf(sha, v)[v.gen.nodes[i].value.id] == FileFact(sha, v, i)
  {
    FindsFile(v.gen, i);
  }

  lemma WithinMeans(sha: Digest, v: Volume, w: Volume)
    requires NamespaceOk(v.gen) && NamespaceOk(w.gen)
    ensures FilesWithin(sha, v, w) <==>
      forall id :: id in FilesOf(sha, v) ==> id in FilesOf(sha, w) && FilesOf(sha, w)[id] == FilesOf(sha, v)[id]
  {
    if FilesWithin(sha, v, w) {
      forall id | id in FilesOf(sha, v) ensures id in FilesOf(sha, w) && FilesOf(sha, w)[id] == FilesOf(sha, v)[id] {
        FindsId(v.gen, id);
        var i := FindNode(v.gen.nodes, id).value;
        var k :| ToldAlike(sha, v, i, w, k);
        FileFactAt(sha, v, i);
        FileFactAt(sha, w, k);
      }
    } else {
      var i :| IsFile(v.gen.nodes, i) && !exists k :: ToldAlike(sha, v, i, w, k);
      var id := v.gen.nodes[i].value.id as nat;
      FileFactAt(sha, v, i);
      if id in FilesOf(sha, w) && FilesOf(sha, w)[id] == FilesOf(sha, v)[id] {
        FindsId(w.gen, id);
        var k := FindNode(w.gen.nodes, id).value;
        FileFactAt(sha, w, k);
        assert ToldAlike(sha, v, i, w, k);
      }
    }
  }

  /** The listed files are equal exactly when each volume's files are in the other. */
  lemma SameFilesMeans(sha: Digest, v: Volume, w: Volume)
    requires NamespaceOk(v.gen) && NamespaceOk(w.gen)
    ensures FilesOf(sha, v) == FilesOf(sha, w) <==> FilesWithin(sha, v, w) && FilesWithin(sha, w, v)
  {
    WithinMeans(sha, v, w);
    WithinMeans(sha, w, v);
    var a, b := FilesOf(sha, v), FilesOf(sha, w);
    if FilesWithin(sha, v, w) && FilesWithin(sha, w, v) {
      assert a.Keys == b.Keys;
    }
  }

  // ---- Records ----------------------------------------------------------------

  function HeldBefore(records: seq<Option<Record>>, n: nat): set<nat>
    requires n <= |records|
  {
    set j: nat | 0 <= j < n && records[j].Some?
  }

  /** The slots that retain a record. */
  function HeldSlots(records: seq<Option<Record>>): set<nat>
  {
    HeldBefore(records, |records|)
  }

  lemma HeldStep(records: seq<Option<Record>>, n: nat)
    requires n < |records|
    ensures HeldBefore(records, n + 1) == HeldBefore(records, n) + (if Held(records, n) then {n} else {})
    ensures |HeldBefore(records, n + 1)| == |HeldBefore(records, n)| + (if Held(records, n) then 1 else 0)
  {
    assert HeldBefore(records, n + 1) == HeldBefore(records, n) + (if Held(records, n) then {n} else {});
  }

  lemma {:induction false} ListedHeld(sha: Digest, v: Volume, n: nat)
    requires n <= |v.gen.records|
    ensures |RecordsBefore(sha, v, n)| == |HeldBefore(v.gen.records, n)|
    decreases n
  {
    if n > 0 {
      ListedHeld(sha, v, n - 1);
      HeldStep(v.gen.records, n - 1);
      RecordsSnoc(sha, v, n - 1);
    }
  }

  /** Slot `j` retains a record of this subject and key. */
  predicate OursAt(records: seq<Option<Record>>, shell: nat, key: nat, j: int)
  {
    Held(records, j) && records[j].value.subject == shell && records[j].value.key == key
  }

  /** The records told as ours are those in the slots that are ours, in slot order. */
  ghost predicate OursListed(sha: Digest, v: Volume, shell: nat, key: nat, n: nat, ours: seq<RecordFacts>)
  {
    && (forall a :: 0 <= a < |ours| ==> ours[a].slot < n && OursAt(v.gen.records, shell, key, ours[a].slot)
                                        && ours[a] == RecordFact(sha, v, ours[a].slot))
    && (forall j :: 0 <= j < n && OursAt(v.gen.records, shell, key, j) ==> exists a :: 0 <= a < |ours| && ours[a].slot == j)
    && (forall a, b :: 0 <= a < b < |ours| ==> ours[a].slot < ours[b].slot)
  }

  lemma OursListedStep(sha: Digest, v: Volume, shell: nat, key: nat, n: nat, ours: seq<RecordFacts>)
    requires n < |v.gen.records| && OursListed(sha, v, shell, key, n, ours)
    ensures OursAt(v.gen.records, shell, key, n) ==>
      OursListed(sha, v, shell, key, n + 1, ours + [RecordFact(sha, v, n)])
    ensures !OursAt(v.gen.records, shell, key, n) ==> OursListed(sha, v, shell, key, n + 1, ours)
  {
    if OursAt(v.gen.records, shell, key, n) {
      var more := ours + [RecordFact(sha, v, n)];
      forall j | 0 <= j < n + 1 && OursAt(v.gen.records, shell, key, j) ensures exists a :: 0 <= a < |more| && more[a].slot == j {
        if j < n {
          var a :| 0 <= a < |ours| && ours[a].slot == j;
          assert more[a].slot == j;
        } else {
          assert more[|ours|].slot == j;
        }
      }
    }
  }

  /** One more slot: its record is told as ours exactly when the slot is ours. */
  lemma OursStep(sha: Digest, v: Volume, shell: nat, key: nat, m: nat)
    requires m < |v.gen.records|
    ensures var ours := Ours(RecordsBefore(sha, v, m), shell, key);
      Ours(RecordsBefore(sha, v, m + 1), shell, key)
      == if OursAt(v.gen.records, shell, key, m) then ours + [RecordFact(sha, v, m)] else ours
  {
    var before := RecordsBefore(sha, v, m);
    RecordsSnoc(sha, v, m);
    if Held(v.gen.records, m) {
      OursSnoc(before, RecordFact(sha, v, m), shell, key);
      assert Ours(before, shell, key) + [] == Ours(before, shell, key);
    }
  }

  lemma {:induction false} OursAre(sha: Digest, v: Volume, shell: nat, key: nat, n: nat)
    requires n <= |v.gen.records|
    ensures OursListed(sha, v, shell, key, n, Ours(RecordsBefore(sha, v, n), shell, key))
    decreases n
  {
    if n > 0 {
      var m := n - 1;
      var ours := Ours(RecordsBefore(sha, v, m), shell, key);
      OursAre(sha, v, shell, key, m);
      OursStep(sha, v, shell, key, m);
      OursListedStep(sha, v, shell, key, m, ours);
    } else {
      assert RecordsBefore(sha, v, 0) == [];
    }
  }

  lemma TwoListed(sha: Digest, v: Volume, shell: nat, key: nat, ours: seq<RecordFacts>, j: int)
    requires OursListed(sha, v, shell, key, |v.gen.records|, ours) && |ours| > 1
    ensures !OnlyOurs(v.gen.records, shell, key, j)
  {
    assert ours[0].slot < ours[1].slot;
    assert OursAt(v.gen.records, shell, key, ours[0].slot) && OursAt(v.gen.records, shell, key, ours[1].slot);
  }

  lemma OneListed(sha: Digest, v: Volume, shell: nat, key: nat, ours: seq<RecordFacts>, j: int)
    requires OursListed(sha, v, shell, key, |v.gen.records|, ours) && OnlyOurs(v.gen.records, shell, key, j)
    ensures |ours| == 1 && ours[0] == RecordFact(sha, v, j)
  {
    var a :| 0 <= a < |ours| && ours[a].slot == j;
    if |ours| > 1 {
      TwoListed(sha, v, shell, key, ours, j);
    }
  }

  lemma ListedOne(sha: Digest, v: Volume, shell: nat, key: nat, ours: seq<RecordFacts>)
    requires OursListed(sha, v, shell, key, |v.gen.records|, ours) && |ours| == 1
    ensures OnlyOurs(v.gen.records, shell, key, ours[0].slot)
  {
    forall k | OursAt(v.gen.records, shell, key, k) ensures k == ours[0].slot {
      var a :| 0 <= a < |ours| && ours[a].slot == k;
    }
  }

  /** No record is told as ours when no slot is; exactly one when exactly one slot is, and then it is that slot's. */
  lemma OneOurs(sha: Digest, v: Volume, shell: nat, key: nat)
    ensures var ours := Ours(RecordsBefore(sha, v, |v.gen.records|), shell, key);
      && (ours == [] <==> forall j :: !OursAt(v.gen.records, shell, key, j))
      && (|ours| == 1 <==> exists j :: OnlyOurs(v.gen.records, shell, key, j))
      && (forall j :: OnlyOurs(v.gen.records, shell, key, j) ==> |ours| == 1 && ours[0] == RecordFact(sha, v, j))
  {
    var records := v.gen.records;
    var ours := Ours(RecordsBefore(sha, v, |records|), shell, key);
    OursAre(sha, v, shell, key, |records|);
    if |ours| == 1 {
      ListedOne(sha, v, shell, key, ours);
    }
    forall j | OnlyOurs(records, shell, key, j) ensures |ours| == 1 && ours[0] == RecordFact(sha, v, j) {
      OneListed(sha, v, shell, key, ours, j);
    }
    if ours != [] {
      assert OursAt(records, shell, key, ours[0].slot);
    }
  }

  ghost predicate OnlyOurs(records: seq<Option<Record>>, shell: nat, key: nat, j: int)
  {
    OursAt(records, shell, key, j) && forall k :: OursAt(records, shell, key, k) ==> k == j
  }

  /** What the harness compares of a record: subject, epoch, key and committed version. */
  function KeyOf(r: Record): (nat, nat, nat, nat)
  {
    (r.subject, r.epoch, r.key, r.committed)
  }

  function SlotsWith(records: seq<Option<Record>>, key: (nat, nat, nat, nat), n: nat): set<nat>
    requires n <= |records|
  {
    set j: nat | 0 <= j < n && records[j].Some? && KeyOf(records[j].value) == key
  }

  /** Both tables retain the same keys, each the same number of times, in whatever slots. */
  ghost predicate SameKeys(a: seq<Option<Record>>, b: seq<Option<Record>>)
  {
    forall key :: |SlotsWith(a, key, |a|)| == |SlotsWith(b, key, |b|)|
  }

  lemma SlotsWithStep(records: seq<Option<Record>>, key: (nat, nat, nat, nat), n: nat)
    requires n < |records|
    ensures |SlotsWith(records, key, n + 1)|
      == |SlotsWith(records, key, n)| + if Held(records, n) && KeyOf(records[n].value) == key then 1 else 0
  {
    var more := if Held(records, n) && KeyOf(records[n].value) == key then {n} else {};
    assert SlotsWith(records, key, n + 1) == SlotsWith(records, key, n) + more;
  }

  lemma KeysSnoc(records: seq<RecordFacts>, last: RecordFacts)
    ensures RecordKeys(records + [last]) == RecordKeys(records) + multiset{(last.subject, last.epoch, last.key, last.committed)}
  {
    var a := seq(|records|, i requires 0 <= i < |records| =>
      (records[i].subject, records[i].epoch, records[i].key, records[i].committed));
    var more := records + [last];
    var b := seq(|more|, i requires 0 <= i < |more| =>
      (more[i].subject, more[i].epoch, more[i].key, more[i].committed));
    assert b == a + [(last.subject, last.epoch, last.key, last.committed)];
  }

  lemma {:induction false} KeysCounted(sha: Digest, v: Volume, key: (nat, nat, nat, nat), n: nat)
    requires n <= |v.gen.records|
    ensures RecordKeys(RecordsBefore(sha, v, n))[key] == |SlotsWith(v.gen.records, key, n)|
    decreases n
  {
    if n > 0 {
      var m := n - 1;
      KeysCounted(sha, v, key, m);
      SlotsWithStep(v.gen.records, key, m);
      RecordsSnoc(sha, v, m);
      if Held(v.gen.records, m) {
        KeysSnoc(RecordsBefore(sha, v, m), RecordFact(sha, v, m));
      }
    }
  }

  lemma SameKeysMeans(sha: Digest, v: Volume, w: Volume)
    ensures RecordKeys(RecordsBefore(sha, v, |v.gen.records|)) == RecordKeys(RecordsBefore(sha, w, |w.gen.records|))
      <==> SameKeys(v.gen.records, w.gen.records)
  {
    var a, b := RecordKeys(RecordsBefore(sha, v, |v.gen.records|)), RecordKeys(RecordsBefore(sha, w, |w.gen.records|));
    forall key
      ensures a[key] == |SlotsWith(v.gen.records, key, |v.gen.records|)|
      ensures b[key] == |SlotsWith(w.gen.records, key, |w.gen.records|)|
    {
      KeysCounted(sha, v, key, |v.gen.records|);
      KeysCounted(sha, w, key, |w.gen.records|);
    }
    if SameKeys(v.gen.records, w.gen.records) {
      assert forall key :: a[key] == b[key];
    }
  }

  // ---- Verdicts ---------------------------------------------------------------

  /** `w` is one write after `v`: one more record, the only one of the key, and the live file is its version and content. */
  ghost predicate WriteBetween(sha: Digest, shell: nat, v: Volume, w: Volume, scratch: nat, key: nat,
                               content: seq<Byte>, i: int, k: int, j: int)
  {
    && IsFile(v.gen.nodes, i) && v.gen.nodes[i].value.id == scratch
    && IsFile(w.gen.nodes, k) && w.gen.nodes[k].value.id == scratch
    && w.gen.sequence == v.gen.sequence + 1
    && |HeldSlots(w.gen.records)| == |HeldSlots(v.gen.records)| + 1
    && OnlyOurs(w.gen.records, shell, key, j)
    && var r, n := w.gen.records[j].value, w.gen.nodes[k].value;
       && r.state == DirectCommitted && r.objectId == scratch && r.previous == v.gen.nodes[i].value.version
       && r.committed == w.gen.sequence && r.length == |content| && sha(BytesIn(w.blocks, r.runs, r.length)) == sha(content)
       && n.version == w.gen.sequence && n.length == |content| && sha(BytesIn(w.blocks, n.runs, n.length)) == sha(content)
  }

  /** `w` shows what `v` shows, and no record of the key. */
  ghost predicate NothingBetween(sha: Digest, v: Volume, w: Volume)
  {
    && w.gen.sequence == v.gen.sequence
    && SameKeys(w.gen.records, v.gen.records)
    && FilesWithin(sha, v, w) && FilesWithin(sha, w, v)
    && |w.gen.used| == |v.gen.used|
  }

  lemma FileListedOnce(sha: Digest, v: Volume, id: nat)
    requires NamespaceOk(v.gen)
    ensures id in FilesOf(sha, v) <==> exists i :: IsFile(v.gen.nodes, i) && v.gen.nodes[i].value.id == id
    ensures forall i :: IsFile(v.gen.nodes, i) && v.gen.nodes[i].value.id == id ==>
      id in FilesOf(sha, v) && FilesOf(sha, v)[id] == FileFact(sha, v, i)
  {
    if id in FilesOf(sha, v) {
      FindsId(v.gen, id);
      assert IsFile(v.gen.nodes, FindNode(v.gen.nodes, id).value);
    }
    forall i | IsFile(v.gen.nodes, i) && v.gen.nodes[i].value.id == id
      ensures id in FilesOf(sha, v) && FilesOf(sha, v)[id] == FileFact(sha, v, i)
    {
      FileFactAt(sha, v, i);
    }
  }

  /** The facts a new verdict looks at, tied to the file and the record they come from. */
  lemma NewFacts(sha: Digest, shell: nat, v: Volume, w: Volume, scratch: nat, key: nat, content: seq<Byte>,
                 base: Facts, observed: Facts, i: int, k: int, j: int)
    requires IsFile(v.gen.nodes, i) && v.gen.nodes[i].value.id == scratch
    requires IsFile(w.gen.nodes, k) && w.gen.nodes[k].value.id == scratch
    requires scratch in base.files && base.files[scratch] == FileFact(sha, v, i) && base.sequence == v.gen.sequence
    requires scratch in observed.files && observed.files[scratch] == FileFact(sha, w, k) && observed.sequence == w.gen.sequence
    requires |base.records| == |HeldSlots(v.gen.records)| && |observed.records| == |HeldSlots(w.gen.records)|
    requires OnlyOurs(w.gen.records, shell, key, j)
    requires |Ours(observed.records, shell, key)| == 1 && Ours(observed.records, shell, key)[0] == RecordFact(sha, w, j)
    ensures ClassifyWrite(sha, shell, base, observed, scratch, key, content) == Some(true)
      <==> WriteBetween(sha, shell, v, w, scratch, key, content, i, k, j)
  {
  }

  lemma NewNeeds(sha: Digest, shell: nat, base: Facts, observed: Facts, scratch: nat, key: nat, content: seq<Byte>)
    requires ClassifyWrite(sha, shell, base, observed, scratch, key, content) == Some(true)
    ensures scratch in base.files && scratch in observed.files && |Ours(observed.records, shell, key)| == 1
  {
  }

  lemma NewVerdict(sha: Digest, shell: nat, v: Volume, w: Volume, scratch: nat, key: nat, content: seq<Byte>)
    requires NamespaceOk(v.gen) && NamespaceOk(w.gen)
    ensures ClassifyWrite(sha, shell, FactsOf(sha, v), FactsOf(sha, w), scratch, key, content) == Some(true)
      <==> exists i, k, j :: WriteBetween(sha, shell, v, w, scratch, key, content, i, k, j)
  {
    var base, observed := FactsOf(sha, v), FactsOf(sha, w);
    FileListedOnce(sha, v, scratch);
    FileListedOnce(sha, w, scratch);
    OneOurs(sha, w, shell, key);
    ListedHeld(sha, v, |v.gen.records|);
    ListedHeld(sha, w, |w.gen.records|);
    if ClassifyWrite(sha, shell, base, observed, scratch, key, content) == Some(true) {
      NewNeeds(sha, shell, base, observed, scratch, key, content);
      var i :| IsFile(v.gen.nodes, i) && v.gen.nodes[i].value.id == scratch;
      var k :| IsFile(w.gen.nodes, k) && w.gen.nodes[k].value.id == scratch;
      var j :| OnlyOurs(w.gen.records, shell, key, j);
      NewFacts(sha, shell, v, w, scratch, key, content, base, observed, i, k, j);
    }
    if i, k, j :| WriteBetween(sha, shell, v, w, scratch, key, content, i, k, j) {
      NewFacts(sha, shell, v, w, scratch, key, content, base, observed, i, k, j);
    }
  }

  lemma OldFacts(sha: Digest, shell: nat, base: Facts, observed: Facts, scratch: nat, key: nat, content: seq<Byte>)
    ensures ClassifyWrite(sha, shell, base, observed, scratch, key, content) == Some(false) <==>
      && scratch in base.files && observed.files == base.files && observed.sequence == base.sequence
      && Ours(observed.records, shell, key) == [] && RecordKeys(observed.records) == RecordKeys(base.records)
      && observed.free == base.free
  {
  }

  /** Nothing happened between two volumes exactly when what the harness compares of them is equal. */
  lemma NothingMeans(sha: Digest, v: Volume, w: Volume)
    requires NamespaceOk(v.gen) && NamespaceOk(w.gen)
    ensures var base, observed := FactsOf(sha, v), FactsOf(sha, w);
      NothingBetween(sha, v, w) <==>
        && observed.sequence == base.sequence && RecordKeys(observed.records) == RecordKeys(base.records)
        && observed.files == base.files && observed.free == base.free
  {
    SameKeysMeans(sha, w, v);
    SameFilesMeans(sha, v, w);
  }

  lemma OldVerdict(sha: Digest, shell: nat, v: Volume, w: Volume, scratch: nat, key: nat, content: seq<Byte>)
    requires NamespaceOk(v.gen) && NamespaceOk(w.gen)
    ensures ClassifyWrite(sha, shell, FactsOf(sha, v), FactsOf(sha, w), scratch, key, content) == Some(false)
      <==>
      && (exists i :: IsFile(v.gen.nodes, i) && v.gen.nodes[i].value.id == scratch)
      && NothingBetween(sha, v, w) && forall j :: !OursAt(w.gen.records, shell, key, j)
  {
    OldFacts(sha, shell, FactsOf(sha, v), FactsOf(sha, w), scratch, key, content);
    FileListedOnce(sha, v, scratch);
    OneOurs(sha, w, shell, key);
    NothingMeans(sha, v, w);
  }

  /**
   * The verdict on a write, for any two accepted volumes: `new` exactly when the second is one write of this content
   * after the first, `old` exactly when it shows the same files, records and free space; anything else is a failure.
   */
  lemma WriteVerdictMeans(sha: Digest, shell: nat, v: Volume, w: Volume, scratch: nat, key: nat, content: seq<Byte>)
    requires GenerationOk(v.gen) && GenerationOk(w.gen)
    ensures var verdict := ClassifyWrite(sha, shell, FactsOf(sha, v), FactsOf(sha, w), scratch, key, content);
      && (verdict == Some(true) <==> exists i, k, j :: WriteBetween(sha, shell, v, w, scratch, key, content, i, k, j))
      && (verdict == Some(false) <==>
            && (exists i :: IsFile(v.gen.nodes, i) && v.gen.nodes[i].value.id == scratch)
            && NothingBetween(sha, v, w) && forall j :: !OursAt(w.gen.records, shell, key, j))
  {
    NewVerdict(sha, shell, v, w, scratch, key, content);
    OldVerdict(sha, shell, v, w, scratch, key, content);
  }

  /** `w` is one maintenance after `v`: the next epoch, no record, the same files, exactly the reclaimable space freed. */
  ghost predicate MaintenanceBetween(sha: Digest, v: Volume, w: Volume)
  {
    && w.gen.epoch == v.gen.epoch + 1 && w.gen.sequence == v.gen.sequence + 1
    && HeldSlots(w.gen.records) == {}
    && FilesWithin(sha, v, w) && FilesWithin(sha, w, v)
    && |v.gen.used| - |w.gen.used| == Reclaimable(v.gen)
  }

  lemma MaintenanceMeans(sha: Digest, v: Volume, w: Volume)
    requires NamespaceOk(v.gen) && NamespaceOk(w.gen)
    ensures var base, observed := FactsOf(sha, v), FactsOf(sha, w);
      MaintenanceBetween(sha, v, w) <==>
        && observed.epoch == base.epoch + 1 && observed.sequence == base.sequence + 1 && observed.records == []
        && observed.files == base.files && observed.free == base.free + base.reclaimable
  {
    ListedHeld(sha, w, |w.gen.records|);
    SameFilesMeans(sha, v, w);
  }

  /**
   * The verdict on a maintenance, for any two accepted volumes: `new` exactly when the second is one maintenance after
   * the first, `old` exactly when nothing happened between them; anything else is a failure.
   */
  lemma MaintenanceVerdictMeans(sha: Digest, v: Volume, w: Volume)
    requires GenerationOk(v.gen) && GenerationOk(w.gen)
    ensures ClassifyMaintenance(FactsOf(sha, v), FactsOf(sha, w)) == Some(true) <==> MaintenanceBetween(sha, v, w)
    ensures ClassifyMaintenance(FactsOf(sha, v), FactsOf(sha, w)) == Some(false) <==>
      w.gen.epoch == v.gen.epoch && NothingBetween(sha, v, w)
  {
    MaintenanceMeans(sha, v, w);
    NothingMeans(sha, v, w);
  }
}
