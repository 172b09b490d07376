/** Payload bytes in run order, and what writing a planned payload does to them. */
module Payload7 {
  import opened Bytes
  import opened Format7

  function RunSectors(run: Run): (s: seq<nat>)
    ensures |s| == run.count
  {
    seq(run.count, k requires 0 <= k < run.count => run.start + k)
  }

  /** The payload sectors of `runs`, in the order the bytes occupy them. */
  function SectorList(runs: seq<Run>): (s: seq<nat>)
    ensures |s| == TotalCount(runs)
  {
    if runs == [] then [] else RunSectors(runs[0]) + SectorList(runs[1..])
  }

  lemma {:induction false} SectorListCovers(runs: seq<Run>, s: nat)
    ensures s in SectorList(runs) <==> Covers(runs, s)
  {
    if runs != [] {
      SectorListCovers(runs[1..], s);
      if InRun(runs[0], s) {
        assert RunSectors(runs[0])[s - runs[0].start] == s;
        assert Covers(runs, s);
      }
      if Covers(runs[1..], s) {
        var i :| 0 <= i < |runs[1..]| && InRun(runs[1..][i], s);
        assert InRun(runs[i + 1], s);
      }
      if Covers(runs, s) && !InRun(runs[0], s) {
        var i :| 0 <= i < |runs| && InRun(runs[i], s);
        assert InRun(runs[1..][i - 1], s);
      }
    }
  }

  lemma {:induction false} SectorListSnoc(runs: seq<Run>, k: nat)
    requires k < |runs|
    ensures SectorList(runs[..k + 1]) == SectorList(runs[..k]) + RunSectors(runs[k])
  {
    if k == 0 {
      assert runs[..1][1..] == [];
      assert SectorList(runs[..1]) == RunSectors(runs[0]) + [];
    } else {
      assert runs[..k + 1][1..] == runs[1..][..k] && runs[..k][1..] == runs[1..][..k - 1];
      SectorListSnoc(runs[1..], k - 1);
    }
  }

  lemma {:induction false} SectorListPrefix(runs: seq<Run>, k: nat)
    requires k <= |runs|
    ensures SectorList(runs[..k]) <= SectorList(runs)
    decreases |runs| - k
  {
    if k == |runs| {
      assert runs[..k] == runs;
    } else {
      SectorListSnoc(runs, k);
      SectorListPrefix(runs, k + 1);
    }
  }

  ghost predicate RunsApart(runs: seq<Run>)
  {
    forall i, j :: 0 <= i < j < |runs| ==> !Overlap(runs[i], runs[j])
  }

  ghost predicate NoRepeats(s: seq<nat>)
  {
    forall i, j :: 0 <= i < j < |s| ==> s[i] != s[j]
  }

  /** Runs that do not overlap name each sector once. */
  lemma {:induction false} SectorListDistinct(runs: seq<Run>)
    requires RunsApart(runs)
    ensures NoRepeats(SectorList(runs))
  {
    if runs != [] {
      var head, rest := RunSectors(runs[0]), SectorList(runs[1..]);
      SectorListDistinct(runs[1..]);
      forall i, j | 0 <= i < |head| && 0 <= j < |rest| ensures head[i] != rest[j] {
        SectorListCovers(runs[1..], rest[j]);
        var k :| 0 <= k < |runs[1..]| && InRun(runs[1..][k], rest[j]);
        assert !Overlap(runs[0], runs[k + 1]);
      }
    }
  }

  // ---- Reading ----------------------------------------------------------------

  function Gather(blocks: seq<Sector>, sectors: seq<nat>): (g: seq<seq<Byte>>)
    requires forall i :: 0 <= i < |sectors| ==> sectors[i] < |blocks|
    ensures |g| == |sectors| && AllSized(g, SECTOR)
  {
    seq(|sectors|, i requires 0 <= i < |sectors| => blocks[sectors[i]])
  }

  predicate RunsInside(runs: seq<Run>, size: nat)
  {
    forall i :: 0 <= i < |runs| ==> runs[i].start + runs[i].count <= size
  }

  lemma SectorListInside(runs: seq<Run>, size: nat)
    requires RunsInside(runs, size)
    ensures forall i :: 0 <= i < |SectorList(runs)| ==> SectorList(runs)[i] < size
  {
    forall i | 0 <= i < |SectorList(runs)| ensures SectorList(runs)[i] < size {
      SectorListCovers(runs, SectorList(runs)[i]);
    }
  }

  lemma RoomForLength(length: nat)
    ensures length <= SectorsNeeded(length) * SECTOR
  {
  }

  /** The first `length` bytes held in `runs` of the payload region. */
  function Content(blocks: seq<Sector>, runs: seq<Run>, length: nat): (b: seq<Byte>)
    requires |blocks| == DATA_SECTORS && RunsOk(runs, length)
    ensures |b| == length
  {
    SectorListInside(runs, DATA_SECTORS);
    var pieces := Gather(blocks, SectorList(runs));
    JoinLength(pieces, SECTOR);
    RoomForLength(length);
    Join(pieces)[..length]
  }

  /** Content depends only on the sectors the runs cover. */
  lemma ContentFrame(a: seq<Sector>, b: seq<Sector>, runs: seq<Run>, length: nat)
    requires |a| == |b| == DATA_SECTORS && RunsOk(runs, length)
    requires forall s: nat :: s < DATA_SECTORS && Covers(runs, s) ==> a[s] == b[s]
    ensures Content(a, runs, length) == Content(b, runs, length)
  {
    SectorListInside(runs, DATA_SECTORS);
    forall i | 0 <= i < |SectorList(runs)|
      ensures a[SectorList(runs)[i]] == b[SectorList(runs)[i]]
    {
      SectorListCovers(runs, SectorList(runs)[i]);
    }
    assert Gather(a, SectorList(runs)) == Gather(b, SectorList(runs));
  }

  // ---- Writing ----------------------------------------------------------------

  /** Sector `k` of a payload, zero padded. */
  function Block(bytes: seq<Byte>, k: nat): (b: Sector)
    requires k < SectorsNeeded(|bytes|)
  {
    var from := k * SECTOR;
    var to := if from + SECTOR <= |bytes| then from + SECTOR else |bytes|;
    bytes[from..to] + Zeros(SECTOR - (to - from))
  }

  function Padded(bytes: seq<Byte>): (b: seq<Byte>)
    ensures |b| == SectorsNeeded(|bytes|) * SECTOR
    ensures b[..|bytes|] == bytes
  {
    RoomForLength(|bytes|);
    bytes + Zeros(SectorsNeeded(|bytes|) * SECTOR - |bytes|)
  }

  lemma BlockIsPiece(bytes: seq<Byte>, k: nat)
    requires k < SectorsNeeded(|bytes|)
    ensures (k + 1) * SECTOR <= |Padded(bytes)|
    ensures Block(bytes, k) == Piece(Padded(bytes), SECTOR, k)
  {
  }

  /** The payload region after the first `count` sectors of a staged payload were written. */
  function Stored(blocks: seq<Sector>, sectors: seq<nat>, bytes: seq<Byte>, count: nat): (r: seq<Sector>)
    requires count <= |sectors| == SectorsNeeded(|bytes|)
    requires forall i :: 0 <= i < |sectors| ==> sectors[i] < |blocks|
    ensures |r| == |blocks|
    ensures forall s :: 0 <= s < |blocks| && s !in sectors ==> r[s] == blocks[s]
    decreases count
  {
    if count == 0 then blocks
    else Stored(blocks, sectors, bytes, count - 1)[sectors[count - 1] := Block(bytes, count - 1)]
  }

  lemma {:induction false} StoredAt(blocks: seq<Sector>, sectors: seq<nat>, bytes: seq<Byte>, count: nat, k: nat)
    requires k < count <= |sectors| == SectorsNeeded(|bytes|)
    requires forall i :: 0 <= i < |sectors| ==> sectors[i] < |blocks|
    requires NoRepeats(sectors)
    ensures Stored(blocks, sectors, bytes, count)[sectors[k]] == Block(bytes, k)
    decreases count
  {
    if k != count - 1 {
      StoredAt(blocks, sectors, bytes, count - 1, k);
    }
  }

  /** The payload region once a whole payload is written in its planned runs. */
  function Written(blocks: seq<Sector>, plan: seq<Run>, bytes: seq<Byte>): (r: seq<Sector>)
    requires |blocks| == DATA_SECTORS && RunsOk(plan, |bytes|)
    ensures |r| == DATA_SECTORS
    ensures forall s: nat :: s < DATA_SECTORS && !Covers(plan, s) ==> r[s] == blocks[s]
  {
    SectorListInside(plan, DATA_SECTORS);
    var r := Stored(blocks, SectorList(plan), bytes, |SectorList(plan)|);
    assert forall s: nat :: s < DATA_SECTORS && !Covers(plan, s) ==> r[s] == blocks[s] by {
      forall s: nat | s < DATA_SECTORS && !Covers(plan, s) ensures r[s] == blocks[s] {
        SectorListCovers(plan, s);
      }
    }
    r
  }

  /** What was written in the planned runs is what reading them returns. */
  lemma ContentOfWritten(blocks: seq<Sector>, plan: seq<Run>, bytes: seq<Byte>)
    requires |blocks| == DATA_SECTORS && RunsOk(plan, |bytes|)
    ensures Content(Written(blocks, plan, bytes), plan, |bytes|) == bytes
  {
    var sectors, count := SectorList(plan), SectorsNeeded(|bytes|);
    SectorListInside(plan, DATA_SECTORS);
    SectorListDistinct(plan);
    var pieces := Gather(Written(blocks, plan, bytes), sectors);
    assert pieces == Pieces(Padded(bytes), SECTOR, count) by {
      forall k | 0 <= k < count ensures pieces[k] == Pieces(Padded(bytes), SECTOR, count)[k] {
        StoredAt(blocks, sectors, bytes, count, k);
        BlockIsPiece(bytes, k);
      }
    }
    JoinOfPieces(Padded(bytes), SECTOR, count);
  }
}
