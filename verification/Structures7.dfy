/** The owner's checks of single structures, one early refusal at a time: the same rules as the reader's. */
module Structures7 {
  import opened Bytes
  import opened Format7
  import opened Generation7

  /** Letters, digits and three signs; never a dot entry. */
  method CheckName(name: seq<Byte>) returns (ok: bool)
    ensures ok <==> ValidName(name)
  {
    if name == [] || |name| > 31 || name == [46] || name == [46, 46] {
      return false;
    }
    for i := 0 to |name|
      invariant forall k :: 0 <= k < i ==> AllowedNameByte(name[k])
    {
      var b := name[i];
      if !(48 <= b <= 57 || 65 <= b <= 90 || 97 <= b <= 122 || b in [46, 95, 45]) {
        return false;
      }
    }
    ok := true;
  }

  /** Runs that are in bounds, apart and exactly as long as the payload. */
  method CheckPayload(runs: seq<Run>, length: nat) returns (ok: bool)
    ensures ok <==> RunsOk(runs, length)
  {
    if |runs| > 8 || length > 512 * 1024 {
      return false;
    }
    for i := 0 to |runs|
      invariant forall k :: 0 <= k < i ==> runs[k].count != 0 && runs[k].start + runs[k].count <= DATA_SECTORS
    {
      if runs[i].count == 0 || runs[i].start + runs[i].count > DATA_SECTORS {
        return false;
      }
    }
    for i := 0 to |runs|
      invariant forall k, m :: 0 <= k < i && k < m < |runs| ==> !Overlap(runs[k], runs[m])
    {
      for j := i + 1 to |runs|
        invariant forall m :: i < m < j ==> !Overlap(runs[i], runs[m])
      {
        if runs[i].start < runs[j].start + runs[j].count && runs[j].start < runs[i].start + runs[i].count {
          return false;
        }
      }
    }
    var sectors := 0;
    for i := 0 to |runs|
      invariant sectors + TotalCount(runs[i..]) == TotalCount(runs)
    {
      assert runs[i..][1..] == runs[i + 1..];
      sectors := sectors + runs[i].count;
    }
    var whole := length / 512;
    ok := sectors == if length % 512 == 0 then whole else whole + 1;
  }

  /** A node on its own. */
  method CheckNode(n: Node) returns (ok: bool)
    ensures ok <==> NodeOk(n)
  {
    if n.id == 0 || n.version == 0 || n.space !in [1, 2, 3, 4] {
      return false;
    }
    ok := CheckName(n.name);
    if !ok {
      return;
    }
    if n.kind == Directory && (n.length != 0 || n.crc != 0 || |n.runs| != 0) {
      return false;
    }
    ok := CheckPayload(n.runs, n.length);
  }

  /** The sequence numbers of a record, state by state. */
  method CheckArithmetic(r: Record) returns (ok: bool)
    ensures ok <==> StateArithmetic(r) && r.instance <= Observed(r) && r.epoch <= Observed(r)
  {
    match r.state {
      case DirectCommitted =>
        if r.admission != 0 || r.terminal != r.committed || r.committed <= r.previous || r.instance > r.committed {
          return false;
        }
      case Admitted =>
        if r.committed != 0 || r.terminal != 0 || r.admission <= r.previous || r.instance > r.admission {
          return false;
        }
      case Cancelled =>
        if r.committed != 0 || r.terminal <= r.admission || r.admission <= r.previous || r.instance > r.admission {
          return false;
        }
      case AdmittedCommitted =>
        if r.committed != r.terminal || r.terminal <= r.admission || r.admission <= r.previous || r.instance > r.admission {
          return false;
        }
    }
    var bound := if r.state == DirectCommitted then r.committed else r.admission;
    ok := r.epoch <= bound;
  }

  /** A record on its own. */
  method CheckRecord(r: Record) returns (ok: bool)
    ensures ok <==> RecordOk(r)
  {
    if r.subject == 0 || r.workspace == 0 || r.instance == 0 || r.objectId < 5 || r.objectId == r.workspace
      || r.key == 0 || r.epoch == 0 || r.previous == 0 {
      return false;
    }
    if (r.state == Cancelled) != r.cause.Some? {
      return false;
    }
    ok := CheckArithmetic(r);
    if !ok {
      return;
    }
    ok := CheckPayload(r.runs, r.length);
  }

  /** A record against the header of its generation. */
  method CheckBounds(g: Generation, r: Record) returns (ok: bool)
    ensures ok <==> RecordInBounds(g, r)
  {
    ok := CheckRecord(r);
    if !ok {
      return;
    }
    if r.workspace >= g.next || r.objectId >= g.next {
      return false;
    }
    if r.epoch > g.sequence || r.previous > g.sequence || r.committed > g.sequence || r.terminal > g.sequence
      || r.admission > g.sequence {
      return false;
    }
    ok := r.epoch == g.epoch;
  }

  /** The live file has the record's length, checksum and runs. */
  predicate SameContent(r: Record, n: Node)
  {
    n.kind == File && n.length == r.length && n.crc == r.crc && |n.runs| == |r.runs| && n.runs == r.runs
  }

  /** A record against the live file it names. */
  method CheckTarget(r: Record, n: Node) returns (ok: bool)
    ensures ok <==> TargetOk(r, n)
  {
    if n.kind != File || n.version < r.previous {
      return false;
    }
    if (r.state == Admitted || r.state == Cancelled) && n.version > r.previous && n.version <= r.admission {
      return false;
    }
    if r.state == DirectCommitted || r.state == AdmittedCommitted {
      if n.version < r.committed {
        return false;
      }
      if n.version == r.committed && !SameContent(r, n) {
        return false;
      }
    }
    ok := true;
  }
}
