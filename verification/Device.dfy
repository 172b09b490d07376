/** A block device that may lose or tear any sector written since its last flush. */
module Device {
  import opened Format7
  import opened Codec7
  import opened Image7

  datatype Write = Write(sector: nat, data: Sector)
  datatype Event = Put(write: Write) | Flush

  /** `durable` is what survives; `pending` are the writes since the last flush, oldest first. */
  datatype Disk = Disk(durable: Image, pending: seq<Write>)

  predicate Touches(writes: seq<Write>, s: nat)
  {
    exists i :: 0 <= i < |writes| && writes[i].sector == s
  }

  ghost predicate Fits(writes: seq<Write>, size: nat)
  {
    forall i :: 0 <= i < |writes| ==> writes[i].sector < size
  }

  function Apply(img: Image, writes: seq<Write>): (r: Image)
    requires Fits(writes, |img|)
    ensures |r| == |img|
  {
    if writes == [] then img
    else
      var last := writes[|writes| - 1];
      Apply(img, writes[..|writes| - 1])[last.sector := last.data]
  }

  lemma {:induction false} ApplyFrame(img: Image, writes: seq<Write>, s: nat)
    requires Fits(writes, |img|) && s < |img| && !Touches(writes, s)
    ensures Apply(img, writes)[s] == img[s]
  {
    if writes != [] {
      var rest := writes[..|writes| - 1];
      assert !Touches(rest, s);
      ApplyFrame(img, rest, s);
      assert writes[|writes| - 1].sector != s;
    }
  }

  ghost predicate DistinctTargets(writes: seq<Write>)
  {
    forall i, j :: 0 <= i < j < |writes| ==> writes[i].sector != writes[j].sector
  }

  lemma {:induction false} ApplyAt(img: Image, writes: seq<Write>, i: nat)
    requires Fits(writes, |img|) && DistinctTargets(writes) && i < |writes|
    ensures Apply(img, writes)[writes[i].sector] == writes[i].data
  {
    if i < |writes| - 1 {
      ApplyAt(img, writes[..|writes| - 1], i);
    }
  }

  lemma {:induction false} ApplyConcat(img: Image, a: seq<Write>, b: seq<Write>)
    requires Fits(a, |img|) && Fits(b, |img|)
    ensures Fits(a + b, |img|) && Apply(img, a + b) == Apply(Apply(img, a), b)
  {
    if b == [] {
      assert a + b == a;
    } else {
      ApplyConcat(img, a, b[..|b| - 1]);
      assert (a + b)[..|a + b| - 1] == a + b[..|b| - 1];
    }
  }

  // ---- Device events ----------------------------------------------------------

  predicate EventFits(e: Event, size: nat)
  {
    e.Put? ==> e.write.sector < size
  }

  ghost predicate EventsFit(events: seq<Event>, size: nat)
  {
    forall i :: 0 <= i < |events| ==> EventFits(events[i], size)
  }

  ghost predicate DiskOk(d: Disk)
  {
    Fits(d.pending, |d.durable|)
  }

  function Step(d: Disk, e: Event): (r: Disk)
    requires DiskOk(d) && EventFits(e, |d.durable|)
    ensures DiskOk(r) && |r.durable| == |d.durable|
  {
    match e
    case Put(w) => Disk(d.durable, d.pending + [w])
    case Flush => Disk(Apply(d.durable, d.pending), [])
  }

  /** The device after a sequence of completed events. */
  function Perform(d: Disk, events: seq<Event>): (r: Disk)
    requires DiskOk(d) && EventsFit(events, |d.durable|)
    ensures DiskOk(r) && |r.durable| == |d.durable|
  {
    if events == [] then d else Step(Perform(d, events[..|events| - 1]), events[|events| - 1])
  }

  lemma {:induction false} PerformConcat(d: Disk, a: seq<Event>, b: seq<Event>)
    requires DiskOk(d) && EventsFit(a + b, |d.durable|)
    ensures EventsFit(a, |d.durable|) && EventsFit(b, |d.durable|)
    ensures Perform(d, a + b) == Perform(Perform(d, a), b)
  {
    assert forall i :: 0 <= i < |a| ==> (a + b)[i] == a[i];
    assert forall i :: 0 <= i < |b| ==> (a + b)[|a| + i] == b[i];
    if b == [] {
      assert a + b == a;
    } else {
      assert (a + b)[..|a + b| - 1] == a + b[..|b| - 1];
      PerformConcat(d, a, b[..|b| - 1]);
    }
  }

  lemma PerformNext(d: Disk, events: seq<Event>, k: nat)
    requires DiskOk(d) && EventsFit(events, |d.durable|) && k < |events|
    ensures EventsFit(events[..k], |d.durable|) && EventsFit(events[..k + 1], |d.durable|)
    ensures EventFits(events[k], |d.durable|) && Perform(d, events[..k + 1]) == Step(Perform(d, events[..k]), events[k])
  {
    var more := events[..k + 1];
    assert more[..|more| - 1] == events[..k];
  }

  /** What reads return: every completed write, flushed or not. */
  function Cached(d: Disk): (img: Image)
    requires DiskOk(d)
    ensures |img| == |d.durable|
  {
    Apply(d.durable, d.pending)
  }

  function PutsOf(events: seq<Event>): (writes: seq<Write>)
  {
    if events == [] then []
    else
      var last := events[|events| - 1];
      PutsOf(events[..|events| - 1]) + (if last.Put? then [last.write] else [])
  }

  lemma {:induction false} PutsFit(events: seq<Event>, size: nat)
    requires EventsFit(events, size)
    ensures Fits(PutsOf(events), size)
  {
    if events != [] {
      PutsFit(events[..|events| - 1], size);
      assert EventFits(events[|events| - 1], size);
    }
  }

  /** Flushing changes what survives, never what is read. */
  lemma {:induction false} CachedAfter(d: Disk, events: seq<Event>)
    requires DiskOk(d) && EventsFit(events, |d.durable|)
    ensures Fits(PutsOf(events), |d.durable|)
    ensures Cached(Perform(d, events)) == Apply(Cached(d), PutsOf(events))
  {
    PutsFit(events, |d.durable|);
    if events != [] {
      var prefix, last := events[..|events| - 1], events[|events| - 1];
      CachedAfter(d, prefix);
      assert EventFits(last, |d.durable|);
      if last.Put? {
        ApplyConcat(Perform(d, prefix).durable, Perform(d, prefix).pending, [last.write]);
        ApplyConcat(Cached(d), PutsOf(prefix), [last.write]);
      } else {
        assert PutsOf(events) == PutsOf(prefix);
      }
    }
  }

  // ---- Losing power -----------------------------------------------------------

  /** The header slot stored in sector `s`, if it is a header sector. */
  predicate IsHeaderSector(s: nat)
  {
    HEADER_SECTOR <= s < HEADER_SECTOR + GENERATIONS
  }

  ghost predicate SomePending(d: Disk, s: nat, data: Sector)
  {
    exists i :: 0 <= i < |d.pending| && d.pending[i] == Write(s, data)
  }

  /** An unflushed sector may hold anything; an unflushed header copy is old, new or refused. */
  ghost predicate MayLose(crc: Checksum, d: Disk, img: Image, s: nat)
    requires |img| == |d.durable| && s < |img|
  {
    && (!Touches(d.pending, s) ==> img[s] == d.durable[s])
    && (IsHeaderSector(s) ==>
          || img[s] == d.durable[s]
          || SomePending(d, s, img[s])
          || DecodeHeader(crc, img[s], s - HEADER_SECTOR).None?)
  }

  /** `img` is a possible content of the medium when the device stops. */
  ghost predicate Stops(crc: Checksum, d: Disk, img: Image)
  {
    |img| == |d.durable| && forall s :: 0 <= s < |img| ==> MayLose(crc, d, img, s)
  }

  lemma {:induction false} AppliedValue(img: Image, writes: seq<Write>, s: nat)
    requires Fits(writes, |img|) && s < |img| && Touches(writes, s)
    ensures exists i :: 0 <= i < |writes| && writes[i] == Write(s, Apply(img, writes)[s])
  {
    var last := |writes| - 1;
    if writes[last].sector == s {
      assert writes[last] == Write(s, Apply(img, writes)[s]);
    } else {
      var rest := writes[..last];
      assert Touches(rest, s) by {
        var i :| 0 <= i < |writes| && writes[i].sector == s;
        assert rest[i].sector == s;
      }
      AppliedValue(img, rest, s);
      var i :| 0 <= i < |rest| && rest[i] == Write(s, Apply(img, rest)[s]);
      assert writes[i] == rest[i];
    }
  }

  /** A fail-stop that keeps every completed write is one of the possibilities. */
  lemma FailStopPossible(crc: Checksum, d: Disk)
    requires DiskOk(d)
    ensures Stops(crc, d, Cached(d))
  {
    forall s | 0 <= s < |d.durable|
      ensures MayLose(crc, d, Cached(d), s)
    {
      if Touches(d.pending, s) {
        AppliedValue(d.durable, d.pending, s);
      } else {
        ApplyFrame(d.durable, d.pending, s);
      }
    }
  }

  /** Losing everything since the last flush is another. */
  lemma LossPossible(crc: Checksum, d: Disk)
    ensures Stops(crc, d, d.durable)
  {
    forall s | 0 <= s < |d.durable| ensures MayLose(crc, d, d.durable, s) {
    }
  }

  /** So is a torn sector: any content at all, except that a torn header copy must not decode. */
  lemma TearPossible(crc: Checksum, d: Disk, s: nat, data: Sector)
    requires s < |d.durable| && Touches(d.pending, s)
    requires IsHeaderSector(s) ==> DecodeHeader(crc, data, s - HEADER_SECTOR).None?
    ensures Stops(crc, d, d.durable[s := data])
  {
    var img := d.durable[s := data];
    forall t | 0 <= t < |img| ensures MayLose(crc, d, img, t) {
    }
  }
}
