/** Pages covered by load segments: the sorted sweep against the union, and the per-segment sum. */
module PageUnion {
  import opened Bytes

  const PAGE := 4096
  const LOAD := 1
  const MAX_HEADERS := 32
  const HEADER := 56
  const HEADER_READ := 48

  /** One program header, as far as the page counts look at it. */
  datatype Segment = Segment(kind: nat, flags: nat, address: nat, fileSize: nat, memorySize: nat)

  /** Half-open page ranges. */
  datatype Pages = Pages(start: nat, stop: nat)

  function Largest(a: nat, b: nat): nat
  {
    if a < b then b else a
  }

  function PagesOf(s: Segment): Pages
  {
    Pages(s.address / PAGE, (s.address + s.memorySize + PAGE - 1) / PAGE)
  }

  function Covered(r: Pages): set<nat>
  {
    set p: nat | r.start <= p < r.stop && InPages(r, p)
  }

  predicate InPages(r: Pages, p: nat)
  {
    r.start <= p < r.stop
  }

  ghost predicate CoveredBy(ranges: seq<Pages>, p: nat)
  {
    exists i :: 0 <= i < |ranges| && InPages(ranges[i], p)
  }

  /** The distinct pages of all ranges. */
  function Union(ranges: seq<Pages>): set<nat>
  {
    if ranges == [] then {} else Union(ranges[..|ranges| - 1]) + Covered(ranges[|ranges| - 1])
  }

  lemma {:induction false} InUnion(ranges: seq<Pages>, p: nat)
    ensures p in Union(ranges) <==> CoveredBy(ranges, p)
  {
    if ranges != [] {
      var last := |ranges| - 1;
      InUnion(ranges[..last], p);
      if i :| 0 <= i < |ranges| && InPages(ranges[i], p) {
        assert i < last ==> InPages(ranges[..last][i], p);
      }
      if i :| 0 <= i < last && InPages(ranges[..last][i], p) {
        assert InPages(ranges[i], p);
      }
      assert p in Covered(ranges[last]) ==> InPages(ranges[last], p);
    }
  }

  lemma {:induction false} CoveredSize(r: Pages)
    requires r.start <= r.stop
    ensures |Covered(r)| == r.stop - r.start
    decreases r.stop
  {
    if r.start == r.stop {
      assert Covered(r) == {};
    } else {
      var less := Pages(r.start, r.stop - 1);
      CoveredSize(less);
      assert Covered(r) == Covered(less) + {r.stop - 1};
    }
  }

  /** Adding a range adds the part of it that was not covered. */
  lemma UnionSnoc(ranges: seq<Pages>, r: Pages)
    ensures Union(ranges + [r]) == Union(ranges) + Covered(r)
  {
    assert (ranges + [r])[..|ranges|] == ranges;
  }

  // ---- Sorting ----------------------------------------------------------------

  predicate Before(a: Pages, b: Pages)
  {
    a.start < b.start || (a.start == b.start && a.stop <= b.stop)
  }

  predicate Sorted(ranges: seq<Pages>)
  {
    forall i, j :: 0 <= i < j < |ranges| ==> Before(ranges[i], ranges[j])
  }

  function Inserted(sorted: seq<Pages>, r: Pages): seq<Pages>
  {
    if sorted == [] then [r]
    else if Before(r, sorted[0]) then [r] + sorted
    else [sorted[0]] + Inserted(sorted[1..], r)
  }

  lemma PrependSorted(x: Pages, rest: seq<Pages>)
    requires Sorted(rest) && forall y :: y in rest ==> Before(x, y)
    ensures Sorted([x] + rest)
  {
    var all := [x] + rest;
    forall i, j | 0 <= i < j < |all| ensures Before(all[i], all[j]) {
      assert all[j] == rest[j - 1];
      assert i > 0 ==> all[i] == rest[i - 1];
    }
  }

  lemma {:induction false} InsertedOk(sorted: seq<Pages>, r: Pages)
    requires Sorted(sorted)
    ensures Sorted(Inserted(sorted, r)) && multiset(Inserted(sorted, r)) == multiset(sorted) + multiset{r}
  {
    if sorted != [] {
      var x, tail := sorted[0], sorted[1..];
      assert sorted == [x] + tail;
      if Before(r, x) {
        PrependSorted(r, sorted);
      } else {
        InsertedOk(tail, r);
        forall y | y in Inserted(tail, r) ensures Before(x, y) {
          assert y in multiset(Inserted(tail, r));
        }
        PrependSorted(x, Inserted(tail, r));
      }
    }
  }

  function SortedRanges(ranges: seq<Pages>): seq<Pages>
  {
    if ranges == [] then [] else Inserted(SortedRanges(ranges[..|ranges| - 1]), ranges[|ranges| - 1])
  }

  lemma {:induction false} SortedRangesOk(ranges: seq<Pages>)
    ensures Sorted(SortedRanges(ranges)) && multiset(SortedRanges(ranges)) == multiset(ranges)
  {
    if ranges != [] {
      var last := |ranges| - 1;
      SortedRangesOk(ranges[..last]);
      InsertedOk(SortedRanges(ranges[..last]), ranges[last]);
      assert ranges == ranges[..last] + [ranges[last]];
    }
  }

  /** The union does not depend on order or repetition. */
  lemma SameRanges(a: seq<Pages>, b: seq<Pages>)
    requires forall r :: r in a <==> r in b
    ensures Union(a) == Union(b)
  {
    forall p: nat ensures p in Union(a) <==> p in Union(b) {
      InUnion(a, p);
      InUnion(b, p);
      if i :| 0 <= i < |a| && InPages(a[i], p) {
        assert a[i] in b;
        var j :| 0 <= j < |b| && b[j] == a[i];
        assert InPages(b[j], p);
      }
      if i :| 0 <= i < |b| && InPages(b[i], p) {
        assert b[i] in a;
        var j :| 0 <= j < |a| && a[j] == b[i];
        assert InPages(a[j], p);
      }
    }
  }

  // ---- The sweep --------------------------------------------------------------

  /** `end` is the furthest stop among `ranges`. */
  ghost predicate Furthest(ranges: seq<Pages>, end: nat)
  {
    && (forall i :: 0 <= i < |ranges| ==> ranges[i].stop <= end)
    && (ranges == [] ==> end == 0)
    && (ranges != [] ==> exists i :: 0 <= i < |ranges| && ranges[i].stop == end)
  }

  /** The part of `r` past `end`. */
  function Added(r: Pages, end: nat): Pages
  {
    Pages(Largest(r.start, end), Largest(r.stop, Largest(r.start, end)))
  }

  /** What the next range of a sorted list adds lies past everything covered so far. */
  lemma NextAdds(ranges: seq<Pages>, r: Pages, end: nat)
    requires Furthest(ranges, end) && (forall i :: 0 <= i < |ranges| ==> ranges[i].start <= r.start) && r.start <= r.stop
    ensures Union(ranges + [r]) == Union(ranges) + Covered(Added(r, end))
    ensures Union(ranges) !! Covered(Added(r, end))
  {
    UnionSnoc(ranges, r);
    var more := Added(r, end);
    forall p: nat | p in Covered(r) ensures p in Union(ranges) || p in Covered(more) {
      InUnion(ranges, p);
      if p < end {
        var i :| 0 <= i < |ranges| && ranges[i].stop == end;
        assert InPages(ranges[i], p);
      } else {
        assert InPages(more, p);
      }
    }
    forall p: nat | p in Covered(more) ensures p in Covered(r) && p !in Union(ranges) {
      InUnion(ranges, p);
      assert InPages(r, p);
    }
  }

  /** How far `r` reaches past both its start and `end`. */
  function Excess(r: Pages, end: nat): nat
  {
    if r.stop > Largest(r.start, end) then r.stop - Largest(r.start, end) else 0
  }

  lemma SweepStep(sorted: seq<Pages>, k: nat, end: nat)
    requires Sorted(sorted) && k < |sorted| && sorted[k].start <= sorted[k].stop && Furthest(sorted[..k], end)
    ensures |Union(sorted[..k + 1])| == |Union(sorted[..k])| + Excess(sorted[k], end)
    ensures Furthest(sorted[..k + 1], Largest(end, sorted[k].stop))
  {
    NextAdds(sorted[..k], sorted[k], end);
    CoveredSize(Added(sorted[k], end));
    FurthestStep(sorted, k, end);
    assert sorted[..k + 1] == sorted[..k] + [sorted[k]];
  }

  /** Count distinct pages in one pass over the sorted ranges. */
  method Sweep(sorted: seq<Pages>) returns (total: nat)
    requires Sorted(sorted) && forall i :: 0 <= i < |sorted| ==> sorted[i].start <= sorted[i].stop
    ensures total == |Union(sorted)|
  {
    total := 0;
    var end: nat := 0;
    for k := 0 to |sorted|
      invariant total == |Union(sorted[..k])| && Furthest(sorted[..k], end)
    {
      SweepStep(sorted, k, end);
      total := total + Excess(sorted[k], end);
      end := Largest(end, sorted[k].stop);
    }
    assert sorted[..|sorted|] == sorted;
  }

  lemma FurthestStep(ranges: seq<Pages>, k: nat, end: nat)
    requires k < |ranges| && Furthest(ranges[..k], end)
    ensures Furthest(ranges[..k + 1], Largest(end, ranges[k].stop))
  {
    var longer := ranges[..k + 1];
    assert longer[k] == ranges[k];
    if ranges[k].stop < end {
      var i :| 0 <= i < k && ranges[..k][i].stop == end;
      assert longer[i].stop == end;
    }
  }

  // ---- Segments ---------------------------------------------------------------

  function LoadRanges(segments: seq<Segment>): (ranges: seq<Pages>)
    ensures forall i :: 0 <= i < |ranges| ==> ranges[i].start <= ranges[i].stop
  {
    if segments == [] then []
    else
      var s := segments[|segments| - 1];
      LoadRanges(segments[..|segments| - 1]) + (if s.kind == LOAD then [PagesOf(s)] else [])
  }

  predicate SegmentOk(s: Segment)
  {
    s.kind == LOAD ==> s.fileSize <= s.memorySize && s.memorySize != 0
  }

  // ---- Program headers in an image --------------------------------------------

  /** A little-endian ELF64 image. */
  predicate IsElf(data: seq<Byte>)
  {
    |data| >= 6 && data[..6] == [0x7f, 0x45, 0x4c, 0x46, 2, 1]
  }

  function Word(data: seq<Byte>, at: nat, width: nat): nat
    requires at + width <= |data|
  {
    FromLE(data[at..at + width])
  }

  function TableOffset(data: seq<Byte>): nat
    requires |data| >= 58
  {
    Word(data, 32, 8)
  }

  function HeaderSize(data: seq<Byte>): nat
    requires |data| >= 58
  {
    Word(data, 54, 2)
  }

  function HeaderCount(data: seq<Byte>): nat
    requires |data| >= 58
  {
    Word(data, 56, 2)
  }

  function HeaderAt(data: seq<Byte>, at: nat): Segment
    requires at + HEADER_READ <= |data|
  {
    Segment(Word(data, at, 4), Word(data, at + 4, 4), Word(data, at + 16, 8), Word(data, at + 32, 8), Word(data, at + 40, 8))
  }

  /** The whole table can be read; the alignment word that closes a header is never looked at. */
  predicate Readable(data: seq<Byte>, offset: nat, count: nat)
  {
    count == 0 || offset + (count - 1) * HEADER + HEADER_READ <= |data|
  }

  function Table(data: seq<Byte>, offset: nat, count: nat): (t: seq<Segment>)
    requires Readable(data, offset, count)
    ensures |t| == count
  {
    seq(count, i requires 0 <= i < count => HeaderAt(data, offset + i * HEADER))
  }

  lemma TablePrefix(data: seq<Byte>, offset: nat, count: nat, index: nat)
    requires Readable(data, offset, count) && index < count
    ensures Readable(data, offset, index + 1) && Readable(data, offset, index)
    ensures offset + index * HEADER + HEADER_READ <= |data|
    ensures Table(data, offset, index + 1) == Table(data, offset, index) + [HeaderAt(data, offset + index * HEADER)]
  {
  }

  lemma LoadRangesSnoc(segments: seq<Segment>, s: Segment)
    ensures LoadRanges(segments + [s]) == if s.kind == LOAD then LoadRanges(segments) + [PagesOf(s)] else LoadRanges(segments)
  {
    assert (segments + [s])[..|segments|] == segments;
  }

  /** An image whose program-header table the load count accepts. */
  predicate TableOk(data: seq<Byte>)
  {
    && |data| >= 64 && IsElf(data)
    && HeaderSize(data) == HEADER && 0 < HeaderCount(data) <= MAX_HEADERS
    && TableOffset(data) + HEADER * HeaderCount(data) <= |data|
  }

  function ImageSegments(data: seq<Byte>): seq<Segment>
    requires |data| >= 58 && Readable(data, TableOffset(data), HeaderCount(data))
  {
    Table(data, TableOffset(data), HeaderCount(data))
  }

  lemma TableReadable(data: seq<Byte>)
    requires TableOk(data)
    ensures Readable(data, TableOffset(data), HeaderCount(data))
  {
  }

  ghost predicate SegmentsOk(segments: seq<Segment>)
  {
    forall i :: 0 <= i < |segments| ==> SegmentOk(segments[i])
  }

  /** The page ranges of the load segments; refused at the first bad one. */
  method CollectRanges(data: seq<Byte>, offset: nat, count: nat) returns (r: Option<seq<Pages>>)
    requires Readable(data, offset, count)
    ensures r.Some? <==> SegmentsOk(Table(data, offset, count))
    ensures r.Some? ==> r.value == LoadRanges(Table(data, offset, count))
  {
    var ranges: seq<Pages> := [];
    for index := 0 to count
      invariant Readable(data, offset, index) && ranges == LoadRanges(Table(data, offset, index))
      invariant SegmentsOk(Table(data, offset, index))
    {
      TablePrefix(data, offset, count, index);
      var s := HeaderAt(data, offset + index * HEADER);
      LoadRangesSnoc(Table(data, offset, index), s);
      if s.kind == LOAD {
        if s.fileSize > s.memorySize || s.memorySize == 0 {
          assert !SegmentOk(Table(data, offset, count)[index]);
          return None;
        }
        ranges := ranges + [Pages(s.address / PAGE, (s.address + s.memorySize + PAGE - 1) / PAGE)];
      }
    }
    r := Some(ranges);
  }

  /** Bytes of the distinct pages the load segments cover; refused for a bad image, a bad table or a bad load segment. */
  method LoadBytes(data: seq<Byte>) returns (r: Option<nat>)
    ensures !TableOk(data) ==> r.None?
    ensures TableOk(data) ==>
      && Readable(data, TableOffset(data), HeaderCount(data))
      && (r.Some? <==> SegmentsOk(ImageSegments(data)) && LoadRanges(ImageSegments(data)) != [])
      && (r.Some? ==> r.value == PAGE * |Union(LoadRanges(ImageSegments(data)))|)
  {
    if |data| < 64 || !IsElf(data) {
      return None;
    }
    var offset, size, count := TableOffset(data), HeaderSize(data), HeaderCount(data);
    if size != HEADER || count == 0 || count > MAX_HEADERS || offset + size * count > |data| {
      return None;
    }
    TableReadable(data);
    var collected := CollectRanges(data, offset, count);
    if collected.None? {
      return None;
    }
    var ranges := collected.value;
    if ranges == [] {
      return None;
    }
    var sorted := SortedRanges(ranges);
    SortedRangesOk(ranges);
    SortedSame(ranges, sorted);
    var total := Sweep(sorted);
    return Some(total * PAGE);
  }

  lemma SortedSame(ranges: seq<Pages>, sorted: seq<Pages>)
    requires multiset(sorted) == multiset(ranges)
    requires forall i :: 0 <= i < |ranges| ==> ranges[i].start <= ranges[i].stop
    ensures Union(sorted) == Union(ranges)
    ensures forall i :: 0 <= i < |sorted| ==> sorted[i].start <= sorted[i].stop
  {
    assert forall r :: r in sorted <==> r in multiset(sorted);
    assert forall r :: r in ranges <==> r in multiset(ranges);
    SameRanges(sorted, ranges);
    forall i | 0 <= i < |sorted| ensures sorted[i].start <= sorted[i].stop {
      assert sorted[i] in ranges;
    }
  }

  /** The static bound adds up the pages of every load segment. */
  function SumPages(ranges: seq<Pages>): int
  {
    if ranges == [] then 0
    else SumPages(ranges[..|ranges| - 1]) + (ranges[|ranges| - 1].stop - ranges[|ranges| - 1].start)
  }

  ghost predicate Apart(ranges: seq<Pages>)
  {
    forall i, j :: 0 <= i < j < |ranges| ==> Covered(ranges[i]) !! Covered(ranges[j])
  }

  /** The distinct pages never exceed the sum, and equal it exactly when no two segments share a page. */
  lemma {:induction false} UnionVersusSum(ranges: seq<Pages>)
    requires forall i :: 0 <= i < |ranges| ==> ranges[i].start <= ranges[i].stop
    ensures |Union(ranges)| <= SumPages(ranges)
    ensures |Union(ranges)| == SumPages(ranges) <==> Apart(ranges)
  {
    if ranges != [] {
      var last := |ranges| - 1;
      var before, r := ranges[..last], ranges[last];
      UnionVersusSum(before);
      CoveredSize(r);
      var u, c := Union(before), Covered(r);
      assert |u + c| == |u| + |c| - |u * c|;
      ApartSnoc(ranges);
    }
  }

  lemma StayApart(part: set<nat>, whole: set<nat>, c: set<nat>)
    requires part <= whole && whole * c == {}
    ensures part !! c
  {
    forall x | x in part ensures x !in c {
      assert x in c ==> x in whole * c;
    }
  }

  /** A list is apart when its beginning is and its last range meets nothing before it. */
  lemma ApartSnoc(ranges: seq<Pages>)
    requires ranges != []
    ensures var last := |ranges| - 1;
      Apart(ranges) <==> Apart(ranges[..last]) && Union(ranges[..last]) * Covered(ranges[last]) == {}
  {
    var last := |ranges| - 1;
    var before := ranges[..last];
    assert forall i :: 0 <= i < last ==> before[i] == ranges[i];
    if Apart(ranges) {
      forall p: nat | p in Union(before) ensures p !in Covered(ranges[last]) {
        InUnion(before, p);
        var i :| 0 <= i < last && InPages(before[i], p);
        assert p in Covered(ranges[i]);
      }
    }
    if Union(before) * Covered(ranges[last]) == {} {
      var c := Covered(ranges[last]);
      forall i | 0 <= i < last ensures Covered(ranges[i]) !! c {
        forall p: nat | p in Covered(ranges[i]) ensures p in Union(before) {
          InUnion(before, p);
          assert InPages(before[i], p);
        }
        StayApart(Covered(ranges[i]), Union(before), c);
      }
    }
  }

  const STACK_PAGES := 16

  function LoadSegments(segments: seq<Segment>): seq<Segment>
  {
    if segments == [] then []
    else
      var s := segments[|segments| - 1];
      LoadSegments(segments[..|segments| - 1]) + (if s.kind == LOAD then [s] else [])
  }

  lemma LoadSegmentsSnoc(segments: seq<Segment>, s: Segment)
    ensures LoadSegments(segments + [s]) == if s.kind == LOAD then LoadSegments(segments) + [s] else LoadSegments(segments)
  {
    assert (segments + [s])[..|segments|] == segments;
  }

  /** The report of the static bound: the load segments in table order and the pages they add up to. */
  datatype Report = Report(segments: seq<Segment>, load: int, stack: int, pages: int, bytes: int)

  /** An image the static bound accepts: it asks for less of the table than the load count does. */
  predicate ReportOk(data: seq<Byte>)
  {
    && IsElf(data) && |data| >= 58 && HeaderSize(data) == HEADER
    && Readable(data, TableOffset(data), HeaderCount(data))
  }

  /** The load segments and the sum of their pages; refused when a header lies outside the image. */
  method CollectSegments(data: seq<Byte>, offset: nat, count: nat) returns (r: Option<(seq<Segment>, int)>)
    ensures r.Some? <==> Readable(data, offset, count)
    ensures r.Some? ==>
      && r.value.0 == LoadSegments(Table(data, offset, count))
      && r.value.1 == SumPages(LoadRanges(Table(data, offset, count)))
  {
    var segments: seq<Segment>, load := [], 0;
    for index := 0 to count
      invariant Readable(data, offset, index)
      invariant segments == LoadSegments(Table(data, offset, index))
      invariant load == SumPages(LoadRanges(Table(data, offset, index)))
    {
      if offset + index * HEADER + HEADER_READ > |data| {
        return None;
      }
      TablePrefix(data, offset, index + 1, index);
      var s := HeaderAt(data, offset + index * HEADER);
      LoadSegmentsSnoc(Table(data, offset, index), s);
      LoadRangesSnoc(Table(data, offset, index), s);
      if s.kind == LOAD {
        var start, end := s.address / PAGE, (s.address + s.memorySize + PAGE - 1) / PAGE;
        SumSnoc(LoadRanges(Table(data, offset, index)), Pages(start, end));
        segments, load := segments + [s], load + (end - start);
      }
    }
    r := Some((segments, load));
  }

  /** Pages the loader maps: every load segment on its own, plus the stack. */
  method StaticPages(data: seq<Byte>) returns (r: Option<Report>)
    ensures r.Some? <==> ReportOk(data)
    ensures r.Some? ==>
      var ranges := LoadRanges(ImageSegments(data));
      && r.value.segments == LoadSegments(ImageSegments(data))
      && r.value.load == SumPages(ranges)
      && r.value.stack == STACK_PAGES && r.value.pages == r.value.load + STACK_PAGES && r.value.bytes == r.value.pages * PAGE
      && r.value.load >= |Union(ranges)|
      && (r.value.load == |Union(ranges)| <==> Apart(ranges))
  {
    if !IsElf(data) || |data| < 58 {
      return None;
    }
    var offset, size, count := TableOffset(data), HeaderSize(data), HeaderCount(data);
    if size != HEADER {
      return None;
    }
    var collected := CollectSegments(data, offset, count);
    if collected.None? {
      return None;
    }
    var (segments, load) := collected.value;
    LoadRangesOrdered(ImageSegments(data));
    UnionVersusSum(LoadRanges(ImageSegments(data)));
    r := Some(Report(segments, load, STACK_PAGES, load + STACK_PAGES, (load + STACK_PAGES) * PAGE));
  }

  lemma {:induction false} LoadRangesOrdered(segments: seq<Segment>)
    ensures forall i :: 0 <= i < |LoadRanges(segments)| ==> LoadRanges(segments)[i].start <= LoadRanges(segments)[i].stop
  {
    if segments != [] {
      LoadRangesOrdered(segments[..|segments| - 1]);
    }
  }

  /** What the load count accepts the static bound accepts too, and its bytes never exceed that bound. */
  lemma LoadWithinStatic(data: seq<Byte>)
    requires TableOk(data)
    ensures ReportOk(data)
    ensures PAGE * |Union(LoadRanges(ImageSegments(data)))| <= PAGE * SumPages(LoadRanges(ImageSegments(data)))
  {
    TableReadable(data);
    LoadRangesOrdered(ImageSegments(data));
    UnionVersusSum(LoadRanges(ImageSegments(data)));
  }

  lemma SumSnoc(ranges: seq<Pages>, r: Pages)
    ensures SumPages(ranges + [r]) == SumPages(ranges) + (r.stop - r.start)
  {
    assert (ranges + [r])[..|ranges|] == ranges;
  }
}
