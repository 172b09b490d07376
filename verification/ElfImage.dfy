/** ELF64 images laid out by the System V gABI: the page counts read exactly the segments that were laid out. */
module ElfImage {
  import opened Bytes
  import opened PageUnion

  // ---- The layout -------------------------------------------------------------

  /** The ELF header but for the three fields that describe the program-header table. */
  datatype FileHeader = FileHeader(
    abi: seq<Byte>, fileType: nat, machine: nat, version: nat, entry: nat, sectionOffset: nat, flags: nat,
    headerSize: nat, sectionSize: nat, sectionCount: nat, names: nat)

  datatype ProgramHeader = ProgramHeader(
    kind: nat, flags: nat, offset: nat, address: nat, physical: nat, fileSize: nat, memorySize: nat, alignment: nat)

  ghost predicate FileFits(f: FileHeader)
  {
    && |f.abi| == 10 && f.fileType < Pow256(2) && f.machine < Pow256(2) && f.version < Pow256(4) && f.entry < Pow256(8)
    && f.sectionOffset < Pow256(8) && f.flags < Pow256(4) && f.headerSize < Pow256(2)
    && f.sectionSize < Pow256(2) && f.sectionCount < Pow256(2) && f.names < Pow256(2)
  }

  ghost predicate HeaderFits(h: ProgramHeader)
  {
    && h.kind < Pow256(4) && h.flags < Pow256(4)
    && h.offset < Pow256(8) && h.address < Pow256(8) && h.physical < Pow256(8)
    && h.fileSize < Pow256(8) && h.memorySize < Pow256(8) && h.alignment < Pow256(8)
  }

  /** The 64 bytes of the ELF header, naming `count` program headers at `table`. */
  function Front(f: FileHeader, table: nat, count: nat): (b: seq<Byte>)
    requires |f.abi| == 10
    ensures |b| == 64
  {
    ([0x7f, 0x45, 0x4c, 0x46, 2, 1] + f.abi)
    + (LE(f.fileType, 2) + LE(f.machine, 2) + LE(f.version, 4) + LE(f.entry, 8))
    + LE(table, 8)
    + (LE(f.sectionOffset, 8) + LE(f.flags, 4) + LE(f.headerSize, 2))
    + LE(HEADER, 2) + LE(count, 2)
    + (LE(f.sectionSize, 2) + LE(f.sectionCount, 2) + LE(f.names, 2))
  }

  /** The 56 bytes of one program header. */
  function Laid(h: ProgramHeader): (b: seq<Byte>)
    ensures |b| == HEADER
  {
    LE(h.kind, 4) + LE(h.flags, 4) + LE(h.offset, 8) + LE(h.address, 8) + LE(h.physical, 8)
    + LE(h.fileSize, 8) + LE(h.memorySize, 8) + LE(h.alignment, 8)
  }

  function LaidTable(headers: seq<ProgramHeader>): (b: seq<Byte>)
    ensures |b| == |headers| * HEADER
  {
    if headers == [] then [] else LaidTable(headers[..|headers| - 1]) + Laid(headers[|headers| - 1])
  }

  /** A whole image: the header, anything, the table, anything. */
  function Printed(f: FileHeader, gap: seq<Byte>, headers: seq<ProgramHeader>, rest: seq<Byte>): (data: seq<Byte>)
    requires |f.abi| == 10
  {
    Front(f, 64 + |gap|, |headers|) + gap + LaidTable(headers) + rest
  }

  // ---- Reading it back --------------------------------------------------------

  /** What the page counts look at. */
  function SegmentOf(h: ProgramHeader): Segment
  {
    Segment(h.kind, h.flags, h.address, h.fileSize, h.memorySize)
  }

  function SegmentsOf(headers: seq<ProgramHeader>): seq<Segment>
  {
    seq(|headers|, i requires 0 <= i < |headers| => SegmentOf(headers[i]))
  }

  /** A number laid out in little-endian order is read back. */
  lemma WordAt(data: seq<Byte>, at: nat, n: nat, w: nat)
    requires at + w <= |data| && data[at..at + w] == LE(n, w) && n < Pow256(w)
    ensures Word(data, at, w) == n
  {
    FromLEOfLE(n, w);
  }

  lemma FrontWords(f: FileHeader, table: nat, count: nat)
    requires |f.abi| == 10
    ensures var b := Front(f, table, count);
      && b[..6] == [0x7f, 0x45, 0x4c, 0x46, 2, 1]
      && b[32..40] == LE(table, 8) && b[54..56] == LE(HEADER, 2) && b[56..58] == LE(count, 2)
  {
    var a := [0x7f, 0x45, 0x4c, 0x46, 2, 1] + f.abi;
    var c := LE(f.fileType, 2) + LE(f.machine, 2) + LE(f.version, 4) + LE(f.entry, 8);
    var d := LE(f.sectionOffset, 8) + LE(f.flags, 4) + LE(f.headerSize, 2);
    var e := LE(f.sectionSize, 2) + LE(f.sectionCount, 2) + LE(f.names, 2);
    assert |a| == 16 && |c| == 16 && |d| == 14 && |e| == 6;
  }

  lemma LaidWords(h: ProgramHeader)
    ensures var b := Laid(h);
      && b[0..4] == LE(h.kind, 4) && b[4..8] == LE(h.flags, 4) && b[16..24] == LE(h.address, 8)
      && b[32..40] == LE(h.fileSize, 8) && b[40..48] == LE(h.memorySize, 8)
  {
  }

  lemma {:induction false} LaidAt(headers: seq<ProgramHeader>, i: nat)
    requires i < |headers|
    ensures i * HEADER + HEADER <= |LaidTable(headers)| && LaidTable(headers)[i * HEADER..i * HEADER + HEADER] == Laid(headers[i])
  {
    var last := |headers| - 1;
    var before, lo := LaidTable(headers[..last]), i * HEADER;
    if i < last {
      LaidAt(headers[..last], i);
      assert LaidTable(headers)[lo..lo + HEADER] == before[lo..lo + HEADER];
    }
  }

  lemma SliceWithin(data: seq<Byte>, from: nat, part: seq<Byte>, lo: nat, hi: nat)
    requires from + |part| <= |data| && data[from..from + |part|] == part && lo <= hi <= |part|
    ensures data[from + lo..from + hi] == part[lo..hi]
  {
    assert forall i :: lo <= i < hi ==> part[i] == data[from + i];
    assert forall i :: 0 <= i < hi - lo ==> part[lo..hi][i] == data[from + lo..from + hi][i];
  }

  /** A number at its place in a part of the image. */
  lemma WordWithin(data: seq<Byte>, from: nat, part: seq<Byte>, lo: nat, n: nat, w: nat)
    requires from + |part| <= |data| && data[from..from + |part|] == part && lo + w <= |part|
    requires part[lo..lo + w] == LE(n, w) && n < Pow256(w)
    ensures Word(data, from + lo, w) == n
  {
    SliceWithin(data, from, part, lo, lo + w);
    WordAt(data, from + lo, n, w);
  }

  /** One program header, wherever it was laid. */
  lemma HeaderRead(data: seq<Byte>, at: nat, h: ProgramHeader)
    requires HeaderFits(h) && at + HEADER <= |data| && data[at..at + HEADER] == Laid(h)
    ensures HeaderAt(data, at) == SegmentOf(h)
  {
    LaidWords(h);
    WordWithin(data, at, Laid(h), 0, h.kind, 4);
    WordWithin(data, at, Laid(h), 4, h.flags, 4);
    WordWithin(data, at, Laid(h), 16, h.address, 8);
    WordWithin(data, at, Laid(h), 32, h.fileSize, 8);
    WordWithin(data, at, Laid(h), 40, h.memorySize, 8);
  }

  lemma FourParts(a: seq<Byte>, b: seq<Byte>, c: seq<Byte>, d: seq<Byte>)
    ensures var all, at := a + b + c + d, |a| + |b|;
      |all| == at + |c| + |d| && all[0..|a|] == a && all[at..at + |c|] == c
  {
  }

  /** The header and the table of a printed image, in place. */
  lemma PrintedParts(f: FileHeader, gap: seq<Byte>, headers: seq<ProgramHeader>, rest: seq<Byte>)
    requires |f.abi| == 10
    ensures var data, table := Printed(f, gap, headers, rest), 64 + |gap|;
      && |data| == table + |headers| * HEADER + |rest|
      && data[0..64] == Front(f, table, |headers|)
      && data[table..table + |headers| * HEADER] == LaidTable(headers)
  {
    FourParts(Front(f, 64 + |gap|, |headers|), gap, LaidTable(headers), rest);
  }

  /** The parser finds, in any printed image, exactly the headers that were laid out. */
  lemma ReadsPrinted(f: FileHeader, gap: seq<Byte>, headers: seq<ProgramHeader>, rest: seq<Byte>)
    requires FileFits(f) && |headers| < Pow256(2) && 64 + |gap| < Pow256(8)
    requires forall i :: 0 <= i < |headers| ==> HeaderFits(headers[i])
    ensures var data := Printed(f, gap, headers, rest);
      && |data| >= 64 && ReportOk(data) && ImageSegments(data) == SegmentsOf(headers)
      && (TableOk(data) <==> 0 < |headers| <= MAX_HEADERS)
  {
    var data, table := Printed(f, gap, headers, rest), 64 + |gap|;
    PrintedParts(f, gap, headers, rest);
    FrontWords(f, table, |headers|);
    FrontRead(data, Front(f, table, |headers|), table, |headers|);
    WholeTable(data, table, headers, LaidTable(headers));
    TableIs(data, table, headers);
  }

  /** Header `i` of a table lies here. */
  function Place(table: nat, i: nat): nat
  {
    table + i * HEADER
  }

  /** The header read at `at` is this one. */
  ghost predicate ReadAs(data: seq<Byte>, at: nat, h: ProgramHeader)
  {
    at + HEADER_READ <= |data| && HeaderAt(data, at) == SegmentOf(h)
  }

  lemma WholeTable(data: seq<Byte>, table: nat, headers: seq<ProgramHeader>, laid: seq<Byte>)
    requires laid == LaidTable(headers) && table + |laid| <= |data| && data[table..table + |laid|] == laid
    requires forall i :: 0 <= i < |headers| ==> HeaderFits(headers[i])
    ensures forall i :: 0 <= i < |headers| ==> ReadAs(data, Place(table, i), headers[i])
  {
    forall i | 0 <= i < |headers| ensures ReadAs(data, Place(table, i), headers[i]) {
      TableRead(data, table, headers, laid, i, Place(table, i));
    }
  }

  lemma TableIs(data: seq<Byte>, table: nat, headers: seq<ProgramHeader>)
    requires forall i :: 0 <= i < |headers| ==> ReadAs(data, Place(table, i), headers[i])
    ensures Readable(data, table, |headers|) && Table(data, table, |headers|) == SegmentsOf(headers)
  {
    if headers != [] {
      assert ReadAs(data, Place(table, |headers| - 1), headers[|headers| - 1]);
    }
    var t := Table(data, table, |headers|);
    forall i | 0 <= i < |headers| ensures t[i] == SegmentOf(headers[i]) {
      assert ReadAs(data, Place(table, i), headers[i]);
    }
  }

  lemma FrontRead(data: seq<Byte>, front: seq<Byte>, table: nat, count: nat)
    requires table < Pow256(8) && count < Pow256(2) && |front| == 64 <= |data| && data[0..64] == front
    requires front[..6] == [0x7f, 0x45, 0x4c, 0x46, 2, 1]
    requires front[32..40] == LE(table, 8) && front[54..56] == LE(HEADER, 2) && front[56..58] == LE(count, 2)
    ensures IsElf(data) && TableOffset(data) == table && HeaderSize(data) == HEADER && HeaderCount(data) == count
  {
    WordSizes();
    SliceWithin(data, 0, front, 0, 6);
    WordWithin(data, 0, front, 32, table, 8);
    WordWithin(data, 0, front, 54, HEADER, 2);
    WordWithin(data, 0, front, 56, count, 2);
  }

  lemma TableRead(data: seq<Byte>, table: nat, headers: seq<ProgramHeader>, laid: seq<Byte>, i: nat, at: nat)
    requires laid == LaidTable(headers) && table + |laid| <= |data| && data[table..table + |laid|] == laid
    requires i < |headers| && HeaderFits(headers[i]) && at == table + i * HEADER
    ensures ReadAs(data, at, headers[i])
  {
    LaidAt(headers, i);
    PieceRead(data, table, laid, i * HEADER, at, headers[i]);
  }

  lemma PieceRead(data: seq<Byte>, table: nat, laid: seq<Byte>, lo: nat, at: nat, h: ProgramHeader)
    requires table + |laid| <= |data| && data[table..table + |laid|] == laid && HeaderFits(h)
    requires lo + HEADER <= |laid| && laid[lo..lo + HEADER] == Laid(h) && at == table + lo
    ensures ReadAs(data, at, h)
  {
    SliceWithin(data, table, laid, lo, lo + HEADER);
    HeaderRead(data, at, h);
  }

  // ---- The counts, in terms of what was laid out ------------------------------

  /** Some byte of the segment's memory lies in page `p`. */
  ghost predicate Touches(h: ProgramHeader, p: nat)
  {
    exists a: nat :: h.address <= a < h.address + h.memorySize && a / PAGE == p
  }

  /** The pages of a segment are those its memory touches. */
  lemma TouchedPages(h: ProgramHeader, p: nat)
    requires h.memorySize > 0
    ensures InPages(PagesOf(SegmentOf(h)), p) <==> Touches(h, p)
  {
    var r := PagesOf(SegmentOf(h));
    if InPages(r, p) {
      var a := if p * PAGE < h.address then h.address else p * PAGE;
      assert h.address <= a < h.address + h.memorySize && a / PAGE == p;
    }
    if Touches(h, p) {
      var a: nat :| h.address <= a < h.address + h.memorySize && a / PAGE == p;
    }
  }

  /** A header the load count takes into account. */
  predicate IsLoad(h: ProgramHeader)
  {
    h.kind == 1
  }

  lemma {:induction false} LoadRangesAt(headers: seq<ProgramHeader>, p: nat)
    ensures CoveredBy(LoadRanges(SegmentsOf(headers)), p) <==>
      exists i :: 0 <= i < |headers| && IsLoad(headers[i]) && InPages(PagesOf(SegmentOf(headers[i])), p)
  {
    if headers != [] {
      var last := |headers| - 1;
      var before, h := headers[..last], headers[last];
      LoadRangesAt(before, p);
      assert SegmentsOf(headers) == SegmentsOf(before) + [SegmentOf(h)];
      LoadRangesSnoc(SegmentsOf(before), SegmentOf(h));
      CoveredSnoc(LoadRanges(SegmentsOf(before)), PagesOf(SegmentOf(h)), p);
      assert forall i :: 0 <= i < last ==> before[i] == headers[i];
    }
  }

  lemma CoveredSnoc(ranges: seq<Pages>, r: Pages, p: nat)
    ensures CoveredBy(ranges + [r], p) <==> CoveredBy(ranges, p) || InPages(r, p)
  {
    var more := ranges + [r];
    if CoveredBy(ranges, p) {
      var i :| 0 <= i < |ranges| && InPages(ranges[i], p);
      assert InPages(more[i], p);
    }
    if InPages(r, p) {
      assert InPages(more[|ranges|], p);
    }
  }

  /** What the load count accepts of laid-out headers. */
  ghost predicate Loadable(headers: seq<ProgramHeader>)
  {
    && 0 < |headers| <= MAX_HEADERS
    && (forall i :: 0 <= i < |headers| && IsLoad(headers[i]) ==>
          headers[i].fileSize <= headers[i].memorySize && headers[i].memorySize > 0)
    && (exists i :: 0 <= i < |headers| && IsLoad(headers[i]))
  }

  lemma {:induction false} SomeLoad(headers: seq<ProgramHeader>)
    ensures LoadRanges(SegmentsOf(headers)) != [] <==> exists i :: 0 <= i < |headers| && IsLoad(headers[i])
  {
    if headers != [] {
      var last := |headers| - 1;
      var before, h := headers[..last], headers[last];
      SomeLoad(before);
      assert SegmentsOf(headers) == SegmentsOf(before) + [SegmentOf(h)];
      LoadRangesSnoc(SegmentsOf(before), SegmentOf(h));
      assert forall i :: 0 <= i < last ==> before[i] == headers[i];
    }
  }

  /**
   * The load count of a printed image: it is accepted exactly when the headers are loadable, and the counted pages
   * are exactly those that some byte of a load segment's memory lies in.
   */
  lemma PrintedLoad(f: FileHeader, gap: seq<Byte>, headers: seq<ProgramHeader>, rest: seq<Byte>)
    requires FileFits(f) && |headers| < Pow256(2) && 64 + |gap| < Pow256(8)
    requires forall i :: 0 <= i < |headers| ==> HeaderFits(headers[i])
    ensures var data := Printed(f, gap, headers, rest);
      && |data| >= 64 && Readable(data, TableOffset(data), HeaderCount(data))
      && (TableOk(data) && SegmentsOk(ImageSegments(data)) && LoadRanges(ImageSegments(data)) != [] <==> Loadable(headers))
      && (Loadable(headers) ==> forall p: nat :: p in Union(LoadRanges(ImageSegments(data))) <==>
            exists i :: 0 <= i < |headers| && IsLoad(headers[i]) && Touches(headers[i], p))
  {
    ReadsPrinted(f, gap, headers, rest);
    SomeLoad(headers);
    SegmentsMean(headers);
    if Loadable(headers) {
      forall p: nat ensures p in Union(LoadRanges(SegmentsOf(headers))) <==>
        exists i :: 0 <= i < |headers| && IsLoad(headers[i]) && Touches(headers[i], p)
      {
        UnionTouched(headers, p);
      }
    }
  }

  lemma SegmentsMean(headers: seq<ProgramHeader>)
    ensures SegmentsOk(SegmentsOf(headers)) <==> forall i :: 0 <= i < |headers| && IsLoad(headers[i]) ==>
      headers[i].fileSize <= headers[i].memorySize && headers[i].memorySize > 0
  {
    var segments := SegmentsOf(headers);
    assert forall i :: 0 <= i < |headers| ==> segments[i] == SegmentOf(headers[i]);
  }

  lemma UnionTouched(headers: seq<ProgramHeader>, p: nat)
    requires forall i :: 0 <= i < |headers| && IsLoad(headers[i]) ==> headers[i].memorySize > 0
    ensures p in Union(LoadRanges(SegmentsOf(headers))) <==>
      exists i :: 0 <= i < |headers| && IsLoad(headers[i]) && Touches(headers[i], p)
  {
    InUnion(LoadRanges(SegmentsOf(headers)), p);
    LoadRangesAt(headers, p);
    forall i | 0 <= i < |headers| && IsLoad(headers[i])
      ensures InPages(PagesOf(SegmentOf(headers[i])), p) <==> Touches(headers[i], p)
    {
      TouchedPages(headers[i], p);
    }
  }

  /** The page bound of one segment, counted from its memory. */
  function PageSpan(h: ProgramHeader): int
  {
    (h.address + h.memorySize + 4095) / 4096 - h.address / 4096
  }

  function SpanSum(headers: seq<ProgramHeader>): int
  {
    if headers == [] then 0
    else
      var h := headers[|headers| - 1];
      SpanSum(headers[..|headers| - 1]) + (if IsLoad(h) then PageSpan(h) else 0)
  }

  lemma {:induction false} SumIsSpan(headers: seq<ProgramHeader>)
    ensures SumPages(LoadRanges(SegmentsOf(headers))) == SpanSum(headers)
  {
    if headers != [] {
      var last := |headers| - 1;
      var before, h := headers[..last], headers[last];
      SumIsSpan(before);
      assert SegmentsOf(headers) == SegmentsOf(before) + [SegmentOf(h)];
      LoadRangesSnoc(SegmentsOf(before), SegmentOf(h));
      SumSnoc(LoadRanges(SegmentsOf(before)), PagesOf(SegmentOf(h)));
    }
  }

  /** A segment that has memory spans as many pages as it touches. */
  lemma SpanIsTouched(h: ProgramHeader)
    requires h.memorySize > 0
    ensures PageSpan(h) == |Covered(PagesOf(SegmentOf(h)))|
    ensures forall p: nat :: p in Covered(PagesOf(SegmentOf(h))) <==> Touches(h, p)
  {
    CoveredSize(PagesOf(SegmentOf(h)));
    forall p: nat ensures p in Covered(PagesOf(SegmentOf(h))) <==> Touches(h, p) {
      TouchedPages(h, p);
    }
  }

  /** The static bound of a printed image: accepted whatever its segments are, and the sum of their spans. */
  lemma PrintedStatic(f: FileHeader, gap: seq<Byte>, headers: seq<ProgramHeader>, rest: seq<Byte>)
    requires FileFits(f) && |headers| < Pow256(2) && 64 + |gap| < Pow256(8)
    requires forall i :: 0 <= i < |headers| ==> HeaderFits(headers[i])
    ensures var data := Printed(f, gap, headers, rest);
      ReportOk(data) && SumPages(LoadRanges(ImageSegments(data))) == SpanSum(headers)
  {
    ReadsPrinted(f, gap, headers, rest);
    SumIsSpan(headers);
  }
}
