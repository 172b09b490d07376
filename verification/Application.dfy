/** The guest's manifest parser: it accepts exactly the manifests the packaging tool prints, and reads them alike. */
module Application {
  import opened Bytes
  import opened Manifest
  import Words = BitMap

  // ---- The parser -------------------------------------------------------------

  datatype Error = Length | Magic | Version | Abi | Ipc | Identity | Executable | Capabilities

  datatype Parsed = Parsed(identity: string, executable: string, version: seq<nat>, requests: nat, digest: seq<Byte>)

  datatype Outcome = Ok(manifest: Parsed) | Refused(error: Error)

  const KNOWN := 1 + 2 + 4 + 8 + 16

  /** `a & !b` on unsigned words. */
  function AndNot(a: nat, b: nat): (r: nat)
  {
    if a == 0 then 0 else (if a % 2 == 1 && b % 2 == 0 then 1 else 0) + 2 * AndNot(a / 2, b / 2)
  }

  /** The bytes before the first zero. */
  function UntilZero(bytes: seq<Byte>): (r: seq<Byte>)
    ensures |r| <= |bytes| && r == bytes[..|r|] && (|r| < |bytes| ==> bytes[|r|] == 0)
    ensures forall i :: 0 <= i < |r| ==> r[i] != 0
  {
    if bytes == [] || bytes[0] == 0 then [] else [bytes[0]] + UntilZero(bytes[1..])
  }

  predicate NameByte(b: Byte)
  {
    97 <= b <= 122 || 48 <= b <= 57 || b == 46 || b == 95 || b == 45
  }

  /** A zero-terminated name with nothing after its terminator. */
  function ParseName(bytes: seq<Byte>): (r: Option<string>)
  {
    var value := UntilZero(bytes);
    if |value| == |bytes| || value == [] || !(97 <= value[0] <= 122)
       || (exists i :: 0 <= i < |value| && !NameByte(value[i]))
       || (exists i :: |value| <= i < |bytes| && bytes[i] != 0) then None
    else Some(seq(|value|, i requires 0 <= i < |value| => value[i] as char))
  }

  function Parse(bytes: seq<Byte>): (r: Outcome)
  {
    if |bytes| != 128 then Refused(Length)
    else if bytes[..8] != MAGIC then Refused(Magic)
    else if FromLE(bytes[8..10]) != 2 || FromLE(bytes[10..12]) != 128 then Refused(Version)
    else if FromLE(bytes[12..16]) != 65536 then Refused(Abi)
    else if FromLE(bytes[16..18]) != 1 then Refused(Ipc)
    else
      var identity, executable, requests := ParseName(bytes[32..64]), ParseName(bytes[64..96]), FromLE(bytes[24..32]);
      if identity.None? then Refused(Identity)
      else if executable.None? || !EndsWith(executable.value, ".elf") then Refused(Executable)
      else if AndNot(requests, KNOWN) != 0 then Refused(Capabilities)
      else
        var version := [FromLE(bytes[18..20]), FromLE(bytes[20..22]), FromLE(bytes[22..24])];
        Ok(Parsed(identity.value, executable.value, version, requests, bytes[96..128]))
  }

  // ---- Names ------------------------------------------------------------------

  lemma {:induction false} UntilZeroOf(text: seq<Byte>, n: nat)
    requires n > 0 && forall i :: 0 <= i < |text| ==> text[i] != 0
    ensures UntilZero(text + Zeros(n)) == text
  {
    if text == [] {
      assert (text + Zeros(n))[0] == 0;
    } else {
      UntilZeroOf(text[1..], n);
      assert (text + Zeros(n))[1..] == text[1..] + Zeros(n);
    }
  }

  /** The parser reads a name field exactly as the packaging tool prints it. */
  lemma NameAgrees(bytes: seq<Byte>, s: string)
    requires |bytes| == 32
    ensures ParseName(bytes) == Some(s) <==> ValidName(s) && NameBytes(s) == bytes
  {
    if ValidName(s) && NameBytes(s) == bytes {
      NamePrinted(s);
    }
    if ParseName(bytes) == Some(s) {
      NameParsed(bytes, s);
    }
  }

  lemma NamePrinted(s: string)
    requires ValidName(s)
    ensures ParseName(NameBytes(s)) == Some(s)
  {
    var text := Ascii(s);
    assert forall i :: 0 <= i < |s| ==> NameChar(s[i]) && text[i] == s[i] as int && NameByte(text[i]);
    UntilZeroOf(text, 32 - |s|);
    assert FirstChar(s[0]) && text[0] == s[0] as int;
    assert ParseName(NameBytes(s)).Some?;
    assert ParseName(NameBytes(s)).value == s;
  }

  lemma NameParsed(bytes: seq<Byte>, s: string)
    requires |bytes| == 32 && ParseName(bytes) == Some(s)
    ensures ValidName(s) && NameBytes(s) == bytes
  {
    var value := UntilZero(bytes);
    assert |s| == |value| && forall i :: 0 <= i < |s| ==> s[i] == value[i] as char && NameByte(value[i]);
    assert forall i :: 0 <= i < |s| ==> NameChar(s[i]);
    assert Ascii(s) == value;
    assert bytes == value + Zeros(32 - |s|);
  }

  // ---- Capability words -------------------------------------------------------

  lemma {:induction false} AndNotNothing(a: nat)
    ensures AndNot(a, 0) == a
  {
    if a != 0 {
      AndNotNothing(a / 2);
    }
  }

  /** A word from its lowest bit and the rest. */
  function Pack(low: bool, rest: nat): nat
  {
    Bit(low, 1) + 2 * rest
  }

  lemma AndNotStep(p: bool, a: nat, q: bool, b: nat)
    ensures AndNot(Pack(p, a), Pack(q, b)) == 0 <==> (p ==> q) && AndNot(a, b) == 0
  {
    var x, y := Pack(p, a), Pack(q, b);
    assert x / 2 == a && y / 2 == b && (x % 2 == 1 <==> p) && (y % 2 == 1 <==> q);
  }

  /** The word of a set of capabilities, lowest bit first. */
  lemma PackedBits(names: set<string>)
    ensures SetBits(names) == Pack("ipc" in names, Pack("diagnostic" in names, Pack("block" in names,
                                Pack("console" in names, Pack("control" in names, 0)))))
  {
  }

  /** Masking with `k` ones leaves nothing exactly of the numbers below `2^k`. */
  lemma {:induction false} LowMask(word: nat, k: nat, mask: nat)
    requires mask + 1 == Words.Pow2(k)
    ensures AndNot(word, mask) == 0 <==> word <= mask
  {
    if k == 0 {
      AndNotNothing(word);
    } else {
      LowMask(word / 2, k - 1, mask / 2);
      assert mask % 2 == 1;
    }
  }

  /** The parser's mask admits exactly the words made of the five known bits. */
  lemma KnownWords(word: nat)
    ensures AndNot(word, KNOWN) == 0 <==> word < 32
  {
    assert Words.Pow2(1) == 2;
    assert Words.Pow2(2) == 4;
    assert Words.Pow2(3) == 8;
    assert Words.Pow2(4) == 16;
    LowMask(word, 5, KNOWN);
  }

  ghost predicate Asks(requests: seq<Value>, name: string)
  {
    exists i :: 0 <= i < |requests| && requests[i] == Text(name)
  }

  lemma AskMore(requests: seq<Value>, name: string)
    requires ValidRequests(List(requests)) && name in CAPABILITIES && !Asks(requests, name)
    ensures ValidRequests(List(requests + [Text(name)]))
  {
    var more := requests + [Text(name)];
    assert forall i :: 0 <= i < |requests| ==> more[i] == requests[i];
  }

  lemma MoreBits(requests: seq<Value>, last: Value)
    requires last.Text? && forall i :: 0 <= i < |requests| ==> requests[i].Text?
    ensures Bits(requests + [last]) == Bits(requests) + Weight(last.s)
  {
    assert (requests + [last])[..|requests|] == requests;
  }

  /** Every known word is asked for by some list of requests. */
  lemma {:induction false} RequestsFor(word: nat) returns (requests: seq<Value>)
    requires word < 32
    ensures ValidRequests(List(requests)) && Bits(requests) == word
    ensures forall i :: 0 <= i < |requests| ==> requests[i].Text? && Weight(requests[i].s) <= word
  {
    if word == 0 {
      requests := [];
    } else {
      var name := if word >= 16 then "control" else if word >= 8 then "console" else if word >= 4 then "block"
                  else if word >= 2 then "diagnostic" else "ipc";
      assert name in CAPABILITIES;
      var rest := RequestsFor(word - Weight(name));
      AskMore(rest, name);
      MoreBits(rest, Text(name));
      requests := rest + [Text(name)];
    }
  }

  // ---- One language of manifests ----------------------------------------------

  /** The parser's reading of a document. */
  function Reading(d: Document, digest: seq<Byte>): Parsed
    requires Accepted(d, digest)
  {
    Parsed(d["identity"].s, d["executable"].s, Numbers(d["version"].items), SetBits(Requested(d["requests"].items)), digest)
  }

  /** Eight fields laid end to end, found again at their offsets. */
  lemma HeadPieces(magic: seq<Byte>, format: seq<Byte>, size: seq<Byte>, abi: seq<Byte>, ipc: seq<Byte>,
                   major: seq<Byte>, minor: seq<Byte>, patch: seq<Byte>)
    requires |magic| == 8 && |format| == |size| == |ipc| == |major| == |minor| == |patch| == 2 && |abi| == 4
    ensures var head := magic + format + size + abi + ipc + major + minor + patch;
      && head[..8] == magic && head[8..10] == format && head[10..12] == size && head[12..16] == abi && head[16..18] == ipc
  {
  }

  lemma HeadChecked(version: seq<Value>)
    requires ThreeU16(version)
    ensures var head := Head(version);
      && FromLE(head[8..10]) == 2 && FromLE(head[10..12]) == 128 && FromLE(head[12..16]) == 65536 && FromLE(head[16..18]) == 1
  {
    WordSizes();
    FromLEOfLE(2, 2);
    FromLEOfLE(128, 2);
    FromLEOfLE(65536, 4);
    FromLEOfLE(1, 2);
    HeadPieces(MAGIC, LE(2, 2), LE(128, 2), LE(65536, 4), LE(1, 2),
               LE(version[0].n, 2), LE(version[1].n, 2), LE(version[2].n, 2));
  }

  lemma HeadSlices(data: seq<Byte>, head: seq<Byte>)
    requires |data| == 128 && |head| == 24 && data[..24] == head
    ensures data[..8] == head[..8] && data[8..10] == head[8..10] && data[10..12] == head[10..12]
    ensures data[12..16] == head[12..16] && data[16..18] == head[16..18]
    ensures data[18..20] == head[18..20] && data[20..22] == head[20..22] && data[22..24] == head[22..24]
  {
  }

  /** Every printed manifest parses, to what its document says. */
  lemma PrintedParses(d: Document, digest: seq<Byte>)
    requires Accepted(d, digest)
    ensures Parse(Encode(d, digest).value) == Ok(Reading(d, digest))
  {
    var version, requests := d["version"].items, d["requests"].items;
    var data, head, bits := Encode(d, digest).value, Head(version), LE(Bits(requests), 8);
    Fields(head, bits, NameBytes(d["identity"].s), NameBytes(d["executable"].s), digest);
    HeadSlices(data, head);
    HeadChecked(version);
    HeadFields(version);
    BitsRead(requests);
    NameAgrees(data[32..64], d["identity"].s);
    NameAgrees(data[64..96], d["executable"].s);
  }

  lemma BitsRead(requests: seq<Value>)
    requires ValidRequests(List(requests))
    ensures FromLE(LE(Bits(requests), 8)) == SetBits(Requested(requests)) && AndNot(SetBits(Requested(requests)), KNOWN) == 0
  {
    BitsOfRequests(requests);
    SmallBits(Requested(requests));
    KnownWords(Bits(requests));
    WordSizes();
    FromLEOfLE(Bits(requests), 8);
  }

  lemma WordPrinted(bytes: seq<Byte>, n: nat)
    requires FromLE(bytes) == n
    ensures LE(n, |bytes|) == bytes
  {
    LEOfFromLE(bytes);
  }

  /** A version list whose printed head is the parsed one. */
  lemma HeadPrinted(data: seq<Byte>) returns (version: seq<Value>)
    requires Parse(data).Ok?
    ensures ThreeU16(version) && Head(version) == data[..24]
  {
    var a, b, c := data[18..20], data[20..22], data[22..24];
    WordSizes();
    FromLEBound(a);
    FromLEBound(b);
    FromLEBound(c);
    version := [Number(FromLE(a)), Number(FromLE(b)), Number(FromLE(c))];
    WordPrinted(data[8..10], 2);
    WordPrinted(data[10..12], 128);
    WordPrinted(data[12..16], 65536);
    WordPrinted(data[16..18], 1);
    WordPrinted(a, FromLE(a));
    WordPrinted(b, FromLE(b));
    WordPrinted(c, FromLE(c));
    HeadCut(data);
  }

  lemma HeadCut(data: seq<Byte>)
    requires |data| == 128
    ensures data[..8] + data[8..10] + data[10..12] + data[12..16] + data[16..18] + data[18..20] + data[20..22] + data[22..24]
      == data[..24]
  {
  }

  lemma Cut(data: seq<Byte>)
    requires |data| == 128
    ensures data[..24] + data[24..32] + data[32..64] + data[64..96] + data[96..128] == data
  {
  }

  /** Every manifest that parses was printed from some document. */
  lemma ParsedIsPrinted(data: seq<Byte>) returns (d: Document, digest: seq<Byte>)
    requires Parse(data).Ok?
    ensures Accepted(d, digest) && Encode(d, digest) == Some(data) && Parse(data).manifest == Reading(d, digest)
  {
    var m := Parse(data).manifest;
    digest := data[96..128];
    KnownWords(m.requests);
    var requests := RequestsFor(m.requests);
    var version := HeadPrinted(data);
    NameAgrees(data[32..64], m.identity);
    NameAgrees(data[64..96], m.executable);
    WordPrinted(data[24..32], m.requests);
    d := Written(m, version, requests);
    assert Accepted(d, digest);
    Cut(data);
    PrintedParses(d, digest);
  }

  function Written(m: Parsed, version: seq<Value>, requests: seq<Value>): (d: Document)
    ensures d.Keys == FIELDS
  {
    map["schema" := Number(2), "identity" := Text(m.identity), "executable" := Text(m.executable), "version" := List(version),
        "process_abi" := Number(65536), "ipc_version" := Number(1), "requests" := List(requests)]
  }

  // ---- Admission --------------------------------------------------------------

  /** A manifest is admitted where nothing it requests is missing. */
  predicate Admitted(m: Parsed, available: nat)
  {
    AndNot(m.requests, available) == 0
  }

  /** Admission compares sets of capabilities: a request word grants nothing the supplier does not hold. */
  lemma AdmittedIsSubset(d: Document, digest: seq<Byte>, held: set<string>)
    requires Accepted(d, digest) && forall name :: name in held ==> name in CAPABILITIES
    ensures Admitted(Reading(d, digest), SetBits(held)) <==> Requested(d["requests"].items) <= held
  {
    var asked := Requested(d["requests"].items);
    RequestedKnown(d["requests"].items);
    WithinBits(asked, held);
    assert asked <= held <==> forall name :: name in CAPABILITIES ==> !Lacks(asked, held, name);
  }

  /** Whether a capability of `a` is missing from `b`. */
  predicate Lacks(a: set<string>, b: set<string>, name: string)
  {
    name in a && name !in b
  }

  lemma WithinBits(a: set<string>, b: set<string>)
    ensures AndNot(SetBits(a), SetBits(b)) == 0 <==>
      && !Lacks(a, b, "ipc") && !Lacks(a, b, "diagnostic") && !Lacks(a, b, "block")
      && !Lacks(a, b, "console") && !Lacks(a, b, "control")
  {
    PackedBits(a);
    PackedBits(b);
    var p4, q4 := Pack("control" in a, 0), Pack("control" in b, 0);
    var p3, q3 := Pack("console" in a, p4), Pack("console" in b, q4);
    var p2, q2 := Pack("block" in a, p3), Pack("block" in b, q3);
    var p1, q1 := Pack("diagnostic" in a, p2), Pack("diagnostic" in b, q2);
    AndNotStep("control" in a, 0, "control" in b, 0);
    AndNotStep("console" in a, p4, "console" in b, q4);
    AndNotStep("block" in a, p3, "block" in b, q3);
    AndNotStep("diagnostic" in a, p2, "diagnostic" in b, q2);
    AndNotStep("ipc" in a, p1, "ipc" in b, q1);
  }

  // ---- Damage -----------------------------------------------------------------

  /** The bytes agree outside `[lo, hi)`. */
  ghost predicate AgreeOutside(data: seq<Byte>, bad: seq<Byte>, lo: nat, hi: nat)
  {
    |data| == |bad| && forall i :: 0 <= i < |data| && !(lo <= i < hi) ==> data[i] == bad[i]
  }

  /** Every field of a manifest that `[lo, hi)` does not meet is as it was. */
  lemma FieldsKept(data: seq<Byte>, bad: seq<Byte>, lo: nat, hi: nat)
    requires |data| == 128 && AgreeOutside(data, bad, lo, hi)
    ensures 8 <= lo || hi <= 0 ==> data[..8] == bad[..8]
    ensures 12 <= lo || hi <= 8 ==> data[8..10] == bad[8..10] && data[10..12] == bad[10..12]
    ensures 16 <= lo || hi <= 12 ==> data[12..16] == bad[12..16]
    ensures 18 <= lo || hi <= 16 ==> data[16..18] == bad[16..18]
    ensures 24 <= lo || hi <= 18 ==> data[18..20] == bad[18..20] && data[20..22] == bad[20..22] && data[22..24] == bad[22..24]
    ensures 32 <= lo || hi <= 24 ==> data[24..32] == bad[24..32]
    ensures 64 <= lo || hi <= 32 ==> data[32..64] == bad[32..64]
    ensures 96 <= lo || hi <= 64 ==> data[64..96] == bad[64..96]
    ensures 128 <= lo || hi <= 96 ==> data[96..128] == bad[96..128]
  {
  }

  /** The fixed fields are what the parser wants. */
  predicate HeadGood(bytes: seq<Byte>)
    requires |bytes| == 128
  {
    && bytes[..8] == MAGIC && FromLE(bytes[8..10]) == 2 && FromLE(bytes[10..12]) == 128
    && FromLE(bytes[12..16]) == 65536 && FromLE(bytes[16..18]) == 1
  }

  /** The fixed fields leave no choice of bytes. */
  lemma HeadFixed(data: seq<Byte>, bad: seq<Byte>)
    requires |data| == |bad| == 128 && HeadGood(data) && AgreeOutside(data, bad, 0, 18)
    ensures HeadGood(bad) ==> bad == data
  {
    LEOfFromLE(data[8..10]);
    LEOfFromLE(data[10..12]);
    LEOfFromLE(data[12..16]);
    LEOfFromLE(data[16..18]);
    LEOfFromLE(bad[8..10]);
    LEOfFromLE(bad[10..12]);
    LEOfFromLE(bad[12..16]);
    LEOfFromLE(bad[16..18]);
    HeadJoined(data);
    HeadJoined(bad);
    assert data[18..] == bad[18..];
  }

  lemma HeadJoined(data: seq<Byte>)
    requires |data| == 128
    ensures data[..8] + data[8..10] + data[10..12] + data[12..16] + data[16..18] + data[18..] == data
  {
  }

  /** A changed magic, format or size, ABI or IPC word is refused with its own error. */
  lemma HeadDamage(data: seq<Byte>, bad: seq<Byte>, lo: nat, hi: nat)
    requires Parse(data).Ok? && bad != data && AgreeOutside(data, bad, lo, hi) && hi <= 18
    ensures lo == 0 && hi == 8 ==> Parse(bad) == Refused(Magic)
    ensures lo == 8 && hi == 12 ==> Parse(bad) == Refused(Version)
    ensures lo == 12 && hi == 16 ==> Parse(bad) == Refused(Abi)
    ensures lo == 16 && hi == 18 ==> Parse(bad) == Refused(Ipc)
  {
    FieldsKept(data, bad, lo, hi);
    HeadFixed(data, bad);
  }

  /** Changed version numbers or a changed digest are read as they stand. */
  lemma FreeFields(data: seq<Byte>, bad: seq<Byte>)
    requires Parse(data).Ok? && |bad| == 128
    ensures AgreeOutside(data, bad, 18, 24) ==>
      Parse(bad) == Ok(Parse(data).manifest.(version := [FromLE(bad[18..20]), FromLE(bad[20..22]), FromLE(bad[22..24])]))
    ensures AgreeOutside(data, bad, 96, 128) ==> Parse(bad) == Ok(Parse(data).manifest.(digest := bad[96..128]))
  {
    if AgreeOutside(data, bad, 18, 24) {
      FieldsKept(data, bad, 18, 24);
    }
    if AgreeOutside(data, bad, 96, 128) {
      FieldsKept(data, bad, 96, 128);
    }
  }

  /** A changed capability word, identity or executable name still parses or is refused with its own error. */
  lemma BodyDamage(data: seq<Byte>, bad: seq<Byte>, lo: nat, hi: nat)
    requires Parse(data).Ok? && AgreeOutside(data, bad, lo, hi)
    ensures lo == 24 && hi == 32 ==> if FromLE(bad[24..32]) < 32 then Parse(bad).Ok? else Parse(bad) == Refused(Capabilities)
    ensures lo == 32 && hi == 64 ==> if ParseName(bad[32..64]).Some? then Parse(bad).Ok? else Parse(bad) == Refused(Identity)
    ensures lo == 64 && hi == 96 ==>
      var name := ParseName(bad[64..96]);
      if name.Some? && EndsWith(name.value, ".elf") then Parse(bad).Ok? else Parse(bad) == Refused(Executable)
  {
    FieldsKept(data, bad, lo, hi);
    KnownWords(FromLE(bad[24..32]));
  }
}
