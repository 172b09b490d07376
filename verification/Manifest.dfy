/** The 128-byte application manifest: its printer, its reader, and why no two documents share an encoding. */
module Manifest {
  import opened Bytes

  // ---- Documents --------------------------------------------------------------

  /** A parsed TOML value; `Unlike` stands for every other kind, booleans included. */
  datatype Value = Number(n: int) | Text(s: string) | List(items: seq<Value>) | Unlike

  type Document = map<string, Value>

  const FIELDS: set<string> := {"schema", "identity", "executable", "version", "process_abi", "ipc_version", "requests"}

  const CAPABILITIES: seq<string> := ["ipc", "diagnostic", "block", "console", "control"]

  /** The bit of capability `name`. */
  function Weight(name: string): nat
  {
    if name == "ipc" then 1 else if name == "diagnostic" then 2 else if name == "block" then 4
    else if name == "console" then 8 else if name == "control" then 16 else 0
  }

  predicate FirstChar(c: char) { 'a' <= c <= 'z' }

  predicate NameChar(c: char) { 'a' <= c <= 'z' || '0' <= c <= '9' || c == '.' || c == '_' || c == '-' }

  /** A lower-case name of at most 31 characters. */
  predicate ValidName(s: string)
  {
    1 <= |s| <= 31 && FirstChar(s[0]) && forall i :: 0 <= i < |s| ==> NameChar(s[i])
  }

  predicate IsU16(v: Value) { v.Number? && 0 <= v.n <= 65535 }

  predicate ThreeU16(v: seq<Value>)
  {
    |v| == 3 && IsU16(v[0]) && IsU16(v[1]) && IsU16(v[2])
  }

  predicate ValidVersion(v: Value)
  {
    v.List? && ThreeU16(v.items)
  }

  function Numbers(v: seq<Value>): (n: seq<nat>)
    requires ThreeU16(v)
  {
    [v[0].n, v[1].n, v[2].n]
  }

  predicate ValidRequests(v: Value)
  {
    && v.List?
    && (forall i :: 0 <= i < |v.items| ==> v.items[i].Text? && v.items[i].s in CAPABILITIES)
    && (forall i, j :: 0 <= i < j < |v.items| ==> v.items[i] != v.items[j])
  }

  /** Every condition the encoder puts on a document and a digest. */
  predicate Accepted(d: Document, digest: seq<Byte>)
  {
    && d.Keys == FIELDS
    && d["schema"] == Number(2) && d["process_abi"] == Number(65536) && d["ipc_version"] == Number(1)
    && |digest| == 32
    && d["identity"].Text? && ValidName(d["identity"].s)
    && d["executable"].Text? && ValidName(d["executable"].s)
    && EndsWith(d["executable"].s, ".elf")
    && ValidVersion(d["version"]) && ValidRequests(d["requests"])
  }

  predicate EndsWith(s: string, suffix: string)
  {
    |suffix| <= |s| && s[|s| - |suffix|..] == suffix
  }

  // ---- Encoding ---------------------------------------------------------------

  function Ascii(s: string): (b: seq<Byte>)
    requires ValidName(s)
  {
    seq(|s|, i requires 0 <= i < |s| => assert NameChar(s[i]); s[i] as int)
  }

  /** ASCII text padded with zeros to 32 bytes. */
  function NameBytes(s: string): (b: seq<Byte>)
    requires ValidName(s)
    ensures |b| == 32
  {
    Ascii(s) + Zeros(32 - |s|)
  }

  function Bits(requests: seq<Value>): nat
    requires forall i :: 0 <= i < |requests| ==> requests[i].Text?
  {
    if requests == [] then 0
    else Bits(requests[..|requests| - 1]) + Weight(requests[|requests| - 1].s)
  }

  const MAGIC: seq<Byte> := [82, 85, 83, 84, 65, 80, 80, 0]

  /** The first 24 bytes: magic, format, size, ABI, IPC version and the three version numbers. */
  function Head(version: seq<Value>): (b: seq<Byte>)
    requires ThreeU16(version)
    ensures |b| == 24
  {
    MAGIC + LE(2, 2) + LE(128, 2) + LE(65536, 4) + LE(1, 2) + LE(version[0].n, 2) + LE(version[1].n, 2) + LE(version[2].n, 2)
  }

  function Encode(d: Document, digest: seq<Byte>): (r: Option<seq<Byte>>)
    ensures r.Some? ==> |r.value| == 128
  {
    if !Accepted(d, digest) then None
    else
      Some(Head(d["version"].items) + LE(Bits(d["requests"].items), 8)
           + NameBytes(d["identity"].s) + NameBytes(d["executable"].s) + digest)
  }

  // ---- Reading ----------------------------------------------------------------

  datatype Facts = Facts(identity: seq<Byte>, version: seq<nat>, requests: nat, digest: seq<Byte>)

  function StripZeros(b: seq<Byte>): seq<Byte>
  {
    if b != [] && b[|b| - 1] == 0 then StripZeros(b[..|b| - 1]) else b
  }

  function ManifestFacts(data: seq<Byte>): Option<Facts>
  {
    if |data| != 128 || data[..8] != MAGIC then None
    else Some(Facts(StripZeros(data[32..64]), [FromLE(data[18..20]), FromLE(data[20..22]), FromLE(data[22..24])],
                    FromLE(data[24..32]), data[96..128]))
  }

  // ---- The reader undoes the printer ------------------------------------------

  lemma {:induction false} StripPadding(b: seq<Byte>, n: nat)
    requires b != [] && b[|b| - 1] != 0
    ensures StripZeros(b + Zeros(n)) == b
  {
    if n == 0 {
      assert b + Zeros(0) == b;
    } else {
      StripPadding(b, n - 1);
      assert (b + Zeros(n))[..|b| + n - 1] == b + Zeros(n - 1);
    }
  }

  lemma NameStripped(s: string)
    requires ValidName(s)
    ensures StripZeros(NameBytes(s)) == Ascii(s)
  {
    assert NameChar(s[|s| - 1]);
    StripPadding(Ascii(s), 32 - |s|);
  }

  lemma AsciiInjective(s: string, t: string)
    requires ValidName(s) && ValidName(t) && Ascii(s) == Ascii(t)
    ensures s == t
  {
    forall i | 0 <= i < |s| ensures s[i] == t[i] {
      assert Ascii(s)[i] == s[i] as int && Ascii(t)[i] == t[i] as int;
    }
  }

  // ---- Capability bits --------------------------------------------------------

  function Bit(present: bool, weight: nat): nat
  {
    if present then weight else 0
  }

  /** The bits of a set of capabilities. */
  function SetBits(names: set<string>): nat
  {
    Bit("ipc" in names, 1) + Bit("diagnostic" in names, 2) + Bit("block" in names, 4)
    + Bit("console" in names, 8) + Bit("control" in names, 16)
  }

  function Requested(requests: seq<Value>): set<string>
  {
    set i | 0 <= i < |requests| && requests[i].Text? :: requests[i].s
  }

  lemma AddBit(names: set<string>, name: string)
    requires name in CAPABILITIES && name !in names
    ensures SetBits(names + {name}) == SetBits(names) + Weight(name)
  {
  }

  lemma RequestedSnoc(requests: seq<Value>, last: nat)
    requires ValidRequests(List(requests)) && |requests| == last + 1
    ensures requests[last].s !in Requested(requests[..last])
    ensures Requested(requests) == Requested(requests[..last]) + {requests[last].s}
  {
    var before := requests[..last];
    assert forall i :: 0 <= i < last ==> before[i] == requests[i] && requests[i] != requests[last];
  }

  /** Requests that are all different add up to the bits of their set. */
  lemma {:induction false} BitsOfRequests(requests: seq<Value>)
    requires ValidRequests(List(requests))
    ensures Bits(requests) == SetBits(Requested(requests))
  {
    if requests != [] {
      var last := |requests| - 1;
      BitsOfRequests(requests[..last]);
      RequestedSnoc(requests, last);
      AddBit(Requested(requests[..last]), requests[last].s);
    }
  }

  /** The bits of a set say which capabilities are in it. */
  lemma BitsTell(a: set<string>, b: set<string>)
    requires SetBits(a) == SetBits(b)
    requires forall name :: name in a || name in b ==> name in CAPABILITIES
    ensures a == b
  {
    assert forall name :: name in CAPABILITIES ==> (name in a <==> name in b);
  }

  // ---- Round trip -------------------------------------------------------------

  /** Five fields laid end to end, found again at their offsets. */
  lemma Fields(head: seq<Byte>, bits: seq<Byte>, identity: seq<Byte>, executable: seq<Byte>, digest: seq<Byte>)
    requires |head| == 24 && |bits| == 8 && |identity| == |executable| == |digest| == 32
    ensures var data := head + bits + identity + executable + digest;
      && data[..24] == head && data[24..32] == bits && data[32..64] == identity
      && data[64..96] == executable && data[96..128] == digest
  {
  }

  lemma HeadFields(version: seq<Value>)
    requires ThreeU16(version)
    ensures var head := Head(version);
      && head[..8] == MAGIC
      && FromLE(head[18..20]) == version[0].n && FromLE(head[20..22]) == version[1].n && FromLE(head[22..24]) == version[2].n
  {
    var head := Head(version);
    WordSizes();
    FromLEOfLE(version[0].n, 2);
    FromLEOfLE(version[1].n, 2);
    FromLEOfLE(version[2].n, 2);
    assert head[18..20] == LE(version[0].n, 2) && head[20..22] == LE(version[1].n, 2) && head[22..24] == LE(version[2].n, 2);
  }

  lemma SmallBits(names: set<string>)
    ensures SetBits(names) < 32
  {
  }

  /** What the reader finds in an encoded manifest is what the document said. */
  lemma RoundTrip(d: Document, digest: seq<Byte>)
    requires Encode(d, digest).Some?
    ensures ManifestFacts(Encode(d, digest).value) ==
      Some(Facts(Ascii(d["identity"].s), Numbers(d["version"].items), SetBits(Requested(d["requests"].items)), digest))
    ensures Encode(d, digest).value[64..96] == NameBytes(d["executable"].s)
  {
    var data, head, bits := Encode(d, digest).value, Head(d["version"].items), LE(Bits(d["requests"].items), 8);
    Fields(head, bits, NameBytes(d["identity"].s), NameBytes(d["executable"].s), digest);
    HeadFields(d["version"].items);
    HeadInside(data, head);
    BitsOfRequests(d["requests"].items);
    SmallBits(Requested(d["requests"].items));
    WordSizes();
    FromLEOfLE(Bits(d["requests"].items), 8);
    NameStripped(d["identity"].s);
  }

  lemma HeadInside(data: seq<Byte>, head: seq<Byte>)
    requires |data| == 128 && |head| == 24 && data[..24] == head
    ensures data[..8] == head[..8]
    ensures data[18..20] == head[18..20] && data[20..22] == head[20..22] && data[22..24] == head[22..24]
  {
  }

  /** Documents with one encoding agree on everything but the order of their requests. */
  lemma EncodeInjective(d: Document, x: seq<Byte>, e: Document, y: seq<Byte>)
    requires Encode(d, x).Some? && Encode(d, x) == Encode(e, y)
    ensures x == y && d["identity"] == e["identity"] && d["executable"] == e["executable"] && d["version"] == e["version"]
    ensures Requested(d["requests"].items) == Requested(e["requests"].items)
    ensures forall key :: key in FIELDS && key != "requests" ==> d[key] == e[key]
  {
    RoundTrip(d, x);
    RoundTrip(e, y);
    AsciiInjective(d["identity"].s, e["identity"].s);
    NameStripped(d["executable"].s);
    NameStripped(e["executable"].s);
    AsciiInjective(d["executable"].s, e["executable"].s);
    SameVersion(d["version"].items, e["version"].items);
    RequestedKnown(d["requests"].items);
    RequestedKnown(e["requests"].items);
    BitsTell(Requested(d["requests"].items), Requested(e["requests"].items));
  }

  lemma SameVersion(v: seq<Value>, w: seq<Value>)
    requires ThreeU16(v) && ThreeU16(w) && Numbers(v) == Numbers(w)
    ensures v == w
  {
    assert Numbers(v)[0] == Numbers(w)[0] && Numbers(v)[1] == Numbers(w)[1] && Numbers(v)[2] == Numbers(w)[2];
  }

  lemma RequestedKnown(requests: seq<Value>)
    requires ValidRequests(List(requests))
    ensures forall name :: name in Requested(requests) ==> name in CAPABILITIES
  {
  }
}
