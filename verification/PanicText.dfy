/** The kernel's bounded panic buffer: whole characters, CRLF line ends, never past its capacity. */
module PanicText {
  import opened Bytes

  /** A Unicode scalar value. */
  type Scalar = n: nat | n < 0xD800 || 0xE000 <= n < 0x110000

  const NEWLINE: Scalar := 10
  const RETURN: Scalar := 13

  // ---- UTF-8, section 3 of RFC 3629 -------------------------------------------

  function Width(c: Scalar): (w: nat)
    ensures 1 <= w <= 4
  {
    if c < 0x80 then 1 else if c < 0x800 then 2 else if c < 0x10000 then 3 else 4
  }

  function Utf8(c: Scalar): (b: seq<Byte>)
    ensures |b| == Width(c)
  {
    if c < 0x80 then [c]
    else if c < 0x800 then [0xC0 + c / 64, 0x80 + c % 64]
    else if c < 0x10000 then [0xE0 + c / 4096, 0x80 + c / 64 % 64, 0x80 + c % 64]
    else [0xF0 + c / 262144, 0x80 + c / 4096 % 64, 0x80 + c / 64 % 64, 0x80 + c % 64]
  }

  function Utf8All(text: seq<Scalar>): seq<Byte>
  {
    Flat(Utf8, text)
  }

  /** The images of a list's elements, one after another. */
  function Flat<S, T>(f: S -> seq<T>, list: seq<S>): seq<T>
    decreases list
  {
    if list == [] then [] else f(list[0]) + Flat(f, list[1..])
  }

  lemma {:induction false} FlatConcat<S, T>(f: S -> seq<T>, a: seq<S>, b: seq<S>)
    ensures Flat(f, a + b) == Flat(f, a) + Flat(f, b)
    decreases a
  {
    if a == [] {
      assert a + b == b;
    } else {
      FlatConcat(f, a[1..], b);
      assert (a + b)[1..] == a[1..] + b;
    }
  }

  lemma FlatOne<S, T>(f: S -> seq<T>, x: S)
    ensures Flat(f, [x]) == f(x)
  {
    assert [x][1..] == [];
  }

  predicate Continuation(b: Byte)
  {
    0x80 <= b < 0xC0
  }

  /** What a byte carries above its marker. */
  function Bits(b: Byte, marker: int): int
  {
    b as int - marker
  }

  /** The character at the front of `b`: shortest form only, no surrogates, nothing past the last plane. */
  function First(b: seq<Byte>): Option<Scalar>
    requires b != []
  {
    if b[0] < 0x80 then Some(b[0])
    else if b[0] < 0xC0 then None
    else if b[0] < 0xE0 then
      if |b| < 2 || !Continuation(b[1]) then None
      else
        var c := Bits(b[0], 0xC0) * 64 + Bits(b[1], 0x80);
        if c < 0x80 then None else Some(c)
    else if b[0] < 0xF0 then
      if |b| < 3 || !Continuation(b[1]) || !Continuation(b[2]) then None
      else
        var c := Bits(b[0], 0xE0) * 4096 + Bits(b[1], 0x80) * 64 + Bits(b[2], 0x80);
        if c < 0x800 || 0xD800 <= c < 0xE000 then None else Some(c)
    else if |b| < 4 || !Continuation(b[1]) || !Continuation(b[2]) || !Continuation(b[3]) then None
    else
      var c := Bits(b[0], 0xF0) * 262144 + Bits(b[1], 0x80) * 4096 + Bits(b[2], 0x80) * 64 + Bits(b[3], 0x80);
      if c < 0x10000 || 0x110000 <= c then None else Some(c)
  }

  function Decode(b: seq<Byte>): Option<seq<Scalar>>
  {
    if b == [] then Some([])
    else
      var c := First(b);
      if c.None? || Width(c.value) > |b| then None
      else
        var rest := Decode(b[Width(c.value)..]);
        if rest.None? then None else Some([c.value] + rest.value)
  }

  lemma SixBits(c: nat)
    ensures c == c / 64 * 64 + c % 64
    ensures c / 64 == c / 4096 * 64 + c / 64 % 64
    ensures c / 4096 == c / 262144 * 64 + c / 4096 % 64
  {
  }

  lemma FirstOfUtf8(c: Scalar, rest: seq<Byte>)
    ensures First(Utf8(c) + rest) == Some(c)
  {
    SixBits(c);
  }

  /** Encoded text decodes to itself. */
  lemma {:induction false} DecodeOfUtf8(text: seq<Scalar>)
    ensures Decode(Utf8All(text)) == Some(text)
  {
    if text != [] {
      var b, rest := Utf8All(text), Utf8All(text[1..]);
      FirstOfUtf8(text[0], rest);
      assert b[Width(text[0])..] == rest;
      DecodeOfUtf8(text[1..]);
      assert text == [text[0]] + text[1..];
    }
  }

  // ---- What a write keeps -----------------------------------------------------

  function Translated(c: Scalar): seq<Scalar>
  {
    if c == NEWLINE then [RETURN, NEWLINE] else [c]
  }

  /** Newlines become CRLF. */
  function Crlf(text: seq<Scalar>): seq<Scalar>
  {
    Flat(Translated, text)
  }

  function Needed(c: Scalar): nat
  {
    Width(c) + if c == NEWLINE then 1 else 0
  }

  /** The bytes a text takes in the buffer. */
  function Wire(text: seq<Scalar>): seq<Byte>
  {
    Utf8All(Crlf(text))
  }

  lemma WireConcat(a: seq<Scalar>, b: seq<Scalar>)
    ensures Wire(a + b) == Wire(a) + Wire(b)
  {
    FlatConcat(Translated, a, b);
    FlatConcat(Utf8, Crlf(a), Crlf(b));
  }

  lemma WireOne(c: Scalar)
    ensures Wire([c]) == (if c == NEWLINE then [13] else []) + Utf8(c)
    ensures |Wire([c])| == Needed(c)
  {
    FlatOne(Translated, c);
    if c == NEWLINE {
      assert [RETURN, NEWLINE] == [RETURN] + [NEWLINE];
      FlatConcat(Utf8, [RETURN], [NEWLINE]);
      FlatOne(Utf8, RETURN);
      FlatOne(Utf8, NEWLINE);
    } else {
      FlatOne(Utf8, c);
    }
  }

  lemma WireSnoc(text: seq<Scalar>, k: nat)
    requires k < |text|
    ensures Wire(text[..k + 1]) == Wire(text[..k]) + Wire([text[k]])
    ensures |Wire([text[k]])| == Needed(text[k])
  {
    assert text[..k + 1] == text[..k] + [text[k]];
    WireConcat(text[..k], [text[k]]);
    WireOne(text[k]);
  }

  /** `k` characters fit in `room` bytes, and one more does not. */
  ghost predicate Longest(text: seq<Scalar>, room: nat, k: nat)
  {
    && k <= |text| && |Wire(text[..k])| <= room
    && (k < |text| ==> |Wire(text[..k + 1])| > room)
  }

  lemma {:induction false} WireGrows(text: seq<Scalar>, i: nat, j: nat)
    requires i <= j <= |text|
    ensures |Wire(text[..i])| <= |Wire(text[..j])|
    decreases j
  {
    if i < j {
      WireGrows(text, i, j - 1);
      WireSnoc(text, j - 1);
    }
  }

  lemma LongestUnique(text: seq<Scalar>, room: nat, j: nat, k: nat)
    requires Longest(text, room, j) && Longest(text, room, k)
    ensures j == k
  {
    if j < k {
      WireGrows(text, j + 1, k);
    } else if k < j {
      WireGrows(text, k + 1, j);
    }
  }

  function FitFrom(text: seq<Scalar>, room: nat, k: nat): (n: nat)
    requires k <= |text| && |Wire(text[..k])| <= room
    ensures Longest(text, room, n)
    decreases |text| - k
  {
    if k == |text| || |Wire(text[..k + 1])| > room then k else FitFrom(text, room, k + 1)
  }

  /** How many leading characters of `text` fit in `room` bytes. */
  function Fitting(text: seq<Scalar>, room: nat): (n: nat)
    ensures Longest(text, room, n)
  {
    assert text[..0] == [];
    FitFrom(text, room, 0)
  }

  /** What is kept after one more write: the longest prefix that still fits. */
  function Extended(capacity: nat, before: seq<Scalar>, text: seq<Scalar>): (kept: seq<Scalar>)
    requires |Utf8All(before)| <= capacity
    ensures |Utf8All(kept)| <= capacity
  {
    var k := Fitting(text, capacity - |Utf8All(before)|);
    FlatConcat(Utf8, before, Crlf(text[..k]));
    before + Crlf(text[..k])
  }

  /** The characters a sequence of writes leaves in a buffer. */
  function Kept(capacity: nat, calls: seq<seq<Scalar>>): (kept: seq<Scalar>)
    ensures |Utf8All(kept)| <= capacity
  {
    if calls == [] then [] else Extended(capacity, Kept(capacity, calls[..|calls| - 1]), calls[|calls| - 1])
  }

  function Joined(calls: seq<seq<Scalar>>): seq<Scalar>
  {
    if calls == [] then [] else Joined(calls[..|calls| - 1]) + calls[|calls| - 1]
  }

  lemma WholeCallFits(capacity: nat, before: seq<Scalar>, text: seq<Scalar>)
    requires |Utf8All(before)| + |Wire(text)| <= capacity
    ensures Extended(capacity, before, text) == before + Crlf(text)
  {
    var room := capacity - |Utf8All(before)|;
    assert text[..|text|] == text;
    LongestUnique(text, room, Fitting(text, room), |text|);
  }

  lemma JoinedSplit(calls: seq<seq<Scalar>>)
    requires calls != []
    ensures var init, last := calls[..|calls| - 1], calls[|calls| - 1];
      && |Wire(Joined(calls))| == |Wire(Joined(init))| + |Wire(last)|
      && Crlf(Joined(calls)) == Crlf(Joined(init)) + Crlf(last)
  {
    var init, last := calls[..|calls| - 1], calls[|calls| - 1];
    WireConcat(Joined(init), last);
    FlatConcat(Translated, Joined(init), last);
  }

  /** While everything fits, nothing is lost, however the text is split into writes. */
  lemma {:induction false} NothingLost(capacity: nat, calls: seq<seq<Scalar>>)
    requires |Wire(Joined(calls))| <= capacity
    ensures Kept(capacity, calls) == Crlf(Joined(calls))
  {
    if calls != [] {
      var init, last := calls[..|calls| - 1], calls[|calls| - 1];
      JoinedSplit(calls);
      NothingLost(capacity, init);
      WholeCallFits(capacity, Kept(capacity, init), last);
    }
  }

  // ---- The buffer -------------------------------------------------------------

  class RawText {
    const buffer: array<Byte>
    var len: nat
    ghost var calls: seq<seq<Scalar>>

    /** The filled part is the encoding of what the writes so far leave. */
    ghost predicate Valid()
      reads this, buffer
    {
      len <= buffer.Length && buffer[..len] == Utf8All(Kept(buffer.Length, calls))
    }

    constructor (storage: array<Byte>)
      ensures Valid() && buffer == storage && len == 0 && calls == []
    {
      buffer, len, calls := storage, 0, [];
    }

    /** The filled bytes are always whole characters. */
    method Filled() returns (bytes: seq<Byte>)
      requires Valid()
      ensures bytes == buffer[..len] && Decode(bytes) == Some(Kept(buffer.Length, calls))
    {
      DecodeOfUtf8(Kept(buffer.Length, calls));
      bytes := buffer[..len];
    }

    method Push(byte: Byte)
      requires len <= buffer.Length
      modifies this`len, buffer
      ensures len <= buffer.Length
      ensures buffer[..len] == old(buffer[..len]) + if old(len) < buffer.Length then [byte] else []
    {
      if len < buffer.Length {
        buffer[len] := byte;
        len := len + 1;
      }
    }

    /** Copy one encoded character behind the filled part. */
    method Append(encoded: seq<Byte>)
      requires len + |encoded| <= buffer.Length
      modifies this`len, buffer
      ensures len == old(len) + |encoded| && len <= buffer.Length
      ensures buffer[..len] == old(buffer[..len]) + encoded
    {
      forall j | 0 <= j < |encoded| {
        buffer[len + j] := encoded[j];
      }
      len := len + |encoded|;
    }

    /** One character, with a carriage return before a newline. */
    method PutCharacter(character: Scalar)
      requires len + Needed(character) <= buffer.Length
      modifies this`len, buffer
      ensures len == old(len) + Needed(character) && len <= buffer.Length
      ensures buffer[..len] == old(buffer[..len]) + Wire([character])
    {
      WireOne(character);
      if character == NEWLINE {
        Push(13);
      }
      Append(Utf8(character));
    }

    method WriteStr(text: seq<Scalar>)
      requires Valid()
      modifies this, buffer
      ensures Valid() && calls == old(calls) + [text]
    {
      ghost var before := buffer[..len];
      assert text[..0] == [];
      var index := 0;
      while index < |text|
        invariant index <= |text| && len <= buffer.Length && calls == old(calls)
        invariant buffer[..len] == before + Wire(text[..index])
      {
        var character := text[index];
        var required := Width(character) + if character == NEWLINE then 1 else 0;
        WireSnoc(text, index);
        if buffer.Length - len < required {
          break;
        }
        PutCharacter(character);
        index := index + 1;
      }
      calls := calls + [text];
      Wrote(buffer.Length, old(calls), text, before, index, buffer[..len]);
    }
  }

  /** A write that stopped at the first character without room kept the longest fitting prefix. */
  lemma Wrote(capacity: nat, calls: seq<seq<Scalar>>, text: seq<Scalar>, before: seq<Byte>, k: nat, after: seq<Byte>)
    requires before == Utf8All(Kept(capacity, calls)) && k <= |text| && after == before + Wire(text[..k])
    requires Longest(text, capacity - |before|, k)
    ensures after == Utf8All(Kept(capacity, calls + [text]))
  {
    var room := capacity - |before|;
    LongestUnique(text, room, k, Fitting(text, room));
    assert (calls + [text])[..|calls|] == calls;
    FlatConcat(Utf8, Kept(capacity, calls), Crlf(text[..k]));
  }
}
