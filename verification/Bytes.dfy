/** Bytes, little-endian numbers and fixed-size chunks, as the disk format packs them. */
module Bytes {

  type Byte = x: int | 0 <= x < 256

  /** A value, or the refusal to give one. */
  datatype Option<+T> = None | Some(value: T)

  function Least(a: nat, b: nat): nat
  {
    if a < b then a else b
  }

  function Zeros(n: nat): (z: seq<Byte>)
    ensures |z| == n
    ensures forall i :: 0 <= i < n ==> z[i] == 0
  {
    seq(n, _ => 0)
  }

  function Pow256(w: nat): (p: nat)
    ensures p > 0
  {
    if w == 0 then 1 else 256 * Pow256(w - 1)
  }

  lemma WordSizes()
    ensures Pow256(2) == 0x1_0000 && Pow256(4) == 0x1_0000_0000 && Pow256(8) == 0x1_0000_0000_0000_0000
  {
    assert Pow256(1) == 256;
    assert Pow256(2) == 256 * Pow256(1);
    assert Pow256(3) == 256 * Pow256(2);
    assert Pow256(4) == 256 * Pow256(3);
    assert Pow256(5) == 256 * Pow256(4);
    assert Pow256(6) == 256 * Pow256(5);
    assert Pow256(7) == 256 * Pow256(6);
    assert Pow256(8) == 256 * Pow256(7);
  }

  /** The low `w` bytes of `n`, least significant first. */
  function LE(n: nat, w: nat): (b: seq<Byte>)
    ensures |b| == w
  {
    if w == 0 then [] else [n % 256] + LE(n / 256, w - 1)
  }

  function FromLE(b: seq<Byte>): (n: nat)
  {
    if b == [] then 0 else b[0] + 256 * FromLE(b[1..])
  }

  lemma {:induction false} FromLEBound(b: seq<Byte>)
    ensures FromLE(b) < Pow256(|b|)
  {
    if b != [] {
      FromLEBound(b[1..]);
    }
  }

  /** Packing then unpacking a number that fits returns it. */
  lemma {:induction false} FromLEOfLE(n: nat, w: nat)
    requires n < Pow256(w)
    ensures FromLE(LE(n, w)) == n
  {
    if w != 0 {
      FromLEOfLE(n / 256, w - 1);
      assert LE(n, w)[1..] == LE(n / 256, w - 1);
    }
  }

  /** Unpacking then packing returns the same bytes, so the encoding is canonical. */
  lemma {:induction false} LEOfFromLE(b: seq<Byte>)
    ensures LE(FromLE(b), |b|) == b
  {
    if b != [] {
      LEOfFromLE(b[1..]);
      var rest := FromLE(b[1..]);
      assert FromLE(b) % 256 == b[0] && FromLE(b) / 256 == rest;
      assert b == [b[0]] + b[1..];
    }
  }

  lemma LEZero(w: nat)
    ensures LE(0, w) == Zeros(w)
  {
    if w != 0 {
      LEZero(w - 1);
    }
  }

  lemma LENonZero(n: nat, w: nat)
    requires 0 < n < Pow256(w)
    ensures LE(n, w) != Zeros(w)
  {
    FromLEOfLE(n, w);
    FromLEOfLE(0, w);
    LEZero(w);
  }

  /** Concatenation of equally long pieces. */
  function Join(pieces: seq<seq<Byte>>): (b: seq<Byte>)
  {
    if pieces == [] then [] else pieces[0] + Join(pieces[1..])
  }

  ghost predicate AllSized(pieces: seq<seq<Byte>>, size: nat)
  {
    forall i :: 0 <= i < |pieces| ==> |pieces[i]| == size
  }

  /** Piece `i` of a byte string cut into pieces of `size` bytes. */
  function Piece(b: seq<Byte>, size: nat, i: nat): (p: seq<Byte>)
    requires (i + 1) * size <= |b|
  {
    assert 0 <= i * size <= (i + 1) * size;
    b[i * size..(i + 1) * size]
  }

  lemma PieceBound(count: nat, size: nat, i: nat)
    requires i < count
    ensures (i + 1) * size <= count * size
  {
  }

  function Pieces(b: seq<Byte>, size: nat, count: nat): (ps: seq<seq<Byte>>)
    requires |b| == count * size
    ensures |ps| == count
  {
    seq(count, i requires 0 <= i < count => PieceBound(count, size, i); Piece(b, size, i))
  }

  lemma {:induction false} JoinLength(pieces: seq<seq<Byte>>, size: nat)
    requires AllSized(pieces, size)
    ensures |Join(pieces)| == |pieces| * size
  {
    if pieces != [] {
      JoinLength(pieces[1..], size);
    }
  }

  /** Cutting a concatenation gives back its pieces. */
  lemma {:induction false} PieceOfJoin(pieces: seq<seq<Byte>>, size: nat, i: nat)
    requires AllSized(pieces, size)
    requires i < |pieces|
    ensures (i + 1) * size <= |Join(pieces)| == |pieces| * size
    ensures Piece(Join(pieces), size, i) == pieces[i]
  {
    JoinLength(pieces, size);
    PieceBound(|pieces|, size, i);
    var rest := pieces[1..];
    JoinLength(rest, size);
    if i == 0 {
      assert Join(pieces)[..size] == pieces[0];
    } else {
      PieceOfJoin(rest, size, i - 1);
      PieceShift(pieces[0], Join(rest), size, i);
    }
  }

  lemma PieceShift(head: seq<Byte>, tail: seq<Byte>, size: nat, i: nat)
    requires |head| == size && i > 0
    requires i * size <= |tail|
    ensures (i + 1) * size <= |head + tail|
    ensures Piece(head + tail, size, i) == Piece(tail, size, i - 1)
  {
    assert (i - 1) * size + size == i * size;
    assert i * size + size == (i + 1) * size;
  }

  /** Concatenating the pieces of a byte string gives it back. */
  lemma {:induction false} JoinOfPieces(b: seq<Byte>, size: nat, count: nat)
    requires |b| == count * size
    ensures Join(Pieces(b, size, count)) == b
  {
    if count == 0 {
      assert Pieces(b, size, 0) == [];
    } else {
      assert count * size == (count - 1) * size + size;
      var head, tail := b[..size], b[size..];
      JoinOfPieces(tail, size, count - 1);
      assert Pieces(b, size, count)[1..] == Pieces(tail, size, count - 1) by {
        forall i | 0 <= i < count - 1
          ensures Pieces(b, size, count)[1..][i] == Pieces(tail, size, count - 1)[i]
        {
          PieceBound(count - 1, size, i);
          assert b == head + tail;
          PieceShift(head, tail, size, i + 1);
        }
      }
    }
  }
}
