/** The allocation map: 64-bit words against the set of payload sectors they mark. */
module BitMap {
  import opened Bytes
  import opened Format7
  import opened Codec7

  const WORD_BITS := 64

  function Pow2(k: nat): (p: nat)
    ensures p > 0
  {
    if k == 0 then 1 else 2 * Pow2(k - 1)
  }

  // ---- Binary operators on natural numbers ------------------------------------

  /** `word >> k & 1` as a truth value. */
  predicate Bit(word: nat, k: nat)
  {
    if k == 0 then word % 2 == 1 else Bit(word / 2, k - 1)
  }

  function BitAnd(a: nat, b: nat): nat
  {
    if a == 0 || b == 0 then 0
    else 2 * BitAnd(a / 2, b / 2) + (if a % 2 == 1 && b % 2 == 1 then 1 else 0)
  }

  function BitXor(a: nat, b: nat): nat
  {
    if a == 0 && b == 0 then 0
    else 2 * BitXor(a / 2, b / 2) + (if a % 2 != b % 2 then 1 else 0)
  }

  function BitLength(word: nat): nat
  {
    if word == 0 then 0 else 1 + BitLength(word / 2)
  }

  /** Two's complement within `width` bits; above them `word & -word` has no bits. */
  function Negate(word: nat, width: nat): nat
    requires word < Pow2(width)
  {
    Pow2(width) - word
  }

  // ---- The lowest set bit -----------------------------------------------------

  function Lowest(word: nat): (k: nat)
    requires word != 0
    ensures Bit(word, k)
    ensures forall j :: 0 <= j < k ==> !Bit(word, j)
  {
    if word % 2 == 1 then 0 else 1 + Lowest(word / 2)
  }

  lemma {:induction false} AndComplement(v: nat, width: nat)
    requires v < Pow2(width)
    ensures BitAnd(v, Pow2(width) - 1 - v) == 0
  {
    if width != 0 {
      AndComplement(v / 2, width - 1);
      assert (Pow2(width) - 1 - v) / 2 == Pow2(width - 1) - 1 - v / 2;
    }
  }

  /** `word & -word` isolates the lowest set bit. */
  lemma {:induction false} AndNegateIsLowest(word: nat, width: nat)
    requires 0 < word < Pow2(width)
    ensures BitAnd(word, Negate(word, width)) == Pow2(Lowest(word))
  {
    var half, other := word / 2, Negate(word, width);
    if word % 2 == 1 {
      AndComplement(half, width - 1);
      assert other / 2 == Pow2(width - 1) - 1 - half;
    } else {
      AndNegateIsLowest(half, width - 1);
      assert other / 2 == Negate(half, width - 1);
    }
  }

  lemma {:induction false} BitLengthOfPow2(k: nat)
    ensures BitLength(Pow2(k)) == k + 1
  {
    if k != 0 {
      BitLengthOfPow2(k - 1);
    }
  }

  lemma {:induction false} XorZero(a: nat)
    ensures BitXor(a, 0) == a
  {
    if a != 0 {
      XorZero(a / 2);
    }
  }

  /** Xor with the isolated bit clears exactly that bit. */
  lemma {:induction false} XorClearsLowest(word: nat)
    requires word != 0
    ensures BitXor(word, Pow2(Lowest(word))) == word - Pow2(Lowest(word))
    ensures Pow2(Lowest(word)) <= word
  {
    var half := word / 2;
    if word % 2 == 1 {
      XorStep(half, 0, 1, 1);
      XorZero(half);
    } else {
      XorClearsLowest(half);
      XorStep(half, Pow2(Lowest(half)), 0, 0);
    }
  }

  lemma XorStep(a: nat, b: nat, x: nat, y: nat)
    requires x < 2 && y < 2
    ensures BitXor(2 * a + x, 2 * b + y) == 2 * BitXor(a, b) + (if x != y then 1 else 0)
  {
    assert (2 * a + x) / 2 == a && (2 * b + y) / 2 == b;
    assert (2 * a + x) % 2 == x && (2 * b + y) % 2 == y;
  }

  lemma {:induction false} BitsAfterClear(word: nat, j: nat)
    requires word != 0 && Pow2(Lowest(word)) <= word
    ensures Bit(word - Pow2(Lowest(word)), j) <==> Bit(word, j) && j != Lowest(word)
  {
    if word % 2 == 1 {
      if j != 0 {
        assert (word - 1) / 2 == word / 2;
      }
    } else {
      XorClearsLowest(word / 2);
      if j != 0 {
        BitsAfterClear(word / 2, j - 1);
        assert (word - Pow2(Lowest(word))) / 2 == word / 2 - Pow2(Lowest(word / 2));
      }
    }
  }

  lemma {:induction false} ZeroHasNoBits(j: nat)
    ensures !Bit(0, j)
  {
    if j != 0 {
      ZeroHasNoBits(j - 1);
    }
  }

  lemma {:induction false} BitsBelowWidth(word: nat, width: nat, j: nat)
    requires word < Pow2(width)
    requires Bit(word, j)
    ensures j < width
  {
    if j == 0 {
    } else if width == 0 {
      ZeroHasNoBits(j);
      assert false;
    } else {
      BitsBelowWidth(word / 2, width - 1, j - 1);
    }
  }

  // ---- Decoding a whole map ---------------------------------------------------

  ghost predicate WordsFit(words: seq<nat>)
  {
    forall i :: 0 <= i < |words| ==> words[i] < Pow2(WORD_BITS)
  }

  /** The sectors a map of words marks: sector `s` is bit `s % 64` of word `s / 64`. */
  function Marked(words: seq<nat>): (s: set<nat>)
  {
    set s: nat | 0 <= s < WORD_BITS * |words| && Bit(words[s / WORD_BITS], s % WORD_BITS)
  }

  /** Add the set positions of one word by peeling off its lowest set bit until none is left. */
  method PeelBits(start: nat, width: nat, base: nat, before: set<nat>) returns (marked: set<nat>)
    requires start < Pow2(width)
    ensures forall s: nat :: s in marked <==> s in before || (base <= s < base + width && Bit(start, s - base))
  {
    marked := before;
    var word := start;
    while word != 0
      invariant 0 <= word < Pow2(width)
      invariant forall j: nat :: Bit(word, j) ==> Bit(start, j)
      invariant forall s: nat :: s in marked <==>
        s in before || (base <= s < base + width && Bit(start, s - base) && !Bit(word, s - base))
    {
      var low := BitAnd(word, Negate(word, width));
      ghost var k := Lowest(word);
      AndNegateIsLowest(word, width);
      BitLengthOfPow2(k);
      BitsBelowWidth(word, width, k);
      XorClearsLowest(word);
      forall j: nat ensures Bit(word - low, j) <==> Bit(word, j) && j != k {
        BitsAfterClear(word, j);
      }
      marked := marked + {base + BitLength(low) - 1};
      word := BitXor(word, low);
    }
    forall j: nat ensures !Bit(0, j) {
      ZeroHasNoBits(j);
    }
  }

  /** The v7 reader's map decoder. */
  method DecodeByLowestBit(words: seq<nat>) returns (marked: set<nat>)
    requires WordsFit(words)
    ensures marked == Marked(words)
    ensures forall s :: s in marked ==> s < WORD_BITS * |words|
  {
    marked := {};
    for index := 0 to |words|
      invariant marked == Marked(words[..index])
    {
      marked := PeelBits(words[index], WORD_BITS, index * WORD_BITS, marked);
      MarkedSnoc(words, index);
    }
    assert words[..|words|] == words;
  }

  lemma MarkedSnoc(words: seq<nat>, index: nat)
    requires index < |words|
    ensures forall s: nat :: s in Marked(words[..index + 1]) <==>
      s in Marked(words[..index])
      || (index * WORD_BITS <= s < (index + 1) * WORD_BITS && Bit(words[index], s - index * WORD_BITS))
  {
    var shorter, longer := words[..index], words[..index + 1];
    forall s: nat
      ensures s in Marked(longer) <==>
        s in Marked(shorter)
        || (index * WORD_BITS <= s < (index + 1) * WORD_BITS && Bit(words[index], s - index * WORD_BITS))
    {
      if s < index * WORD_BITS {
        assert s / WORD_BITS < index && longer[s / WORD_BITS] == shorter[s / WORD_BITS];
      } else if s < (index + 1) * WORD_BITS {
        assert s / WORD_BITS == index && s % WORD_BITS == s - index * WORD_BITS;
      }
    }
  }

  /** The v6 reader: test all sixty-four positions of each word. */
  method DecodeByScan(words: seq<nat>) returns (used: set<nat>)
    ensures used == Marked(words)
    ensures forall s :: s in used ==> s < WORD_BITS * |words|
  {
    used := {};
    for index := 0 to |words|
      invariant used == Marked(words[..index])
    {
      for bit := 0 to WORD_BITS
        invariant forall s :: s in used <==>
          s in Marked(words[..index])
          || (index * WORD_BITS <= s < index * WORD_BITS + bit && Bit(words[index], s - index * WORD_BITS))
      {
        if Bit(words[index], bit) {
          used := used + {index * WORD_BITS + bit};
        }
      }
      MarkedSnoc(words, index);
    }
    assert words[..|words|] == words;
  }

  // ---- Testing and setting one bit --------------------------------------------

  function BitOr(a: nat, b: nat): nat
  {
    if a == 0 && b == 0 then 0
    else 2 * BitOr(a / 2, b / 2) + (if a % 2 == 1 || b % 2 == 1 then 1 else 0)
  }

  /** `word & (1 << k)` is nonzero exactly when bit `k` is set. */
  lemma {:induction false} AndTestsBit(word: nat, k: nat)
    ensures BitAnd(word, Pow2(k)) != 0 <==> Bit(word, k)
    decreases k
  {
    if k == 0 {
      assert BitAnd(word / 2, 0) == 0;
    } else {
      AndTestsBit(word / 2, k - 1);
      assert Pow2(k) / 2 == Pow2(k - 1) && Pow2(k) % 2 == 0;
      if word == 0 {
        ZeroHasNoBits(k);
      }
    }
  }

  /** `word | (1 << k)` sets bit `k` and no other. */
  lemma {:induction false} OrSetsBit(word: nat, k: nat, j: nat)
    ensures Bit(BitOr(word, Pow2(k)), j) <==> Bit(word, j) || j == k
    decreases k
  {
    if k == 0 {
      OrZero(word / 2);
      OrStep(word / 2, 0, word % 2, 1);
    } else {
      assert Pow2(k) / 2 == Pow2(k - 1) && Pow2(k) % 2 == 0;
      OrStep(word / 2, Pow2(k - 1), word % 2, 0);
      if j > 0 {
        OrSetsBit(word / 2, k - 1, j - 1);
      }
    }
  }

  lemma {:induction false} OrZero(a: nat)
    ensures BitOr(a, 0) == a
  {
    if a != 0 {
      OrZero(a / 2);
    }
  }

  lemma OrStep(a: nat, b: nat, x: nat, y: nat)
    requires x < 2 && y < 2
    ensures BitOr(2 * a + x, 2 * b + y) == 2 * BitOr(a, b) + (if x == 1 || y == 1 then 1 else 0)
  {
    assert (2 * a + x) / 2 == a && (2 * b + y) / 2 == b;
  }

  lemma {:induction false} OrFits(word: nat, k: nat, width: nat)
    requires word < Pow2(width) && k < width
    ensures BitOr(word, Pow2(k)) < Pow2(width)
    decreases width
  {
    if k == 0 {
      OrZero(word / 2);
      OrStep(word / 2, 0, word % 2, 1);
    } else {
      assert Pow2(k) / 2 == Pow2(k - 1) && Pow2(k) % 2 == 0;
      OrStep(word / 2, Pow2(k - 1), word % 2, 0);
      OrFits(word / 2, k - 1, width - 1);
    }
  }

  /** Setting bit `s % 64` of word `s / 64` marks sector `s` and nothing else. */
  lemma MarkedAfterOr(words: seq<nat>, s: nat, width: nat)
    requires WordsFit(words) && width == WORD_BITS && s < WORD_BITS * |words|
    ensures var i := s / WORD_BITS;
      var after := words[i := BitOr(words[i], Pow2(s % WORD_BITS))];
      WordsFit(after) && forall t: nat :: t in Marked(after) <==> t in Marked(words) || t == s
  {
    var i, k := s / WORD_BITS, s % WORD_BITS;
    var after := words[i := BitOr(words[i], Pow2(k))];
    OrFits(words[i], k, width);
    forall t: nat ensures t in Marked(after) <==> t in Marked(words) || t == s {
      OrSetsBit(words[i], k, t % WORD_BITS);
    }
  }

  // ---- Encoding ---------------------------------------------------------------

  /** The number whose bit `k < n` says whether sector `base + k` is in `marked`. */
  function WordFrom(marked: set<nat>, base: nat, n: nat): (w: nat)
    ensures w < Pow2(n)
    decreases n, base
  {
    if n == 0 then 0 else (if base in marked then 1 else 0) + 2 * WordFrom(marked, base + 1, n - 1)
  }

  lemma {:induction false} BitOfWordFrom(marked: set<nat>, base: nat, n: nat, k: nat)
    requires k < n
    ensures Bit(WordFrom(marked, base, n), k) <==> base + k in marked
    decreases n
  {
    if k != 0 {
      BitOfWordFrom(marked, base + 1, n - 1, k - 1);
    }
  }

  /** A word is determined by its bits. */
  lemma {:induction false} WordFromBits(marked: set<nat>, base: nat, n: nat, word: nat)
    requires word < Pow2(n)
    requires forall k :: 0 <= k < n ==> (Bit(word, k) <==> base + k in marked)
    ensures WordFrom(marked, base, n) == word
    decreases n
  {
    if n != 0 {
      assert Bit(word, 0) <==> base + 0 in marked;
      forall k | 0 <= k < n - 1 ensures Bit(word / 2, k) <==> base + 1 + k in marked {
        assert Bit(word, k + 1) <==> base + (k + 1) in marked;
      }
      WordFromBits(marked, base + 1, n - 1, word / 2);
    }
  }

  function WordsOf(marked: set<nat>): (words: seq<nat>)
    ensures |words| == MAP_WORDS
    ensures WordsFit(words)
  {
    seq(MAP_WORDS, i requires 0 <= i < MAP_WORDS => WordFrom(marked, i * WORD_BITS, WORD_BITS))
  }

  /** Marking then reading returns the set, for any set of payload sectors. */
  lemma MarkedOfWordsOf(marked: set<nat>)
    requires forall s :: s in marked ==> s < DATA_SECTORS
    ensures Marked(WordsOf(marked)) == marked
  {
    forall s: nat | s < DATA_SECTORS
      ensures s in Marked(WordsOf(marked)) <==> s in marked
    {
      BitOfWordFrom(marked, s / WORD_BITS * WORD_BITS, WORD_BITS, s % WORD_BITS);
    }
  }

  lemma MarkedAt(words: seq<nat>, i: nat, k: nat)
    requires i < |words| && k < WORD_BITS
    ensures i * WORD_BITS + k in Marked(words) <==> Bit(words[i], k)
  {
    assert (i * WORD_BITS + k) / WORD_BITS == i && (i * WORD_BITS + k) % WORD_BITS == k;
  }

  lemma WordAt(words: seq<nat>, i: nat, width: nat)
    requires i < |words| && width == WORD_BITS && words[i] < Pow2(width)
    ensures WordFrom(Marked(words), i * WORD_BITS, width) == words[i]
  {
    forall k | 0 <= k < width
      ensures Bit(words[i], k) <==> i * WORD_BITS + k in Marked(words)
    {
      MarkedAt(words, i, k);
    }
    WordFromBits(Marked(words), i * WORD_BITS, width, words[i]);
  }

  /** Reading then marking returns the words, so a map has one encoding. */
  lemma WordsOfMarked(words: seq<nat>)
    requires |words| == MAP_WORDS && WordsFit(words)
    ensures WordsOf(Marked(words)) == words
  {
    forall i | 0 <= i < MAP_WORDS
      ensures WordsOf(Marked(words))[i] == words[i]
    {
      WordAt(words, i, WORD_BITS);
    }
  }

  // ---- Bytes ------------------------------------------------------------------

  lemma {:induction false} BytesOfBits(w: nat)
    ensures Pow2(8 * w) == Pow256(w)
  {
    if w != 0 {
      BytesOfBits(w - 1);
      var n := 8 * (w - 1);
      assert Pow2(n + 2) == 4 * Pow2(n);
      assert Pow2(n + 4) == 4 * Pow2(n + 2);
      assert Pow2(n + 6) == 4 * Pow2(n + 4);
      assert Pow2(n + 8) == 4 * Pow2(n + 6);
    }
  }

  function ReadWords(raw: seq<Byte>): (words: seq<nat>)
    requires |raw| == MAP_BYTES
    ensures |words| == MAP_WORDS
    ensures WordsFit(words)
  {
    BytesOfBits(8);
    seq(MAP_WORDS, i requires 0 <= i < MAP_WORDS => ReadU64(Piece(raw, 8, i), 0))
  }

  function WordPieces(marked: set<nat>): (ps: seq<seq<Byte>>)
    ensures |ps| == MAP_WORDS && AllSized(ps, 8)
  {
    seq(MAP_WORDS, i requires 0 <= i < MAP_WORDS => LE(WordsOf(marked)[i], 8))
  }

  function EncodeMap(marked: set<nat>): (raw: seq<Byte>)
    ensures |raw| == MAP_BYTES
  {
    JoinLength(WordPieces(marked), 8);
    Join(WordPieces(marked))
  }

  function DecodeMap(raw: seq<Byte>): set<nat>
    requires |raw| == MAP_BYTES
  {
    Marked(ReadWords(raw))
  }

  lemma MapRoundTrip(marked: set<nat>)
    requires forall s :: s in marked ==> s < DATA_SECTORS
    ensures DecodeMap(EncodeMap(marked)) == marked
  {
    var raw, words := EncodeMap(marked), WordsOf(marked);
    assert ReadWords(raw) == words by {
      BytesOfBits(8);
      forall i | 0 <= i < MAP_WORDS
        ensures ReadWords(raw)[i] == words[i]
      {
        PieceOfJoin(WordPieces(marked), 8, i);
        ReadBackU64(Piece(raw, 8, i), 0, words[i]);
      }
    }
    MarkedOfWordsOf(marked);
  }

  lemma WordPieceAt(raw: seq<Byte>, i: nat)
    requires |raw| == MAP_BYTES && i < MAP_WORDS
    ensures LE(ReadWords(raw)[i], 8) == Pieces(raw, 8, MAP_WORDS)[i]
  {
    var piece := Piece(raw, 8, i);
    assert piece[0..8] == piece;
  }

  lemma MapCanonical(raw: seq<Byte>)
    requires |raw| == MAP_BYTES
    ensures EncodeMap(DecodeMap(raw)) == raw
  {
    var words := ReadWords(raw);
    WordsOfMarked(words);
    assert WordPieces(Marked(words)) == Pieces(raw, 8, MAP_WORDS) by {
      forall i | 0 <= i < MAP_WORDS
        ensures WordPieces(Marked(words))[i] == Pieces(raw, 8, MAP_WORDS)[i]
      {
        WordPieceAt(raw, i);
      }
    }
    JoinOfPieces(raw, 8, MAP_WORDS);
  }
}
