/** The mnemonic codec: entropy and checksum as base-2048 words, and the separate validator. */
module Mnemonic {
  import opened Wrappers
  import opened Bytes

  const RADIX: nat := 2048

  /** The word list, the hash and the notion of white space the codec is used with. */
  datatype Lexicon = Lexicon(words: seq<string>, sha256: Bytes -> Bytes, isSpace: char -> bool)

  ghost predicate ValidLexicon(lex: Lexicon) {
    && |lex.words| == RADIX
    && (forall i, j :: 0 <= i < j < RADIX ==> lex.words[i] != lex.words[j])
    && (forall i :: 0 <= i < RADIX ==> IsWord(lex, lex.words[i]))
    && (forall data :: |lex.sha256(data)| == 32)
    && lex.isSpace(' ')
  }

  predicate IsWord(lex: Lexicon, w: string) {
    w != "" && forall i :: 0 <= i < |w| ==> !lex.isSpace(w[i])
  }

  // ---------------------------------------------------------------- encoding

  predicate EntropySize(n: nat) {
    n == 16 || n == 20 || n == 24 || n == 28 || n == 32
  }

  predicate WordCount(n: nat) {
    n == 12 || n == 15 || n == 18 || n == 21 || n == 24
  }

  /** The leading `bits` of the hash, at most eight of them. */
  function Checksum(lex: Lexicon, entropy: Bytes, bits: nat): nat
    requires ValidLexicon(lex) && bits <= 8
  {
    PowPositive(2, 8 - bits);
    Quotient(lex.sha256(entropy)[0], Pow(2, 8 - bits))
  }

  /** Entropy followed by its checksum bits. The checksum is below the shift, so `|` is an addition. */
  function Combined(lex: Lexicon, entropy: Bytes): nat
    requires ValidLexicon(lex) && EntropySize(|entropy|)
  {
    FromBytes(entropy) * Pow(2, |entropy| / 4) + Checksum(lex, entropy, |entropy| / 4)
  }

  function WordsAt(lex: Lexicon, indices: seq<nat>): (words: seq<string>)
    requires ValidLexicon(lex) && DigitsBelow(RADIX, indices)
    ensures |words| == |indices|
  {
    seq(|indices|, i requires 0 <= i < |indices| => lex.words[indices[i]])
  }

  /** The words for some entropy; None stands for the error on other sizes. */
  function Generated(lex: Lexicon, entropy: Bytes): Option<seq<string>>
    requires ValidLexicon(lex)
  {
    if !EntropySize(|entropy|) then None
    else Some(WordsAt(lex, ToDigits(RADIX, Combined(lex, entropy), (8 * |entropy| + |entropy| / 4) / 11)))
  }

  // ---------------------------------------------------------------- validating

  /** The position the word map gives a word: the last one. */
  function IndexOf(words: seq<string>, w: string): (p: Option<nat>)
    ensures p.Some? ==> p.value < |words| && words[p.value] == w
    ensures p.None? ==> w !in words
  {
    if words == [] then None
    else if words[|words| - 1] == w then Some(|words| - 1)
    else IndexOf(words[..|words| - 1], w)
  }

  function Indices(lex: Lexicon, words: seq<string>): (r: Option<seq<nat>>)
    requires ValidLexicon(lex)
    ensures r.Some? ==> |r.value| == |words| && DigitsBelow(RADIX, r.value)
  {
    if words == [] then Some([])
    else
      var before, last := Indices(lex, words[..|words| - 1]), IndexOf(lex.words, words[|words| - 1]);
      if before.None? || last.None? then None else Some(before.value + [last.value])
  }

  function ChecksumBits(count: nat): nat {
    count * 11 / 33
  }

  /** The entropy the validator recovers from a combined number of `count` words. */
  function RecoveredEntropy(combined: nat, count: nat): Bytes {
    PowPositive(2, ChecksumBits(count));
    ToBytes(Quotient(combined, Pow(2, ChecksumBits(count))), (count * 11 - ChecksumBits(count)) / 8)
  }

  /** Acceptance, with the entropy recovered on the way. */
  function Validated(lex: Lexicon, words: seq<string>): (r: Option<Bytes>)
    requires ValidLexicon(lex)
  {
    if !WordCount(|words|) then None
    else
      var indices := Indices(lex, words);
      if indices.None? then None
      else
        var combined, bits := FromDigits(RADIX, indices.value), ChecksumBits(|words|);
        var entropy := RecoveredEntropy(combined, |words|);
        PowPositive(2, bits);
        if Remainder(combined, Pow(2, bits)) == Checksum(lex, entropy, bits) then Some(entropy) else None
  }

  // ---------------------------------------------------------------- text

  function Join(words: seq<string>): string {
    if words == [] then ""
    else if |words| == 1 then words[0]
    else Join(words[..|words| - 1]) + " " + words[|words| - 1]
  }

  /** `text.split()`: the maximal runs of non-space characters. */
  function Split(lex: Lexicon, text: string): seq<string> {
    if text == "" then []
    else
      var n := |text| - 1;
      var before := Split(lex, text[..n]);
      if lex.isSpace(text[n]) then before
      else if n > 0 && before != [] && !lex.isSpace(text[n - 1])
        then before[..|before| - 1] + [before[|before| - 1] + [text[n]]]
      else before + [[text[n]]]
  }

  // ---------------------------------------------------------------- arithmetic

  /** (v / b) / p = v / (p * b) */
  lemma DivDiv(v: nat, b: nat, p: nat)
    requires b > 0 && p > 0 && p * b > 0
    ensures Quotient(Quotient(v, b), p) == Quotient(v, p * b)
  {
    hide Quotient, Remainder;
    var q1, r1 := Quotient(v, b), Remainder(v, b);
    var q, r2 := Quotient(q1, p), Remainder(q1, p);
    AppendBelow(b, r2, r1, p);
    assert (q * p + r2) * b == q * (p * b) + r2 * b;
    assert b * p == p * b;
    DivModUnique(p * b, q, r2 * b + r1);
  }

  /** Digit `i` from the right. */
  lemma {:induction false} DigitAt(b: nat, v: nat, n: nat, i: nat)
    requires b > 0 && i < n
    ensures Pow(b, i) > 0
    ensures ToDigits(b, v, n)[n - 1 - i] == Remainder(Quotient(v, Pow(b, i)), b)
    decreases n
  {
    PowPositive(b, i);
    hide Quotient, Remainder;
    if i == 0 {
      DivModUnique(1, v, 0);
    } else {
      DigitAt(b, Quotient(v, b), n - 1, i - 1);
      assert Pow(b, i) == Pow(b, i - 1) * b;
      hide Pow;
      DivDiv(v, b, Pow(b, i - 1));
    }
  }

  lemma QuotientBounded(v: nat, p: nat, q: nat)
    requires p > 0 && q > 0 && v < p * q
    ensures Quotient(v, q) < p
  {
    hide Quotient;
    if p <= Quotient(v, q) {
      MulMonotone(p, Quotient(v, q), q);
    }
  }

  /** 32 m entropy bits and m checksum bits are 3 m words of 11 bits. */
  lemma {:induction false} WordCapacity(m: nat)
    ensures Pow(256, 4 * m) * Pow(2, m) == Pow(RADIX, 3 * m)
  {
    if m > 0 {
      WordCapacity(m - 1);
      PowAdd(256, 4, 4 * (m - 1));
      PowAdd(2, 1, m - 1);
      PowAdd(RADIX, 3, 3 * (m - 1));
      CapacityStep(Pow(256, 4 * (m - 1)), Pow(2, m - 1), Pow(RADIX, 3 * (m - 1)));
    }
  }

  lemma CapacityStep(a: nat, b: nat, c: nat)
    requires a * b == c
    ensures (Pow(256, 4) * a) * (Pow(2, 1) * b) == Pow(RADIX, 3) * c
  {
    assert Pow(256, 4) == 0x1_0000_0000 && Pow(2, 1) == 2 && Pow(RADIX, 3) == 0x2_0000_0000;
    assert (0x1_0000_0000 * a) * (2 * b) == 0x2_0000_0000 * (a * b);
  }

  lemma ChecksumBound(lex: Lexicon, entropy: Bytes, bits: nat)
    requires ValidLexicon(lex) && bits <= 8
    ensures Checksum(lex, entropy, bits) < Pow(2, bits)
  {
    PowAdd(2, bits, 8 - bits);
    assert Pow(2, 8) == 256;
    PowPositive(2, bits);
    PowPositive(2, 8 - bits);
    QuotientBounded(lex.sha256(entropy)[0], Pow(2, bits), Pow(2, 8 - bits));
  }

  lemma CombinedBound(lex: Lexicon, entropy: Bytes, m: nat)
    requires ValidLexicon(lex) && |entropy| == 4 * m && EntropySize(4 * m)
    ensures Combined(lex, entropy) < Pow(RADIX, 3 * m)
  {
    hide *;
    GeneratedIs(lex, entropy, m);
    ToFromBytes(entropy);
    ChecksumBound(lex, entropy, m);
    WordCapacity(m);
    AppendBelow(Pow(2, m), FromBytes(entropy), Checksum(lex, entropy, m), Pow(256, 4 * m));
    assert Pow(2, m) * Pow(256, 4 * m) == Pow(256, 4 * m) * Pow(2, m);
  }

  /** With n = 4 m bytes there are m checksum bits and 3 m words, and back. */
  lemma SizesOf(n: nat)
    requires EntropySize(n)
    ensures var m := n / 4;
            && n == 4 * m && m <= 8 && WordCount(3 * m) && (8 * n + m) / 11 == 3 * m
            && ChecksumBits(3 * m) == m && (3 * m * 11 - m) / 8 == n
  {
  }

  lemma CountsOf(n: nat)
    requires WordCount(n)
    ensures var m := n / 3;
            && n == 3 * m && EntropySize(4 * m) && m <= 8 && ChecksumBits(n) == m && (n * 11 - m) / 8 == 4 * m
            && 4 * m / 4 == m && (8 * (4 * m) + m) / 11 == n
  {
  }

  // ---------------------------------------------------------------- the bijection

  lemma {:induction false} IndexOfWord(words: seq<string>, i: nat)
    requires i < |words|
    requires forall j, k :: 0 <= j < k < |words| ==> words[j] != words[k]
    ensures IndexOf(words, words[i]) == Some(i)
  {
    if i < |words| - 1 {
      assert words[..|words| - 1][i] == words[i];
      IndexOfWord(words[..|words| - 1], i);
    }
  }

  lemma {:induction false} IndicesOfWords(lex: Lexicon, indices: seq<nat>)
    requires ValidLexicon(lex) && DigitsBelow(RADIX, indices)
    ensures Indices(lex, WordsAt(lex, indices)) == Some(indices)
  {
    hide ValidLexicon;
    LexiconDistinct(lex);
    if indices == [] {
      assert WordsAt(lex, indices) == [];
      assert Indices(lex, []) == Some([]);
    } else {
      var n := |indices| - 1;
      IndicesOfWords(lex, indices[..n]);
      IndexOfWord(lex.words, indices[n]);
      assert WordsAt(lex, indices)[..n] == WordsAt(lex, indices[..n]);
      assert indices[..n] + [indices[n]] == indices;
    }
  }

  lemma LexiconDistinct(lex: Lexicon)
    requires ValidLexicon(lex)
    ensures |lex.words| == RADIX && forall i, j :: 0 <= i < j < RADIX ==> lex.words[i] != lex.words[j]
  {
  }

  lemma {:induction false} WordsOfIndices(lex: Lexicon, words: seq<string>)
    requires ValidLexicon(lex) && Indices(lex, words).Some?
    ensures WordsAt(lex, Indices(lex, words).value) == words
  {
    if words != [] {
      WordsOfIndices(lex, words[..|words| - 1]);
      var indices := Indices(lex, words).value;
      assert WordsAt(lex, indices)[..|words| - 1] == WordsAt(lex, indices[..|words| - 1]);
    }
  }

  /** What the validator makes of the words with given positions. */
  lemma ValidatedDigits(lex: Lexicon, indices: seq<nat>, m: nat)
    requires ValidLexicon(lex) && DigitsBelow(RADIX, indices) && |indices| == 3 * m && WordCount(3 * m)
    ensures m <= 8 && Pow(2, m) > 0
    ensures var combined := FromDigits(RADIX, indices);
            var entropy := ToBytes(Quotient(combined, Pow(2, m)), 4 * m);
            Validated(lex, WordsAt(lex, indices))
              == if Remainder(combined, Pow(2, m)) == Checksum(lex, entropy, m) then Some(entropy) else None
  {
    PowPositive(2, m);
    CountsOf(3 * m);
    IndicesOfWords(lex, indices);
    hide ValidLexicon, Pow, FromDigits, ToBytes, Quotient, Remainder, Checksum, Indices, WordsAt, ChecksumBits,
      WordCount, EntropySize;
  }

  lemma GeneratedIs(lex: Lexicon, entropy: Bytes, m: nat)
    requires ValidLexicon(lex) && |entropy| == 4 * m && EntropySize(4 * m)
    ensures m <= 8 && WordCount(3 * m)
    ensures Combined(lex, entropy) == FromBytes(entropy) * Pow(2, m) + Checksum(lex, entropy, m)
    ensures Generated(lex, entropy) == Some(WordsAt(lex, ToDigits(RADIX, Combined(lex, entropy), 3 * m)))
  {
    SizesOf(4 * m);
    hide EntropySize, WordCount, ValidLexicon, ToDigits, FromBytes, Pow, Checksum, WordsAt;
  }

  /** Validating the generated words succeeds and recovers the entropy. */
  lemma ValidateGenerated(lex: Lexicon, entropy: Bytes)
    requires ValidLexicon(lex) && EntropySize(|entropy|)
    ensures Generated(lex, entropy).Some?
    ensures Validated(lex, Generated(lex, entropy).value) == Some(entropy)
  {
    var m := |entropy| / 4;
    assert |entropy| == 4 * m;
    GeneratedIs(lex, entropy, m);
    CombinedParts(lex, entropy, m);
    hide *;
    var combined := Combined(lex, entropy);
    FromToDigits(RADIX, combined, 3 * m);
    ValidatedDigits(lex, ToDigits(RADIX, combined, 3 * m), m);
  }

  /** The combined number comes apart into the entropy and its checksum. */
  lemma CombinedParts(lex: Lexicon, entropy: Bytes, m: nat)
    requires ValidLexicon(lex) && |entropy| == 4 * m && EntropySize(4 * m)
    ensures m <= 8 && Pow(2, m) > 0 && Combined(lex, entropy) < Pow(RADIX, 3 * m)
    ensures ToBytes(Quotient(Combined(lex, entropy), Pow(2, m)), 4 * m) == entropy
    ensures Remainder(Combined(lex, entropy), Pow(2, m)) == Checksum(lex, entropy, m)
  {
    hide *;
    GeneratedIs(lex, entropy, m);
    CombinedBound(lex, entropy, m);
    ChecksumBound(lex, entropy, m);
    PowPositive(2, m);
    DivModUnique(Pow(2, m), FromBytes(entropy), Checksum(lex, entropy, m));
    ToFromBytes(entropy);
  }

  /** Every accepted word list is the one generated from its recovered entropy. */
  lemma GenerateValidated(lex: Lexicon, words: seq<string>)
    requires ValidLexicon(lex) && Validated(lex, words).Some?
    ensures EntropySize(|Validated(lex, words).value|)
    ensures Generated(lex, Validated(lex, words).value) == Some(words)
  {
    var m := |words| / 3;
    CountsOf(|words|);
    var indices := Indices(lex, words).value;
    WordsOfIndices(lex, words);
    hide *;
    ValidatedDigits(lex, indices, m);
    RecoveredCombined(lex, indices, m);
    GeneratedIs(lex, Validated(lex, words).value, m);
    ToFromDigits(RADIX, indices);
  }

  lemma RecoveredCombined(lex: Lexicon, indices: seq<nat>, m: nat)
    requires ValidLexicon(lex) && DigitsBelow(RADIX, indices) && |indices| == 3 * m && EntropySize(4 * m) && m <= 8
    ensures Pow(2, m) > 0
    ensures var combined := FromDigits(RADIX, indices);
            var entropy := ToBytes(Quotient(combined, Pow(2, m)), 4 * m);
            Remainder(combined, Pow(2, m)) == Checksum(lex, entropy, m) ==> Combined(lex, entropy) == combined
  {
    var combined := FromDigits(RADIX, indices);
    FromDigitsBound(RADIX, indices);
    WordCapacity(m);
    PowPositive(2, m);
    PowPositive(256, 4 * m);
    QuotientBounded(combined, Pow(256, 4 * m), Pow(2, m));
    FromToBytes(Quotient(combined, Pow(2, m)), 4 * m);
    assert 4 * m / 4 == m;
    hide Pow, FromDigits, Checksum, FromBytes, ToBytes, Quotient, Remainder, ValidLexicon;
    assert combined == Quotient(combined, Pow(2, m)) * Pow(2, m) + Remainder(combined, Pow(2, m));
  }

  // ---------------------------------------------------------------- the words, bit by bit

  /** Bit `p` of a number, counted from the lowest. */
  function BitAt(v: nat, p: nat): nat {
    PowPositive(2, p);
    Remainder(Quotient(v, Pow(2, p)), 2)
  }

  lemma BitsOfQuotient(v: nat, w: nat, p: nat)
    ensures Pow(2, w) > 0
    ensures BitAt(Quotient(v, Pow(2, w)), p) == BitAt(v, w + p)
  {
    PowPositive(2, w);
    PowPositive(2, p);
    PowPositive(2, w + p);
    PowAdd(2, p, w);
    hide Pow, Quotient;
    DivDiv(v, Pow(2, w), Pow(2, p));
  }

  lemma BitsAbove(q: nat, d: nat, w: nat, p: nat)
    requires d < Pow(2, w)
    ensures BitAt(q * Pow(2, w) + d, w + p) == BitAt(q, p)
  {
    DivModUnique(Pow(2, w), q, d);
    hide BitAt, Quotient, Pow;
    BitsOfQuotient(q * Pow(2, w) + d, w, p);
  }

  lemma EvenPart(k: nat, x: nat)
    ensures Remainder(2 * k + x, 2) == Remainder(x, 2)
  {
  }

  lemma Regrouped(q: nat, half: nat, low: nat, x: nat)
    ensures q * ((2 * half) * low) + x * low == (2 * (q * half) + x) * low
  {
    assert q * ((2 * half) * low) == (2 * (q * half)) * low;
  }

  lemma HalvesOfShift(q: nat, d: nat, w: nat, p: nat)
    requires p < w
    ensures Pow(2, p) > 0
    ensures q * Pow(2, w) + d
         == (2 * (q * Pow(2, w - p - 1)) + Quotient(d, Pow(2, p))) * Pow(2, p) + Remainder(d, Pow(2, p))
  {
    PowPositive(2, p);
    PowAdd(2, w - p, p);
    assert Pow(2, w - p) == 2 * Pow(2, w - p - 1);
    hide Pow, Quotient, Remainder;
    Regrouped(q, Pow(2, w - p - 1), Pow(2, p), Quotient(d, Pow(2, p)));
  }

  lemma BitsBelow(q: nat, d: nat, w: nat, p: nat)
    requires p < w && d < Pow(2, w)
    ensures BitAt(q * Pow(2, w) + d, p) == BitAt(d, p)
  {
    HalvesOfShift(q, d, w, p);
    var half, low := Pow(2, w - p - 1), Pow(2, p);
    var high, x := q * half, Quotient(d, low);
    hide Pow, Quotient, Remainder;
    DivModUnique(low, 2 * high + x, Remainder(d, low));
    EvenPart(high, x);
  }

  /** The bits of a number are those of its digits. */
  lemma {:induction false} BitsOfDigits(w: nat, s: seq<nat>, i: nat, r: nat)
    requires DigitsBelow(Pow(2, w), s) && i < |s| && r < w
    ensures BitAt(FromDigits(Pow(2, w), s), i * w + r) == BitAt(s[|s| - 1 - i], r)
  {
    var n := |s| - 1;
    hide BitAt, Pow;
    if i == 0 {
      BitsBelow(FromDigits(Pow(2, w), s[..n]), s[n], w, r);
      assert 0 * w + r == r;
    } else {
      assert i * w + r == w + ((i - 1) * w + r);
      BitsAbove(FromDigits(Pow(2, w), s[..n]), s[n], w, (i - 1) * w + r);
      BitsOfDigits(w, s[..n], i - 1, r);
    }
  }

  /** Bit `t` of a byte string, counted from the left. */
  function StreamBit(data: Bytes, t: nat): nat
    requires t < 8 * |data|
  {
    BitAt(data[t / 8], 7 - t % 8)
  }

  lemma RadixPowers()
    ensures Pow(2, 11) == RADIX && Pow(2, 8) == 256
  {
    PowAdd(2, 8, 3);
    assert Pow(2, 8) == 256 && Pow(2, 3) == 8;
  }

  lemma ChecksumBit(lex: Lexicon, entropy: Bytes, m: nat, p: nat)
    requires ValidLexicon(lex) && p < m <= 8
    ensures BitAt(Checksum(lex, entropy, m), p) == BitAt(lex.sha256(entropy)[0], 8 - m + p)
  {
    hide BitAt, Quotient, Pow;
    BitsOfQuotient(lex.sha256(entropy)[0], 8 - m, p);
  }

  lemma EntropyBit(entropy: Bytes, more: Bytes, t: nat)
    requires t < 8 * |entropy|
    ensures BitAt(FromBytes(entropy), 8 * |entropy| - 1 - t) == StreamBit(entropy + more, t)
  {
    RadixPowers();
    hide BitAt, Pow, FromDigits;
    BitsOfDigits(8, entropy, |entropy| - 1 - t / 8, 7 - t % 8);
    assert (|entropy| - 1 - t / 8) * 8 + (7 - t % 8) == 8 * |entropy| - 1 - t;
  }

  lemma HashBit(lex: Lexicon, entropy: Bytes, m: nat, t: nat)
    requires ValidLexicon(lex) && |entropy| == 4 * m && m <= 8 && 32 * m <= t < 33 * m
    ensures t < 8 * |entropy + lex.sha256(entropy)|
    ensures BitAt(Checksum(lex, entropy, m), 33 * m - 1 - t) == StreamBit(entropy + lex.sha256(entropy), t)
  {
    ChecksumBit(lex, entropy, m, 33 * m - 1 - t);
    assert (entropy + lex.sha256(entropy))[4 * m] == lex.sha256(entropy)[0];
    hide BitAt, Checksum;
    assert t / 8 == 4 * m && 7 - t % 8 == 8 - m + (33 * m - 1 - t);
  }

  /** Bit `t` from the left of the combined number. */
  lemma CombinedBit(lex: Lexicon, entropy: Bytes, m: nat, t: nat)
    requires ValidLexicon(lex) && |entropy| == 4 * m && EntropySize(4 * m) && t < 33 * m
    ensures t < 8 * |entropy + lex.sha256(entropy)|
    ensures BitAt(Combined(lex, entropy), 33 * m - 1 - t) == StreamBit(entropy + lex.sha256(entropy), t)
  {
    hide *;
    GeneratedIs(lex, entropy, m);
    ChecksumBound(lex, entropy, m);
    if t < 32 * m {
      BitsAbove(FromBytes(entropy), Checksum(lex, entropy, m), m, 32 * m - 1 - t);
      EntropyBit(entropy, lex.sha256(entropy), t);
    } else {
      BitsBelow(FromBytes(entropy), Checksum(lex, entropy, m), m, 33 * m - 1 - t);
      HashBit(lex, entropy, m, t);
    }
  }

  lemma DigitBit(combined: nat, n: nat, t: nat)
    requires combined < Pow(RADIX, n) && t < 11 * n
    ensures BitAt(ToDigits(RADIX, combined, n)[t / 11], 10 - t % 11) == BitAt(combined, 11 * n - 1 - t)
  {
    FromToDigits(RADIX, combined, n);
    RadixPowers();
    hide BitAt, Pow, ToDigits, FromDigits;
    BitsOfDigits(11, ToDigits(RADIX, combined, n), n - 1 - t / 11, 10 - t % 11);
    assert (n - 1 - t / 11) * 11 + (10 - t % 11) == 11 * n - 1 - t;
  }

  lemma GeneratedWord(lex: Lexicon, entropy: Bytes, m: nat, j: nat) returns (index: nat)
    requires ValidLexicon(lex) && |entropy| == 4 * m && EntropySize(4 * m) && j < 3 * m
    ensures Generated(lex, entropy).Some? && |Generated(lex, entropy).value| == 3 * m
    ensures index == ToDigits(RADIX, Combined(lex, entropy), 3 * m)[j]
    ensures index < RADIX && |lex.words| == RADIX && Generated(lex, entropy).value[j] == lex.words[index]
    ensures 33 * m <= 8 * |entropy + lex.sha256(entropy)|
  {
    GeneratedIs(lex, entropy, m);
    index := ToDigits(RADIX, Combined(lex, entropy), 3 * m)[j];
    hide Generated, Combined, ToDigits, Checksum, FromBytes, Pow;
  }

  /**
   What the words say, bit by bit: each is the entry of the list at the next eleven bits of the entropy followed by
   its SHA-256 hash, so that the last one ends in the leading bits of the hash.
   */
  lemma GeneratedBits(lex: Lexicon, entropy: Bytes, t: nat) returns (index: nat)
    requires ValidLexicon(lex) && EntropySize(|entropy|) && t < 8 * |entropy| + |entropy| / 4
    ensures Generated(lex, entropy).Some?
    ensures |Generated(lex, entropy).value| * 11 == 8 * |entropy| + |entropy| / 4 <= 8 * |entropy + lex.sha256(entropy)|
    ensures index < RADIX && Generated(lex, entropy).value[t / 11] == lex.words[index]
    ensures BitAt(index, 10 - t % 11) == StreamBit(entropy + lex.sha256(entropy), t)
  {
    var m := |entropy| / 4;
    assert |entropy| == 4 * m && t < 33 * m;
    hide *;
    index := GeneratedWord(lex, entropy, m, t / 11);
    CombinedBound(lex, entropy, m);
    CombinedBit(lex, entropy, m, t);
    DigitBit(Combined(lex, entropy), 3 * m, t);
  }

  // ---------------------------------------------------------------- joining and splitting

  /** Appending the characters of a word to a text that ends in a space, or is empty, adds that word. */
  lemma {:induction false} SplitAppendWord(lex: Lexicon, text: string, w: string)
    requires IsWord(lex, w) && (text == "" || lex.isSpace(text[|text| - 1]))
    ensures Split(lex, text + w) == Split(lex, text) + [w]
  {
    var n := |w| - 1;
    var all := text + w;
    assert all[..|all| - 1] == text + w[..n] && all[|all| - 1] == w[n];
    hide Split;
    if n == 0 {
      assert text + w[..0] == text;
      assert w == [w[0]];
      SplitStarts(lex, text, w[0]);
    } else {
      assert IsWord(lex, w[..n]);
      SplitAppendWord(lex, text, w[..n]);
      assert all[|all| - 2] == w[n - 1];
      SplitExtends(lex, all, Split(lex, text), w[..n]);
      assert w == w[..n] + [w[n]];
    }
  }

  /** A character behind a space, or at the start, begins a word. */
  lemma SplitStarts(lex: Lexicon, text: string, ch: char)
    requires !lex.isSpace(ch) && (text == "" || lex.isSpace(text[|text| - 1]))
    ensures Split(lex, text + [ch]) == Split(lex, text) + [[ch]]
  {
    assert (text + [ch])[..|text|] == text;
  }

  /** A character behind a running word extends it. */
  lemma SplitExtends(lex: Lexicon, all: string, before: seq<string>, last: string)
    requires |all| >= 2 && !lex.isSpace(all[|all| - 1]) && !lex.isSpace(all[|all| - 2])
    requires Split(lex, all[..|all| - 1]) == before + [last]
    ensures Split(lex, all) == before + [last + [all[|all| - 1]]]
  {
    assert (before + [last])[..|before|] == before;
  }

  /** One more character, within a word that is still open or not. */
  function Grown(lex: Lexicon, words: seq<string>, within: bool, ch: char): seq<string>
    requires within ==> words != []
  {
    if lex.isSpace(ch) then words
    else if within then words[..|words| - 1] + [words[|words| - 1] + [ch]]
    else words + [[ch]]
  }

  predicate WithinWord(lex: Lexicon, text: string) {
    text != "" && !lex.isSpace(text[|text| - 1])
  }

  lemma SplitSnoc(lex: Lexicon, text: string, ch: char)
    ensures WithinWord(lex, text) ==> Split(lex, text) != []
    ensures Split(lex, text + [ch]) == Grown(lex, Split(lex, text), WithinWord(lex, text), ch)
  {
    assert (text + [ch])[..|text|] == text;
  }

  lemma GrownBehind(lex: Lexicon, x: seq<string>, y: seq<string>, within: bool, ch: char)
    requires within ==> y != []
    ensures Grown(lex, x + y, within, ch) == x + Grown(lex, y, within, ch)
  {
  }

  lemma GrownApart(lex: Lexicon, words: seq<string>, open1: bool, open2: bool, ch: char)
    requires open1 || open2 ==> words != []
    requires lex.isSpace(ch) || open1 == open2
    ensures Grown(lex, words, open1, ch) == Grown(lex, words, open2, ch)
  {
  }

  /**
   Texts that a space parts are split on their own. With a space having no words and a word being its only one,
   this is all there is to splitting.
   */
  lemma {:induction false} SplitConcat(lex: Lexicon, a: string, b: string)
    requires a == "" || b == "" || lex.isSpace(a[|a| - 1]) || lex.isSpace(b[0])
    ensures Split(lex, a + b) == Split(lex, a) + Split(lex, b)
    decreases |b|
  {
    if b == "" {
      assert a + b == a && Split(lex, "") == [];
    } else {
      hide *;
      var n := |b| - 1;
      var rest, ch := b[..n], b[n];
      assert b == rest + [ch] && a + b == (a + rest) + [ch];
      SplitConcat(lex, a, rest);
      SplitSnoc(lex, a + rest, ch);
      SplitSnoc(lex, rest, ch);
      WithinBehind(lex, a, rest, ch);
      GrownBehind(lex, Split(lex, a), Split(lex, rest), WithinWord(lex, rest), ch);
      GrownApart(lex, Split(lex, a) + Split(lex, rest), WithinWord(lex, a + rest), WithinWord(lex, rest), ch);
    }
    hide *;
  }

  lemma WithinBehind(lex: Lexicon, a: string, rest: string, ch: char)
    requires a == "" || lex.isSpace(a[|a| - 1]) || lex.isSpace((rest + [ch])[0])
    ensures lex.isSpace(ch) || WithinWord(lex, a + rest) == WithinWord(lex, rest)
  {
    if rest == "" {
      assert a + rest == a;
    }
  }

  lemma JoinSnoc(before: seq<string>, w: string)
    ensures Join(before + [w]) == if before == [] then w else Join(before) + " " + w
  {
    assert (before + [w])[..|before|] == before;
  }

  /** A space behind a text adds no word. */
  lemma SplitSpace(lex: Lexicon, text: string)
    requires lex.isSpace(' ')
    ensures Split(lex, text + " ") == Split(lex, text)
    ensures (text + " ")[|text + " "| - 1] == ' '
  {
    assert (text + " ")[..|text|] == text;
  }

  lemma SplitJoinSnoc(lex: Lexicon, before: seq<string>, w: string)
    requires lex.isSpace(' ') && IsWord(lex, w) && Split(lex, Join(before)) == before
    ensures Split(lex, Join(before + [w])) == before + [w]
  {
    hide *;
    JoinSnoc(before, w);
    SplitNothing(lex);
    if before == [] {
      SplitAppendWord(lex, "", w);
      assert "" + w == w;
    } else {
      SplitSpace(lex, Join(before));
      SplitAppendWord(lex, Join(before) + " ", w);
    }
  }

  /** Splitting the joined words gives the words back. */
  lemma {:induction false} SplitJoin(lex: Lexicon, words: seq<string>)
    requires lex.isSpace(' ')
    requires forall i :: 0 <= i < |words| ==> IsWord(lex, words[i])
    ensures Split(lex, Join(words)) == words
  {
    if words != [] {
      hide *;
      var n := |words| - 1;
      SplitJoin(lex, words[..n]);
      SplitJoinSnoc(lex, words[..n], words[n]);
      assert words == words[..n] + [words[n]];
    }
    hide IsWord;
  }

  lemma SplitNothing(lex: Lexicon)
    ensures Split(lex, "") == []
  {
  }

  /** Joined words stand with one space between them. */
  lemma {:induction false} JoinConcat(a: seq<string>, b: seq<string>)
    requires a != [] && b != []
    ensures Join(a + b) == Join(a) + " " + Join(b)
    ensures |a| == 1 ==> Join(a) == a[0]
    decreases |b|
  {
    var n := |b| - 1;
    assert (a + b)[..|a| + n] == a + b[..n];
    if n == 0 {
      assert a + b[..0] == a;
    } else {
      JoinConcat(a, b[..n]);
      assert Join(a) + " " + (Join(b[..n]) + " " + b[n]) == Join(a) + " " + Join(b[..n]) + " " + b[n];
    }
  }

  /** From entropy to text and back. */
  lemma MnemonicRoundTrip(lex: Lexicon, entropy: Bytes)
    requires ValidLexicon(lex) && EntropySize(|entropy|)
    ensures Generated(lex, entropy).Some?
    ensures Validated(lex, Split(lex, Join(Generated(lex, entropy).value))) == Some(entropy)
  {
    ValidateGenerated(lex, entropy);
    SplitJoin(lex, Generated(lex, entropy).value);
  }

  // ---------------------------------------------------------------- methods

  method GenerateMnemonic(lex: Lexicon, entropy: Bytes) returns (text: Option<string>)
    requires ValidLexicon(lex)
    ensures text.Some? <==> |entropy| in {16, 20, 24, 28, 32}
    ensures text.Some? ==> text.value == Join(Generated(lex, entropy).value)
  {
    if !EntropySize(|entropy|) {
      return None;
    }
    var words := EncodeWords(lex, entropy);
    return Some(Join(words));
  }

  method EncodeWords(lex: Lexicon, entropy: Bytes) returns (words: seq<string>)
    requires ValidLexicon(lex) && EntropySize(|entropy|)
    ensures Generated(lex, entropy) == Some(words)
  {
    hide *;
    var (csBits, numWords) := BitSizes(|entropy|);
    GeneratedIs(lex, entropy, csBits);
    var combined := ShiftIn(FromBytes(entropy), csBits, Checksum(lex, entropy, csBits));
    words := WordsFrom(lex, combined, numWords);
  }

  /** Checksum bits and words. */
  function BitSizes(n: nat): (s: (nat, nat))
    requires EntropySize(n)
    ensures n == 4 * s.0 && s.1 == 3 * s.0
  {
    (n * 8 / 32, (n * 8 + n * 8 / 32) / 11)
  }

  /** `v << n | low` for `low` of `n` bits. */
  function ShiftIn(v: nat, n: nat, low: nat): (r: nat)
    ensures r == v * Pow(2, n) + low
  {
    v * Pow(2, n) + low
  }

  /** Emits the digits from the left, each computed by shifting and masking. */
  method WordsFrom(lex: Lexicon, combined: nat, numWords: nat) returns (words: seq<string>)
    requires ValidLexicon(lex)
    ensures words == WordsAt(lex, ToDigits(RADIX, combined, numWords))
  {
    ghost var digits := ToDigits(RADIX, combined, numWords);
    LexiconDistinct(lex);
    hide ValidLexicon, Pow, ToDigits, Quotient, Remainder;
    words := [];
    var i := numWords;
    while i > 0
      invariant 0 <= i <= numWords && words == WordsAt(lex, digits)[..numWords - i]
    {
      i := i - 1;
      DigitAt(RADIX, combined, numWords, i);
      words := words + [lex.words[Remainder(Quotient(combined, Pow(RADIX, i)), RADIX)]];
    }
    assert words == WordsAt(lex, digits);
  }

  method ValidateMnemonic(lex: Lexicon, text: string) returns (ok: bool)
    requires ValidLexicon(lex)
    ensures ok <==> Validated(lex, Split(lex, text)).Some?
  {
    var words := Split(lex, text);
    var n := |words|;
    if !WordCount(n) {
      return false;
    }
    hide ValidLexicon, WordCount, Indices, FromDigits, Checksum, RecoveredEntropy, Pow;
    var combined := ReadWords(lex, words);
    if combined.None? {
      return false;
    }
    var csBits := ChecksumBits(n);
    PowPositive(2, csBits);
    return Remainder(combined.value, Pow(2, csBits)) == Checksum(lex, RecoveredEntropy(combined.value, n), csBits);
  }

  /** Shifts the position of every word into an accumulator; None at the first unknown word. */
  method ReadWords(lex: Lexicon, words: seq<string>) returns (combined: Option<nat>)
    requires ValidLexicon(lex)
    ensures combined.Some? <==> Indices(lex, words).Some?
    ensures combined.Some? ==> combined.value == FromDigits(RADIX, Indices(lex, words).value)
  {
    hide ValidLexicon;
    var value: nat := 0;
    ghost var indices: seq<nat> := [];
    for i := 0 to |words|
      invariant Indices(lex, words[..i]) == Some(indices)
      invariant value == FromDigits(RADIX, indices)
    {
      assert words[..i + 1][..i] == words[..i];
      var idx := IndexOf(lex.words, words[i]);
      if idx.None? {
        IndicesFail(lex, words, i + 1);
        return None;
      }
      FromDigitsSnoc(RADIX, indices, idx.value);
      value := value * RADIX + idx.value;
      indices := indices + [idx.value];
    }
    assert words[..|words|] == words;
    return Some(value);
  }

  lemma {:induction false} IndicesFail(lex: Lexicon, words: seq<string>, n: nat)
    requires ValidLexicon(lex) && n <= |words| && Indices(lex, words[..n]).None?
    ensures Indices(lex, words).None?
    decreases |words| - n
  {
    if n < |words| {
      assert words[..n + 1][..n] == words[..n];
      IndicesFail(lex, words, n + 1);
    } else {
      assert words[..n] == words;
    }
  }
}
