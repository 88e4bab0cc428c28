/** The gear hash as a window function: its low bits depend on the last few bytes only. */
module GearWindow {
  import opened Bytes
  import opened Cdc

  /** Gear values weighted by powers of two, the last byte having weight one. */
  function WeightedSum(gear: Gear, window: Bytes): nat {
    if window == [] then 0
    else 2 * WeightedSum(gear, window[..|window| - 1]) + gear[window[|window| - 1]]
  }

  lemma ModUnique(q: int, m: nat, r: nat)
    requires r < m
    ensures (q * m + r) % m == r
  {
    var v := q * m + r;
    var q', r' := v / m, v % m;
    assert q' * m + r' == v;
    assert (q - q') * m == r' - r;
    if q - q' >= 1 {
      MulMonotone(1, q - q', m);
    } else if q - q' <= -1 {
      MulMonotone(q - q', -1, m);
    }
  }

  /** Reducing modulo a multiple of `m` first does not matter modulo `m`. */
  lemma ModOfMod(v: nat, m: nat, f: nat)
    requires m > 0 && f > 0 && m * f > 0
    ensures (v % (m * f)) % m == v % m
  {
    var big := m * f;
    var q, r := v / big, v % big;
    var q', r' := r / m, r % m;
    assert v == q * big + r && r == q' * m + r';
    assert v == (q * f + q') * m + r' by {
      assert q * big == (q * f) * m;
      assert (q * f) * m + q' * m == (q * f + q') * m;
    }
    ModUnique(q * f + q', m, r');
  }

  lemma DoubleMod(h: nat, g: nat, p: nat)
    requires p > 0
    ensures (2 * h + g) % (2 * p) == (2 * (h % p) + g) % (2 * p)
  {
    var q, r := h / p, h % p;
    assert h == q * p + r;
    var v := 2 * r + g;
    var q', r' := v / (2 * p), v % (2 * p);
    assert v == q' * (2 * p) + r';
    assert 2 * h + g == (q + q') * (2 * p) + r' by {
      assert 2 * (q * p) == q * (2 * p);
      assert q * (2 * p) + q' * (2 * p) == (q + q') * (2 * p);
    }
    ModUnique(q + q', 2 * p, r');
  }

  lemma PowSplit(m: nat)
    requires m <= 64
    ensures UINT64 == Pow(2, m) * Pow(2, 64 - m) && Pow(2, m) > 0 && Pow(2, 64 - m) > 0
  {
    PowAdd(2, m, 64 - m);
    PowPositive(2, m);
    PowPositive(2, 64 - m);
    TwoTo64();
  }

  lemma TwoTo64()
    ensures Pow(2, 64) == UINT64
  {
    assert Pow(2, 8) == 256;
    PowAdd(2, 8, 8);
    assert Pow(2, 16) == 0x1_0000;
    PowAdd(2, 16, 16);
    PowAdd(2, 32, 32);
  }

  /**
   Once `m <= 64` bytes are hashed, the low `m` bits of the rolling hash are those of the weighted sum
   of the last `m` gear values.
   */
  lemma {:induction false} WindowHash(gear: Gear, data: Bytes, n: nat, m: nat)
    requires m <= n <= |data| && m <= 64
    ensures Pow(2, m) > 0
    ensures RollingHash(gear, data, n) % Pow(2, m) == WeightedSum(gear, data[n - m..n]) % Pow(2, m)
    decreases m
  {
    PowPositive(2, m);
    if m == 0 {
      ModOne(RollingHash(gear, data, n));
      ModOne(WeightedSum(gear, []));
    } else {
      WindowHash(gear, data, n - 1, m - 1);
      var h, w := RollingHash(gear, data, n - 1), WeightedSum(gear, data[n - m..n - 1]);
      var g, p := gear[data[n - 1]], Pow(2, m - 1);
      assert data[n - m..n][..m - 1] == data[n - m..n - 1];
      PowSplit(m);
      ModOfMod(2 * h + g, 2 * p, Pow(2, 64 - m));
      DoubleMod(h, g, p);
      DoubleMod(w, g, p);
    }
  }

  lemma ModOne(v: nat)
    ensures Pow(2, 0) == 1 && v % Pow(2, 0) == 0
  {
  }

  /**
   A boundary test that has enough bytes behind it depends only on as many of the last bytes as its mask
   has bits, and on which side of the target size it falls.
   */
  lemma BoundaryIsWindow(c: Chunker, a: Bytes, i: nat, b: Bytes, j: nat)
    requires i < |a| && j < |b| && MaskBits(c.p, i) == MaskBits(c.p, j)
    requires var m := MaskBits(c.p, i);
             m <= 64 && m <= i + 1 && m <= j + 1 && a[i + 1 - m..i + 1] == b[j + 1 - m..j + 1]
    ensures Boundary(c, a, i) == Boundary(c, b, j)
  {
    var m := MaskBits(c.p, i);
    WindowHash(c.gear, a, i + 1, m);
    WindowHash(c.gear, b, j + 1, m);
  }

  // ---------------------------------------------------------------- where a chunk ends

  /** The hash of the first bytes is their weighted sum, as far as 64 bits show it. */
  lemma {:induction false} HashIsSum(gear: Gear, data: Bytes, n: nat)
    requires n <= |data|
    ensures RollingHash(gear, data, n) == WeightedSum(gear, data[..n]) % UINT64
  {
    if n > 0 {
      HashIsSum(gear, data, n - 1);
      var w, g := WeightedSum(gear, data[..n - 1]), gear[data[n - 1]];
      assert data[..n][..n - 1] == data[..n - 1];
      PowSplit(1);
      ModOfMod(2 * w + g, UINT64, 2);
      DoubleMod(w, g, UINT64);
      ModOfMod(2 * (w % UINT64) + g, UINT64, 2);
    }
  }

  /** Byte `q` ends a chunk if these many low bits of the weighted sum so far are zero: of 64 there are no more. */
  predicate Hit(c: Chunker, data: Bytes, q: nat)
    requires q < |data|
  {
    var bits := if q < c.p.targetSize then c.p.bits + 1 else c.p.bits - 1;
    PowPositive(2, Min(bits, 64));
    WeightedSum(c.gear, data[..q + 1]) % Pow(2, Min(bits, 64)) == 0
  }

  /** The first chunk of nonempty data has `n` bytes. */
  predicate IsCut(c: Chunker, data: Bytes, n: nat) {
    if |data| <= c.p.minSize then n == |data|
    else
      && c.p.minSize <= n <= |data| && n <= c.p.maxSize
      && (forall q :: c.p.minSize <= q < n - 1 ==> !Hit(c, data, q))
      && (n == |data| || n == c.p.maxSize || (c.p.minSize < n && Hit(c, data, n - 1)))
  }

  lemma FewLowBits(w: nat, bits: nat)
    requires bits <= 64
    ensures LowBitsClear(w % UINT64, bits) == LowBitsClear(w, bits)
  {
    PowSplit(bits);
    ModOfMod(w, Pow(2, bits), Pow(2, 64 - bits));
    hide Pow;
  }

  lemma PowBeyond64(bits: nat)
    requires bits > 64
    ensures Pow(2, bits) >= UINT64
  {
    TwoTo64();
    PowAdd(2, 64, bits - 64);
    PowPositive(2, bits - 64);
    hide Pow;
    MulMonotone(1, Pow(2, bits - 64), UINT64);
  }

  lemma ManyLowBits(w: nat, bits: nat)
    requires bits > 64
    ensures LowBitsClear(w % UINT64, bits) == (w % UINT64 == 0)
  {
    PowBeyond64(bits);
    hide Pow;
    ModUnique(0, Pow(2, bits), w % UINT64);
  }

  lemma LowBitsOfSum(w: nat, bits: nat)
    ensures LowBitsClear(w % UINT64, bits) == LowBitsClear(w, Min(bits, 64))
  {
    TwoTo64();
    if bits <= 64 {
      FewLowBits(w, bits);
    } else {
      ManyLowBits(w, bits);
    }
    hide Pow;
  }

  lemma HitIsBoundary(c: Chunker, data: Bytes, q: nat)
    requires q < |data|
    ensures Boundary(c, data, q) == Hit(c, data, q)
  {
    HashIsSum(c.gear, data, q + 1);
    LowBitsOfSum(WeightedSum(c.gear, data[..q + 1]), MaskBits(c.p, q));
    hide RollingHash, WeightedSum, LowBitsClear, Pow;
  }

  /** A scan ends behind the first hit. */
  lemma {:induction false} ScanEnds(c: Chunker, data: Bytes, pos: nat, limit: nat)
    requires pos <= limit <= |data|
    ensures var n := FirstBoundary(c, data, pos, limit);
            && (forall q :: pos <= q < n - 1 ==> !Hit(c, data, q))
            && (n < limit ==> pos < n && Hit(c, data, n - 1))
    decreases limit - pos
  {
    hide Boundary, Hit;
    if pos < limit {
      HitIsBoundary(c, data, pos);
      ScanEnds(c, data, pos + 1, limit);
    }
  }

  lemma OneCut(c: Chunker, data: Bytes, m: nat, n: nat)
    requires IsCut(c, data, m) && IsCut(c, data, n)
    ensures m >= n
  {
    hide Hit;
  }

  /**
   The cut law: the first chunk ends behind the first hit from the minimum size on, or where the data or the
   maximum size ends it; the mask has two bits more before the target size than from it on.
   */
  lemma CutLaw(c: Chunker, data: Bytes, n: nat)
    requires data != []
    ensures CutLength(c, data) == n <==> IsCut(c, data, n)
  {
    hide Hit;
    if |data| > c.p.minSize {
      ScanEnds(c, data, c.p.minSize, Min(c.p.maxSize, |data|));
    }
    assert IsCut(c, data, CutLength(c, data));
    if IsCut(c, data, n) {
      OneCut(c, data, n, CutLength(c, data));
      OneCut(c, data, CutLength(c, data), n);
    }
  }

  /** Every chunk of a buffer lies where the cut law puts it. */
  lemma ChunkEnds(c: Chunker, data: Bytes, i: nat)
    requires i < |Chunks(c, data)|
    ensures var o := OffsetOf(Chunks(c, data), i);
            && o < |data| && IsCut(c, data[o..], |Chunks(c, data)[i]|)
            && o + |Chunks(c, data)[i]| <= |data|
            && Chunks(c, data)[i] == data[o..][..|Chunks(c, data)[i]|]
  {
    hide *;
    var chunks := Chunks(c, data);
    ChunksFromBoundary(c, data, i);
    var rest := data[OffsetOf(chunks, i)..];
    FirstChunk(c, rest);
    assert chunks[i] == chunks[i..][0];
    CutLaw(c, rest, |chunks[i]|);
  }
}
