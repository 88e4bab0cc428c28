/** Content-defined chunking: where the boundaries of a byte string lie, and the whole-buffer chunker. */
module Cdc {
  import opened Bytes

  const UINT64: nat := 0x1_0000_0000_0000_0000

  type Gear = g: seq<nat> | |g| == 256 && forall i :: 0 <= i < 256 ==> g[i] < UINT64
    witness seq(256, _ => 0)

  /** Chunker parameters; `bits` is the rounded logarithm of the target size, at least one. */
  datatype Parameters = Parameters(minSize: nat, targetSize: nat, maxSize: nat, bits: nat)

  predicate ValidParameters(p: Parameters) {
    p.minSize <= p.targetSize <= p.maxSize && p.targetSize > 0 && p.bits > 0
  }

  type Chunking = p: Parameters | ValidParameters(p) witness Parameters(0, 1, 1, 1)

  datatype Chunker = Chunker(p: Chunking, gear: Gear)

  function Roll(gear: Gear, h: nat, b: byte): nat {
    (2 * h + gear[b]) % UINT64
  }

  /** The rolling hash after the first `n` bytes. */
  function RollingHash(gear: Gear, data: Bytes, n: nat): nat
    requires n <= |data|
  {
    if n == 0 then 0 else Roll(gear, RollingHash(gear, data, n - 1), data[n - 1])
  }

  /** `h & ((1 << bits) - 1) == 0` */
  predicate LowBitsClear(h: nat, bits: nat) {
    PowPositive(2, bits);
    h % Pow(2, bits) == 0
  }

  /** The boundary test is tighter before the target size than after it. */
  function MaskBits(p: Chunking, pos: nat): nat {
    if pos < p.targetSize then p.bits + 1 else p.bits - 1
  }

  /** The boundary test behind byte `pos` of a chunk. */
  predicate Boundary(c: Chunker, data: Bytes, pos: nat)
    requires pos < |data|
  {
    LowBitsClear(RollingHash(c.gear, data, pos + 1), MaskBits(c.p, pos))
  }

  /** The end of the chunk if the scan has reached `pos`. */
  function FirstBoundary(c: Chunker, data: Bytes, pos: nat, limit: nat): (n: nat)
    requires pos <= limit <= |data|
    ensures pos <= n <= limit
    ensures pos < limit ==> pos < n
    decreases limit - pos
  {
    if pos == limit then limit
    else if Boundary(c, data, pos) then pos + 1
    else FirstBoundary(c, data, pos + 1, limit)
  }

  /** The length of the first chunk of nonempty data. */
  function CutLength(c: Chunker, data: Bytes): (n: nat)
    requires data != []
    ensures 0 < n <= |data| && n <= c.p.maxSize
    ensures n < |data| ==> c.p.minSize <= n
  {
    if |data| <= c.p.minSize then |data|
    else FirstBoundary(c, data, c.p.minSize, Min(c.p.maxSize, |data|))
  }

  function Chunks(c: Chunker, data: Bytes): seq<Bytes>
    decreases |data|
  {
    if data == [] then []
    else
      var n := CutLength(c, data);
      [data[..n]] + Chunks(c, data[n..])
  }

  // ---------------------------------------------------------------- properties of the chunk list

  /** The chunks spell out the data. */
  lemma {:induction false} ChunksConcat(c: Chunker, data: Bytes)
    ensures Concat(Chunks(c, data)) == data
    decreases |data|
  {
    if data != [] {
      var n := CutLength(c, data);
      ChunksConcat(c, data[n..]);
      assert Chunks(c, data)[1..] == Chunks(c, data[n..]);
    }
  }

  /** No chunk is empty or over the maximum, and only the last may be under the minimum. */
  lemma {:induction false} ChunkSizes(c: Chunker, data: Bytes, i: nat)
    requires i < |Chunks(c, data)|
    ensures 0 < |Chunks(c, data)[i]| <= c.p.maxSize
    ensures i < |Chunks(c, data)| - 1 ==> c.p.minSize <= |Chunks(c, data)[i]|
    decreases |data|
  {
    var n := CutLength(c, data);
    if i > 0 {
      ChunkSizes(c, data[n..], i - 1);
    } else if |Chunks(c, data)| > 1 {
      assert data[n..] != [];
    }
  }

  /** A boundary test reads only the bytes up to it. */
  lemma {:induction false} HashAgrees(gear: Gear, a: Bytes, b: Bytes, n: nat)
    requires n <= |a| && n <= |b| && a[..n] == b[..n]
    ensures RollingHash(gear, a, n) == RollingHash(gear, b, n)
  {
    if n > 0 {
      assert a[..n][..n - 1] == a[..n - 1] && b[..n][..n - 1] == b[..n - 1];
      assert a[n - 1] == a[..n][n - 1] && b[n - 1] == b[..n][n - 1];
      HashAgrees(gear, a, b, n - 1);
    }
  }

  lemma BoundaryAgrees(c: Chunker, a: Bytes, b: Bytes, pos: nat, n: nat)
    requires pos < n <= |a| && n <= |b| && a[..n] == b[..n]
    ensures Boundary(c, a, pos) == Boundary(c, b, pos)
  {
    assert a[..pos + 1] == a[..n][..pos + 1] && b[..pos + 1] == b[..n][..pos + 1];
    HashAgrees(c.gear, a, b, pos + 1);
  }

  /** Two scans that see the same bytes stop at the same place. */
  lemma {:induction false} ScanAgrees(c: Chunker, a: Bytes, b: Bytes, pos: nat, limit: nat)
    requires pos <= limit <= |a| && limit <= |b| && a[..limit] == b[..limit]
    ensures FirstBoundary(c, a, pos, limit) == FirstBoundary(c, b, pos, limit)
    decreases limit - pos
  {
    if pos < limit {
      BoundaryAgrees(c, a, b, pos, limit);
      ScanAgrees(c, a, b, pos + 1, limit);
    }
  }

  /** A scan that stopped before its limit stops there whatever the limit, and on any data starting alike. */
  lemma {:induction false} ScanStops(c: Chunker, a: Bytes, b: Bytes, pos: nat, limit: nat, other: nat)
    requires pos <= limit <= |a| && pos <= other <= |b|
    requires var n := FirstBoundary(c, a, pos, limit);
             n < limit && n <= other && a[..n] == b[..n]
    ensures FirstBoundary(c, b, pos, other) == FirstBoundary(c, a, pos, limit)
    decreases limit - pos
  {
    var n := FirstBoundary(c, a, pos, limit);
    BoundaryAgrees(c, a, b, pos, n);
    if !Boundary(c, a, pos) {
      ScanStops(c, a, b, pos + 1, limit, other);
    }
  }

  /** Bytes behind the maximum chunk size do not influence the cut. */
  lemma CutIsLocal(c: Chunker, buffer: Bytes, rest: Bytes)
    requires c.p.minSize < |buffer| && c.p.maxSize <= |buffer|
    ensures CutLength(c, buffer + rest) == CutLength(c, buffer)
  {
    var limit := c.p.maxSize;
    assert (buffer + rest)[..limit] == buffer[..limit];
    ScanAgrees(c, buffer, buffer + rest, c.p.minSize, limit);
  }

  /** A chunk that is not the last is cut alike from any data that continues its bytes. */
  lemma CutAgrees(c: Chunker, a: Bytes, b: Bytes)
    requires a != [] && b != []
    requires var n := CutLength(c, a); n < |a| && n <= |b| && a[..n] == b[..n]
    ensures CutLength(c, b) == CutLength(c, a)
  {
    var n := CutLength(c, a);
    var limit, other := Min(c.p.maxSize, |a|), Min(c.p.maxSize, |b|);
    if |b| > c.p.minSize {
      if n < limit {
        ScanStops(c, a, b, c.p.minSize, limit, other);
      } else {
        ScanAgrees(c, a, b, c.p.minSize, limit);
      }
    }
  }

  /** The offset at which chunk `i` starts. */
  function OffsetOf(chunks: seq<Bytes>, i: nat): nat
    requires i <= |chunks|
  {
    if i == 0 then 0 else OffsetOf(chunks, i - 1) + |chunks[i - 1]|
  }

  lemma {:induction false} OffsetOfTail(chunks: seq<Bytes>, i: nat)
    requires 0 < i <= |chunks|
    ensures OffsetOf(chunks, i) == |chunks[0]| + OffsetOf(chunks[1..], i - 1)
  {
    if i > 1 {
      OffsetOfTail(chunks, i - 1);
    }
  }

  /**
   Edit locality: a non-final chunk of `a + b` that ends within `a` is a chunk of `a + d`, with the same
   number and at the same offset.
   */
  lemma {:induction false} EditLocality(c: Chunker, a: Bytes, b: Bytes, d: Bytes, i: nat)
    requires i + 1 < |Chunks(c, a + b)|
    requires OffsetOf(Chunks(c, a + b), i + 1) <= |a|
    ensures i < |Chunks(c, a + d)|
    ensures Chunks(c, a + d)[i] == Chunks(c, a + b)[i]
    ensures OffsetOf(Chunks(c, a + d), i) == OffsetOf(Chunks(c, a + b), i)
    decreases |a|
  {
    hide *;
    var ab, ad := Chunks(c, a + b), Chunks(c, a + d);
    OffsetOfTail(ab, i + 1);
    var n := FirstChunkAgrees(c, a, b, d);
    if i > 0 {
      EditLocality(c, a[n..], b, d, i - 1);
      OffsetOfTail(ab, i);
      OffsetOfTail(ad, i);
      assert ab[1..][i - 1] == ab[i] && ad[1..][i - 1] == ad[i];
    } else {
      OffsetOfFirst(ab);
      OffsetOfFirst(ad);
    }
  }

  lemma OffsetOfFirst(chunks: seq<Bytes>)
    ensures OffsetOf(chunks, 0) == 0
  {
  }

  lemma FirstChunkAgrees(c: Chunker, a: Bytes, b: Bytes, d: Bytes) returns (n: nat)
    requires |Chunks(c, a + b)| > 1 && |Chunks(c, a + b)[0]| <= |a|
    ensures 0 < n <= |a| && n == |Chunks(c, a + b)[0]|
    ensures Chunks(c, a + d) != [] && Chunks(c, a + d)[0] == Chunks(c, a + b)[0]
    ensures Chunks(c, a + b)[1..] == Chunks(c, a[n..] + b) && Chunks(c, a + d)[1..] == Chunks(c, a[n..] + d)
  {
    hide *;
    FirstChunk(c, a + b);
    n := CutLength(c, a + b);
    Prefixed(a, b, n);
    Prefixed(a, d, n);
    FirstChunk(c, (a + b)[n..]);
    FirstChunk(c, a + d);
    CutAgrees(c, a + b, a + d);
  }

  lemma Prefixed(a: Bytes, b: Bytes, n: nat)
    requires n <= |a|
    ensures (a + b)[..n] == a[..n] && (a + b)[n..] == a[n..] + b
  {
  }

  lemma FirstChunk(c: Chunker, data: Bytes)
    ensures data == [] ==> Chunks(c, data) == []
    ensures data != [] ==> Chunks(c, data) != []
    ensures data != [] ==> Chunks(c, data)[0] == data[..CutLength(c, data)]
    ensures data != [] ==> Chunks(c, data)[1..] == Chunks(c, data[CutLength(c, data)..])
  {
  }

  lemma DropTwice<T>(s: seq<T>, a: nat, b: nat)
    requires a + b <= |s|
    ensures s[a..][b..] == s[a + b..]
  {
  }

  /** Behind any boundary the chunk list is that of the remaining bytes alone. */
  lemma {:induction false} ChunksFromBoundary(c: Chunker, data: Bytes, i: nat)
    requires i <= |Chunks(c, data)|
    ensures OffsetOf(Chunks(c, data), i) <= |data|
    ensures Chunks(c, data)[i..] == Chunks(c, data[OffsetOf(Chunks(c, data), i)..])
    decreases i
  {
    var chunks := Chunks(c, data);
    FirstChunk(c, data);
    if i > 0 {
      hide *;
      var n := CutLength(c, data);
      var rest := data[n..];
      var tail := Chunks(c, rest);
      assert chunks[1..] == tail && |chunks[0]| == n;
      ChunksFromBoundary(c, rest, i - 1);
      OffsetOfTail(chunks, i);
      var o := OffsetOf(tail, i - 1);
      assert OffsetOf(chunks, i) == n + o;
      DropTwice(data, n, o);
      DropTwice(chunks, 1, i - 1);
    } else {
      BoundaryAtStart(c, data);
    }
    hide *;
  }

  lemma BoundaryAtStart(c: Chunker, data: Bytes)
    ensures OffsetOf(Chunks(c, data), 0) == 0
    ensures Chunks(c, data)[0..] == Chunks(c, data[0..])
  {
    assert data[0..] == data;
  }

  /** Resynchronisation: once two inputs both have a boundary where a common tail starts, they chunk alike. */
  lemma Resynchronise(c: Chunker, x: Bytes, y: Bytes, s: Bytes, i: nat, j: nat)
    requires i <= |Chunks(c, x + s)| && OffsetOf(Chunks(c, x + s), i) == |x|
    requires j <= |Chunks(c, y + s)| && OffsetOf(Chunks(c, y + s), j) == |y|
    ensures Chunks(c, x + s)[i..] == Chunks(c, y + s)[j..] == Chunks(c, s)
  {
    ChunksFromBoundary(c, x + s, i);
    ChunksFromBoundary(c, y + s, j);
    assert (x + s)[|x|..] == s && (y + s)[|y|..] == s;
  }

  // ---------------------------------------------------------------- the whole-buffer chunker

  /** One masked scan of the buffer, from `pos` up to `limit`; `chunk` is the buffer from the chunk's start. */
  method ScanRegion(c: Chunker, data: Bytes, start: nat, pos: nat, limit: nat, hash: nat, bits: nat, ghost chunk: Bytes)
    returns (end: nat, found: bool, rolling: nat)
    requires start <= pos <= limit <= |data| && chunk == data[start..]
    requires hash == RollingHash(c.gear, chunk, pos - start)
    requires forall q :: pos - start <= q < limit - start ==> MaskBits(c.p, q) == bits
    ensures pos <= end <= limit
    ensures rolling == RollingHash(c.gear, chunk, end - start)
    ensures forall q :: pos - start <= q < end - start - (if found then 1 else 0) ==> !Boundary(c, chunk, q)
    ensures found ==> pos < end && Boundary(c, chunk, end - start - 1)
    ensures !found ==> end == limit
  {
    hide Roll, LowBitsClear;
    end, found, rolling := pos, false, hash;
    while end < limit
      invariant pos <= end <= limit
      invariant rolling == RollingHash(c.gear, chunk, end - start)
      invariant forall q :: pos - start <= q < end - start ==> !Boundary(c, chunk, q)
    {
      ghost var q := end - start;
      assert chunk[q] == data[end];
      rolling := Roll(c.gear, rolling, data[end]);
      assert rolling == RollingHash(c.gear, chunk, q + 1);
      assert Boundary(c, chunk, q) == LowBitsClear(rolling, bits);
      end := end + 1;
      if LowBitsClear(rolling, bits) {
        found := true;
        return;
      }
    }
  }

  lemma {:induction false} FirstBoundaryIs(c: Chunker, data: Bytes, pos: nat, limit: nat, n: nat)
    requires pos <= n <= limit <= |data|
    requires n < limit ==> pos < n && Boundary(c, data, n - 1)
    requires forall q :: pos <= q < n - 1 ==> !Boundary(c, data, q)
    ensures FirstBoundary(c, data, pos, limit) == n
    decreases n - pos
  {
    if pos < n - 1 {
      FirstBoundaryIs(c, data, pos + 1, limit, n);
    }
  }

  /** The rolling hash over the minimum window. */
  method WarmUp(c: Chunker, data: Bytes, start: nat, pos: nat, ghost chunk: Bytes) returns (rolling: nat)
    requires start <= pos <= |data| && chunk == data[start..]
    ensures rolling == RollingHash(c.gear, chunk, pos - start)
  {
    rolling := 0;
    for i := start to pos
      invariant rolling == RollingHash(c.gear, chunk, i - start)
    {
      assert chunk[i - start] == data[i];
      rolling := Roll(c.gear, rolling, data[i]);
    }
  }

  /** Where the chunk starting at `start` ends: warm-up, tight region, loose region. */
  method FindCut(c: Chunker, data: Bytes, start: nat) returns (end: nat)
    requires start < |data| && |data| - start > c.p.minSize
    ensures end == start + CutLength(c, data[start..])
  {
    hide Boundary, RollingHash;
    ghost var chunk := data[start..];
    var pos := start + c.p.minSize;
    var maxScan := Min(start + c.p.maxSize, |data|);
    var mid := Min(start + c.p.targetSize, maxScan);
    var rolling := WarmUp(c, data, start, pos, chunk);
    var found;
    end, found, rolling := ScanRegion(c, data, start, pos, mid, rolling, c.p.bits + 1, chunk);
    if !found {
      end, found, rolling := ScanRegion(c, data, start, end, maxScan, rolling, c.p.bits - 1, chunk);
    }
    FirstBoundaryIs(c, chunk, c.p.minSize, Min(c.p.maxSize, |chunk|), end - start);
  }

  lemma ChunksStep(c: Chunker, data: Bytes, start: nat, n: nat)
    requires start < |data| && n == CutLength(c, data[start..])
    ensures start + n <= |data|
    ensures Chunks(c, data[start..]) == [data[start..start + n]] + Chunks(c, data[start + n..])
  {
    assert data[start..][..n] == data[start..start + n];
    assert data[start..][n..] == data[start + n..];
  }

  lemma ShortChunks(c: Chunker, data: Bytes)
    requires |data| <= c.p.minSize
    ensures Chunks(c, data) == if data == [] then [] else [data]
  {
    if data != [] {
      assert data[..|data|] == data && data[|data|..] == [];
      assert Chunks(c, data[|data|..]) == [];
    }
  }

  lemma AppendAssoc<T>(front: seq<T>, x: T, rest: seq<T>)
    ensures (front + [x]) + rest == front + ([x] + rest)
  {
  }

  method ChunkBuffer(c: Chunker, data: Bytes) returns (chunks: seq<Bytes>)
    ensures chunks == Chunks(c, data)
  {
    ShortChunks(c, []);
    if data == [] {
      return [];
    }
    if |data| <= c.p.minSize {
      ShortChunks(c, data);
      return [data];
    }
    hide Chunks, CutLength;
    chunks := [];
    var offset := 0;
    assert data[0..] == data;
    while offset < |data|
      invariant offset <= |data|
      invariant chunks + Chunks(c, data[offset..]) == Chunks(c, data)
      decreases |data| - offset
    {
      if |data| - offset <= c.p.minSize {
        ShortChunks(c, data[offset..]);
        chunks := chunks + [data[offset..]];
        return;
      }
      var end := FindCut(c, data, offset);
      ChunksStep(c, data, offset, end - offset);
      AppendAssoc(chunks, data[offset..end], Chunks(c, data[end..]));
      chunks := chunks + [data[offset..end]];
      offset := end;
    }
    assert data[offset..] == [];
  }
}
