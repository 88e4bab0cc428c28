/** What the encoder emits, and the any-loss round trip. */
module FountainEncoding {
  import opened Wrappers
  import opened Bytes
  import opened BitXor
  import opened Gf2
  import opened Fountain
  import opened FountainDecoding

  // ---------------------------------------------------------------- splitting and joining

  lemma {:induction false} BlocksJoin(data: Bytes, size: nat, k: nat, n: nat)
    requires |data| == k * size && n <= k
    ensures n * size <= |data|
    ensures Join(BlockWords(data, size, k, n), size) == data[..n * size]
  {
    MulMonotone(n, k, size);
    if n > 0 {
      BlocksJoin(data, size, k, n - 1);
      SliceBounds(n - 1, k, size);
      var b := Block(data, size, k, n - 1);
      var words := BlockWords(data, size, k, n - 1);
      assert BlockWords(data, size, k, n) == words + [FromBytes(b)];
      assert data[..n * size] == data[..(n - 1) * size] + b;
      hide *;
      ToFromBytes(b);
      JoinSnoc(words, FromBytes(b), size);
    } else {
      assert 0 * size == 0;
    }
  }

  lemma JoinSnoc(words: seq<nat>, w: nat, size: nat)
    ensures Join(words + [w], size) == Join(words, size) + ToBytes(w, size)
  {
    assert (words + [w])[..|words|] == words;
  }

  /** The source symbols spell out the payload, up to padding. */
  lemma JoinSource(data: Bytes, size: SymbolSize)
    ensures Take(Join(Source(data, size), size), |data|) == data
  {
    var k, p := CeilDiv(|data|, size), Padded(data, size);
    assert |p| == k * size && |data| <= |p| && p[..|data|] == data;
    assert Source(data, size) == BlockWords(p, size, k, k);
    hide *;
    BlocksJoin(p, size, k, k);
    assert p[..k * size] == p;
    TakeIs(p, |data|);
  }

  lemma TakeIs(p: Bytes, n: nat)
    requires n <= |p|
    ensures Take(p, n) == p[..n]
  {
  }

  lemma {:induction false} BlockWordsBound(data: Bytes, size: nat, k: nat, n: nat)
    requires |data| == k * size && n <= k
    ensures Below256(BlockWords(data, size, k, n), size)
  {
    if n > 0 {
      BlockWordsBound(data, size, k, n - 1);
      ToFromBytes(Block(data, size, k, n - 1));
    }
  }

  lemma SourceBound(data: Bytes, size: SymbolSize)
    ensures Below256(Source(data, size), size)
  {
    var k := CeilDiv(|data|, size);
    BlockWordsBound(Padded(data, size), size, k, k);
  }

  // ---------------------------------------------------------------- droplets satisfy their equations

  lemma {:induction false} XorOfBound(indices: seq<nat>, x: seq<nat>, size: nat)
    requires forall i :: 0 <= i < |indices| ==> indices[i] < |x|
    requires Below256(x, size)
    ensures XorOf(indices, x) < Pow(256, size)
  {
    if indices == [] {
      PowPositive(256, size);
    } else {
      XorOfBound(indices[..|indices| - 1], x, size);
      XorBound(XorOf(indices[..|indices| - 1], x), x[indices[|indices| - 1]], size);
    }
  }

  /** Combining symbols one by one over distinct indices is the product with the set row. */
  lemma {:induction false} DotIndices(indices: seq<nat>, x: seq<nat>)
    requires Ascending(indices, |x|)
    ensures Dot(RowOf(indices, |x|), x) == XorOf(indices, x)
  {
    var k := |x|;
    if indices == [] {
      DotVanishes(RowOf(indices, k), x);
    } else {
      var n := |indices| - 1;
      DotIndices(indices[..n], x);
      assert RowOf(indices, k) == AddRows(RowOf(indices[..n], k), RowOf([indices[n]], k));
      DotAddRows(RowOf(indices[..n], k), RowOf([indices[n]], k), x);
      UnitRow(indices[n], x);
    }
  }

  /** The droplet a seed stands for. */
  function DropletFor(codec: Codec, x: seq<nat>, seed: int): Droplet {
    if 0 <= seed < |x| then SystematicDroplet(codec, x, seed) else RepairDroplet(codec, x, seed)
  }

  lemma SystematicExplained(codec: Codec, x: seq<nat>, i: nat)
    requires Below256(x, codec.symbolSize) && i < |x|
    ensures Explains(SystematicDroplet(codec, x, i), x)
    ensures |SystematicDroplet(codec, x, i).payload| == codec.symbolSize
  {
    FromToBytes(x[i], codec.symbolSize);
    UnitRow(i, x);
  }

  lemma RepairExplained(codec: Codec, x: seq<nat>, seed: int)
    requires Below256(x, codec.symbolSize)
    ensures Explains(RepairDroplet(codec, x, seed), x)
    ensures |RepairDroplet(codec, x, seed).payload| == codec.symbolSize
  {
    var indices := codec.expand(seed, |x|);
    assert IndexSample(indices, |x|);
    XorOfBound(indices, x, codec.symbolSize);
    FromToBytes(XorOf(indices, x), codec.symbolSize);
    DotIndices(indices, x);
  }

  lemma DropletForExplained(codec: Codec, x: seq<nat>, seed: int)
    requires Below256(x, codec.symbolSize)
    ensures Explains(DropletFor(codec, x, seed), x)
    ensures |DropletFor(codec, x, seed).payload| == codec.symbolSize
  {
    if 0 <= seed < |x| {
      SystematicExplained(codec, x, seed);
    } else {
      RepairExplained(codec, x, seed);
    }
  }

  /** Every emitted droplet is one symbol wide and satisfied by the source, whatever the schedule. */
  lemma EncodedExplained(codec: Codec, data: Bytes, redundancy: real, root: Option<Bytes>, nonce: Bytes, d: Droplet)
    requires var r := Encoded(codec, data, redundancy, root, nonce); r.Some? && d in r.value
    ensures Explains(d, Source(data, codec.symbolSize)) && |d.payload| == codec.symbolSize
  {
    var x := Source(data, codec.symbolSize);
    SourceBound(data, codec.symbolSize);
    var seeds := RepairSeeds(codec, |x|, redundancy, root, nonce).value;
    if d in SystematicDroplets(codec, x) {
      var i :| 0 <= i < |x| && SystematicDroplets(codec, x)[i] == d;
      SystematicExplained(codec, x, i);
    } else {
      var i :| 0 <= i < |seeds| && RepairDroplets(codec, x, seeds)[i] == d;
      RepairExplained(codec, x, seeds[i]);
    }
  }

  // ---------------------------------------------------------------- seeds

  predicate SeedsInRange(seeds: Option<seq<int>>, k: nat, count: nat) {
    seeds.Some? && |seeds.value| == count && forall i :: 0 <= i < count ==> k <= seeds.value[i] < MAX_UINT32
  }

  lemma SeedAtRange(token: Prf, root: Bytes, nonce: Bytes, k: nat, i: nat)
    requires k != MAX_UINT32
    ensures k < MAX_UINT32 <==> k <= SeedAt(token, root, nonce, k, i) < MAX_UINT32
  {
    var raw, m := RawToken(token, root, nonce, k + i), MAX_UINT32 - k;
    ModBelow(raw, if m > 0 then m else -m);
  }

  /**
   The schedule promises seeds that are at least `k` and fit 32 bits. Whatever the keyed hash, that
   holds exactly when `k` is below the modulus base.
   */
  lemma ScheduleRangeIff(token: Prf, root: Bytes, nonce: Bytes, total: nat, count: nat)
    requires count > 0
    ensures SeedsInRange(SeedSchedule(token, root, nonce, total, count), Blocks(total), count)
         <==> Blocks(total) < MAX_UINT32
  {
    var k := Blocks(total);
    if k != MAX_UINT32 {
      forall i | 0 <= i < count ensures k < MAX_UINT32 <==> k <= SeedAt(token, root, nonce, k, i) < MAX_UINT32 {
        SeedAtRange(token, root, nonce, k, i);
      }
      if k > MAX_UINT32 {
        assert SeedSchedule(token, root, nonce, total, count).value[0] == SeedAt(token, root, nonce, k, 0);
      }
    }
  }

  /** A longer schedule under the same root and nonce continues a shorter one. */
  lemma SchedulePrefix(token: Prf, root: Bytes, nonce: Bytes, total: nat, count: nat, more: nat)
    requires count <= more && SeedSchedule(token, root, nonce, total, more).Some?
    ensures var r := SeedSchedule(token, root, nonce, total, count);
            r.Some? && r.value <= SeedSchedule(token, root, nonce, total, more).value
  {
  }

  // ---------------------------------------------------------------- rateless coherence

  lemma DropletCountMonotone(k: nat, r1: real, r2: real)
    requires r1 <= r2
    ensures k <= DropletCount(k, r1) <= DropletCount(k, r2)
  {
    assert k as real * (1.0 + r1) <= k as real * (1.0 + r2) by {
      ScaleMonotone(k as real, 1.0 + r1, 1.0 + r2);
    }
    CeilMonotone(k as real * (1.0 + r1), k as real * (1.0 + r2));
  }

  lemma CeilMonotone(a: real, b: real)
    requires a <= b
    ensures Ceil(a) <= Ceil(b)
  {
    assert a.Floor <= b.Floor;
  }

  lemma ScaleMonotone(a: real, b: real, c: real)
    requires 0.0 <= a && b <= c
    ensures a * b <= a * c
  {
    assert a * (c - b) >= 0.0;
  }

  /** Raising the redundancy only appends droplets. */
  lemma EncodedPrefix(codec: Codec, data: Bytes, r1: real, r2: real, root: Option<Bytes>, nonce: Bytes)
    requires r1 <= r2 && Encoded(codec, data, r2, root, nonce).Some?
    ensures var r := Encoded(codec, data, r1, root, nonce);
            r.Some? && r.value <= Encoded(codec, data, r2, root, nonce).value
  {
    if data != [] {
      var x := Source(data, codec.symbolSize);
      DropletCountMonotone(|x|, r1, r2);
      if root.Some? {
        SchedulePrefix(codec.token, root.value, nonce, |x|, DropletCount(|x|, r1) - |x|, DropletCount(|x|, r2) - |x|);
      }
      var few, many := RepairSeeds(codec, |x|, r1, root, nonce).value, RepairSeeds(codec, |x|, r2, root, nonce).value;
      assert few <= many;
      assert RepairDroplets(codec, x, few) <= RepairDroplets(codec, x, many);
    }
  }

  /**
   Droplets of a payload of fewer than 2^32 - 1 blocks depend on the payload and the seed alone, not
   on redundancy, root or nonce, and pass the admission filter.
   */
  lemma EncodedCoherent(codec: Codec, data: Bytes, redundancy: real, root: Option<Bytes>, nonce: Bytes, d: Droplet)
    requires var r := Encoded(codec, data, redundancy, root, nonce); r.Some? && d in r.value
    requires CeilDiv(|data|, codec.symbolSize) < MAX_UINT32
    ensures var x := Source(data, codec.symbolSize);
            && d.seed >= 0
            && d == DropletFor(codec, x, d.seed)
            && AuthenticSeed(codec.expand, d.seed, |x|, Some(d.degree), Some(d.indices))
  {
    var x := Source(data, codec.symbolSize);
    CeilDivBounds(|data|, codec.symbolSize);
    var seeds := RepairSeeds(codec, |x|, redundancy, root, nonce).value;
    if d in SystematicDroplets(codec, x) {
      var i :| 0 <= i < |x| && SystematicDroplets(codec, x)[i] == d;
    } else {
      var i :| 0 <= i < |seeds| && RepairDroplets(codec, x, seeds)[i] == d;
      if root.Some? {
        ScheduleRangeIff(codec.token, root.value, nonce, |x|, |seeds|);
      }
      assert seeds[i] >= |x|;
    }
  }

  // ---------------------------------------------------------------- any-loss round trip

  /** Some encoding of the payload emits this droplet. */
  ghost predicate Emitted(codec: Codec, data: Bytes, d: Droplet) {
    exists redundancy, root, nonce ::
      var r := Encoded(codec, data, redundancy, root, nonce);
      r.Some? && d in r.value
  }

  /**
   Whatever subset, order and repetition of droplets survives, even mixed from encoders with different
   redundancies, roots and nonces, decoding returns the payload exactly when the survivors have full
   rank, and raises a rank error otherwise.
   */
  lemma AnyLossRoundTrip(codec: Codec, data: Bytes, droplets: seq<Droplet>)
    requires forall d :: d in droplets ==> Emitted(codec, data, d)
    ensures var k := CeilDiv(|data|, codec.symbolSize);
            var r := Decoded(codec, droplets, k, |data|, None, true);
            && (FullRank(droplets, k) ==> r == Success(data))
            && (!FullRank(droplets, k) ==> IsRankError(r))
  {
    var k, x := CeilDiv(|data|, codec.symbolSize), Source(data, codec.symbolSize);
    forall d | d in droplets ensures Explains(d, x) && |d.payload| == codec.symbolSize {
      var redundancy, root, nonce :|
        var r := Encoded(codec, data, redundancy, root, nonce);
        r.Some? && d in r.value;
      EncodedExplained(codec, data, redundancy, root, nonce, d);
    }
    AllUsable(codec, droplets, k, None, true);
    DecodeExact(codec, droplets, k, |data|, None, true, x);
    JoinSource(data, codec.symbolSize);
  }

  lemma {:induction false} AllUsable(codec: Codec, droplets: seq<Droplet>, k: nat, root: Option<string>, validate: bool)
    requires forall d :: d in droplets ==> Usable(codec, d, k, root, validate)
    ensures UsableDroplets(codec, droplets, k, root, validate) == droplets
  {
    if droplets != [] {
      var n := |droplets| - 1;
      UsableLast(codec, droplets, k, root, validate);
      hide *;
      assert droplets[n] in droplets;
      forall d | d in droplets[..n] ensures Usable(codec, d, k, root, validate) {
        assert d in droplets;
      }
      AllUsable(codec, droplets[..n], k, root, validate);
      assert droplets == droplets[..n] + [droplets[n]];
    }
  }

  lemma UsableLast(codec: Codec, droplets: seq<Droplet>, k: nat, root: Option<string>, validate: bool)
    requires droplets != [] && Usable(codec, droplets[|droplets| - 1], k, root, validate)
    ensures UsableDroplets(codec, droplets, k, root, validate)
         == UsableDroplets(codec, droplets[..|droplets| - 1], k, root, validate) + [droplets[|droplets| - 1]]
  {
    hide Usable;
  }

  // ---------------------------------------------------------------- what an encoding looks like

  /** Rounding up gives the least whole number that is no smaller. */
  lemma CeilIs(r: real, n: int)
    ensures Ceil(r) == n <==> (n - 1) as real < r <= n as real
  {
  }

  /** The multiple of the blocks that a redundancy asks for. */
  function Wanted(k: nat, redundancy: real): real {
    k as real * (1.0 + redundancy)
  }

  /** The least number that reaches what is wanted, and no less than one for each block. */
  predicate Reaches(n: nat, k: nat, redundancy: real) {
    n >= k && Wanted(k, redundancy) <= n as real && (n == k || (n - 1) as real < Wanted(k, redundancy))
  }

  lemma CountReaches(k: nat, redundancy: real)
    ensures Reaches(DropletCount(k, redundancy), k, redundancy)
  {
    CeilIs(Wanted(k, redundancy), Ceil(Wanted(k, redundancy)));
    hide Ceil;
  }

  /**
   How many droplets a nonempty payload is encoded into: one for each block, and the least number that reaches the
   requested multiple of the blocks if that is more.
   */
  lemma EncodedCount(codec: Codec, data: Bytes, redundancy: real, root: Option<Bytes>, nonce: Bytes)
    requires data != [] && Encoded(codec, data, redundancy, root, nonce).Some?
    ensures var n, k := |Encoded(codec, data, redundancy, root, nonce).value|, CeilDiv(|data|, codec.symbolSize);
            && (k - 1) * codec.symbolSize < |data| <= k * codec.symbolSize
            && Reaches(n, k, redundancy)
  {
    var k := CeilDiv(|data|, codec.symbolSize);
    CeilDivBounds(|data|, codec.symbolSize);
    assert (k - 1) * codec.symbolSize == k * codec.symbolSize - codec.symbolSize;
    CountReaches(k, redundancy);
    if root.Some? {
      ScheduleLength(codec.token, root.value, nonce, k, DropletCount(k, redundancy) - k);
    }
    hide Reaches, DropletCount, SeedSchedule;
  }

  lemma ScheduleLength(token: Prf, root: Bytes, nonce: Bytes, total: nat, count: nat)
    requires SeedSchedule(token, root, nonce, total, count).Some?
    ensures |SeedSchedule(token, root, nonce, total, count).value| == count
  {
  }

  /** Byte `j` of the `i`-th block of a payload padded with zero bytes. */
  function PaddedByte(data: Bytes, size: nat, i: nat, j: nat): byte {
    if i * size + j < |data| then data[i * size + j] else 0
  }

  lemma BlockBytes(data: Bytes, size: SymbolSize, i: nat, j: nat)
    requires i < CeilDiv(|data|, size) && j < size
    ensures |Padded(data, size)| == CeilDiv(|data|, size) * size
    ensures Block(Padded(data, size), size, CeilDiv(|data|, size), i)[j] == PaddedByte(data, size, i, j)
  {
    SliceBounds(i, CeilDiv(|data|, size), size);
  }

  lemma {:induction false} BlockWordAt(data: Bytes, size: nat, k: nat, n: nat, i: nat)
    requires |data| == k * size && i < n <= k
    ensures BlockWords(data, size, k, n)[i] == FromBytes(Block(data, size, k, i))
  {
    if i < n - 1 {
      BlockWordAt(data, size, k, n - 1, i);
    }
  }

  /** The first droplets carry the blocks of the padded payload in order, each alone. */
  lemma EncodedSource(codec: Codec, data: Bytes, redundancy: real, root: Option<Bytes>, nonce: Bytes, i: nat)
    requires Encoded(codec, data, redundancy, root, nonce).Some? && i < CeilDiv(|data|, codec.symbolSize)
    ensures i < |Encoded(codec, data, redundancy, root, nonce).value|
    ensures var d := Encoded(codec, data, redundancy, root, nonce).value[i];
            && d.seed == i && d.degree == 1 && d.indices == [i] && |d.payload| == codec.symbolSize
            && forall j :: 0 <= j < codec.symbolSize ==> d.payload[j] == PaddedByte(data, codec.symbolSize, i, j)
  {
    var size, k := codec.symbolSize, CeilDiv(|data|, codec.symbolSize);
    EmptyHasNoBlocks(size);
    var padded := Padded(data, size);
    var d := Encoded(codec, data, redundancy, root, nonce).value[i];
    assert d == SystematicDroplet(codec, Source(data, size), i);
    BlockWordAt(padded, size, k, k, i);
    ToFromBytes(Block(padded, size, k, i));
    hide Encoded, Padded, Block, ToBytes, FromBytes, PaddedByte;
    forall j | 0 <= j < size ensures d.payload[j] == PaddedByte(data, size, i, j) {
      BlockBytes(data, size, i, j);
    }
  }

  /** The repair droplets follow: numbered on without a root, and else with the scheduled seeds of their positions. */
  lemma EncodedRepair(codec: Codec, data: Bytes, redundancy: real, root: Option<Bytes>, nonce: Bytes, i: nat)
    requires Encoded(codec, data, redundancy, root, nonce).Some?
    requires CeilDiv(|data|, codec.symbolSize) <= i < |Encoded(codec, data, redundancy, root, nonce).value|
    requires CeilDiv(|data|, codec.symbolSize) < 0xFFFF_FFFF
    ensures var k, d := CeilDiv(|data|, codec.symbolSize), Encoded(codec, data, redundancy, root, nonce).value[i];
            && d.degree == |d.indices| && d.indices == codec.expand(d.seed, k)
            && d.seed == match root
                         case None => i
                         case Some(r) => k + Word32(codec.token(r, nonce, i)[..4]) % (0xFFFF_FFFF - k)
  {
    var k := CeilDiv(|data|, codec.symbolSize);
    CeilDivBounds(|data|, codec.symbolSize);
    if root.Some? {
      WordOfFour(codec.token(root.value, nonce, i)[..4]);
    }
    hide FromBytes, Word32, DropletCount, CeilDiv;
  }

  // ---------------------------------------------------------------- forged equations

  /** The equation a seed stands for among `k` blocks. */
  function SeedIndices(expand: Sampler, seed: int, k: nat): seq<nat> {
    if 0 <= seed < k then [seed] else expand(seed, k)
  }

  /** A droplet of one symbol's width whose equation is the one its seed stands for. */
  predicate FollowsSeed(codec: Codec, d: Droplet, k: nat) {
    && |d.payload| == codec.symbolSize && d.seed >= 0
    && d.indices == SeedIndices(codec.expand, d.seed, k) && d.degree == |d.indices|
  }

  /** The filter compares what it is given with the equation of the seed, a payload of no blocks counting as one. */
  lemma FilterIs(expand: Sampler, seed: int, total: nat, degree: Option<int>, indices: Option<seq<nat>>)
    ensures AuthenticSeed(expand, seed, total, degree, indices) <==>
              var expected := SeedIndices(expand, seed, if total == 0 then 1 else total);
              seed >= 0 && degree in {None, Some(|expected|)} && indices in {None, Some(expected)}
  {
  }

  /** The filter in front of the elimination admits the droplets that follow their seeds. */
  lemma UsableFollows(codec: Codec, d: Droplet, k: nat, root: string)
    ensures Usable(codec, d, k, Some(root), true) <==> FollowsSeed(codec, d, if k == 0 then 1 else k)
  {
    FilterIs(codec.expand, d.seed, k, Some(d.degree), Some(d.indices));
  }

  lemma {:induction false} NothingToDecode(codec: Codec, droplets: seq<Droplet>, root: string)
    requires Lower(codec.sha3([])) == Lower(StripHexPrefix(root))
    ensures Decoded(codec, droplets, 0, 0, Some(root), true) == Success([])
    ensures FullRank(droplets, 0)
  {
    var usable := UsableDroplets(codec, droplets, 0, Some(root), true);
    SystematicKeys(usable, 0);
    assert SystematicMap(usable, 0) == map[];
    SystematicFullRank(droplets, 0);
  }

  /**
   Forged equations are ignored: under a root that names the payload it suffices that no droplet which follows its
   seed is polluted. Whatever the other droplets are, decoding returns the payload exactly if the droplets that the
   encoder could have emitted have full rank, and raises a rank error otherwise.
   */
  lemma ForgedEquationsIgnored(codec: Codec, data: Bytes, droplets: seq<Droplet>, genuine: seq<Droplet>, root: string)
    requires Lower(codec.sha3(data)) == Lower(StripHexPrefix(root))
    requires var x := Source(data, codec.symbolSize);
             forall d :: d in droplets && FollowsSeed(codec, d, |x|) ==> d == DropletFor(codec, x, d.seed)
    requires var x := Source(data, codec.symbolSize);
             forall d :: d in genuine <==> d in droplets && d.seed >= 0 && d == DropletFor(codec, x, d.seed)
    ensures var k := CeilDiv(|data|, codec.symbolSize);
            var r := Decoded(codec, droplets, k, |data|, Some(root), true);
            && (FullRank(genuine, k) ==> r == Success(data))
            && (!FullRank(genuine, k) ==> IsRankError(r))
  {
    var x, k := Source(data, codec.symbolSize), CeilDiv(|data|, codec.symbolSize);
    if data == [] {
      EmptyHasNoBlocks(codec.symbolSize);
      NothingToDecode(codec, droplets, root);
      NothingToDecode(codec, genuine, root);
    } else {
      CeilDivBounds(|data|, codec.symbolSize);
      SourceBound(data, codec.symbolSize);
      var usable := UsableDroplets(codec, droplets, k, Some(root), true);
      UsableMembers(codec, droplets, k, Some(root), true);
      forall d ensures d in usable <==> d in genuine {
        UsableFollows(codec, d, k, root);
        DropletForExplained(codec, x, d.seed);
      }
      forall d | d in usable ensures Explains(d, x) {
        DropletForExplained(codec, x, d.seed);
      }
      FullRankMembers(usable, genuine, k);
      FullRankMembers(genuine, usable, k);
      DecodeExact(codec, droplets, k, |data|, Some(root), true, x);
      JoinSource(data, codec.symbolSize);
    }
  }

  /** The complete transmission always has full rank. */
  lemma EncodedFullRank(codec: Codec, data: Bytes, redundancy: real, root: Option<Bytes>, nonce: Bytes)
    requires Encoded(codec, data, redundancy, root, nonce).Some?
    ensures FullRank(Encoded(codec, data, redundancy, root, nonce).value, CeilDiv(|data|, codec.symbolSize))
  {
    var k := CeilDiv(|data|, codec.symbolSize);
    if data == [] {
      EmptyHasNoBlocks(codec.symbolSize);
    } else {
      var x := Source(data, codec.symbolSize);
      var ds := Encoded(codec, data, redundancy, root, nonce).value;
      assert forall i :: 0 <= i < k ==> ds[i] == SystematicDroplet(codec, x, i);
      UnitsFullRank(ds, k);
    }
  }
}
