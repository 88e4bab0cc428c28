/** The rateless fountain code: droplets, seed schedule, encoding and decoding as functions of the payload. */
module Fountain {
  import opened Wrappers
  import opened Bytes
  import opened BitXor
  import opened Gf2
  import Sets

  datatype Droplet = Droplet(seed: int, degree: int, indices: seq<nat>, payload: Bytes)

  type SymbolSize = n: nat | n >= 16 witness 16

  /** Sorted distinct source indices below `k`, at least one whenever there is a source symbol. */
  predicate IndexSample(indices: seq<nat>, k: nat) {
    Ascending(indices, k) && (k > 0 ==> indices != [])
  }

  /** A seed and a block count determine the combined indices. */
  type Sampler = expand: (int, nat) -> seq<nat> | forall seed, k :: IndexSample(expand(seed, k), k)
    witness (seed: int, k: nat) => if k == 0 then [] else [0]

  /** The keyed hash of the seed schedule: root, nonce and sequence number give 32 bytes. */
  type Prf = token: (Bytes, Bytes, nat) -> Bytes | forall root, nonce, i :: |token(root, nonce, i)| == 32
    witness (root: Bytes, nonce: Bytes, i: nat) => Zeros(32)

  /** Randomness and hashing enter as parameters. */
  datatype Codec = Codec(symbolSize: SymbolSize, expand: Sampler, token: Prf, sha3: Bytes -> string)

  // ---------------------------------------------------------------- seeds

  const MAX_UINT32: nat := 0xFFFF_FFFF

  /** Python's `%`: the result takes the sign of the divisor. */
  function FloorMod(a: nat, m: int): int
    requires m != 0
  {
    if m > 0 then a % m else if a % -m == 0 then 0 else a % -m + m
  }

  /** It is the remainder of that sign, for either sign of the divisor. */
  lemma FloorModIs(a: nat, m: int) returns (q: int)
    requires m != 0
    ensures a == q * m + FloorMod(a, m)
    ensures if m > 0 then 0 <= FloorMod(a, m) < m else m < FloorMod(a, m) <= 0
  {
    if m > 0 {
      q := a / m;
    } else {
      var r := a % -m;
      q := if r == 0 then -(a / -m) else -(a / -m) - 1;
      assert a == (a / -m) * -m + r;
      if r == 0 {
        assert q * m == (a / -m) * -m;
      } else {
        assert q * m == (a / -m) * -m - m;
      }
    }
  }

  lemma ModBelow(a: int, m: int)
    requires m > 0
    ensures 0 <= a % m < m
  {
  }

  function Blocks(total: nat): nat {
    if total == 0 then 1 else total
  }

  function RawToken(token: Prf, root: Bytes, nonce: Bytes, i: nat): nat {
    FromBytes(token(root, nonce, i)[..4])
  }

  function SeedAt(token: Prf, root: Bytes, nonce: Bytes, k: nat, i: nat): int
    requires k != MAX_UINT32
  {
    k + FloorMod(RawToken(token, root, nonce, k + i), MAX_UINT32 - k)
  }

  /** The repair seeds, or None when the modulus is zero and there is a seed to derive. */
  function SeedSchedule(token: Prf, root: Bytes, nonce: Bytes, total: nat, count: nat): Option<seq<int>> {
    var k := Blocks(total);
    if k == MAX_UINT32 && count > 0 then None
    else if count == 0 then Some([])
    else Some(seq(count, i requires 0 <= i < count => SeedAt(token, root, nonce, k, i)))
  }

  /** The admission filter on a droplet's seed and equation. */
  predicate AuthenticSeed(expand: Sampler, seed: int, total: nat, degree: Option<int>, indices: Option<seq<nat>>) {
    var k := Blocks(total);
    if seed < 0 then false
    else if seed < k then
      && (degree.None? || degree.value == 1)
      && (indices.None? || indices.value == [seed])
    else
      var expected := expand(seed, k);
      && (degree.None? || degree.value == |expected|)
      && (indices.None? || indices.value == expected)
  }

  // ---------------------------------------------------------------- encoding

  function CeilDiv(n: nat, d: nat): nat
    requires d > 0
  {
    (n + d - 1) / d
  }

  lemma CeilDivBounds(n: nat, d: nat)
    requires d > 0
    ensures n <= CeilDiv(n, d) * d < n + d
    ensures n > 0 ==> CeilDiv(n, d) > 0
  {
    var q := CeilDiv(n, d);
    var m := (n + d - 1) % d;
    assert q * d + m == n + d - 1;
    if q == 0 {
      assert q * d == 0;
    }
  }

  lemma EmptyHasNoBlocks(size: SymbolSize)
    ensures CeilDiv(0, size) == 0
  {
  }

  function Ceil(r: real): int {
    if r.Floor as real == r then r.Floor else r.Floor + 1
  }

  /** How many droplets an encoding with the given redundancy holds. */
  function DropletCount(k: nat, redundancy: real): nat {
    var wanted := Ceil(k as real * (1.0 + redundancy));
    if wanted < k then k else wanted
  }

  function Padded(data: Bytes, size: SymbolSize): (p: Bytes)
    ensures |p| == CeilDiv(|data|, size) * size
  {
    CeilDivBounds(|data|, size);
    data + Zeros(CeilDiv(|data|, size) * size - |data|)
  }

  lemma SliceBounds(i: nat, k: nat, size: nat)
    requires i < k
    ensures 0 <= i * size <= (i + 1) * size <= k * size
    ensures (i + 1) * size == i * size + size
  {
    MulMonotone(i, i + 1, size);
    MulMonotone(i + 1, k, size);
  }

  /** The `i`-th block of `size` bytes. */
  function Block(data: Bytes, size: nat, k: nat, i: nat): (b: Bytes)
    requires |data| == k * size && i < k
    ensures |b| == size
  {
    SliceBounds(i, k, size);
    data[i * size..(i + 1) * size]
  }

  function BlockWords(data: Bytes, size: nat, k: nat, n: nat): (x: seq<nat>)
    requires |data| == k * size && n <= k
    ensures |x| == n
  {
    if n == 0 then [] else BlockWords(data, size, k, n - 1) + [FromBytes(Block(data, size, k, n - 1))]
  }

  /** The source symbols of a payload, as words. */
  function Source(data: Bytes, size: SymbolSize): (x: seq<nat>)
    ensures |x| == CeilDiv(|data|, size)
  {
    BlockWords(Padded(data, size), size, CeilDiv(|data|, size), CeilDiv(|data|, size))
  }

  predicate Below256(x: seq<nat>, size: nat) {
    forall i :: 0 <= i < |x| ==> x[i] < Pow(256, size)
  }

  /** The words written out one after another. */
  function Join(x: seq<nat>, size: nat): Bytes {
    if x == [] then [] else Join(x[..|x| - 1], size) + ToBytes(x[|x| - 1], size)
  }

  /** `data[:n]` */
  function Take(data: Bytes, n: nat): Bytes {
    if n <= |data| then data[..n] else data
  }

  function XorOf(indices: seq<nat>, x: seq<nat>): nat
    requires forall i :: 0 <= i < |indices| ==> indices[i] < |x|
  {
    if indices == [] then 0
    else Xor(XorOf(indices[..|indices| - 1], x), x[indices[|indices| - 1]])
  }

  function SystematicDroplet(codec: Codec, x: seq<nat>, i: nat): Droplet
    requires i < |x|
  {
    Droplet(i, 1, [i], ToBytes(x[i], codec.symbolSize))
  }

  function RepairDroplet(codec: Codec, x: seq<nat>, seed: int): Droplet {
    var indices := codec.expand(seed, |x|);
    Droplet(seed, |indices|, indices, ToBytes(XorOf(indices, x), codec.symbolSize))
  }

  function RepairSeeds(codec: Codec, k: nat, redundancy: real, root: Option<Bytes>, nonce: Bytes): Option<seq<int>> {
    var total := DropletCount(k, redundancy);
    if root.Some? then SeedSchedule(codec.token, root.value, nonce, k, total - k)
    else Some(seq(total - k, i requires 0 <= i < total - k => k + i))
  }

  function SystematicDroplets(codec: Codec, x: seq<nat>): seq<Droplet> {
    seq(|x|, i requires 0 <= i < |x| => SystematicDroplet(codec, x, i))
  }

  function RepairDroplets(codec: Codec, x: seq<nat>, seeds: seq<int>): seq<Droplet> {
    seq(|seeds|, i requires 0 <= i < |seeds| => RepairDroplet(codec, x, seeds[i]))
  }

  /** The droplets of a payload; None when the seed schedule divides by zero. */
  function Encoded(codec: Codec, data: Bytes, redundancy: real, root: Option<Bytes>,
                   nonce: Bytes): Option<seq<Droplet>> {
    if data == [] then Some([])
    else
      var x := Source(data, codec.symbolSize);
      match RepairSeeds(codec, |x|, redundancy, root, nonce)
      case None => None
      case Some(seeds) => Some(SystematicDroplets(codec, x) + RepairDroplets(codec, x, seeds))
  }

  // ---------------------------------------------------------------- decoding

  datatype DecodeError = TooFewDroplets | RankDeficient | IntegrityFailure

  function RowOf(indices: seq<nat>, k: nat): (row: seq<bool>)
    ensures |row| == k
  {
    seq(k, c requires 0 <= c < k => c in indices)
  }

  function EquationOf(d: Droplet, k: nat): Equation {
    Equation(RowOf(d.indices, k), FromBytes(d.payload))
  }

  function SystemOf(droplets: seq<Droplet>, k: nat): (s: seq<Equation>)
    ensures |s| == |droplets| && Width(s, k)
  {
    seq(|droplets|, r requires 0 <= r < |droplets| => EquationOf(droplets[r], k))
  }

  /** Which droplets enter the elimination. */
  predicate Usable(codec: Codec, d: Droplet, k: nat, root: Option<string>, validate: bool) {
    && |d.payload| == codec.symbolSize
    && (validate && root.Some? ==> AuthenticSeed(codec.expand, d.seed, k, Some(d.degree), Some(d.indices)))
  }

  function UsableDroplets(codec: Codec, droplets: seq<Droplet>, k: nat, root: Option<string>,
                          validate: bool): seq<Droplet> {
    if droplets == [] then []
    else
      var n := |droplets| - 1;
      UsableDroplets(codec, droplets[..n], k, root, validate)
      + if Usable(codec, droplets[n], k, root, validate) then [droplets[n]] else []
  }

  predicate IsSystematic(d: Droplet, k: nat) {
    d.degree == 1 && |d.indices| == 1 && d.indices[0] < k
  }

  /** The first systematic copy of each source symbol. */
  function SystematicMap(droplets: seq<Droplet>, k: nat): map<nat, Bytes> {
    if droplets == [] then map[]
    else
      var n := |droplets| - 1;
      var m := SystematicMap(droplets[..n], k);
      if IsSystematic(droplets[n], k) && droplets[n].indices[0] !in m
      then m[droplets[n].indices[0] := droplets[n].payload]
      else m
  }

  /** `n` systematic payloads in index order. */
  function JoinSystematic(m: map<nat, Bytes>, n: nat): Bytes
    requires forall c: nat :: c < n ==> c in m
  {
    if n == 0 then [] else JoinSystematic(m, n - 1) + m[n - 1]
  }

  function LowerChar(c: char): char {
    if 'A' <= c <= 'Z' then c + 32 as char else c
  }

  function Lower(s: string): string {
    seq(|s|, i requires 0 <= i < |s| => LowerChar(s[i]))
  }

  function StripHexPrefix(s: string): string {
    if |s| >= 2 && s[0] == '0' && (s[1] == 'x' || s[1] == 'X') then s[2..] else s
  }

  /** The comparison of the payload digest with the expected root, when one is configured. */
  predicate IntegrityHolds(codec: Codec, data: Bytes, root: Option<string>) {
    root.Some? ==> Lower(codec.sha3(data)) == Lower(StripHexPrefix(root.value))
  }

  function Checked(codec: Codec, data: Bytes, root: Option<string>): Result<Bytes, DecodeError> {
    if IntegrityHolds(codec, data, root) then Success(data) else Failure(IntegrityFailure)
  }

  function Solution(reduced: seq<Equation>, k: nat): (x: seq<nat>)
    requires k <= |reduced|
    ensures |x| == k
  {
    seq(k, c requires 0 <= c < k => reduced[c].rhs)
  }

  /** The decoder on the droplets that passed the filter. */
  function Recovered(codec: Codec, usable: seq<Droplet>, k: nat): Result<Bytes, DecodeError> {
    if |usable| < k then Failure(TooFewDroplets)
    else
      var m := SystematicMap(usable, k);
      SystematicKeys(usable, k);
      if |m| == k then
        FullMap(m, k);
        Success(JoinSystematic(m, k))
      else
        var (reduced, cols) := Eliminated(SystemOf(usable, k), k);
        if |cols| < k then Failure(RankDeficient)
        else Success(Join(Solution(reduced, k), codec.symbolSize))
  }

  function Decoded(codec: Codec, droplets: seq<Droplet>, k: nat, origLen: nat, root: Option<string>, validate: bool)
    : Result<Bytes, DecodeError>
  {
    match Recovered(codec, UsableDroplets(codec, droplets, k, root, validate), k)
    case Failure(e) => Failure(e)
    case Success(all) => Checked(codec, Take(all, origLen), root)
  }

  lemma {:induction false} SystematicKeys(droplets: seq<Droplet>, k: nat)
    ensures forall c :: c in SystematicMap(droplets, k) ==> c < k
  {
    if droplets != [] {
      SystematicKeys(droplets[..|droplets| - 1], k);
    }
  }

  lemma FullMap<T>(m: map<nat, T>, k: nat)
    requires forall c :: c in m ==> c < k
    requires |m| == k
    ensures forall c: nat :: c < k ==> c in m
  {
    Sets.SubsetSameSize(m.Keys, Sets.Below(k));
  }
}
