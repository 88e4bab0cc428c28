/** The codec's loops, each computing the corresponding function of its inputs. */
module FountainCodec {
  import opened Wrappers
  import opened Bytes
  import opened BitXor
  import opened Gf2
  import opened Fountain
  import opened FountainDecoding
  import opened FountainEncoding
  import GaussJordan

  method DeriveRepairSeedSchedule(token: Prf, root: Bytes, nonce: Bytes, total: nat, count: nat)
    returns (seeds: Option<seq<int>>)
    ensures seeds == SeedSchedule(token, root, nonce, total, count)
  {
    var k := if total == 0 then 1 else total;
    var out: seq<int> := [];
    for i := 0 to count
      invariant k == MAX_UINT32 ==> i == 0
      invariant |out| == i
      invariant k != MAX_UINT32 ==> forall j :: 0 <= j < i ==> out[j] == SeedAt(token, root, nonce, k, j)
    {
      if k == MAX_UINT32 {
        return None;
      }
      out := out + [SeedAt(token, root, nonce, k, i)];
    }
    assert count > 0 ==> out == SeedSchedule(token, root, nonce, total, count).value;
    return Some(out);
  }

  method Encode(codec: Codec, data: Bytes, redundancy: real, root: Option<Bytes>, nonce: Bytes)
    returns (r: Option<(seq<Droplet>, nat, nat)>)
    ensures r.Some? <==> Encoded(codec, data, redundancy, root, nonce).Some?
    ensures r.Some? ==>
              r.value == (Encoded(codec, data, redundancy, root, nonce).value, CeilDiv(|data|, codec.symbolSize),
                          |data|)
  {
    if data == [] {
      EmptyHasNoBlocks(codec.symbolSize);
      return Some(([], 0, 0));
    }
    var size := codec.symbolSize;
    var k := CeilDiv(|data|, size);
    var symbols := SplitSymbols(data, size);
    SourceBound(data, size);
    var droplets: seq<Droplet> := [];
    for i := 0 to k
      invariant droplets == SystematicDroplets(codec, symbols)[..i]
    {
      droplets := droplets + [SystematicDroplet(codec, symbols, i)];
    }
    var seeds := ChooseSeeds(codec, k, redundancy, root, nonce);
    if seeds.None? {
      return None;
    }
    assert droplets == SystematicDroplets(codec, symbols);
    var repair := EncodeRepair(codec, symbols, seeds.value);
    return Some((droplets + repair, k, |data|));
  }

  method ChooseSeeds(codec: Codec, k: nat, redundancy: real, root: Option<Bytes>, nonce: Bytes)
    returns (seeds: Option<seq<int>>)
    ensures seeds == RepairSeeds(codec, k, redundancy, root, nonce)
  {
    var total := DropletCount(k, redundancy);
    if total == k {
      assert root.None? ==> RepairSeeds(codec, k, redundancy, root, nonce).value == [];
      return Some([]);
    }
    if root.Some? {
      seeds := DeriveRepairSeedSchedule(codec.token, root.value, nonce, k, total - k);
    } else {
      seeds := Some(seq(total - k, i requires 0 <= i < total - k => k + i));
    }
  }

  /** `int.to_bytes`, which raises for a word that does not fit. */
  function WordBytes(v: nat, size: nat): (b: Bytes)
    requires v < Pow(256, size)
    ensures |b| == size && FromBytes(b) == v
  {
    FromToBytes(v, size);
    ToBytes(v, size)
  }

  method EncodeRepair(codec: Codec, symbols: seq<nat>, seeds: seq<int>) returns (droplets: seq<Droplet>)
    requires Below256(symbols, codec.symbolSize)
    ensures droplets == RepairDroplets(codec, symbols, seeds)
  {
    droplets := [];
    for i := 0 to |seeds|
      invariant droplets == RepairDroplets(codec, symbols, seeds)[..i]
    {
      var indices := codec.expand(seeds[i], |symbols|);
      assert IndexSample(indices, |symbols|);
      var acc := Combine(symbols, indices);
      XorOfBound(indices, symbols, codec.symbolSize);
      droplets := droplets + [Droplet(seeds[i], |indices|, indices, WordBytes(acc, codec.symbolSize))];
    }
  }

  method SplitSymbols(data: Bytes, size: SymbolSize) returns (symbols: seq<nat>)
    ensures symbols == Source(data, size)
  {
    var k := CeilDiv(|data|, size);
    var padded := Padded(data, size);
    symbols := [];
    for i := 0 to k
      invariant symbols == BlockWords(padded, size, k, i)
    {
      SliceBounds(i, k, size);
      symbols := symbols + [FromBytes(padded[i * size..(i + 1) * size])];
    }
  }

  method Combine(symbols: seq<nat>, indices: seq<nat>) returns (acc: nat)
    requires forall i :: 0 <= i < |indices| ==> indices[i] < |symbols|
    ensures acc == XorOf(indices, symbols)
  {
    acc := 0;
    for i := 0 to |indices|
      invariant acc == XorOf(indices[..i], symbols)
    {
      assert indices[..i + 1][..i] == indices[..i];
      acc := Xor(acc, symbols[indices[i]]);
    }
    assert indices[..|indices|] == indices;
  }

  method FilterUsable(codec: Codec, droplets: seq<Droplet>, k: nat, root: Option<string>, validate: bool)
    returns (usable: seq<Droplet>)
    ensures usable == UsableDroplets(codec, droplets, k, root, validate)
  {
    usable := [];
    for i := 0 to |droplets|
      invariant usable == UsableDroplets(codec, droplets[..i], k, root, validate)
    {
      var d := droplets[i];
      assert droplets[..i + 1][..i] == droplets[..i];
      if |d.payload| != codec.symbolSize {
        continue;
      }
      if validate && root.Some? {
        if !AuthenticSeed(codec.expand, d.seed, k, Some(d.degree), Some(d.indices)) {
          continue;
        }
      }
      usable := usable + [d];
    }
    assert droplets[..|droplets|] == droplets;
  }

  method CollectSystematic(droplets: seq<Droplet>, k: nat) returns (m: map<nat, Bytes>)
    ensures m == SystematicMap(droplets, k)
  {
    m := map[];
    for i := 0 to |droplets|
      invariant m == SystematicMap(droplets[..i], k)
    {
      var d := droplets[i];
      assert droplets[..i + 1][..i] == droplets[..i];
      if d.degree == 1 && |d.indices| == 1 {
        var idx := d.indices[0];
        if idx < k && idx !in m {
          m := m[idx := d.payload];
        }
      }
    }
    assert droplets[..|droplets|] == droplets;
  }

  method AssembleSystematic(m: map<nat, Bytes>, k: nat) returns (out: Bytes)
    requires forall c: nat :: c < k ==> c in m
    ensures out == JoinSystematic(m, k)
  {
    out := [];
    for c := 0 to k
      invariant out == JoinSystematic(m, c)
    {
      out := out + m[c];
    }
  }

  method BuildRow(indices: seq<nat>, k: nat) returns (row: seq<bool>)
    ensures row == RowOf(indices, k)
  {
    row := seq(k, _ => false);
    for i := 0 to |indices|
      invariant row == RowOf(indices[..i], k)
    {
      assert forall c :: c in indices[..i + 1] <==> c in indices[..i] || c == indices[i];
      if indices[i] < k {
        row := row[indices[i] := true];
      }
    }
    assert indices[..|indices|] == indices;
  }

  method BuildTables(usable: seq<Droplet>, k: nat) returns (matrix: array<seq<bool>>, payloads: array<nat>)
    ensures fresh(matrix) && fresh(payloads)
    ensures matrix.Length == payloads.Length == |usable|
    ensures GaussJordan.Zip(matrix[..], payloads[..]) == SystemOf(usable, k)
  {
    matrix := new seq<bool>[|usable|];
    payloads := new nat[|usable|];
    for r := 0 to |usable|
      invariant forall i :: 0 <= i < r ==> Equation(matrix[i], payloads[i]) == EquationOf(usable[i], k)
    {
      matrix[r] := BuildRow(usable[r].indices, k);
      payloads[r] := FromBytes(usable[r].payload);
    }
    assert GaussJordan.Zip(matrix[..], payloads[..]) == SystemOf(usable, k);
  }

  method AssemblePivots(pivots: map<nat, nat>, payloads: array<nat>, k: nat, size: nat, ghost x: seq<nat>)
    returns (out: Bytes)
    requires |x| == k
    requires forall c: nat :: c < k ==> c in pivots && pivots[c] < payloads.Length && payloads[pivots[c]] == x[c]
    requires Below256(x, size)
    ensures out == Join(x, size)
  {
    out := [];
    for c := 0 to k
      invariant out == Join(x[..c], size)
    {
      assert x[..c + 1][..c] == x[..c];
      out := out + WordBytes(payloads[pivots[c]], size);
    }
    assert x[..k] == x;
  }

  /** The whole decoder; nothing it was given is changed. */
  method Decode(codec: Codec, droplets: seq<Droplet>, k: nat, origLen: nat, root: Option<string>, validate: bool)
    returns (r: Result<Bytes, DecodeError>)
    ensures r == Decoded(codec, droplets, k, origLen, root, validate)
  {
    var usable := FilterUsable(codec, droplets, k, root, validate);
    if |usable| < k {
      return Failure(TooFewDroplets);
    }
    var systematic := CollectSystematic(usable, k);
    SystematicKeys(usable, k);
    if |systematic| == k {
      FullMap(systematic, k);
      var all := AssembleSystematic(systematic, k);
      r := CheckIntegrity(codec, Take(all, origLen), root);
      return;
    }
    var matrix, payloads := BuildTables(usable, k);
    var pivots := GaussJordan.Eliminate(matrix, payloads, k);
    PivotsOfReduced(SystemOf(usable, k), k);
    if |pivots| < k {
      return Failure(RankDeficient);
    }
    UsableMembers(codec, droplets, k, root, validate);
    SolvedFits(usable, k, codec.symbolSize);
    var all := AssemblePivots(pivots, payloads, k, codec.symbolSize, Solution(Eliminated(SystemOf(usable, k), k).0, k));
    r := CheckIntegrity(codec, Take(all, origLen), root);
  }

  lemma PivotsOfReduced(system: seq<Equation>, k: nat)
    requires Width(system, k)
    ensures var (reduced, cols) := Eliminated(system, k);
            && |GaussJordan.PivotMap(cols)| == |cols| <= k
            && (|cols| == k ==> forall c: nat :: c < k ==>
                c in GaussJordan.PivotMap(cols) && GaussJordan.PivotMap(cols)[c] == c)
  {
    var (reduced, cols) := Eliminated(system, k);
    ReduceEchelon(system, k, 0, []);
    RankTheorem(system, k);
    GaussJordan.PivotMapSize(cols, k);
    if |cols| == k {
      forall c: nat | c < k ensures c in GaussJordan.PivotMap(cols) && GaussJordan.PivotMap(cols)[c] == c {
        AllColumns(cols, k, c);
        assert cols[c] == c;
      }
    }
  }

  method CheckIntegrity(codec: Codec, data: Bytes, root: Option<string>) returns (r: Result<Bytes, DecodeError>)
    ensures r == Checked(codec, data, root)
  {
    if root.Some? {
      var expected := StripHexPrefix(root.value);
      if Lower(codec.sha3(data)) != Lower(expected) {
        return Failure(IntegrityFailure);
      }
    }
    return Success(data);
  }
}
