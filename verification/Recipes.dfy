/** Content recipes: the ordered digests and sizes of a payload's chunks, and the root digest over them. */
module Recipes {
  import opened Wrappers
  import opened Bytes
  import opened Digests
  import opened Cdc

  /** `str.encode("utf-8")`; on hexadecimal digests it is ASCII. */
  type Encoding = e: string -> Bytes | forall s: HexDigest :: e(s) == HexBytes(s)
    witness (s: string) => if IsHexDigest(s) then HexBytes(s) else []

  datatype Hashing = Hashing(sha3: Hasher, utf8: Encoding)

  datatype Recipe = Recipe(root: string, totalSize: int, hashes: seq<string>, sizes: seq<int>, symbolSize: Option<int>)

  /** The bytes the root digest is taken of. */
  function RootInput(hs: Hashing, hashes: seq<string>): Bytes {
    if hashes == [] then [] else hs.utf8(hashes[0]) + RootInput(hs, hashes[1..])
  }

  function RootDigest(hs: Hashing, hashes: seq<string>): HexDigest {
    hs.sha3(RootInput(hs, hashes))
  }

  function Sum(sizes: seq<int>): int {
    if sizes == [] then 0 else sizes[0] + Sum(sizes[1..])
  }

  predicate ValidRecipe(hs: Hashing, r: Recipe, expected: Option<string>) {
    && |r.hashes| == |r.sizes|
    && Sum(r.sizes) == r.totalSize
    && RootDigest(hs, r.hashes) == r.root
    && (expected.Some? ==> RootDigest(hs, r.hashes) == expected.value)
  }

  // ---------------------------------------------------------------- creating

  function DigestList(hs: Hashing, parts: seq<Bytes>): (d: seq<string>)
    ensures |d| == |parts|
    ensures forall i :: 0 <= i < |d| ==> d[i] == hs.sha3(parts[i])
  {
    seq(|parts|, i requires 0 <= i < |parts| => hs.sha3(parts[i]))
  }

  function Lengths(parts: seq<Bytes>): (n: seq<int>)
    ensures |n| == |parts|
    ensures forall i :: 0 <= i < |n| ==> n[i] == |parts[i]|
  {
    seq(|parts|, i requires 0 <= i < |parts| => |parts[i]|)
  }

  function CreatedRecipe(hs: Hashing, c: Chunker, data: Bytes, symbolSize: Option<int>): Recipe {
    var chunks := Chunks(c, data);
    Recipe(RootDigest(hs, DigestList(hs, chunks)), |data|, DigestList(hs, chunks), Lengths(chunks), symbolSize)
  }

  method CreateRecipe(hs: Hashing, c: Chunker, data: Bytes, symbolSize: Option<int>)
    returns (r: Recipe, chunks: seq<Bytes>)
    ensures r == CreatedRecipe(hs, c, data, symbolSize) && chunks == Chunks(c, data)
  {
    chunks := ChunkBuffer(c, data);
    var hashes: seq<string>, sizes: seq<int> := [], [];
    for i := 0 to |chunks|
      invariant hashes == DigestList(hs, chunks)[..i] && sizes == Lengths(chunks)[..i]
    {
      hashes := hashes + [hs.sha3(chunks[i])];
      sizes := sizes + [|chunks[i]|];
    }
    assert hashes == DigestList(hs, chunks) && sizes == Lengths(chunks);
    r := Recipe(RootDigest(hs, hashes), |data|, hashes, sizes, symbolSize);
  }

  // ---------------------------------------------------------------- slicing

  /** Where Python's slicing puts index `i` of a string of `n` bytes. */
  function Clamp(i: int, n: nat): (p: nat)
    ensures p <= n
  {
    if i < 0 then (if n + i < 0 then 0 else n + i) else if i > n then n else i
  }

  /** `data[a:b]`, for sizes that are Python integers. */
  function Slice(data: Bytes, a: int, b: int): Bytes {
    var lo, hi := Clamp(a, |data|), Clamp(b, |data|);
    if lo <= hi then data[lo..hi] else []
  }

  /** The slices a recipe's sizes cut, from an offset on. */
  function Slices(data: Bytes, sizes: seq<int>, offset: int): (s: seq<Bytes>)
    ensures |s| == |sizes|
  {
    if sizes == [] then []
    else [Slice(data, offset, offset + sizes[0])] + Slices(data, sizes[1..], offset + sizes[0])
  }

  /** No cut position lies before the one in front of it. */
  predicate Forward(sizes: seq<int>, n: nat, offset: int) {
    sizes != [] ==>
      && Clamp(offset, n) <= Clamp(offset + sizes[0], n)
      && Forward(sizes[1..], n, offset + sizes[0])
  }

  lemma SlicesStep(data: Bytes, sizes: seq<int>, offset: int)
    requires sizes != []
    ensures Concat(Slices(data, sizes, offset))
         == Slice(data, offset, offset + sizes[0]) + Concat(Slices(data, sizes[1..], offset + sizes[0]))
  {
    assert Slices(data, sizes, offset)[1..] == Slices(data, sizes[1..], offset + sizes[0]);
    hide Slice;
  }

  lemma SliceJoin(data: Bytes, a: int, b: int)
    requires Clamp(a, |data|) <= Clamp(b, |data|)
    ensures |Slice(data, a, b)| == Clamp(b, |data|) - Clamp(a, |data|)
    ensures Slice(data, a, b) + data[Clamp(b, |data|)..] == data[Clamp(a, |data|)..]
  {
    hide Clamp;
  }

  /** The slices cover everything behind the offset, and more than that when some cut goes backwards. */
  lemma {:induction false} SlicesCover(data: Bytes, sizes: seq<int>, offset: int)
    requires offset + Sum(sizes) == |data| || data == []
    ensures |Concat(Slices(data, sizes, offset))| >= |data| - Clamp(offset, |data|)
    ensures Forward(sizes, |data|, offset) ==> Concat(Slices(data, sizes, offset)) == data[Clamp(offset, |data|)..]
    ensures !Forward(sizes, |data|, offset) ==> |Concat(Slices(data, sizes, offset))| > |data| - Clamp(offset, |data|)
  {
    if sizes != [] {
      var next := offset + sizes[0];
      SlicesStep(data, sizes, offset);
      hide Concat, Slices, Slice, Clamp;
      SlicesCover(data, sizes[1..], next);
      if Clamp(offset, |data|) <= Clamp(next, |data|) {
        SliceJoin(data, offset, next);
      }
    }
  }

  lemma {:induction false} ForwardFromSizes(sizes: seq<int>, n: nat, offset: nat)
    requires forall i :: 0 <= i < |sizes| ==> sizes[i] >= 0
    ensures Forward(sizes, n, offset)
  {
    if sizes != [] {
      ForwardFromSizes(sizes[1..], n, offset + sizes[0]);
    }
  }

  lemma {:induction false} ForwardFromSlices(data: Bytes, sizes: seq<int>, offset: int)
    requires forall i :: 0 <= i < |sizes| ==> Slices(data, sizes, offset)[i] != []
    ensures Forward(sizes, |data|, offset)
  {
    if sizes != [] {
      var next := offset + sizes[0];
      var all := Slices(data, sizes, offset);
      assert all[0] != [];
      forall i | 0 <= i < |sizes| - 1 ensures Slices(data, sizes[1..], next)[i] != [] {
        assert all[i + 1] == Slices(data, sizes[1..], next)[i];
      }
      ForwardFromSlices(data, sizes[1..], next);
    }
  }

  lemma LengthsStep(parts: seq<Bytes>)
    requires parts != []
    ensures Lengths(parts) == [|parts[0]|] + Lengths(parts[1..])
  {
  }

  /** Cutting a concatenation at the lengths of its parts gives the parts. */
  lemma {:induction false} SlicesConcat(prefix: Bytes, parts: seq<Bytes>)
    ensures Slices(prefix + Concat(parts), Lengths(parts), |prefix|) == parts
    decreases |parts|
  {
    if parts != [] {
      var data := prefix + Concat(parts);
      assert data == (prefix + parts[0]) + Concat(parts[1..]);
      SlicesConcat(prefix + parts[0], parts[1..]);
      LengthsStep(parts);
      assert Lengths(parts)[1..] == Lengths(parts[1..]);
      hide Concat, Lengths;
      assert Slice(data, |prefix|, |prefix| + |parts[0]|) == parts[0];
      assert parts == [parts[0]] + parts[1..];
    }
  }

  lemma {:induction false} SumOfLengths(parts: seq<Bytes>)
    ensures Sum(Lengths(parts)) == |Concat(parts)|
  {
    if parts != [] {
      SumOfLengths(parts[1..]);
      assert Lengths(parts)[1..] == Lengths(parts[1..]);
    }
  }

  // ---------------------------------------------------------------- payloads that match a recipe

  /** Every slice the recipe cuts from the payload has the digest listed for it. */
  predicate Matches(hs: Hashing, r: Recipe, data: Bytes) {
    && |r.hashes| == |r.sizes|
    && forall i :: 0 <= i < |r.hashes| ==> hs.sha3(Slices(data, r.sizes, 0)[i]) == r.hashes[i]
  }

  /** A created recipe is valid, and its payload matches it. */
  lemma CreatedMatches(hs: Hashing, c: Chunker, data: Bytes, symbolSize: Option<int>)
    ensures var r := CreatedRecipe(hs, c, data, symbolSize);
            && ValidRecipe(hs, r, Some(r.root)) && Matches(hs, r, data)
            && Slices(data, r.sizes, 0) == Chunks(c, data)
  {
    var chunks := Chunks(c, data);
    ChunksConcat(c, data);
    SumOfLengths(chunks);
    SlicesConcat([], chunks);
    assert [] + Concat(chunks) == data;
  }

  /** The digests of some chunks in their hexadecimal form, one after another. */
  function HexDigests(hs: Hashing, parts: seq<Bytes>): Bytes {
    Concat(seq(|parts|, i requires 0 <= i < |parts| => HexBytes(hs.sha3(parts[i]))))
  }

  lemma {:induction false} RootInputIs(hs: Hashing, parts: seq<Bytes>)
    ensures RootInput(hs, DigestList(hs, parts)) == HexDigests(hs, parts)
  {
    if parts != [] {
      RootInputIs(hs, parts[1..]);
      assert DigestList(hs, parts)[1..] == DigestList(hs, parts[1..]);
      var all := seq(|parts|, i requires 0 <= i < |parts| => HexBytes(hs.sha3(parts[i])));
      assert all[1..]
          == seq(|parts| - 1, i requires 0 <= i < |parts| - 1 => HexBytes(hs.sha3(parts[1..][i])));
    }
  }

  /** The recipe of a payload, field by field: the root is the digest of the chunks' hexadecimal digests. */
  lemma CreatedFields(hs: Hashing, c: Chunker, data: Bytes, symbolSize: Option<int>)
    ensures var r, chunks := CreatedRecipe(hs, c, data, symbolSize), Chunks(c, data);
            && r.root == hs.sha3(HexDigests(hs, chunks)) && r.totalSize == |data| && r.symbolSize == symbolSize
            && |r.hashes| == |r.sizes| == |chunks|
            && forall i :: 0 <= i < |chunks| ==> r.hashes[i] == hs.sha3(chunks[i]) && r.sizes[i] == |chunks[i]|
  {
    RootInputIs(hs, Chunks(c, data));
    hide Chunks, RootInput, HexDigests;
  }

  lemma {:induction false} RootInputInjective(hs: Hashing, a: seq<HexDigest>, b: seq<HexDigest>)
    requires RootInput(hs, a) == RootInput(hs, b)
    ensures a == b
  {
    RootInputLength(hs, a);
    RootInputLength(hs, b);
    if a != [] {
      var x, y := RootInput(hs, a[1..]), RootInput(hs, b[1..]);
      assert HexBytes(a[0]) == (HexBytes(a[0]) + x)[..64] && x == (HexBytes(a[0]) + x)[64..];
      assert HexBytes(b[0]) == (HexBytes(b[0]) + y)[..64] && y == (HexBytes(b[0]) + y)[64..];
      HexBytesRoundTrip(a[0]);
      HexBytesRoundTrip(b[0]);
      RootInputInjective(hs, a[1..], b[1..]);
      assert a == [a[0]] + a[1..] && b == [b[0]] + b[1..];
    }
  }

  lemma {:induction false} RootInputLength(hs: Hashing, a: seq<HexDigest>)
    ensures |RootInput(hs, a)| == 64 * |a|
  {
    if a != [] {
      RootInputLength(hs, a[1..]);
    }
  }

  /** The pairs of byte strings hashed alike when two payloads match recipes with one root. */
  function Sites(hs: Hashing, r1: Recipe, d1: Bytes, r2: Recipe, d2: Bytes): (s: seq<(Bytes, Bytes)>)
  {
    var a, b := Slices(d1, r1.sizes, 0), Slices(d2, r2.sizes, 0);
    [(RootInput(hs, r1.hashes), RootInput(hs, r2.hashes))]
    + seq(if |a| <= |b| then |a| else |b|, i requires 0 <= i < |a| && i < |b| => (a[i], b[i]))
  }

  predicate CollisionAmong(hs: Hashing, sites: seq<(Bytes, Bytes)>) {
    exists i :: 0 <= i < |sites| && Collide(hs.sha3, sites[i].0, sites[i].1)
  }

  lemma HexHashes(hs: Hashing, r: Recipe, data: Bytes) returns (hashes: seq<HexDigest>)
    requires Matches(hs, r, data)
    ensures hashes == r.hashes
  {
    hashes := seq(|r.hashes|, i requires 0 <= i < |r.hashes| => hs.sha3(Slices(data, r.sizes, 0)[i]));
  }

  /** Payloads matching recipes with one root are cut into the same slices, or a listed pair collides. */
  lemma SameSlices(hs: Hashing, r1: Recipe, d1: Bytes, r2: Recipe, d2: Bytes)
    requires Matches(hs, r1, d1) && Matches(hs, r2, d2)
    requires RootDigest(hs, r1.hashes) == RootDigest(hs, r2.hashes)
    ensures Slices(d1, r1.sizes, 0) == Slices(d2, r2.sizes, 0) || CollisionAmong(hs, Sites(hs, r1, d1, r2, d2))
  {
    var sites := Sites(hs, r1, d1, r2, d2);
    if sites[0].0 != sites[0].1 {
      assert Collide(hs.sha3, sites[0].0, sites[0].1);
    } else {
      var h1 := HexHashes(hs, r1, d1);
      var h2 := HexHashes(hs, r2, d2);
      RootInputInjective(hs, h1, h2);
      assert r1.hashes == r2.hashes;
      hide Slices, RootInput;
      var a, b := Slices(d1, r1.sizes, 0), Slices(d2, r2.sizes, 0);
      if i :| 0 <= i < |a| && a[i] != b[i] {
        assert sites[i + 1] == (a[i], b[i]);
      }
    }
  }

  // ---------------------------------------------------------------- assembling

  datatype AssembleError = InvalidRecipe | MissingChunk | SizeMismatch | HashMismatch

  predicate ChunkFits(hs: Hashing, chunks: map<string, Bytes>, digest: string, size: int) {
    digest in chunks && |chunks[digest]| == size && hs.sha3(chunks[digest]) == digest
  }

  predicate AllFit(hs: Hashing, chunks: map<string, Bytes>, r: Recipe) {
    |r.hashes| == |r.sizes| && forall i :: 0 <= i < |r.hashes| ==> ChunkFits(hs, chunks, r.hashes[i], r.sizes[i])
  }

  /** Chunk `i` is the first that does not fit, and this is what is wrong with it. */
  predicate FailsAt(hs: Hashing, chunks: map<string, Bytes>, r: Recipe, i: nat, error: AssembleError)
    requires i < |r.hashes| == |r.sizes|
  {
    && (forall j :: 0 <= j < i ==> ChunkFits(hs, chunks, r.hashes[j], r.sizes[j]))
    && match error
       case InvalidRecipe => false
       case MissingChunk => r.hashes[i] !in chunks
       case SizeMismatch => r.hashes[i] in chunks && |chunks[r.hashes[i]]| != r.sizes[i]
       case HashMismatch =>
         && r.hashes[i] in chunks && |chunks[r.hashes[i]]| == r.sizes[i]
         && hs.sha3(chunks[r.hashes[i]]) != r.hashes[i]
  }

  function Looked(hs: Hashing, chunks: map<string, Bytes>, r: Recipe): (parts: seq<Bytes>)
    requires AllFit(hs, chunks, r)
    ensures |parts| == |r.hashes| && Lengths(parts) == r.sizes
  {
    var parts := seq(|r.hashes|, i requires 0 <= i < |r.hashes|
                     && ChunkFits(hs, chunks, r.hashes[i], r.sizes[i]) => chunks[r.hashes[i]]);
    assert Lengths(parts) == r.sizes;
    parts
  }

  /** Looked-up chunks that fit make up a payload that matches the recipe and has its total size. */
  lemma LookedMatches(hs: Hashing, chunks: map<string, Bytes>, r: Recipe)
    requires AllFit(hs, chunks, r)
    ensures var data := Concat(Looked(hs, chunks, r)); Matches(hs, r, data) && |data| == Sum(r.sizes)
  {
    var parts := Looked(hs, chunks, r);
    SlicesConcat([], parts);
    SumOfLengths(parts);
    assert [] + Concat(parts) == Concat(parts);
    hide Slices;
    forall i | 0 <= i < |r.hashes| ensures hs.sha3(parts[i]) == r.hashes[i] {
      assert ChunkFits(hs, chunks, r.hashes[i], r.sizes[i]);
    }
  }

  /**
   Assembly succeeds exactly on a valid recipe all of whose chunks are present with the right size and
   digest, and then returns their concatenation, which matches the recipe.
   */
  method Assemble(hs: Hashing, r: Recipe, chunks: map<string, Bytes>) returns (out: Result<Bytes, AssembleError>)
    ensures out.Success? <==> ValidRecipe(hs, r, None) && AllFit(hs, chunks, r)
    ensures out.Success? ==> out.value == Concat(Looked(hs, chunks, r))
    ensures out.Success? ==> Matches(hs, r, out.value) && |out.value| == r.totalSize
    ensures out == Failure(InvalidRecipe) <==> !ValidRecipe(hs, r, None)
    ensures out.Failure? && out.error != InvalidRecipe ==>
              exists i :: 0 <= i < |r.hashes| && |r.hashes| == |r.sizes| && FailsAt(hs, chunks, r, i, out.error)
  {
    if !ValidRecipe(hs, r, None) {
      return Failure(InvalidRecipe);
    }
    ghost var parts: seq<Bytes> := [];
    var assembled: Bytes := Concat([]);
    hide Sum, RootDigest, Matches, Concat;
    for i := 0 to |r.hashes|
      invariant |parts| == i && assembled == Concat(parts)
      invariant forall j :: 0 <= j < i ==>
                ChunkFits(hs, chunks, r.hashes[j], r.sizes[j]) && parts[j] == chunks[r.hashes[j]]
    {
      if r.hashes[i] !in chunks {
        assert FailsAt(hs, chunks, r, i, MissingChunk);
        return Failure(MissingChunk);
      }
      var chunk := chunks[r.hashes[i]];
      if |chunk| != r.sizes[i] {
        assert FailsAt(hs, chunks, r, i, SizeMismatch);
        return Failure(SizeMismatch);
      }
      if hs.sha3(chunk) != r.hashes[i] {
        assert FailsAt(hs, chunks, r, i, HashMismatch);
        return Failure(HashMismatch);
      }
      ConcatSnoc(parts, chunk);
      parts := parts + [chunk];
      assembled := assembled + chunk;
    }
    assert parts == Looked(hs, chunks, r);
    LookedMatches(hs, chunks, r);
    return Success(assembled);
  }
}
