/** Publishing into a node and fetching from it: the chunk fast path and fountain reconstruction. */
module Fetch {
  import opened Wrappers
  import opened Bytes
  import opened Cdc
  import opened Recipes
  import opened Fountain
  import opened FountainDecoding
  import opened FountainEncoding
  import DropletWire
  import FountainCodec

  /** What a node holds. */
  datatype Store = Store(chunks: map<string, Bytes>, recipes: map<string, Recipe>, droplets: map<string, seq<Droplet>>)

  datatype Setup = Setup(hashing: Hashing, chunker: Chunker, codec: Codec)

  datatype FetchError =
    | UnknownRoot | StoredRecipeInvalid | BadSymbolSize | NoDroplets | NoSurvivors | DecodeFailed
    | ChunkMismatch

  /** A payload that is empty, or a droplet that cannot be packed. */
  datatype PublishError = EmptyPayload | DropletOverflow

  // ---------------------------------------------------------------- publishing

  /** The redundancy a payload is encoded with when the caller does not choose. */
  function EffectiveRedundancy(k: nat, redundancy: Option<real>): real {
    match redundancy
    case Some(r) => if r < 0.0 then 0.0 else r
    case None => if k <= 8 then 5.0 else if k <= 32 then 3.0 else if k <= 128 then 2.0 else 1.0
  }

  function PublishedDroplets(codec: Codec, data: Bytes, redundancy: Option<real>): seq<Droplet> {
    Encoded(codec, data, EffectiveRedundancy(CeilDiv(|data|, codec.symbolSize), redundancy), None, []).value
  }

  /** Left to itself the node multiplies the blocks of a payload by six, four, three or two. */
  lemma AutomaticDroplets(codec: Codec, data: Bytes)
    requires data != []
    ensures var k := CeilDiv(|data|, codec.symbolSize);
            |PublishedDroplets(codec, data, None)| == if k <= 8 then 6 * k else if k <= 32 then 4 * k
            else if k <= 128 then 3 * k else 2 * k
  {
    var k := CeilDiv(|data|, codec.symbolSize);
    var r := EffectiveRedundancy(k, None);
    assert k as real * (1.0 + r)
        == (if k <= 8 then 6 * k else if k <= 32 then 4 * k else if k <= 128 then 3 * k else 2 * k) as real;
  }

  /**
   With a redundancy of its caller, which counts as zero if it is negative, the node makes one droplet for each block,
   and the least number that reaches the requested multiple of the blocks if that is more.
   */
  lemma ChosenDroplets(codec: Codec, data: Bytes, redundancy: real)
    requires data != []
    ensures Reaches(|PublishedDroplets(codec, data, Some(redundancy))|, CeilDiv(|data|, codec.symbolSize),
                    if redundancy < 0.0 then 0.0 else redundancy)
  {
    var r := if redundancy < 0.0 then 0.0 else redundancy;
    assert Encoded(codec, data, r, None, []).Some?;
    hide Encoded, CeilDiv, Reaches;
    EncodedCount(codec, data, r, None, []);
  }

  function PublishedRecipe(s: Setup, data: Bytes): Recipe {
    CreatedRecipe(s.hashing, s.chunker, data, Some(s.codec.symbolSize))
  }

  /** The chunk store after writing the chunks in order. */
  function WithChunks(hs: Hashing, store: map<string, Bytes>, parts: seq<Bytes>): map<string, Bytes> {
    if parts == [] then store
    else
      var n := |parts| - 1;
      WithChunks(hs, store, parts[..n])[hs.sha3(parts[n]) := parts[n]]
  }

  function Published(s: Setup, store: Store, data: Bytes, redundancy: Option<real>): Store {
    var r := PublishedRecipe(s, data);
    Store(WithChunks(s.hashing, store.chunks, Chunks(s.chunker, data)),
          store.recipes[r.root := r],
          store.droplets[r.root := PublishedDroplets(s.codec, data, redundancy)])
  }

  /** All droplets can be packed for the Merkle tree over them. */
  predicate AllSerialize(droplets: seq<Droplet>) {
    forall i :: 0 <= i < |droplets| ==> DropletWire.Serialize(droplets[i]).Some?
  }

  lemma PublishedSeeds(codec: Codec, data: Bytes, redundancy: Option<real>, i: nat)
    requires i < |PublishedDroplets(codec, data, redundancy)|
    ensures var d, k := PublishedDroplets(codec, data, redundancy)[i], CeilDiv(|data|, codec.symbolSize);
            && 0 < k <= |PublishedDroplets(codec, data, redundancy)|
            && d.seed == i && d.degree == |d.indices| && IndexSample(d.indices, k) && (i < k ==> d.indices == [i])
  {
    CeilDivBounds(|data|, codec.symbolSize);
    assert IndexSample(codec.expand(i, CeilDiv(|data|, codec.symbolSize)), CeilDiv(|data|, codec.symbolSize));
  }

  lemma PublishedFits(codec: Codec, data: Bytes, redundancy: Option<real>, i: nat)
    requires i < |PublishedDroplets(codec, data, redundancy)| <= 0x1_0000_0000
    requires CeilDiv(|data|, codec.symbolSize) <= 0x1_0000
    requires |PublishedDroplets(codec, data, redundancy)[i].indices| < 0x1_0000
    ensures DropletWire.Serialize(PublishedDroplets(codec, data, redundancy)[i]).Some?
  {
    assert Pow(256, 2) == 0x1_0000;
    assert Pow(256, 4) == 0x1_0000_0000;
    hide Pow, Encoded, PublishedDroplets;
    PublishedSeeds(codec, data, redundancy, i);
  }

  lemma PackedFields(d: Droplet)
    requires DropletWire.Serialize(d).Some?
    ensures d.seed < 0x1_0000_0000 && |d.indices| < 0x1_0000
    ensures forall j :: 0 <= j < |d.indices| ==> d.indices[j] < 0x1_0000
  {
    assert Pow(256, 2) == 0x1_0000;
    assert Pow(256, 4) == 0x1_0000_0000;
  }

  /** What packing all droplets requires. */
  lemma PackedBounds(codec: Codec, data: Bytes, redundancy: Option<real>)
    requires data != [] && AllSerialize(PublishedDroplets(codec, data, redundancy))
    ensures CeilDiv(|data|, codec.symbolSize) <= 0x1_0000
    ensures |PublishedDroplets(codec, data, redundancy)| <= 0x1_0000_0000
  {
    var ds, k := PublishedDroplets(codec, data, redundancy), CeilDiv(|data|, codec.symbolSize);
    hide Encoded, PublishedDroplets, DropletWire.Serialize, CeilDiv, IndexSample;
    SomePublished(codec, data, redundancy);
    PublishedSeeds(codec, data, redundancy, k - 1);
    PackedFields(ds[k - 1]);
    assert ds[k - 1].indices[0] == k - 1;
    PublishedSeeds(codec, data, redundancy, |ds| - 1);
    PackedFields(ds[|ds| - 1]);
  }

  /**
   Packing succeeds exactly for up to 65536 blocks and 2^32 droplets of which none combines 65536 symbols,
   as a repair droplet of a payload of just 65536 blocks may.
   */
  lemma SerializeIff(codec: Codec, data: Bytes, redundancy: Option<real>)
    requires data != []
    ensures var ds, k := PublishedDroplets(codec, data, redundancy), CeilDiv(|data|, codec.symbolSize);
            AllSerialize(ds) <==>
              k <= 0x1_0000 && |ds| <= 0x1_0000_0000 && forall i :: 0 <= i < |ds| ==> |ds[i].indices| < 0x1_0000
  {
    var ds, k := PublishedDroplets(codec, data, redundancy), CeilDiv(|data|, codec.symbolSize);
    hide PublishedDroplets, DropletWire.Serialize, CeilDiv;
    if AllSerialize(ds) {
      PackedBounds(codec, data, redundancy);
      forall i | 0 <= i < |ds| ensures |ds[i].indices| < 0x1_0000 {
        PackedFields(ds[i]);
      }
    } else {
      var i :| 0 <= i < |ds| && DropletWire.Serialize(ds[i]).None?;
      if k <= 0x1_0000 && |ds| <= 0x1_0000_0000 && |ds[i].indices| < 0x1_0000 {
        PublishedFits(codec, data, redundancy, i);
      }
    }
  }

  lemma SomePublished(codec: Codec, data: Bytes, redundancy: Option<real>)
    requires data != []
    ensures 0 < CeilDiv(|data|, codec.symbolSize) <= |PublishedDroplets(codec, data, redundancy)|
  {
    CeilDivBounds(|data|, codec.symbolSize);
  }

  // ---------------------------------------------------------------- fetching

  /** The droplets that survive the simulated loss, given one uniform draw per droplet. */
  function Survivors(droplets: seq<Droplet>, draws: nat -> real, loss: real): seq<Droplet> {
    if droplets == [] then []
    else
      var n := |droplets| - 1;
      Survivors(droplets[..n], draws, loss) + if draws(n) >= loss then [droplets[n]] else []
  }

  predicate FastPath(hs: Hashing, store: Store, r: Recipe, loss: real, received: Option<seq<Droplet>>) {
    loss == 0.0 && received.None? && AllFit(hs, store.chunks, r)
  }

  /** Python's `(total + size - 1) // size`, which is negative for very negative totals. */
  function BlockCount(total: int, size: SymbolSize): int {
    (total + size - 1) / size
  }

  /** The decoder call; a negative block count fails as soon as there is a row to allocate. */
  function Reconstructed(codec: Codec, droplets: seq<Droplet>, total: int): Option<Bytes> {
    var k := BlockCount(total, codec.symbolSize);
    if k < 0 then (if UsableDroplets(codec, droplets, 0, None, true) == [] then Some([]) else None)
    else
      match Decoded(codec, droplets, k, if total < 0 then 0 else total, None, true)
      case Success(data) => Some(data)
      case Failure(_) => None
  }

  function FromDroplets(hs: Hashing, codec: Codec, r: Recipe, droplets: seq<Droplet>): Result<Bytes, FetchError> {
    match Reconstructed(codec, droplets, r.totalSize)
    case None => Failure(DecodeFailed)
    case Some(data) => if Matches(hs, r, data) then Success(data) else Failure(ChunkMismatch)
  }

  function FromFountain(s: Setup, store: Store, r: Recipe, root: string, loss: real, draws: nat -> real,
                        received: Option<seq<Droplet>>)
    : Result<Bytes, FetchError>
  {
    var size: int := if r.symbolSize.Some? then r.symbolSize.value else s.codec.symbolSize;
    if size < 16 then Failure(BadSymbolSize)
    else
      var stored := if root in store.droplets then store.droplets[root] else [];
      if received.None? && stored == [] then Failure(NoDroplets)
      else
        var surviving := if received.Some? then received.value else Survivors(stored, draws, loss);
        if surviving == [] then Failure(NoSurvivors)
        else FromDroplets(s.hashing, s.codec.(symbolSize := size), r, surviving)
  }

  function Fetched(s: Setup, store: Store, root: string, loss: real, draws: nat -> real, received: Option<seq<Droplet>>)
    : Result<Bytes, FetchError>
  {
    if root !in store.recipes then Failure(UnknownRoot)
    else
      var r := store.recipes[root];
      if !ValidRecipe(s.hashing, r, Some(root)) then Failure(StoredRecipeInvalid)
      else if FastPath(s.hashing, store, r, loss, received) then Success(Concat(Looked(s.hashing, store.chunks, r)))
      else FromFountain(s, store, r, root, loss, draws, received)
  }

  /** Why a fetch fails, in the order of its checks. */
  lemma FetchErrors(s: Setup, store: Store, root: string, loss: real, draws: nat -> real,
                    received: Option<seq<Droplet>>)
    ensures var r := Fetched(s, store, root, loss, draws, received);
            && (r == Failure(UnknownRoot) <==> root !in store.recipes)
            && (r == Failure(StoredRecipeInvalid) <==>
                  root in store.recipes && !ValidRecipe(s.hashing, store.recipes[root], Some(root)))
            && (r == Failure(BadSymbolSize) ==>
                  root in store.recipes && store.recipes[root].symbolSize.Some?
                  && store.recipes[root].symbolSize.value < 16)
            && (r == Failure(NoDroplets) ==> received.None? && (root in store.droplets ==> store.droplets[root] == []))
            && (r == Failure(NoSurvivors) ==>
                  received == Some([]) || (received.None? && root in store.droplets && store.droplets[root] != []))
  {
    hide ValidRecipe, AllFit, Reconstructed, Matches, Survivors;
  }

  // ---------------------------------------------------------------- a fetch never lies

  lemma BlocksSuffice(total: nat, size: SymbolSize)
    ensures 0 <= BlockCount(total, size) && BlockCount(total, size) == CeilDiv(total, size)
    ensures total <= BlockCount(total, size) * size
  {
    CeilDivBounds(total, size);
  }

  lemma NegativeBlocks(total: int, size: SymbolSize)
    requires total < 0
    ensures BlockCount(total, size) <= 0
  {
  }

  lemma ReconstructedLength(codec: Codec, droplets: seq<Droplet>, total: int)
    requires Reconstructed(codec, droplets, total).Some?
    ensures |Reconstructed(codec, droplets, total).value| == if total < 0 then 0 else total
  {
    if total >= 0 {
      BlocksSuffice(total, codec.symbolSize);
      DecodeLength(codec, droplets, BlockCount(total, codec.symbolSize), total, None, true);
    } else {
      NegativeBlocks(total, codec.symbolSize);
      if BlockCount(total, codec.symbolSize) == 0 {
        DecodeLength(codec, droplets, 0, 0, None, true);
      }
    }
  }

  /**
   Whatever the node stores and whatever droplets arrive, a fetch that returns has a valid recipe for
   the root, and returns as many bytes as the recipe says, cut by its sizes into slices with its digests.
   */
  lemma FetchMatches(s: Setup, store: Store, root: string, loss: real, draws: nat -> real,
                     received: Option<seq<Droplet>>)
    requires Fetched(s, store, root, loss, draws, received).Success?
    ensures root in store.recipes
    ensures var r, data := store.recipes[root], Fetched(s, store, root, loss, draws, received).value;
            && ValidRecipe(s.hashing, r, Some(root)) && Matches(s.hashing, r, data)
            && |data| == if r.totalSize < 0 then 0 else r.totalSize
  {
    var r := store.recipes[root];
    assert ValidRecipe(s.hashing, r, Some(root)) ==> Sum(r.sizes) == r.totalSize;
    hide ValidRecipe, Matches, Reconstructed;
    if FastPath(s.hashing, store, r, loss, received) {
      LookedMatches(s.hashing, store.chunks, r);
    } else {
      var size: int := if r.symbolSize.Some? then r.symbolSize.value else s.codec.symbolSize;
      var stored := if root in store.droplets then store.droplets[root] else [];
      var surviving := if received.Some? then received.value else Survivors(stored, draws, loss);
      ReconstructedLength(s.codec.(symbolSize := size), surviving, r.totalSize);
    }
  }

  /**
   The returned bytes are the concatenation of those slices exactly when no cut position of the recipe
   lies before the previous one, which is a condition on its sizes alone.
   */
  lemma FetchTiledIff(s: Setup, store: Store, root: string, loss: real, draws: nat -> real,
                      received: Option<seq<Droplet>>)
    requires Fetched(s, store, root, loss, draws, received).Success?
    ensures root in store.recipes
    ensures var r, data := store.recipes[root], Fetched(s, store, root, loss, draws, received).value;
            Concat(Slices(data, r.sizes, 0)) == data
            <==> Forward(r.sizes, if r.totalSize < 0 then 0 else r.totalSize, 0)
  {
    FetchMatches(s, store, root, loss, draws, received);
    var r, data := store.recipes[root], Fetched(s, store, root, loss, draws, received).value;
    hide Fetched, Matches;
    SlicesCover(data, r.sizes, 0);
    assert data[Clamp(0, |data|)..] == data;
  }

  /** In particular when no size is negative. */
  lemma FetchTiled(s: Setup, store: Store, root: string, loss: real, draws: nat -> real, received: Option<seq<Droplet>>)
    requires Fetched(s, store, root, loss, draws, received).Success?
    requires root in store.recipes
    requires forall i :: 0 <= i < |store.recipes[root].sizes| ==> store.recipes[root].sizes[i] >= 0
    ensures var data := Fetched(s, store, root, loss, draws, received).value;
            && Concat(Slices(data, store.recipes[root].sizes, 0)) == data
            && |data| == store.recipes[root].totalSize
  {
    var r := store.recipes[root];
    FetchMatches(s, store, root, loss, draws, received);
    FetchTiledIff(s, store, root, loss, draws, received);
    hide Fetched, Matches;
    ForwardFromSizes(r.sizes, if r.totalSize < 0 then 0 else r.totalSize, 0);
    SumNonNegative(r.sizes);
  }

  lemma {:induction false} SumNonNegative(sizes: seq<int>)
    requires forall i :: 0 <= i < |sizes| ==> sizes[i] >= 0
    ensures Sum(sizes) >= 0
  {
    if sizes != [] {
      SumNonNegative(sizes[1..]);
    }
  }

  lemma CutsStep(data: Bytes, size: int, sizes: seq<int>, offset: int)
    ensures Slices(data, [size] + sizes, offset)
         == [Slice(data, offset, offset + size)] + Slices(data, sizes, offset + size)
    ensures Concat(Slices(data, [size] + sizes, offset))
         == Slice(data, offset, offset + size) + Concat(Slices(data, sizes, offset + size))
    ensures Sum([size] + sizes) == size + Sum(sizes)
  {
    assert ([size] + sizes)[1..] == sizes;
    var head, rest := Slice(data, offset, offset + size), Slices(data, sizes, offset + size);
    assert ([head] + rest)[1..] == rest;
  }

  /** A recipe whose second size is negative. */
  function OverlappingRecipe(hs: Hashing, data: Bytes): Recipe {
    var sizes := [12, -4, 2];
    var hashes := DigestList(hs, Slices(data, sizes, 0));
    Recipe(RootDigest(hs, hashes), 10, hashes, sizes, None)
  }

  lemma OverlappingMatches(hs: Hashing, data: Bytes)
    requires |data| == 10
    ensures var r := OverlappingRecipe(hs, data);
            && ValidRecipe(hs, r, Some(r.root)) && Matches(hs, r, data)
            && Concat(Slices(data, r.sizes, 0)) == data + data[8..] != data
  {
    var sizes := [12, -4, 2];
    CutsStep(data, 2, [], 8);
    CutsStep(data, -4, [2], 12);
    CutsStep(data, 12, [-4, 2], 0);
    assert Slices(data, [], 10) == [] && Concat([]) == [] && Sum([]) == 0;
    hide Slices, Sum, Concat, RootDigest;
    assert [2] + [] == [2] && [-4] + [2] == [-4, 2] && [12] + [-4, 2] == [12, -4, 2];
    assert Slice(data, 0, 12) == data && Slice(data, 12, 8) == [] && Slice(data, 8, 10) == data[8..];
    assert data + ([] + (data[8..] + [])) == data + data[8..];
  }

  /**
   The cut condition is needed: a node that holds a valid recipe with a negative size, and is given the
   droplets of a payload, returns that payload although the recipe's slices do not spell it out.
   */
  lemma OverlappingSlices(s: Setup, data: Bytes, draws: nat -> real)
    requires |data| == 10
    ensures var r := OverlappingRecipe(s.hashing, data);
            var store := Store(map[], map[r.root := r], map[]);
            && Fetched(s, store, r.root, 0.0, draws, Some(PublishedDroplets(s.codec, data, None))) == Success(data)
            && Concat(Slices(data, r.sizes, 0)) != data
            && !Forward(r.sizes, r.totalSize, 0)
  {
    var r, ds := OverlappingRecipe(s.hashing, data), PublishedDroplets(s.codec, data, None);
    var store := Store(map[], map[r.root := r], map[]);
    OverlappingMatches(s.hashing, data);
    assert forall d :: d in ds ==> Emitted(s.codec, data, d);
    SomePublished(s.codec, data, None);
    EncodedFullRank(s.codec, data, EffectiveRedundancy(CeilDiv(|data|, s.codec.symbolSize), None), None, []);
    RecipeAnyLoss(s, store, r, data, 0.0, draws, ds);
    assert r.totalSize == 10;
    hide Fetched, OverlappingRecipe;
    FetchTiledIff(s, store, r.root, 0.0, draws, Some(ds));
  }

  /** No cut of a recipe's sizes goes backwards. */
  predicate CutsForward(r: Recipe) {
    r.totalSize >= 0 && Forward(r.sizes, r.totalSize, 0)
  }

  /**
   Two fetches of one root, on any two nodes with any recipes that do not cut backwards and any
   droplets, return the same bytes, unless one of the listed pairs of hashed strings is a collision.
   */
  lemma FetchesAgree(s: Setup, store1: Store, store2: Store, root: string, loss1: real, draws1: nat -> real,
                     received1: Option<seq<Droplet>>, loss2: real, draws2: nat -> real, received2: Option<seq<Droplet>>)
    requires Fetched(s, store1, root, loss1, draws1, received1).Success?
    requires Fetched(s, store2, root, loss2, draws2, received2).Success?
    requires root in store1.recipes && CutsForward(store1.recipes[root])
    requires root in store2.recipes && CutsForward(store2.recipes[root])
    ensures var d1 := Fetched(s, store1, root, loss1, draws1, received1).value;
            var d2 := Fetched(s, store2, root, loss2, draws2, received2).value;
            d1 == d2 || CollisionAmong(s.hashing, Sites(s.hashing, store1.recipes[root], d1, store2.recipes[root], d2))
  {
    var d1 := Fetched(s, store1, root, loss1, draws1, received1).value;
    var d2 := Fetched(s, store2, root, loss2, draws2, received2).value;
    FetchMatches(s, store1, root, loss1, draws1, received1);
    FetchMatches(s, store2, root, loss2, draws2, received2);
    FetchTiledIff(s, store1, root, loss1, draws1, received1);
    FetchTiledIff(s, store2, root, loss2, draws2, received2);
    SameSlices(s.hashing, store1.recipes[root], d1, store2.recipes[root], d2);
  }

  /**
   Whatever valid recipe for the root of a published payload a node stores, and whatever droplets it
   is given, fetching that root returns the published bytes or one of the listed pairs collides.
   */
  lemma FetchPublished(s: Setup, publisher: Setup, data: Bytes, store: Store, root: string, loss: real,
                       draws: nat -> real, received: Option<seq<Droplet>>)
    requires s.hashing == publisher.hashing && root == PublishedRecipe(publisher, data).root
    requires Fetched(s, store, root, loss, draws, received).Success?
    ensures root in store.recipes
    ensures var out := Fetched(s, store, root, loss, draws, received).value;
            var sites := Sites(s.hashing, PublishedRecipe(publisher, data), data, store.recipes[root], out);
            out == data || CollisionAmong(s.hashing, sites)
  {
    FetchMatches(s, store, root, loss, draws, received);
    var p, r, out :=
        PublishedRecipe(publisher, data), store.recipes[root], Fetched(s, store, root, loss, draws, received).value;
    CreatedMatches(s.hashing, publisher.chunker, data, Some(publisher.codec.symbolSize));
    SameSlices(s.hashing, p, data, r, out);
    if !CollisionAmong(s.hashing, Sites(s.hashing, p, data, r, out)) {
      SlicesOfPublished(s, publisher, data, r, out);
    }
  }

  /** Payload bytes cut into the chunks of the published data are that data. */
  lemma SlicesOfPublished(s: Setup, publisher: Setup, data: Bytes, r: Recipe, out: Bytes)
    requires Slices(out, r.sizes, 0) == Chunks(publisher.chunker, data)
    requires Sum(r.sizes) == r.totalSize && |out| == if r.totalSize < 0 then 0 else r.totalSize
    ensures out == data
  {
    forall i | 0 <= i < |r.sizes| ensures Slices(out, r.sizes, 0)[i] != [] {
      ChunkSizes(publisher.chunker, data, i);
    }
    ForwardFromSlices(out, r.sizes, 0);
    SlicesCover(out, r.sizes, 0);
    ChunksConcat(publisher.chunker, data);
    assert out[Clamp(0, |out|)..] == out;
  }

  // ---------------------------------------------------------------- a fetch succeeds

  /** No two chunks of a payload collide. */
  ghost predicate ChunksApart(hs: Hashing, parts: seq<Bytes>) {
    forall i, j :: 0 <= i < |parts| && 0 <= j < |parts| && hs.sha3(parts[i]) == hs.sha3(parts[j]) ==>
        parts[i] == parts[j]
  }

  lemma {:induction false} WithChunksHolds(hs: Hashing, store: map<string, Bytes>, parts: seq<Bytes>, i: nat)
    requires i < |parts| && ChunksApart(hs, parts)
    ensures hs.sha3(parts[i]) in WithChunks(hs, store, parts)
    ensures WithChunks(hs, store, parts)[hs.sha3(parts[i])] == parts[i]
  {
    var n := |parts| - 1;
    if hs.sha3(parts[i]) == hs.sha3(parts[n]) {
      assert parts[i] == parts[n];
    } else {
      assert parts[..n][i] == parts[i];
      WithChunksHolds(hs, store, parts[..n], i);
    }
  }

  /** A published payload is fetched back from its own node, unless two of its chunks collide. */
  lemma PublishThenFetch(s: Setup, store: Store, data: Bytes, redundancy: Option<real>, draws: nat -> real)
    ensures var root := PublishedRecipe(s, data).root;
            || Fetched(s, Published(s, store, data, redundancy), root, 0.0, draws, None) == Success(data)
            || !ChunksApart(s.hashing, Chunks(s.chunker, data))
  {
    var parts, r, after := Chunks(s.chunker, data), PublishedRecipe(s, data), Published(s, store, data, redundancy);
    CreatedMatches(s.hashing, s.chunker, data, Some(s.codec.symbolSize));
    ChunksConcat(s.chunker, data);
    hide Chunks, Slices, ValidRecipe;
    if ChunksApart(s.hashing, parts) {
      forall i | 0 <= i < |parts|
        ensures ChunkFits(s.hashing, after.chunks, r.hashes[i], r.sizes[i]) && after.chunks[r.hashes[i]] == parts[i]
      {
        WithChunksHolds(s.hashing, store.chunks, parts, i);
      }
      assert AllFit(s.hashing, after.chunks, r);
      assert Looked(s.hashing, after.chunks, r) == parts;
    }
  }

  /** From a nonempty mix of droplets of a payload that the recipe matches, a fetch decides by their rank alone. */
  lemma RecipeAnyLoss(s: Setup, store: Store, r: Recipe, data: Bytes, loss: real, draws: nat -> real,
                      droplets: seq<Droplet>)
    requires r.root in store.recipes && store.recipes[r.root] == r
    requires ValidRecipe(s.hashing, r, Some(r.root)) && Matches(s.hashing, r, data)
    requires r.totalSize == |data| && r.symbolSize in {None, Some(s.codec.symbolSize)}
    requires droplets != [] && forall d :: d in droplets ==> Emitted(s.codec, data, d)
    ensures Fetched(s, store, r.root, loss, draws, Some(droplets))
         == if FullRank(droplets, CeilDiv(|data|, s.codec.symbolSize)) then Success(data) else Failure(DecodeFailed)
  {
    AnyLossRoundTrip(s.codec, data, droplets);
    BlocksSuffice(|data|, s.codec.symbolSize);
    hide Matches, ValidRecipe, Decoded, FullRank;
    assert s.codec.(symbolSize := s.codec.symbolSize) == s.codec;
  }

  /**
   Any-loss fetch: on a node that knows the recipe, from any nonempty mix of droplets that encoders of
   the payload emitted, the fetch returns the payload exactly when they have full rank, with no
   assumption on the hash.
   */
  lemma FetchAnyLoss(s: Setup, store: Store, data: Bytes, loss: real, draws: nat -> real, droplets: seq<Droplet>)
    requires var r := PublishedRecipe(s, data); r.root in store.recipes && store.recipes[r.root] == r
    requires droplets != [] && forall d :: d in droplets ==> Emitted(s.codec, data, d)
    ensures Fetched(s, store, PublishedRecipe(s, data).root, loss, draws, Some(droplets))
         == if FullRank(droplets, CeilDiv(|data|, s.codec.symbolSize)) then Success(data) else Failure(DecodeFailed)
  {
    CreatedMatches(s.hashing, s.chunker, data, Some(s.codec.symbolSize));
    hide Matches, ValidRecipe, Fetched, FullRank, Emitted;
    RecipeAnyLoss(s, store, PublishedRecipe(s, data), data, loss, draws, droplets);
  }

  lemma {:induction false} SurvivorsAre(droplets: seq<Droplet>, draws: nat -> real, loss: real, d: Droplet)
    ensures d in Survivors(droplets, draws, loss) <==>
              exists i :: 0 <= i < |droplets| && droplets[i] == d && draws(i) >= loss
  {
    if droplets != [] {
      var n := |droplets| - 1;
      SurvivorsAre(droplets[..n], draws, loss, d);
      if i :| 0 <= i < |droplets| && droplets[i] == d && draws(i) >= loss {
        assert i < n ==> droplets[..n][i] == d;
      }
      if i :| 0 <= i < n && droplets[..n][i] == d && draws(i) >= loss {
        assert droplets[i] == d;
      }
    }
  }

  /**
   Fetching under simulated loss what the node published recovers from nothing but the droplets whose draws reach
   the loss rate, even if the node has all the chunks: it returns the payload exactly if they have full rank.
   */
  lemma LossyFetch(s: Setup, store: Store, data: Bytes, redundancy: Option<real>, loss: real, draws: nat -> real,
                   left: seq<Droplet>)
    requires data != [] && loss != 0.0
    requires forall d :: d in left <==>
               exists i :: 0 <= i < |PublishedDroplets(s.codec, data, redundancy)|
                        && PublishedDroplets(s.codec, data, redundancy)[i] == d && draws(i) >= loss
    ensures Fetched(s, Published(s, store, data, redundancy), PublishedRecipe(s, data).root, loss, draws, None)
         == if left == [] then Failure(NoSurvivors)
            else if FullRank(left, CeilDiv(|data|, s.codec.symbolSize)) then Success(data) else Failure(DecodeFailed)
  {
    var ds, r, k := PublishedDroplets(s.codec, data, redundancy), PublishedRecipe(s, data),
        CeilDiv(|data|, s.codec.symbolSize);
    var after, surviving := Published(s, store, data, redundancy), Survivors(ds, draws, loss);
    forall d ensures d in left <==> d in surviving {
      SurvivorsAre(ds, draws, loss, d);
    }
    SomePublished(s.codec, data, redundancy);
    CreatedMatches(s.hashing, s.chunker, data, Some(s.codec.symbolSize));
    assert after.recipes[r.root] == r && after.droplets[r.root] == ds && r.totalSize == |data|
        && r.symbolSize == Some(s.codec.symbolSize);
    hide *;
    SimulatedLoss(s, after, r, loss, draws);
    assert (left == []) == (surviving == []) by {
      SameMembersEmpty(left, surviving);
    }
    if surviving != [] {
      PublishedEmitted(s.codec, data, redundancy);
      FullRankMembers(left, surviving, k);
      FullRankMembers(surviving, left, k);
      RecipeAnyLoss(s, after, r, data, loss, draws, surviving);
    }
  }

  lemma SameMembersEmpty<T>(a: seq<T>, b: seq<T>)
    requires forall x :: x in a <==> x in b
    ensures a == [] <==> b == []
  {
    if a != [] {
      assert a[0] in b;
    }
    if b != [] {
      assert b[0] in a;
    }
  }

  /** A simulated loss is a fetch from the droplets that survive it. */
  lemma SimulatedLoss(s: Setup, store: Store, r: Recipe, loss: real, draws: nat -> real)
    requires r.root in store.recipes && store.recipes[r.root] == r && ValidRecipe(s.hashing, r, Some(r.root))
    requires r.symbolSize == Some(s.codec.symbolSize) && loss != 0.0
    requires r.root in store.droplets && store.droplets[r.root] != []
    ensures var surviving := Survivors(store.droplets[r.root], draws, loss);
            Fetched(s, store, r.root, loss, draws, None)
            == if surviving == [] then Failure(NoSurvivors)
               else Fetched(s, store, r.root, loss, draws, Some(surviving))
  {
    hide Survivors, ValidRecipe, FromDroplets;
  }

  lemma PublishedEmitted(codec: Codec, data: Bytes, redundancy: Option<real>)
    ensures forall d :: d in PublishedDroplets(codec, data, redundancy) ==> Emitted(codec, data, d)
  {
    var r := Encoded(codec, data, EffectiveRedundancy(CeilDiv(|data|, codec.symbolSize), redundancy), None, []);
    assert r.Some?;
    hide Encoded;
  }

  // ---------------------------------------------------------------- the node

  class TFPNode {
    const setup: Setup
    var chunkStore: map<string, Bytes>
    var recipes: map<string, Recipe>
    var dropletStore: map<string, seq<Droplet>>
    var successfulReconstructions: nat

    constructor (setup: Setup)
      ensures this.setup == setup && Contents() == Store(map[], map[], map[]) && successfulReconstructions == 0
    {
      this.setup := setup;
      chunkStore, recipes, dropletStore, successfulReconstructions := map[], map[], map[], 0;
    }

    function Contents(): Store
      reads this
    {
      Store(chunkStore, recipes, dropletStore)
    }

    method StoreChunks(parts: seq<Bytes>)
      modifies this`chunkStore
      ensures chunkStore == WithChunks(setup.hashing, old(chunkStore), parts)
    {
      for i := 0 to |parts|
        invariant chunkStore == WithChunks(setup.hashing, old(chunkStore), parts[..i])
      {
        assert parts[..i + 1][..i] == parts[..i];
        chunkStore := chunkStore[setup.hashing.sha3(parts[i]) := parts[i]];
      }
      assert parts[..|parts|] == parts;
    }

    /** Packs the droplets one after another, stopping at the first that does not fit. */
    method SerializeAll(droplets: seq<Droplet>) returns (leaves: Option<seq<Bytes>>)
      ensures leaves.Some? <==> AllSerialize(droplets)
      ensures leaves.Some? ==> |leaves.value| == |droplets|
      ensures leaves.Some? ==>
                forall i :: 0 <= i < |droplets| ==> DropletWire.Deserialize(leaves.value[i]) == Some(droplets[i])
    {
      var out: seq<Bytes> := [];
      hide DropletWire.Serialize, DropletWire.Deserialize;
      for i := 0 to |droplets|
        invariant |out| == i
        invariant forall j :: 0 <= j < i ==> DropletWire.Serialize(droplets[j]) == Some(out[j])
      {
        var b := DropletWire.Serialize(droplets[i]);
        if b.None? {
          return None;
        }
        out := out + [b.value];
      }
      forall i | 0 <= i < |droplets| ensures DropletWire.Deserialize(out[i]) == Some(droplets[i]) {
        DropletWire.SerializeRoundTrip(droplets[i]);
      }
      return Some(out);
    }

    /**
     Stores chunks, recipe and droplets, and then packs the droplets for their Merkle tree. The error on
     an empty payload leaves the node alone; the one of a droplet that does not fit comes after the stores.
     */
    method Publish(data: Bytes, redundancy: Option<real>) returns (r: Result<Recipe, PublishError>)
      modifies this
      ensures data == [] ==> r == Failure(EmptyPayload) && Contents() == old(Contents())
      ensures data != [] ==>
                && Contents() == Published(setup, old(Contents()), data, redundancy)
                && r == if AllSerialize(PublishedDroplets(setup.codec, data, redundancy))
                        then Success(PublishedRecipe(setup, data)) else Failure(DropletOverflow)
      ensures successfulReconstructions == old(successfulReconstructions)
    {
      if data == [] {
        return Failure(EmptyPayload);
      }
      var size := setup.codec.symbolSize;
      var recipe, chunks := CreateRecipe(setup.hashing, setup.chunker, data, Some(size));
      StoreChunks(chunks);
      recipes := recipes[recipe.root := recipe];
      var droplets :=
          FountainCodec.Encode(setup.codec, data, EffectiveRedundancy(CeilDiv(|data|, size), redundancy), None, []);
      dropletStore := dropletStore[recipe.root := droplets.value.0];
      hide AllSerialize, Encoded;
      var leaves := SerializeAll(droplets.value.0);
      if leaves.None? {
        return Failure(DropletOverflow);
      }
      return Success(recipe);
    }

    method SurvivingDroplets(droplets: seq<Droplet>, draws: nat -> real, loss: real) returns (surviving: seq<Droplet>)
      ensures surviving == Survivors(droplets, draws, loss)
    {
      surviving := [];
      for i := 0 to |droplets|
        invariant surviving == Survivors(droplets[..i], draws, loss)
      {
        assert droplets[..i + 1][..i] == droplets[..i];
        if draws(i) >= loss {
          surviving := surviving + [droplets[i]];
        }
      }
      assert droplets[..|droplets|] == droplets;
    }

    /** The fast path: chunks from the local store, each checked against its size and digest. */
    method AssembleStored(r: Recipe) returns (out: Option<Bytes>)
      requires |r.hashes| == |r.sizes|
      ensures out.Some? <==> AllFit(setup.hashing, chunkStore, r)
      ensures out.Some? ==> out.value == Concat(Looked(setup.hashing, chunkStore, r))
    {
      ghost var parts: seq<Bytes> := [];
      var assembled: Bytes := Concat([]);
      hide Concat;
      for i := 0 to |r.hashes|
        invariant |parts| == i && assembled == Concat(parts)
        invariant forall j :: 0 <= j < i ==>
                  ChunkFits(setup.hashing, chunkStore, r.hashes[j], r.sizes[j]) && parts[j] == chunkStore[r.hashes[j]]
      {
        if !ChunkFits(setup.hashing, chunkStore, r.hashes[i], r.sizes[i]) {
          return None;
        }
        ConcatSnoc(parts, chunkStore[r.hashes[i]]);
        parts := parts + [chunkStore[r.hashes[i]]];
        assembled := assembled + chunkStore[r.hashes[i]];
      }
      assert parts == Looked(setup.hashing, chunkStore, r);
      return Some(assembled);
    }

    /** Hashes the slices one after another, stopping at the first that differs. */
    method VerifySlices(r: Recipe, data: Bytes) returns (ok: bool)
      requires |r.hashes| == |r.sizes|
      ensures ok <==> Matches(setup.hashing, r, data)
    {
      var offset := 0;
      for i := 0 to |r.hashes|
        invariant Slices(data, r.sizes, 0)[i..] == Slices(data, r.sizes[i..], offset)
        invariant forall j :: 0 <= j < i ==> setup.hashing.sha3(Slices(data, r.sizes, 0)[j]) == r.hashes[j]
      {
        SlicesAt(data, r.sizes, offset, i);
        var slice := Slice(data, offset, offset + r.sizes[i]);
        offset := offset + r.sizes[i];
        if setup.hashing.sha3(slice) != r.hashes[i] {
          return false;
        }
      }
      return true;
    }

    method Fetch(root: string, loss: real, draws: nat -> real, received: Option<seq<Droplet>>)
      returns (out: Result<Bytes, FetchError>)
      modifies this`successfulReconstructions
      ensures out == Fetched(setup, Contents(), root, loss, draws, received)
      ensures successfulReconstructions == old(successfulReconstructions) + if out.Success? then 1 else 0
    {
      if root !in recipes {
        return Failure(UnknownRoot);
      }
      var r := recipes[root];
      if !ValidRecipe(setup.hashing, r, Some(root)) {
        return Failure(StoredRecipeInvalid);
      }
      assert |r.hashes| == |r.sizes|;
      hide ValidRecipe, Matches, AllFit, Looked;
      if loss == 0.0 && received.None? {
        var assembled := AssembleStored(r);
        if assembled.Some? {
          successfulReconstructions := successfulReconstructions + 1;
          return Success(assembled.value);
        }
      }
      out := Reconstruct(r, root, loss, draws, received);
      if out.Success? {
        successfulReconstructions := successfulReconstructions + 1;
      }
    }

    method Reconstruct(r: Recipe, root: string, loss: real, draws: nat -> real, received: Option<seq<Droplet>>)
      returns (out: Result<Bytes, FetchError>)
      requires |r.hashes| == |r.sizes|
      ensures out == FromFountain(setup, Contents(), r, root, loss, draws, received)
    {
      hide Matches;
      var size: int := if r.symbolSize.Some? then r.symbolSize.value else setup.codec.symbolSize;
      if size < 16 {
        return Failure(BadSymbolSize);
      }
      var surviving: seq<Droplet>;
      if received.Some? {
        surviving := received.value;
      } else {
        var stored := if root in dropletStore then dropletStore[root] else [];
        if stored == [] {
          return Failure(NoDroplets);
        }
        surviving := SurvivingDroplets(stored, draws, loss);
      }
      if surviving == [] {
        return Failure(NoSurvivors);
      }
      var reconstructed := Reconstructed(setup.codec.(symbolSize := size), surviving, r.totalSize);
      if reconstructed.None? {
        return Failure(DecodeFailed);
      }
      var ok := VerifySlices(r, reconstructed.value);
      if !ok {
        return Failure(ChunkMismatch);
      }
      return Success(reconstructed.value);
    }
  }

  lemma SlicesAt(data: Bytes, sizes: seq<int>, offset: int, i: nat)
    requires i < |sizes|
    ensures Slices(data, sizes[i..], offset)
         == [Slice(data, offset, offset + sizes[i])] + Slices(data, sizes[i + 1..], offset + sizes[i])
  {
    assert sizes[i..][1..] == sizes[i + 1..];
  }
}
