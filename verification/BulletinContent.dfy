/** The content behind bulletins: what a node holds in memory and in its database, and what a read of it returns. */
module BulletinContent {
  import opened Wrappers
  import opened Bytes
  import opened Digests
  import opened Cdc
  import opened Recipes
  import opened DropletStore
  import opened Fetch
  import opened Fountain
  import opened FountainDecoding
  import opened FountainEncoding

  /** The stores of the running process, and the committed recipe, chunk and droplet tables. */
  datatype Content = Content(setup: Setup, memory: Store, disk: Store)

  function NoContent(setup: Setup): Content {
    Content(setup, Store(map[], map[], map[]), Store(map[], map[], map[]))
  }

  /** The root a payload is published under. */
  function RootOf(setup: Setup, data: Bytes): string {
    PublishedRecipe(setup, data).root
  }

  /** Publishing the payload does not raise. */
  predicate Packs(setup: Setup, data: Bytes) {
    AllSerialize(PublishedDroplets(setup.codec, data, None))
  }

  // ---------------------------------------------------------------- reading

  /** The rows of the chunk table under these digests. */
  function Found(table: map<string, Bytes>, hashes: seq<string>): map<string, Bytes> {
    map h | h in hashes && h in table :: table[h]
  }

  lemma FoundNone(chunks: map<string, Bytes>, table: map<string, Bytes>)
    ensures chunks + Found(table, []) == chunks
  {
  }

  lemma FoundNext(chunks: map<string, Bytes>, table: map<string, Bytes>, hashes: seq<string>, h: string)
    ensures var before := chunks + Found(table, hashes);
            chunks + Found(table, hashes + [h]) == if h in table then before[h := table[h]] else before
  {
    assert forall g :: g in hashes + [h] <==> g in hashes || g == h;
  }

  /** Copies recipe, chunks and droplets of a root from the database, if it has a valid recipe there. */
  function Loaded(c: Content, root: string): Content {
    if root !in c.disk.recipes || !ValidRecipe(c.setup.hashing, c.disk.recipes[root], Some(root)) then c
    else
      var r := c.disk.recipes[root];
      var droplets := if root in c.disk.droplets then c.disk.droplets[root] else [];
      c.(memory := Store(c.memory.chunks + Found(c.disk.chunks, r.hashes), c.memory.recipes[root := r],
                         if droplets == [] then c.memory.droplets else c.memory.droplets[root := droplets]))
  }

  /** The content after looking a root up. */
  function Ensured(c: Content, root: string): Content {
    if root in c.memory.recipes then c else Loaded(c, root)
  }

  /** Looking the root up finds a recipe. */
  predicate Known(c: Content, root: string) {
    root in Ensured(c, root).memory.recipes
  }

  function NoLoss(i: nat): real {
    0.0
  }

  /** A fetch without simulated loss, from what the node itself holds. */
  function Read(c: Content, root: string): Result<Bytes, FetchError> {
    Fetched(c.setup, Ensured(c, root).memory, root, 0.0, NoLoss, None)
  }

  /** Reading the root returns content. */
  predicate Held(c: Content, root: string) {
    Read(c, root).Success?
  }

  // ---------------------------------------------------------------- writing

  /** A publication copied into the stores of the process. */
  function InMemory(c: Content, data: Bytes): Content {
    c.(memory := Published(c.setup, c.memory, data, None))
  }

  /** A publication committed to the tables and copied into the stores. Droplets are rows by root and seed. */
  function Persisted(c: Content, data: Bytes): Content {
    var root := RootOf(c.setup, data);
    var before := if root in c.disk.droplets then c.disk.droplets[root] else [];
    var droplets := PutAll(before, PublishedDroplets(c.setup.codec, data, None));
    InMemory(c, data).(disk := Published(c.setup, c.disk, data, None).(droplets := c.disk.droplets[root := droplets]))
  }

  /** A process starting on the database. */
  function Restarted(c: Content): Content {
    c.(memory := Store(map[], map[], map[]))
  }

  // ---------------------------------------------------------------- content behind a restart

  /** A restarted process has the committed recipe, chunks and droplets of a payload once its root is looked up. */
  lemma CommittedContent(c: Content, data: Bytes)
    requires data != [] && RootOf(c.setup, data) !in c.disk.droplets
    ensures var root, m := RootOf(c.setup, data),
                Ensured(Restarted(Persisted(c, data)), RootOf(c.setup, data)).memory;
            && root in m.recipes && m.recipes[root] == PublishedRecipe(c.setup, data)
            && root in m.droplets && m.droplets[root] == PublishedDroplets(c.setup.codec, data, None)
            && (forall i :: 0 <= i < |Chunks(c.setup.chunker, data)| ==>
                  c.setup.hashing.sha3(Chunks(c.setup.chunker, data)[i]) in m.chunks)
  {
    var hs, parts, ds := c.setup.hashing, Chunks(c.setup.chunker, data), PublishedDroplets(c.setup.codec, data, None);
    var table := WithChunks(hs, c.disk.chunks, parts);
    CreatedMatches(hs, c.setup.chunker, data, Some(c.setup.codec.symbolSize));
    SomePublished(c.setup.codec, data, None);
    PublishedDistinct(c.setup.codec, data);
    hide Chunks, Encoded, PublishedDroplets, ValidRecipe, Matches, Slices, WithChunks, RootInput;
    PutAllFresh(ds);
    forall i | 0 <= i < |parts| ensures hs.sha3(parts[i]) in table {
      WithChunksHas(hs, c.disk.chunks, parts, i);
    }
  }

  lemma PublishedDistinct(codec: Codec, data: Bytes)
    ensures DistinctSeeds(PublishedDroplets(codec, data, None))
  {
    var ds := PublishedDroplets(codec, data, None);
    hide PublishedDroplets, Encoded;
    forall i | 0 <= i < |ds| ensures ds[i].seed == i {
      PublishedSeeds(codec, data, None, i);
    }
  }

  lemma {:induction false} WithChunksHas(hs: Hashing, store: map<string, Bytes>, parts: seq<Bytes>, i: nat)
    requires i < |parts|
    ensures hs.sha3(parts[i]) in WithChunks(hs, store, parts)
  {
    var n := |parts| - 1;
    if i < n {
      assert parts[..n][i] == parts[i];
      WithChunksHas(hs, store, parts[..n], i);
    }
  }

  /**
   What was committed survives a restart without the help of any chunk: under simulated loss the restarted process
   returns the payload exactly if the droplets that are left of those published have full rank.
   */
  lemma RestartedFetch(c: Content, data: Bytes, loss: real, draws: nat -> real)
    requires data != [] && RootOf(c.setup, data) !in c.disk.droplets && loss != 0.0
    ensures var root, left := RootOf(c.setup, data),
                Survivors(PublishedDroplets(c.setup.codec, data, None), draws, loss);
            Fetched(c.setup, Ensured(Restarted(Persisted(c, data)), root).memory, root, loss, draws, None)
            == if left == [] then Failure(NoSurvivors)
               else if FullRank(left, CeilDiv(|data|, c.setup.codec.symbolSize)) then Success(data)
               else Failure(DecodeFailed)
  {
    var r, ds := PublishedRecipe(c.setup, data), PublishedDroplets(c.setup.codec, data, None);
    var store, left := Ensured(Restarted(Persisted(c, data)), r.root).memory, Survivors(ds, draws, loss);
    SomePublished(c.setup.codec, data, None);
    CreatedMatches(c.setup.hashing, c.setup.chunker, data, Some(c.setup.codec.symbolSize));
    assert r.totalSize == |data| && r.symbolSize == Some(c.setup.codec.symbolSize) && RootOf(c.setup, data) == r.root;
    hide *;
    CommittedContent(c, data);
    SimulatedLoss(c.setup, store, r, loss, draws);
    if left != [] {
      PublishedEmitted(c.setup.codec, data, None);
      forall d | d in left ensures Emitted(c.setup.codec, data, d) {
        SurvivorsAre(ds, draws, loss, d);
      }
      RecipeAnyLoss(c.setup, store, r, data, loss, draws, left);
    }
  }

  // ---------------------------------------------------------------- content of known payloads

  /** The chunk, under its digest, is one of these payloads' chunks. */
  ghost predicate ChunkOf(setup: Setup, p: set<Bytes>, h: string, chunk: Bytes) {
    && h == setup.hashing.sha3(chunk)
    && exists data, i :: data in p && 0 <= i < |Chunks(setup.chunker, data)| && Chunks(setup.chunker, data)[i] == chunk
  }

  /** The store has the payload's recipe, and a chunk under each of its digests. */
  ghost predicate Stocks(setup: Setup, x: Store, data: Bytes) {
    && RootOf(setup, data) in x.recipes && x.recipes[RootOf(setup, data)] == PublishedRecipe(setup, data)
    && forall i :: 0 <= i < |Chunks(setup.chunker, data)| ==>
        setup.hashing.sha3(Chunks(setup.chunker, data)[i]) in x.chunks
  }

  ghost predicate RecipeOf(setup: Setup, x: Store, p: set<Bytes>, root: string) {
    exists data :: data in p && RootOf(setup, data) == root && Stocks(setup, x, data)
  }

  /** All chunks and recipes of the store are those of these payloads. */
  ghost predicate Genuine(setup: Setup, x: Store, p: set<Bytes>) {
    && (forall h :: h in x.chunks ==> ChunkOf(setup, p, h, x.chunks[h]))
    && (forall root :: root in x.recipes ==> RecipeOf(setup, x, p, root))
  }

  ghost predicate GenuineContent(c: Content, p: set<Bytes>) {
    Genuine(c.setup, c.memory, p) && Genuine(c.setup, c.disk, p)
  }

  ghost predicate ChunkClash(setup: Setup, a: Bytes, b: Bytes) {
    exists i, j :: 0 <= i < |Chunks(setup.chunker, a)| && 0 <= j < |Chunks(setup.chunker, b)|
                && Collide(setup.hashing.sha3, Chunks(setup.chunker, a)[i], Chunks(setup.chunker, b)[j])
  }

  /** Different payloads have different roots, and different chunks of them different digests. */
  ghost predicate Apart(setup: Setup, p: set<Bytes>) {
    && (forall a, b :: a in p && b in p && RootOf(setup, a) == RootOf(setup, b) ==> a == b)
    && (forall a, b :: a in p && b in p ==> !ChunkClash(setup, a, b))
  }

  lemma DigestsDiffer(hs: Hashing, a: seq<Bytes>, b: seq<Bytes>) returns (i: nat)
    requires DigestList(hs, a) == DigestList(hs, b) && a != b
    ensures i < |a| == |b| && Collide(hs.sha3, a[i], b[i])
  {
    assert |a| == |DigestList(hs, a)| == |DigestList(hs, b)| == |b|;
    i :| 0 <= i < |a| && a[i] != b[i];
    assert DigestList(hs, a)[i] == DigestList(hs, b)[i];
  }

  /** The bytes whose digest is a payload's root. */
  function RootBytes(setup: Setup, data: Bytes): Bytes {
    RootInput(setup.hashing, DigestList(setup.hashing, Chunks(setup.chunker, data)))
  }

  /** All that publishing a payload hashes for its recipe: its chunks, and the text of their digests. */
  function HashedIn(setup: Setup, data: Bytes): seq<Bytes> {
    Chunks(setup.chunker, data) + [RootBytes(setup, data)]
  }

  /** Two different strings with one digest, hashed in publishing these payloads. */
  ghost predicate CollisionIn(setup: Setup, p: set<Bytes>) {
    exists a, b :: a in p && b in p && CollisionOf(setup, a, b)
  }

  ghost predicate CollisionOf(setup: Setup, a: Bytes, b: Bytes) {
    exists i, j :: 0 <= i < |HashedIn(setup, a)| && 0 <= j < |HashedIn(setup, b)|
                && Collide(setup.hashing.sha3, HashedIn(setup, a)[i], HashedIn(setup, b)[j])
  }

  lemma RootsCollide(setup: Setup, a: Bytes, b: Bytes)
    requires RootOf(setup, a) == RootOf(setup, b) && a != b
    ensures CollisionOf(setup, a, b)
  {
    var hs := setup.hashing;
    var ps, qs := Chunks(setup.chunker, a), Chunks(setup.chunker, b);
    ChunksConcat(setup.chunker, a);
    ChunksConcat(setup.chunker, b);
    hide Chunks, Concat;
    var x, y := RootBytes(setup, a), RootBytes(setup, b);
    var i, j := |ps|, |qs|;
    if x == y {
      RootInputInjective(hs, DigestList(hs, ps), DigestList(hs, qs));
      i := DigestsDiffer(hs, ps, qs);
      j := i;
    }
    assert Collide(hs.sha3, HashedIn(setup, a)[i], HashedIn(setup, b)[j]);
  }

  lemma ChunksCollide(setup: Setup, a: Bytes, b: Bytes)
    requires ChunkClash(setup, a, b)
    ensures CollisionOf(setup, a, b)
  {
    hide Chunks;
    var ps, qs := Chunks(setup.chunker, a), Chunks(setup.chunker, b);
    var i, j :| 0 <= i < |ps| && 0 <= j < |qs| && Collide(setup.hashing.sha3, ps[i], qs[j]);
    assert HashedIn(setup, a)[i] == ps[i] && HashedIn(setup, b)[j] == qs[j];
  }

  /** Payloads are apart unless two strings hashed in publishing them collide. */
  lemma ApartOrCollision(setup: Setup, p: set<Bytes>)
    ensures Apart(setup, p) || CollisionIn(setup, p)
  {
    hide RootOf, ChunkClash, CollisionOf;
    if a, b :| a in p && b in p && RootOf(setup, a) == RootOf(setup, b) && a != b {
      RootsCollide(setup, a, b);
    } else if a, b :| a in p && b in p && ChunkClash(setup, a, b) {
      ChunksCollide(setup, a, b);
    }
  }

  // ---------------------------------------------------------------- what writing and loading keep

  lemma {:induction false} WithChunksMembers(setup: Setup, store: map<string, Bytes>, parts: seq<Bytes>)
    ensures var after := WithChunks(setup.hashing, store, parts);
            && (forall h :: h in store ==> h in after)
            && (forall i :: 0 <= i < |parts| ==> setup.hashing.sha3(parts[i]) in after)
            && (forall h :: h in after ==>
                  (h in store && after[h] == store[h]) || (after[h] in parts && h == setup.hashing.sha3(after[h])))
  {
    if parts != [] {
      var n := |parts| - 1;
      WithChunksMembers(setup, store, parts[..n]);
      assert parts == parts[..n] + [parts[n]];
    }
  }

  lemma ChunkOfMore(setup: Setup, p: set<Bytes>, q: set<Bytes>, h: string, chunk: Bytes)
    requires ChunkOf(setup, p, h, chunk) && p <= q
    ensures ChunkOf(setup, q, h, chunk)
  {
  }

  lemma ChunkOfPart(setup: Setup, p: set<Bytes>, data: Bytes, chunk: Bytes)
    requires data in p && chunk in Chunks(setup.chunker, data)
    ensures ChunkOf(setup, p, setup.hashing.sha3(chunk), chunk)
  {
  }

  lemma StocksMore(setup: Setup, x: Store, y: Store, data: Bytes)
    requires Stocks(setup, x, data) && x.chunks.Keys <= y.chunks.Keys
    requires RootOf(setup, data) in y.recipes && y.recipes[RootOf(setup, data)] == x.recipes[RootOf(setup, data)]
    ensures Stocks(setup, y, data)
  {
    hide RootOf, Chunks;
    assert forall h :: h in x.chunks.Keys ==> h in y.chunks.Keys;
  }

  lemma PublishStocks(setup: Setup, x: Store, data: Bytes)
    ensures var y := Published(setup, x, data, None);
            && Stocks(setup, y, data) && x.chunks.Keys <= y.chunks.Keys
            && y.recipes == x.recipes[RootOf(setup, data) := PublishedRecipe(setup, data)]
  {
    hide Chunks, PublishedDroplets, WithChunks, CreatedRecipe;
    WithChunksMembers(setup, x.chunks, Chunks(setup.chunker, data));
  }

  lemma PublishChunks(setup: Setup, x: Store, p: set<Bytes>, data: Bytes, h: string)
    requires Genuine(setup, x, p) && h in Published(setup, x, data, None).chunks
    ensures ChunkOf(setup, p + {data}, h, Published(setup, x, data, None).chunks[h])
  {
    var y := Published(setup, x, data, None);
    WithChunksMembers(setup, x.chunks, Chunks(setup.chunker, data));
    hide Chunks, ChunkOf, RecipeOf, PublishedDroplets, WithChunks;
    if h in x.chunks && y.chunks[h] == x.chunks[h] {
      ChunkOfMore(setup, p, p + {data}, h, x.chunks[h]);
    } else {
      ChunkOfPart(setup, p + {data}, data, y.chunks[h]);
    }
  }

  /** Droplets do not enter. */
  lemma GenuineOf(setup: Setup, x: Store, y: Store, p: set<Bytes>)
    requires Genuine(setup, x, p) && y.chunks == x.chunks && y.recipes == x.recipes
    ensures Genuine(setup, y, p)
  {
    hide ChunkOf, RootOf, Chunks;
    forall root | root in y.recipes ensures RecipeOf(setup, y, p, root) {
      assert RecipeOf(setup, x, p, root);
      var data :| data in p && RootOf(setup, data) == root && Stocks(setup, x, data);
      assert Stocks(setup, y, data);
    }
  }

  lemma PublishGenuine(setup: Setup, x: Store, p: set<Bytes>, data: Bytes)
    requires Genuine(setup, x, p)
    ensures Genuine(setup, Published(setup, x, data, None), p + {data})
  {
    var y, q := Published(setup, x, data, None), p + {data};
    PublishStocks(setup, x, data);
    hide Published, ChunkOf, RootOf, Stocks, PublishedRecipe;
    forall h | h in y.chunks ensures ChunkOf(setup, q, h, y.chunks[h]) {
      PublishChunks(setup, x, p, data, h);
    }
    forall root | root in y.recipes ensures RecipeOf(setup, y, q, root) {
      if root == RootOf(setup, data) {
        assert data in q;
      } else {
        assert RecipeOf(setup, x, p, root);
        var d :| d in p && RootOf(setup, d) == root && Stocks(setup, x, d);
        StocksMore(setup, x, y, d);
        assert d in q;
      }
    }
  }

  lemma LoadedChunk(c: Content, root: string, p: set<Bytes>, h: string)
    requires GenuineContent(c, p) && h in Loaded(c, root).memory.chunks
    ensures ChunkOf(c.setup, p, h, Loaded(c, root).memory.chunks[h])
  {
    hide ChunkOf, RecipeOf, ValidRecipe;
  }

  lemma LoadedKeys(c: Content, root: string, d: Bytes)
    requires Stocks(c.setup, c.disk, d) && root == RootOf(c.setup, d) && Loaded(c, root) != c
    ensures Stocks(c.setup, Loaded(c, root).memory, d)
  {
    hide ValidRecipe, Chunks;
    var r := c.disk.recipes[root];
    forall i | 0 <= i < |Chunks(c.setup.chunker, d)|
      ensures c.setup.hashing.sha3(Chunks(c.setup.chunker, d)[i]) in Loaded(c, root).memory.chunks
    {
      assert r.hashes[i] == c.setup.hashing.sha3(Chunks(c.setup.chunker, d)[i]);
    }
  }

  lemma LoadedShape(c: Content, root: string)
    ensures var l := Loaded(c, root);
            && l.setup == c.setup && l.disk == c.disk && c.memory.chunks.Keys <= l.memory.chunks.Keys
            && (l != c ==> root in c.disk.recipes && l.memory.recipes == c.memory.recipes[root := c.disk.recipes[root]])
  {
    hide ValidRecipe;
  }

  lemma LoadedGenuine(c: Content, root: string, p: set<Bytes>)
    requires GenuineContent(c, p)
    ensures GenuineContent(Loaded(c, root), p)
  {
    var l := Loaded(c, root);
    LoadedShape(c, root);
    hide Loaded, ChunkOf, Stocks, RootOf;
    if l != c {
      forall h | h in l.memory.chunks ensures ChunkOf(c.setup, p, h, l.memory.chunks[h]) {
        LoadedChunk(c, root, p, h);
      }
      forall other | other in l.memory.recipes ensures RecipeOf(c.setup, l.memory, p, other) {
        if other == root {
          assert RecipeOf(c.setup, c.disk, p, root);
          var d :| d in p && RootOf(c.setup, d) == root && Stocks(c.setup, c.disk, d);
          LoadedKeys(c, root, d);
        } else {
          assert RecipeOf(c.setup, c.memory, p, other);
          var d :| d in p && RootOf(c.setup, d) == other && Stocks(c.setup, c.memory, d);
          StocksRecipe(c.setup, c.memory, d);
          StocksMore(c.setup, c.memory, l.memory, d);
        }
      }
    }
  }

  lemma StocksRecipe(setup: Setup, x: Store, data: Bytes)
    requires Stocks(setup, x, data)
    ensures RootOf(setup, data) in x.recipes && x.recipes[RootOf(setup, data)] == PublishedRecipe(setup, data)
  {
  }

  lemma EnsuredGenuine(c: Content, root: string, p: set<Bytes>)
    requires GenuineContent(c, p)
    ensures GenuineContent(Ensured(c, root), p)
  {
    hide GenuineContent, Loaded;
    LoadedGenuine(c, root, p);
  }

  lemma EnsuredShape(c: Content, root: string)
    ensures Ensured(c, root).setup == c.setup && Ensured(c, root).disk == c.disk
    ensures c.memory.recipes.Keys <= Ensured(c, root).memory.recipes.Keys
  {
    hide ValidRecipe;
  }

  /** Genuine content of a root in the database is found. */
  lemma GenuineKnown(c: Content, root: string, p: set<Bytes>)
    requires GenuineContent(c, p) && root in c.disk.recipes
    ensures Known(c, root)
  {
    assert RecipeOf(c.setup, c.disk, p, root);
    var d :| d in p && RootOf(c.setup, d) == root && Stocks(c.setup, c.disk, d);
    CreatedMatches(c.setup.hashing, c.setup.chunker, d, Some(c.setup.codec.symbolSize));
    hide Genuine, Stocks, ValidRecipe, CreatedRecipe;
    StocksRecipe(c.setup, c.disk, d);
  }

  // ---------------------------------------------------------------- reading returns the payload

  lemma GenuineChunk(setup: Setup, x: Store, p: set<Bytes>, data: Bytes, i: nat)
    requires Genuine(setup, x, p) && Apart(setup, p) && data in p && i < |Chunks(setup.chunker, data)|
    requires setup.hashing.sha3(Chunks(setup.chunker, data)[i]) in x.chunks
    ensures x.chunks[setup.hashing.sha3(Chunks(setup.chunker, data)[i])] == Chunks(setup.chunker, data)[i]
  {
    var part := Chunks(setup.chunker, data)[i];
    var h := setup.hashing.sha3(part);
    assert ChunkOf(setup, p, h, x.chunks[h]);
    var other, j :| other in p && 0 <= j < |Chunks(setup.chunker, other)|
                 && Chunks(setup.chunker, other)[j] == x.chunks[h];
    assert !ChunkClash(setup, other, data);
    hide Chunks, Genuine, Apart;
  }

  lemma GenuineStocks(setup: Setup, x: Store, p: set<Bytes>, data: Bytes)
    requires Genuine(setup, x, p) && Apart(setup, p) && data in p && RootOf(setup, data) in x.recipes
    ensures Stocks(setup, x, data)
  {
    assert RecipeOf(setup, x, p, RootOf(setup, data));
    hide Stocks, RootOf;
    var d :| d in p && RootOf(setup, d) == RootOf(setup, data) && Stocks(setup, x, d);
    assert d == data;
  }

  lemma AllFits(hs: Hashing, chunks: map<string, Bytes>, c: Chunker, data: Bytes, size: Option<int>)
    requires forall i :: 0 <= i < |Chunks(c, data)| ==> hs.sha3(Chunks(c, data)[i]) in chunks
    requires forall i :: 0 <= i < |Chunks(c, data)| ==> chunks[hs.sha3(Chunks(c, data)[i])] == Chunks(c, data)[i]
    ensures AllFit(hs, chunks, CreatedRecipe(hs, c, data, size))
    ensures Concat(Looked(hs, chunks, CreatedRecipe(hs, c, data, size))) == data
  {
    var parts, r := Chunks(c, data), CreatedRecipe(hs, c, data, size);
    ChunksConcat(c, data);
    hide Chunks, Concat;
    forall i | 0 <= i < |parts| ensures ChunkFits(hs, chunks, r.hashes[i], r.sizes[i]) {
    }
    assert Looked(hs, chunks, r) == parts;
  }

  /** From the content of payloads that are apart, each payload is read back byte for byte. */
  lemma GenuineFetch(setup: Setup, x: Store, p: set<Bytes>, data: Bytes)
    requires Genuine(setup, x, p) && Apart(setup, p) && data in p && RootOf(setup, data) in x.recipes
    ensures Fetched(setup, x, RootOf(setup, data), 0.0, NoLoss, None) == Success(data)
  {
    var hs, parts := setup.hashing, Chunks(setup.chunker, data);
    GenuineStocks(setup, x, p, data);
    StocksRecipe(setup, x, data);
    assert forall i :: 0 <= i < |parts| ==> hs.sha3(parts[i]) in x.chunks;
    hide Chunks, Genuine, Apart, Stocks;
    forall i | 0 <= i < |parts| ensures x.chunks[hs.sha3(parts[i])] == parts[i] {
      GenuineChunk(setup, x, p, data, i);
    }
    CreatedMatches(hs, setup.chunker, data, Some(setup.codec.symbolSize));
    AllFits(hs, x.chunks, setup.chunker, data, Some(setup.codec.symbolSize));
    hide ValidRecipe, AllFit, Looked, CreatedRecipe, FromFountain;
  }

  lemma GenuineRead(c: Content, p: set<Bytes>, data: Bytes)
    requires GenuineContent(c, p) && Apart(c.setup, p) && data in p && RootOf(c.setup, data) in c.disk.recipes
    ensures Read(c, RootOf(c.setup, data)) == Success(data)
  {
    var root := RootOf(c.setup, data);
    GenuineKnown(c, root, p);
    EnsuredGenuine(c, root, p);
    EnsuredShape(c, root);
    hide Ensured, Apart, RootOf, Genuine, Fetched;
    GenuineFetch(c.setup, Ensured(c, root).memory, p, data);
  }
}
