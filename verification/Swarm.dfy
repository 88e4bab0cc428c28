/** The swarm: droplet stores of peers with different symbol sizes, their safety, and routes between them. */
module Swarm {
  import opened Wrappers
  import opened Bytes
  import opened Fountain
  import opened FountainDecoding
  import opened FountainEncoding
  import opened DropletStore

  type Id = string

  datatype Peer = Peer(
    alive: bool, symbolSize: SymbolSize, lossRate: real, neighbours: set<Id>,
    recipes: map<string, nat>, droplets: map<string, seq<Droplet>>, reconstructed: map<string, Bytes>)

  type Peers = map<Id, Peer>

  function StoredFor(peer: Peer, root: string): seq<Droplet> {
    if root in peer.droplets then peer.droplets[root] else []
  }

  /** The droplet is one symbol of some legal size, and the payload accounts for it. */
  ghost predicate Genuine(data: Bytes, d: Droplet) {
    |d.payload| >= 16 && Explains(d, Source(data, |d.payload|))
  }

  ghost predicate AllGenuine(data: Bytes, droplets: seq<Droplet>) {
    forall i :: 0 <= i < |droplets| ==> Genuine(data, droplets[i])
  }

  /** What a peer holds about the roots agrees with their payloads. */
  ghost predicate PeerSafe(payloads: map<string, Bytes>, peer: Peer) {
    && (forall root :: root in peer.recipes ==> root in payloads && peer.recipes[root] == |payloads[root]|)
    && (forall root :: root in peer.droplets ==>
          root in payloads && AllGenuine(payloads[root], peer.droplets[root]) && DistinctSeeds(peer.droplets[root]))
    && (forall root :: root in peer.reconstructed ==> root in payloads && peer.reconstructed[root] == payloads[root])
  }

  ghost predicate MeshSafe(payloads: map<string, Bytes>, peers: Peers) {
    && (forall p :: p in peers ==> PeerSafe(payloads, peers[p]))
    && (forall p, q :: p in peers && q in peers[p].neighbours ==> q in peers)
  }

  // ---------------------------------------------------------------- genuine droplets

  /** Every encoder of a payload emits genuine droplets, whatever its symbol size and schedule. */
  lemma EncodedGenuine(codec: Codec, data: Bytes, redundancy: real, root: Option<Bytes>, nonce: Bytes)
    requires Encoded(codec, data, redundancy, root, nonce).Some?
    ensures AllGenuine(data, Encoded(codec, data, redundancy, root, nonce).value)
  {
    var droplets := Encoded(codec, data, redundancy, root, nonce).value;
    hide Encoded, Explains, Source;
    forall i | 0 <= i < |droplets| ensures Genuine(data, droplets[i]) {
      EncodedExplained(codec, data, redundancy, root, nonce, droplets[i]);
    }
  }

  lemma GenuineAt(data: Bytes, droplets: seq<Droplet>, i: nat)
    requires AllGenuine(data, droplets) && i < |droplets|
    ensures Genuine(data, droplets[i])
  {
    hide Genuine;
  }

  lemma PutGenuine(data: Bytes, store: seq<Droplet>, d: Droplet)
    requires AllGenuine(data, store) && Genuine(data, d)
    ensures AllGenuine(data, Put(store, d))
  {
    var after := Put(store, d);
    hide Genuine, Put;
    forall i | 0 <= i < |after| ensures Genuine(data, after[i]) {
      assert after[i] in after;
    }
  }

  /** A plain encoding numbers its droplets from zero. */
  lemma PlainSeeds(codec: Codec, data: Bytes, redundancy: real)
    ensures DistinctSeeds(Encoded(codec, data, redundancy, None, []).value)
  {
    var ds := Encoded(codec, data, redundancy, None, []).value;
    assert forall i :: 0 <= i < |ds| ==> ds[i].seed == i;
  }

  /** The droplets of a complete encoding suffice, whatever else is gathered. */
  lemma EncodingSuffices(codec: Codec, data: Bytes, redundancy: real, gathered: seq<Droplet>)
    requires forall d :: d in Encoded(codec, data, redundancy, None, []).value ==> d in gathered
    ensures var k := CeilDiv(|data|, codec.symbolSize); FullRank(UsableDroplets(codec, gathered, k, None, true), k)
  {
    var k, ds := CeilDiv(|data|, codec.symbolSize), Encoded(codec, data, redundancy, None, []).value;
    EncodedFullRank(codec, data, redundancy, None, []);
    UsableMembers(codec, gathered, k, None, true);
    hide Encoded, FullRank;
    forall d | d in ds ensures d in UsableDroplets(codec, gathered, k, None, true) {
      EncodedExplained(codec, data, redundancy, None, [], d);
    }
    FullRankMembers(ds, UsableDroplets(codec, gathered, k, None, true), k);
  }

  /** Droplets with distinct seeds are all there once they have been stored one after another. */
  lemma {:induction false} PutAllHolds(store: seq<Droplet>, ds: seq<Droplet>)
    requires DistinctSeeds(ds)
    ensures forall d :: d in ds ==> d in PutAll(store, ds)
  {
    if ds != [] {
      var n := |ds| - 1;
      PutAllHolds(store, ds[..n]);
      hide Put;
      forall d | d in ds ensures d in PutAll(store, ds) {
        if d != ds[n] {
          var i :| 0 <= i < n && ds[i] == d;
          assert d.seed != ds[n].seed;
        }
      }
    }
  }

  lemma {:induction false} PutAllDistinct(store: seq<Droplet>, ds: seq<Droplet>)
    requires DistinctSeeds(store)
    ensures DistinctSeeds(PutAll(store, ds))
  {
    if ds != [] {
      PutAllDistinct(store, ds[..|ds| - 1]);
      PutDistinct(PutAll(store, ds[..|ds| - 1]), ds[|ds| - 1]);
    }
  }

  /** Decoding genuine droplets of any symbol sizes returns the payload or raises a rank error. */
  lemma DecodeGenuine(codec: Codec, data: Bytes, droplets: seq<Droplet>)
    requires AllGenuine(data, droplets)
    ensures var k := CeilDiv(|data|, codec.symbolSize);
            var r := Decoded(codec, droplets, k, |data|, None, true);
            && (r.Success? ==> r == Success(data))
            && (r.Success? <==> FullRank(UsableDroplets(codec, droplets, k, None, true), k))
  {
    var k, x := CeilDiv(|data|, codec.symbolSize), Source(data, codec.symbolSize);
    var usable := UsableDroplets(codec, droplets, k, None, true);
    UsableMembers(codec, droplets, k, None, true);
    forall d | d in usable ensures Explains(d, x) {
      var i :| 0 <= i < |droplets| && droplets[i] == d;
      assert Genuine(data, droplets[i]);
    }
    hide UsableDroplets, FullRank, Decoded, Source, Join, Take, Explains, Genuine;
    DecodeExact(codec, droplets, k, |data|, None, true, x);
    JoinSource(data, codec.symbolSize);
  }

  // ---------------------------------------------------------------- seeds

  predicate HasSeed(ds: seq<Droplet>, seed: int) {
    exists i :: 0 <= i < |ds| && ds[i].seed == seed
  }

  /** Every seed of `a` occurs in `b`. */
  predicate SeedsWithin(a: seq<Droplet>, b: seq<Droplet>) {
    forall i :: 0 <= i < |a| ==> HasSeed(b, a[i].seed)
  }

  lemma SeedsTrans(a: seq<Droplet>, b: seq<Droplet>, c: seq<Droplet>)
    requires SeedsWithin(a, b) && SeedsWithin(b, c)
    ensures SeedsWithin(a, c)
  {
    forall i | 0 <= i < |a| ensures HasSeed(c, a[i].seed) {
      var j :| 0 <= j < |b| && b[j].seed == a[i].seed;
    }
  }

  lemma SeedsSelf(a: seq<Droplet>)
    ensures SeedsWithin(a, a)
  {
  }

  /** Storing a droplet adds its seed and loses none. */
  lemma PutSeeds(store: seq<Droplet>, d: Droplet)
    ensures SeedsWithin(store, Put(store, d)) && HasSeed(Put(store, d), d.seed)
  {
    var after := Put(store, d);
    assert forall e :: e in store ==> (e.seed == d.seed && d in after) || e in after;
    hide Put;
    forall i | 0 <= i < |store| ensures HasSeed(after, store[i].seed) {
      SeedOfMember(after, if store[i].seed == d.seed then d else store[i]);
    }
    SeedOfMember(after, d);
  }

  lemma SeedOfMember(ds: seq<Droplet>, d: Droplet)
    requires d in ds
    ensures HasSeed(ds, d.seed)
  {
  }

  lemma SeedsSnoc(ds: seq<Droplet>, d: Droplet, store: seq<Droplet>)
    requires SeedsWithin(ds, store) && HasSeed(store, d.seed)
    ensures SeedsWithin(ds + [d], store)
  {
    hide HasSeed;
  }

  lemma PutAllUnfold(store: seq<Droplet>, ds: seq<Droplet>)
    requires ds != []
    ensures PutAll(store, ds) == Put(PutAll(store, ds[..|ds| - 1]), ds[|ds| - 1])
    ensures ds[..|ds| - 1] + [ds[|ds| - 1]] == ds
  {
    hide Put;
  }

  lemma PutAllNothing(store: seq<Droplet>)
    ensures PutAll(store, []) == store && SeedsWithin([], store)
  {
  }

  lemma {:induction false} PutAllSeeds(store: seq<Droplet>, ds: seq<Droplet>)
    ensures SeedsWithin(store, PutAll(store, ds)) && SeedsWithin(ds, PutAll(store, ds))
  {
    hide *;
    if ds == [] {
      SeedsSelf(store);
      PutAllNothing(store);
    } else {
      var n := |ds| - 1;
      var before := PutAll(store, ds[..n]);
      PutAllUnfold(store, ds);
      PutAllSeeds(store, ds[..n]);
      PutSeeds(before, ds[n]);
      SeedsTrans(store, before, Put(before, ds[n]));
      SeedsTrans(ds[..n], before, Put(before, ds[n]));
      SeedsSnoc(ds[..n], ds[n], Put(before, ds[n]));
    }
  }

  /** The peer stores nothing for the root and has nothing to synthesize droplets from. */
  predicate Silent(peer: Peer, root: string) {
    && StoredFor(peer, root) == []
    && (root in peer.reconstructed && root in peer.recipes ==> peer.reconstructed[root] == [])
  }

  // ---------------------------------------------------------------- reachability

  /** Live peers a request can be routed to: closed under live neighbours. */
  predicate Closed(peers: Peers, s: set<Id>) {
    forall p, q :: p in s && p in peers && q in peers[p].neighbours && q in peers && peers[q].alive ==> q in s
  }

  /** A chain of links between live peers. */
  predicate Route(peers: Peers, path: seq<Id>) {
    && path != []
    && (forall i :: 0 <= i < |path| ==> path[i] in peers && peers[path[i]].alive)
    && forall i :: 0 <= i < |path| - 1 ==> path[i + 1] in peers[path[i]].neighbours
  }

  lemma {:induction false} RouteStaysInside(peers: Peers, s: set<Id>, path: seq<Id>)
    requires Closed(peers, s) && Route(peers, path) && path[0] in s
    ensures path[|path| - 1] in s
  {
    if |path| > 1 {
      var before := path[..|path| - 1];
      RouteStaysInside(peers, s, before);
      assert path[|path| - 1] in peers[before[|before| - 1]].neighbours;
    }
  }
}
