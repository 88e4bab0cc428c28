/** The peers' methods: storing, synthesizing, answering and routing requests, and fetching. */
module SwarmMesh {
  import opened Wrappers
  import opened Bytes
  import opened Fountain
  import opened FountainDecoding
  import opened DropletStore
  import opened Swarm
  import FountainCodec
  import FountainEncoding
  import Gossip
  import GossipRound
  import Sets

  // ---------------------------------------------------------------- synthesis

  /** The redundancy fresh droplets are synthesized with. */
  function SynthesisRedundancy(k: nat): real {
    var needed := if k + 10 > 3 * k / 2 then k + 10 else 3 * k / 2;
    var r := (needed - k) as real / (if k > 1 then k else 1) as real;
    if r > 0.5 then r else 0.5
  }

  function Synthetic(codec: Codec, payload: Bytes): seq<Droplet> {
    Encoded(codec, payload, SynthesisRedundancy(CeilDiv(|payload|, codec.symbolSize)), None, []).value
  }

  /** A peer that has the payload and its recipe adds fresh droplets to its store. */
  function Synthesized(base: Codec, peer: Peer, root: string): Peer {
    if root in peer.reconstructed && root in peer.recipes then
      var added := Synthetic(base.(symbolSize := peer.symbolSize), peer.reconstructed[root]);
      peer.(droplets := peer.droplets[root := PutAll(StoredFor(peer, root), added)])
    else peer
  }

  lemma {:induction false} PutAllGenuine(data: Bytes, store: seq<Droplet>, ds: seq<Droplet>)
    requires AllGenuine(data, store) && AllGenuine(data, ds)
    ensures AllGenuine(data, PutAll(store, ds))
  {
    hide Genuine, Put;
    if ds != [] {
      PutAllGenuine(data, store, ds[..|ds| - 1]);
      PutGenuine(data, PutAll(store, ds[..|ds| - 1]), ds[|ds| - 1]);
    }
  }

  lemma PeerSafeStore(payloads: map<string, Bytes>, peer: Peer, root: string, ds: seq<Droplet>)
    requires PeerSafe(payloads, peer) && root in payloads && AllGenuine(payloads[root], ds) && DistinctSeeds(ds)
    ensures PeerSafe(payloads, peer.(droplets := peer.droplets[root := ds]))
  {
    hide AllGenuine, DistinctSeeds;
  }

  lemma StoredGenuine(payloads: map<string, Bytes>, peer: Peer, root: string)
    requires PeerSafe(payloads, peer)
    ensures root in payloads ==> AllGenuine(payloads[root], StoredFor(peer, root))
    ensures StoredFor(peer, root) != [] ==> root in payloads
    ensures DistinctSeeds(StoredFor(peer, root))
  {
    hide Genuine;
  }

  lemma SomethingSynthesized(codec: Codec, payload: Bytes)
    ensures payload != [] ==> Synthetic(codec, payload) != []
  {
    CeilDivBounds(|payload|, codec.symbolSize);
  }

  lemma SynthesizedSafe(base: Codec, payloads: map<string, Bytes>, peer: Peer, root: string)
    requires PeerSafe(payloads, peer)
    ensures PeerSafe(payloads, Synthesized(base, peer, root))
    ensures SeedsWithin(StoredFor(peer, root), StoredFor(Synthesized(base, peer, root), root))
    ensures StoredFor(Synthesized(base, peer, root), root) == [] ==> Silent(Synthesized(base, peer, root), root)
  {
    SeedsSelf(StoredFor(peer, root));
    if root in peer.reconstructed && root in peer.recipes {
      assert root in payloads && peer.reconstructed[root] == payloads[root];
      hide PeerSafe, AllGenuine, DistinctSeeds;
      var codec, data := base.(symbolSize := peer.symbolSize), payloads[root];
      StoredGenuine(payloads, peer, root);
      EncodedGenuine(codec, data, SynthesisRedundancy(CeilDiv(|data|, codec.symbolSize)), None, []);
      PutAllGenuine(data, StoredFor(peer, root), Synthetic(codec, data));
      PutAllSeeds(StoredFor(peer, root), Synthetic(codec, data));
      PutAllDistinct(StoredFor(peer, root), Synthetic(codec, data));
      SomethingSynthesized(codec, data);
      hide Synthetic, HasSeed;
      PeerSafeStore(payloads, peer, root, PutAll(StoredFor(peer, root), Synthetic(codec, data)));
    }
  }

  lemma Halved(k: nat, a: real)
    requires k > 0
    ensures k as real * (1.0 + a / k as real) == k as real + a
    ensures k as real * 1.5 == k as real + k as real / 2.0
  {
  }

  /** How large a fraction of the blocks ten are. */
  lemma TenOf(k: nat)
    requires k > 0
    ensures 10.0 / k as real > 0.5 <==> k < 20
    ensures (3 * k / 2 - k) as real / k as real <= 0.5
  {
    assert 10.0 / k as real * k as real == 10.0;
    assert (3 * k / 2 - k) as real <= 0.5 * k as real;
    DivideBelow((3 * k / 2 - k) as real, k as real, 0.5);
    if k < 20 {
      assert 0.5 * k as real < 10.0;
    }
  }

  lemma DivideBelow(a: real, b: real, c: real)
    requires b > 0.0 && a <= c * b
    ensures a / b <= c
  {
    assert (a / b) * b == a;
  }

  /** A reconstructed payload is served with ten droplets more than blocks, or half as many again from 20 blocks on. */
  lemma SynthesisCount(codec: Codec, payload: Bytes)
    requires payload != []
    ensures var k := CeilDiv(|payload|, codec.symbolSize);
            |Synthetic(codec, payload)| == if k < 20 then k + 10 else k + (k + 1) / 2
  {
    var k := CeilDiv(|payload|, codec.symbolSize);
    CeilDivBounds(|payload|, codec.symbolSize);
    hide *;
    SynthesisBounds(codec, payload);
    LeastAbove(k, |Synthetic(codec, payload)|);
  }

  lemma SynthesisBounds(codec: Codec, payload: Bytes)
    requires payload != []
    ensures var k := CeilDiv(|payload|, codec.symbolSize);
            FountainEncoding.Reaches(|Synthetic(codec, payload)|, k, SynthesisRedundancy(k))
  {
    var k := CeilDiv(|payload|, codec.symbolSize);
    assert Encoded(codec, payload, SynthesisRedundancy(k), None, []).Some?;
    hide Encoded, CeilDiv, SynthesisRedundancy, FountainEncoding.Reaches;
    FountainEncoding.EncodedCount(codec, payload, SynthesisRedundancy(k), None, []);
  }

  lemma LeastAbove(k: nat, n: nat)
    requires k > 0 && FountainEncoding.Reaches(n, k, SynthesisRedundancy(k))
    ensures n == if k < 20 then k + 10 else k + (k + 1) / 2
  {
    TenOf(k);
    Halved(k, 10.0);
    assert SynthesisRedundancy(k) == if k < 20 then 10.0 / k as real else 0.5;
  }

  // ---------------------------------------------------------------- what a request may change

  /** Only the droplets stored for this root change, and they lose no seed. */
  ghost predicate OnlyStores(before: Peers, after: Peers, root: string) {
    && after.Keys == before.Keys
    && forall q :: q in before ==>
         after[q] == before[q].(droplets := after[q].droplets)
             && after[q].droplets - {root} == before[q].droplets - {root}
             && SeedsWithin(StoredFor(before[q], root), StoredFor(after[q], root))
  }

  lemma OnlyStoresTrans(a: Peers, b: Peers, c: Peers, root: string)
    requires OnlyStores(a, b, root) && OnlyStores(b, c, root)
    ensures OnlyStores(a, c, root)
  {
  }

  predicate Lossless(peers: Peers) {
    forall p :: p in peers ==> peers[p].lossRate <= 0.0
  }

  /** The peers in `s` have nothing to answer with, and their live neighbours are all in `vis`. */
  ghost predicate Explored(peers: Peers, root: string, s: set<Id>, vis: set<Id>) {
    forall v :: v in s ==> v in peers && Silent(peers[v], root) && LiveNeighbours(peers, v) <= vis
  }

  function LiveNeighbours(peers: Peers, v: Id): set<Id>
    requires v in peers
  {
    set n | n in peers[v].neighbours && n in peers && peers[n].alive
  }

  lemma ExploredStays(before: Peers, after: Peers, root: string, s: set<Id>, vis: set<Id>, more: set<Id>)
    requires Explored(before, root, s, vis) && OnlyStores(before, after, root) && vis <= more
    requires forall v :: v in s ==> v in before && after[v] == before[v]
    ensures Explored(after, root, s, more)
  {
    forall v | v in s ensures LiveNeighbours(after, v) == LiveNeighbours(before, v) {
    }
  }

  lemma LosslessStays(before: Peers, after: Peers, root: string)
    requires OnlyStores(before, after, root)
    ensures Lossless(before) <==> Lossless(after)
  {
    forall p | p in before ensures after[p].lossRate == before[p].lossRate {
    }
  }

  lemma MeshSafeStore(payloads: map<string, Bytes>, peers: Peers, p: Id, peer: Peer)
    requires MeshSafe(payloads, peers) && p in peers && PeerSafe(payloads, peer)
    requires peer.neighbours == peers[p].neighbours
    ensures MeshSafe(payloads, peers[p := peer])
  {
    hide PeerSafe;
  }

  /** Droplets that agree with the payload of their root. */
  ghost predicate GenuineFor(payloads: map<string, Bytes>, root: string, ds: seq<Droplet>) {
    ds != [] ==> root in payloads && AllGenuine(payloads[root], ds)
  }

  lemma NothingIsGenuine(payloads: map<string, Bytes>, root: string)
    ensures GenuineFor(payloads, root, [])
  {
  }

  lemma SubsetGenuine(payloads: map<string, Bytes>, root: string, whole: seq<Droplet>, part: seq<Droplet>)
    requires GenuineFor(payloads, root, whole) && forall d :: d in part ==> d in whole
    ensures GenuineFor(payloads, root, part)
  {
    hide Genuine;
    if part != [] {
      assert part[0] in whole;
      forall i | 0 <= i < |part| ensures Genuine(payloads[root], part[i]) {
        assert part[i] in whole;
      }
    }
  }

  lemma StoreIsGenuine(payloads: map<string, Bytes>, peers: Peers, p: Id, root: string)
    requires MeshSafe(payloads, peers) && p in peers
    ensures GenuineFor(payloads, root, StoredFor(peers[p], root))
  {
    hide PeerSafe, AllGenuine;
    StoredGenuine(payloads, peers[p], root);
  }

  lemma StoreIsDistinct(payloads: map<string, Bytes>, peers: Peers, p: Id, root: string)
    requires MeshSafe(payloads, peers) && p in peers
    ensures DistinctSeeds(StoredFor(peers[p], root))
  {
    hide PeerSafe, AllGenuine, DistinctSeeds;
    StoredGenuine(payloads, peers[p], root);
  }

  lemma RateOf(peers: Peers, p: Id)
    requires p in peers && Lossless(peers)
    ensures peers[p].lossRate <= 0.0
  {
  }

  lemma OnlyStoresRefl(peers: Peers, root: string)
    ensures OnlyStores(peers, peers, root)
  {
  }

  lemma OnlyStoresMeans(before: Peers, after: Peers, root: string, p: Id)
    requires OnlyStores(before, after, root) && p in before
    ensures after.Keys == before.Keys
    ensures after[p] == before[p].(droplets := after[p].droplets)
    ensures after[p].droplets - {root} == before[p].droplets - {root}
    ensures SeedsWithin(StoredFor(before[p], root), StoredFor(after[p], root))
  {
    hide SeedsWithin, StoredFor;
  }

  lemma AliveStays(before: Peers, after: Peers, root: string)
    requires OnlyStores(before, after, root)
    ensures after.Keys == before.Keys
    ensures forall q :: q in before ==> after[q].alive == before[q].alive && after[q].neighbours == before[q].neighbours
  {
    forall q | q in before ensures after[q].alive == before[q].alive && after[q].neighbours == before[q].neighbours {
      OnlyStoresMeans(before, after, root, q);
    }
  }

  /** A peer with nothing to answer with had nothing before. */
  lemma SilentBefore(before: Peers, after: Peers, root: string, q: Id)
    requires OnlyStores(before, after, root) && q in before && q in after && Silent(after[q], root)
    ensures Silent(before[q], root)
  {
    OnlyStoresMeans(before, after, root, q);
    NoSeeds(StoredFor(before[q], root));
  }

  lemma NothingExplored(peers: Peers, root: string, vis: set<Id>)
    ensures Explored(peers, root, {}, vis)
  {
  }

  lemma ExploredUnion(peers: Peers, root: string, s: set<Id>, t: set<Id>, vis: set<Id>)
    requires Explored(peers, root, s, vis) && Explored(peers, root, t, vis)
    ensures Explored(peers, root, s + t, vis)
  {
  }

  lemma ExploredPeer(peers: Peers, root: string, p: Id, vis: set<Id>)
    requires p in peers && Silent(peers[p], root)
    requires forall n :: n in peers[p].neighbours && n in peers && peers[n].alive ==> n in vis
    ensures Explored(peers, root, {p}, vis)
  {
  }

  /** What earlier neighbours explored and what this one explored add up. */
  lemma ExploredMore(before: Peers, after: Peers, root: string, visited: set<Id>, vis: set<Id>, more: set<Id>)
    requires OnlyStores(before, after, root) && visited <= vis <= more
    requires Lossless(before) ==> Explored(before, root, vis - visited, vis)
    requires Lossless(after) ==> Explored(after, root, more - vis, more)
    requires Unchanged(before, after, vis)
    ensures Lossless(after) ==> Explored(after, root, more - visited, more)
  {
    LosslessStays(before, after, root);
    hide Lossless, OnlyStores, Explored;
    if Lossless(after) {
      ExploredStays(before, after, root, vis - visited, vis, more);
      ExploredUnion(after, root, vis - visited, more - vis, more);
      assert more - visited == (vis - visited) + (more - vis);
    }
  }

  /** With all its live neighbours visited a peer without droplets is explored itself. */
  lemma ExploredAll(peers: Peers, root: string, p: Id, visited: set<Id>, vis: set<Id>)
    requires p in peers && Silent(peers[p], root) && p !in visited && visited + {p} <= vis
    requires Lossless(peers) ==> Explored(peers, root, vis - (visited + {p}), vis)
    requires forall n :: n in peers[p].neighbours && n in peers && peers[n].alive ==> n in vis
    ensures Lossless(peers) ==> Explored(peers, root, vis - visited, vis)
  {
    ExploredPeer(peers, root, p, vis);
    hide Lossless, Explored;
    if Lossless(peers) {
      ExploredUnion(peers, root, vis - (visited + {p}), {p}, vis);
      assert vis - visited == vis - (visited + {p}) + {p};
    }
  }

  predicate Unchanged(before: Peers, after: Peers, s: set<Id>) {
    forall v :: v in s ==> v in before && v in after && after[v] == before[v]
  }

  lemma UnchangedTrans(a: Peers, b: Peers, c: Peers, s: set<Id>, t: set<Id>)
    requires Unchanged(a, b, s) && Unchanged(b, c, t) && s <= t
    ensures Unchanged(a, c, s)
  {
  }

  /** Where a peer stands that is asking its neighbours: `s` was visited before and includes the peer. */
  ghost predicate Asking(before: Peers, now: Peers, root: string, s: set<Id>, vis: set<Id>) {
    && OnlyStores(before, now, root) && Unchanged(before, now, s) && s <= vis <= now.Keys
    && (Lossless(now) ==> Explored(now, root, vis - s, vis))
  }

  lemma AskingStarts(peers: Peers, root: string, s: set<Id>)
    requires s <= peers.Keys
    ensures Asking(peers, peers, root, s, s)
  {
    OnlyStoresRefl(peers, root);
    NothingExplored(peers, root, s);
    assert s - s == {};
    hide OnlyStores, Explored, Lossless;
  }

  lemma AskingContinues(before: Peers, middle: Peers, now: Peers, root: string, s: set<Id>, vis: set<Id>, more: set<Id>)
    requires Asking(before, middle, root, s, vis) && Asking(middle, now, root, vis, more)
    ensures Asking(before, now, root, s, more)
  {
    OnlyStoresTrans(before, middle, now, root);
    UnchangedTrans(before, middle, now, s, vis);
    hide OnlyStores, Explored, Lossless;
    ExploredMore(middle, now, root, s, vis, more);
  }

  /** Without an answer, losses apart, the peers asked are explored. */
  lemma AskingEnds(before: Peers, now: Peers, root: string, p: Id, visited: set<Id>, vis: set<Id>)
    requires p in before && Asking(before, now, root, visited + {p}, vis) && Silent(before[p], root) && p !in visited
    requires p in now && NeighboursDone(now, p, {}, vis)
    ensures Asking(before, now, root, visited, vis)
    ensures OnlyStores(before, now, root) && Unchanged(before, now, visited + {p})
  {
    assert now[p] == before[p];
    hide OnlyStores, Explored, Lossless, StoredFor;
    ExploredAll(now, root, p, visited, vis);
    UnchangedTrans(before, now, now, visited, visited + {p});
  }

  /** An unanswered request proves nothing when the answer was lost. */
  lemma SilenceIsLoss(before: Peers, now: Peers, root: string, s: set<Id>, vis: set<Id>)
    requires OnlyStores(before, now, root) && Unchanged(before, now, s) && s <= vis <= now.Keys && !Lossless(now)
    ensures Asking(before, now, root, s, vis)
  {
    hide OnlyStores, Unchanged, Lossless, Explored;
  }

  lemma AskingSince(before: Peers, middle: Peers, now: Peers, root: string, s: set<Id>, vis: set<Id>)
    requires OnlyStores(before, middle, root) && Unchanged(before, middle, s) && Asking(middle, now, root, s, vis)
    ensures Asking(before, now, root, s, vis)
  {
    OnlyStoresTrans(before, middle, now, root);
    UnchangedTrans(before, middle, now, s, s);
    hide OnlyStores, Unchanged, Lossless, Explored;
  }

  /** The live neighbours outside `left` have been visited. */
  predicate NeighboursDone(peers: Peers, p: Id, left: set<Id>, vis: set<Id>)
    requires p in peers
  {
    forall n :: n in peers[p].neighbours && n !in left && n in peers && peers[n].alive ==> n in vis
  }

  lemma DoneWithout(peers: Peers, p: Id, left: set<Id>, vis: set<Id>, n: Id)
    requires p in peers && NeighboursDone(peers, p, left, vis)
    ensures NeighboursDone(peers, p, left - {n}, vis + {n})
    ensures n in vis || (n in peers && !peers[n].alive) ==> NeighboursDone(peers, p, left - {n}, vis)
  {
  }

  lemma DoneLater(before: Peers, after: Peers, root: string, p: Id, left: set<Id>, n: Id, vis: set<Id>, more: set<Id>)
    requires p in before && p in after && OnlyStores(before, after, root)
    requires NeighboursDone(before, p, left, vis + {n}) && vis + {n} <= more
    ensures NeighboursDone(after, p, left, more)
  {
    AliveStays(before, after, root);
    hide OnlyStores;
  }

  /** An answer comes out of the store of one visited peer, and is all of it if no link loses anything. */
  ghost predicate FromStore(now: Peers, root: string, vis: set<Id>, out: seq<Droplet>) {
    out != [] ==>
      exists q :: q in vis && q in now && (forall d :: d in out ==> d in StoredFor(now[q], root))
               && (Lossless(now) ==> out == StoredFor(now[q], root))
  }

  lemma FromOwnStore(now: Peers, root: string, p: Id, vis: set<Id>, out: seq<Droplet>)
    requires p in now && p in vis && forall d :: d in out ==> d in StoredFor(now[p], root)
    requires Lossless(now) ==> out == StoredFor(now[p], root)
    ensures FromStore(now, root, vis, out)
  {
    hide StoredFor, Lossless;
  }

  lemma FromStorePassed(now: Peers, root: string, vis: set<Id>, answer: seq<Droplet>, out: seq<Droplet>)
    requires FromStore(now, root, vis, answer) && answer != []
    requires (forall d :: d in out ==> d in answer) && (Lossless(now) ==> out == answer)
    ensures FromStore(now, root, vis, out)
  {
    hide StoredFor, Lossless;
    var q :| q in vis && q in now && (forall d :: d in answer ==> d in StoredFor(now[q], root))
          && (Lossless(now) ==> answer == StoredFor(now[q], root));
    forall d | d in out ensures d in StoredFor(now[q], root) {
      assert d in answer;
    }
  }

  lemma NothingFromStore(now: Peers, root: string, vis: set<Id>)
    ensures FromStore(now, root, vis, [])
  {
  }

  /** What asking the neighbours of a peer that was not visited before leads to. */
  ghost predicate Answered(payloads: map<string, Bytes>, before: Peers, now: Peers, root: string, p: Id,
                           visited: set<Id>, vis: set<Id>, out: seq<Droplet>) {
    && OnlyStores(before, now, root) && Unchanged(before, now, visited + {p}) && GenuineFor(payloads, root, out)
    && (out == [] ==> Asking(before, now, root, visited, vis)) && FromStore(now, root, vis, out)
  }

  /** A neighbour's answer, passed on over a link that may lose all of it. */
  lemma AnswerPassed(payloads: map<string, Bytes>, before: Peers, middle: Peers, now: Peers, root: string, p: Id,
                     visited: set<Id>, known: set<Id>, vis: set<Id>, out: seq<Droplet>)
    requires Asking(before, middle, root, visited + {p}, known) && OnlyStores(middle, now, root)
    requires Unchanged(middle, now, known)
    requires GenuineFor(payloads, root, out) && (Lossless(now) ==> out != []) && visited <= vis <= now.Keys
    requires FromStore(now, root, vis, out)
    ensures Answered(payloads, before, now, root, p, visited, vis, out)
  {
    AskedSoFar(before, middle, now, root, visited + {p}, known);
    UnchangedTrans(before, now, now, visited, visited + {p});
    hide OnlyStores, Lossless, GenuineFor, FromStore;
    if out == [] {
      SilenceIsLoss(before, now, root, visited, vis);
    }
  }

  lemma NobodyAnswered(payloads: map<string, Bytes>, before: Peers, now: Peers, root: string, p: Id, visited: set<Id>,
                       vis: set<Id>)
    requires Asking(before, now, root, visited, vis) && OnlyStores(before, now, root)
    requires Unchanged(before, now, visited + {p})
    ensures Answered(payloads, before, now, root, p, visited, vis, [])
  {
    NothingFromStore(now, root, vis);
    hide OnlyStores, Unchanged;
  }

  lemma OthersUnchanged(peers: Peers, p: Id, peer: Peer, s: set<Id>)
    requires p !in s && s <= peers.Keys
    ensures Unchanged(peers, peers[p := peer], s)
  {
  }

  lemma NoSeeds(a: seq<Droplet>)
    ensures SeedsWithin(a, []) ==> a == []
  {
    if a != [] {
      assert HasSeed([], a[0].seed) == false;
    }
  }

  lemma SeedsOfNothing(a: seq<Droplet>, b: seq<Droplet>)
    ensures a == [] ==> SeedsWithin(a, b)
  {
  }

  /** A peer that has droplets answers with all of them. */
  predicate AnswersWith(own: seq<Droplet>, out: seq<Droplet>) {
    own != [] ==> out == own
  }

  lemma AskedSoFar(before: Peers, middle: Peers, now: Peers, root: string, s: set<Id>, vis: set<Id>)
    requires Asking(before, middle, root, s, vis) && OnlyStores(middle, now, root) && Unchanged(middle, now, vis)
    ensures OnlyStores(before, now, root) && Unchanged(before, now, s)
  {
    OnlyStoresTrans(before, middle, now, root);
    UnchangedTrans(before, middle, now, s, vis);
  }

  lemma SynthesisKeeps(base: Codec, payloads: map<string, Bytes>, peers: Peers, p: Id, root: string)
    requires MeshSafe(payloads, peers) && p in peers
    ensures MeshSafe(payloads, peers[p := Synthesized(base, peers[p], root)])
    ensures OnlyStores(peers, peers[p := Synthesized(base, peers[p], root)], root)
    ensures StoredFor(Synthesized(base, peers[p], root), root) == [] ==> Silent(Synthesized(base, peers[p], root), root)
  {
    hide *;
    PeerOfMesh(payloads, peers, p);
    SynthesizedSafe(base, payloads, peers[p], root);
    SynthesisInStore(base, peers[p], root);
    MeshSafeStore(payloads, peers, p, Synthesized(base, peers[p], root));
    OneStore(peers, p, Synthesized(base, peers[p], root), root);
  }

  lemma SynthesisInStore(base: Codec, peer: Peer, root: string)
    ensures Synthesized(base, peer, root) == peer.(droplets := Synthesized(base, peer, root).droplets)
    ensures Synthesized(base, peer, root).droplets - {root} == peer.droplets - {root}
  {
    hide Synthetic, PutAll, StoredFor;
  }

  lemma OneStore(peers: Peers, p: Id, peer: Peer, root: string)
    requires p in peers && peer == peers[p].(droplets := peer.droplets)
    requires peer.droplets - {root} == peers[p].droplets - {root}
    requires SeedsWithin(StoredFor(peers[p], root), StoredFor(peer, root))
    ensures OnlyStores(peers, peers[p := peer], root)
  {
    hide SeedsWithin, StoredFor;
    forall q | q in peers ensures SeedsWithin(StoredFor(peers[q], root), StoredFor(peers[q], root)) {
      SeedsSelf(StoredFor(peers[q], root));
    }
  }

  lemma NeighbourKnown(payloads: map<string, Bytes>, peers: Peers, p: Id, n: Id)
    requires MeshSafe(payloads, peers) && p in peers && n in peers[p].neighbours
    ensures n in peers
  {
  }

  lemma FewerUnvisited(keys: set<Id>, visited: set<Id>, vis: set<Id>, p: Id)
    requires p in keys && p !in visited && visited + {p} <= vis
    ensures |keys - vis| < |keys - visited|
  {
    Sets.SubsetSize(keys - vis, (keys - visited) - {p});
  }

  /**
   A request over lossless links that comes back empty proves that no live peer on any route from the
   one asked stores a droplet of the root or has a payload to make one from.
   */
  lemma SilenceMeansNothing(before: Peers, now: Peers, root: string, vis: set<Id>, path: seq<Id>)
    requires Asking(before, now, root, {}, vis) && Lossless(now)
    requires Route(before, path) && path[0] in vis
    ensures Silent(before[path[|path| - 1]], root)
  {
    assert vis - {} == vis;
    AliveStays(before, now, root);
    assert Closed(before, vis) by {
      forall p, q | p in vis && p in before && q in before[p].neighbours && q in before && before[q].alive
        ensures q in vis
      {
        assert q in LiveNeighbours(now, p);
      }
    }
    RouteStaysInside(before, vis, path);
    SilentBefore(before, now, root, path[|path| - 1]);
  }

  // ---------------------------------------------------------------- fetching

  /** Every seed that the first `n` of these peers store is among the gathered droplets, unless the peer is dead. */
  ghost predicate Covers(peers: Peers, root: string, order: seq<Id>, n: nat, gathered: seq<Droplet>) {
    forall i :: 0 <= i < n && i < |order| && order[i] in peers && peers[order[i]].alive ==>
      SeedsWithin(StoredFor(peers[order[i]], root), gathered)
  }

  lemma CoversNone(peers: Peers, root: string, order: seq<Id>, gathered: seq<Droplet>)
    ensures Covers(peers, root, order, 0, gathered)
  {
  }

  /** One more answer over lossless links. */
  lemma CoversMore(peers: Peers, middle: Peers, root: string, order: seq<Id>, n: nat, held: seq<Droplet>,
                   incoming: seq<Droplet>, gathered: seq<Droplet>)
    requires Covers(peers, root, order, n, held) && n < |order| && order[n] in peers
    requires OnlyStores(peers, middle, root) && SeedsWithin(held, gathered) && SeedsWithin(incoming, gathered)
    requires order[n] in middle && (middle[order[n]].alive ==> SeedsWithin(StoredFor(middle[order[n]], root), incoming))
    ensures Covers(peers, root, order, n + 1, gathered)
  {
    OnlyStoresMeans(peers, middle, root, order[n]);
    hide SeedsWithin, StoredFor, OnlyStores;
    forall i | 0 <= i < n + 1 && order[i] in peers && peers[order[i]].alive
      ensures SeedsWithin(StoredFor(peers[order[i]], root), gathered)
    {
      var stored := StoredFor(peers[order[i]], root);
      if i < n {
        SeedsTrans(stored, held, gathered);
      } else {
        SeedsTrans(stored, StoredFor(middle[order[n]], root), incoming);
        SeedsTrans(stored, incoming, gathered);
      }
    }
  }

  /** The peer answers requests for the root with a complete encoding in this symbol size. */
  predicate IsSource(peer: Peer, root: string, size: nat) {
    peer.alive && peer.symbolSize == size && root in peer.reconstructed && root in peer.recipes
        && peer.reconstructed[root] != []
  }

  ghost predicate NoSource(peers: Peers, root: string, size: nat, order: seq<Id>, n: nat) {
    forall i :: 0 <= i < n && i < |order| && order[i] in peers ==> !IsSource(peers[order[i]], root, size)
  }

  lemma NoSourceNone(peers: Peers, root: string, size: nat, order: seq<Id>)
    ensures NoSource(peers, root, size, order, 0)
  {
  }

  lemma NoSourceEarlier(before: Peers, after: Peers, root: string, p: Id, order: seq<Id>)
    requires OnlyStores(before, after, root) && p in before && p in after
    requires NoSource(after, root, after[p].symbolSize, order, |order|)
    ensures NoSource(before, root, before[p].symbolSize, order, |order|)
  {
    OnlyStoresMeans(before, after, root, p);
    forall i | 0 <= i < |order| && order[i] in before ensures !IsSource(before[order[i]], root, before[p].symbolSize) {
      OnlyStoresMeans(before, after, root, order[i]);
    }
  }

  /** A source's answer makes the gathered droplets sufficient. */
  lemma SourceSuffices(base: Codec, payloads: map<string, Bytes>, source: Peer, peer: Peer, root: string,
                       held: seq<Droplet>)
    requires PeerSafe(payloads, source) && IsSource(source, root, peer.symbolSize)
    ensures root in payloads && StoredFor(Synthesized(base, source, root), root) != []
    ensures Sufficient(base, peer, |payloads[root]|, PutAll(held, StoredFor(Synthesized(base, source, root), root)))
  {
    assert root in payloads && source.reconstructed[root] == payloads[root];
    SynthesizedSafe(base, payloads, source, root);
    StoredGenuine(payloads, Synthesized(base, source, root), root);
    var codec, data := base.(symbolSize := peer.symbolSize), payloads[root];
    var answer, redundancy :=
        StoredFor(Synthesized(base, source, root), root), SynthesisRedundancy(CeilDiv(|data|, codec.symbolSize));
    assert answer == PutAll(StoredFor(source, root), Synthetic(codec, data));
    PlainSeeds(codec, data, redundancy);
    SomethingSynthesized(codec, data);
    hide PeerSafe, DistinctSeeds, Encoded, StoredFor, Synthesized, SynthesisRedundancy, AllGenuine;
    PutAllHolds(StoredFor(source, root), Synthetic(codec, data));
    PutAllHolds(held, answer);
    EncodingSuffices(codec, data, redundancy, PutAll(held, answer));
  }

  /** A neighbour whose answer left the gathered droplets insufficient was no source. */
  lemma NoSourceMore(base: Codec, payloads: map<string, Bytes>, peers: Peers, middle: Peers, now: Peers, p: Id,
                     root: string, order: seq<Id>, n: nat, held: seq<Droplet>, incoming: seq<Droplet>)
    requires p in peers && NoSource(peers, root, peers[p].symbolSize, order, n) && n < |order| && order[n] in peers
    requires OnlyStores(peers, middle, root) && OnlyStores(peers, now, root) && p in now
    requires order[n] in middle && MeshSafe(payloads, middle)
    requires middle[order[n]].alive ==>
              AnswersWith(StoredFor(Synthesized(base, middle[order[n]], root), root), incoming)
    requires root in payloads
    requires incoming != [] ==> !Sufficient(base, now[p], |payloads[root]|, PutAll(held, incoming))
    ensures NoSource(peers, root, peers[p].symbolSize, order, n + 1)
  {
    OnlyStoresMeans(peers, middle, root, order[n]);
    OnlyStoresMeans(peers, now, root, p);
    PeerOfMesh(payloads, middle, order[n]);
    hide MeshSafe, PeerSafe, OnlyStores, Synthesized, StoredFor, Sufficient;
    if IsSource(peers[order[n]], root, peers[p].symbolSize) {
      SourceSuffices(base, payloads, middle[order[n]], now[p], root, held);
    }
  }

  lemma CoversEarlier(before: Peers, after: Peers, root: string, order: seq<Id>, gathered: seq<Droplet>)
    requires OnlyStores(before, after, root) && Covers(after, root, order, |order|, gathered)
    ensures Covers(before, root, order, |order|, gathered)
  {
    forall i | 0 <= i < |order| && order[i] in before && before[order[i]].alive
      ensures SeedsWithin(StoredFor(before[order[i]], root), gathered)
    {
      OnlyStoresMeans(before, after, root, order[i]);
      SeedsTrans(StoredFor(before[order[i]], root), StoredFor(after[order[i]], root), gathered);
    }
  }

  lemma CoversLive(peers: Peers, p: Id, root: string, order: seq<Id>, gathered: seq<Droplet>)
    requires p in peers && Gossip.Visits(order, LiveNeighbours(peers, p))
    requires Covers(peers, root, order, |order|, gathered)
    requires NoSource(peers, root, peers[p].symbolSize, order, |order|)
    ensures forall q :: q in LiveNeighbours(peers, p) ==> SeedsWithin(StoredFor(peers[q], root), gathered)
    ensures forall q :: q in LiveNeighbours(peers, p) ==> !IsSource(peers[q], root, peers[p].symbolSize)
  {
    hide SeedsWithin, StoredFor, IsSource;
    forall q | q in LiveNeighbours(peers, p)
      ensures SeedsWithin(StoredFor(peers[q], root), gathered) && !IsSource(peers[q], root, peers[p].symbolSize)
    {
      var i :| 0 <= i < |order| && order[i] == q;
    }
  }

  /** The peers asked in `n` sweeps. */
  function Rounds(order: seq<Id>, n: nat): seq<Id> {
    if n == 0 then [] else Rounds(order, n - 1) + order
  }

  lemma FiveRounds(order: seq<Id>)
    ensures Rounds(order, 5) == order + order + order + order + order
  {
    assert Rounds(order, 1) == order;
    assert Rounds(order, 3) == order + order + order;
  }

  datatype SwarmError = UnknownRoot | Insufficient | DecodingFailed

  function Attempt(base: Codec, peer: Peer, total: nat, gathered: seq<Droplet>): Result<Bytes, DecodeError> {
    Decoded(base.(symbolSize := peer.symbolSize), gathered, CeilDiv(total, peer.symbolSize), total, None, true)
  }

  /** The gathered droplets determine the payload for a peer of this symbol size. */
  ghost predicate Sufficient(base: Codec, peer: Peer, total: nat, gathered: seq<Droplet>) {
    var codec, k := base.(symbolSize := peer.symbolSize), CeilDiv(total, peer.symbolSize);
    FullRank(UsableDroplets(codec, gathered, k, None, true), k)
  }

  lemma AttemptExact(base: Codec, data: Bytes, peer: Peer, gathered: seq<Droplet>)
    requires AllGenuine(data, gathered)
    ensures Attempt(base, peer, |data|, gathered).Success? <==> Sufficient(base, peer, |data|, gathered)
    ensures Attempt(base, peer, |data|, gathered).Success? ==> Attempt(base, peer, |data|, gathered) == Success(data)
  {
    DecodeGenuine(base.(symbolSize := peer.symbolSize), data, gathered);
  }

  lemma TooFewFail(base: Codec, peer: Peer, total: nat, gathered: seq<Droplet>)
    requires |gathered| < CeilDiv(total, peer.symbolSize)
    ensures !Attempt(base, peer, total, gathered).Success?
  {
    UsableCount(base.(symbolSize := peer.symbolSize), gathered, CeilDiv(total, peer.symbolSize), None, true);
  }

  lemma SufficientBySize(base: Codec, a: Peer, b: Peer, total: nat, gathered: seq<Droplet>)
    requires a.symbolSize == b.symbolSize
    ensures Sufficient(base, a, total, gathered) == Sufficient(base, b, total, gathered)
  {
  }

  lemma AnswerGenuine(payloads: map<string, Bytes>, root: string, ds: seq<Droplet>)
    requires GenuineFor(payloads, root, ds) && root in payloads
    ensures AllGenuine(payloads[root], ds)
  {
  }

  /** A peer that reconstructed a payload keeps it, with the droplets it used. */
  function Rebuilt(peer: Peer, root: string, data: Bytes, gathered: seq<Droplet>): Peer {
    peer.(reconstructed := peer.reconstructed[root := data], droplets := peer.droplets[root := gathered])
  }

  lemma PeerOfMesh(payloads: map<string, Bytes>, peers: Peers, p: Id)
    requires MeshSafe(payloads, peers) && p in peers
    ensures PeerSafe(payloads, peers[p])
  {
    hide PeerSafe;
  }

  lemma RebuiltSafe(payloads: map<string, Bytes>, peers: Peers, p: Id, root: string, gathered: seq<Droplet>)
    requires MeshSafe(payloads, peers) && p in peers && root in payloads && AllGenuine(payloads[root], gathered)
    requires DistinctSeeds(gathered)
    ensures MeshSafe(payloads, peers[p := Rebuilt(peers[p], root, payloads[root], gathered)])
  {
    hide AllGenuine, MeshSafe, DistinctSeeds;
    PeerOfMesh(payloads, peers, p);
    var peer := Rebuilt(peers[p], root, payloads[root], gathered);
    assert PeerSafe(payloads, peers[p]);
    assert PeerSafe(payloads, peer);
    hide PeerSafe;
    MeshSafeStore(payloads, peers, p, peer);
  }

  lemma RecipeMeans(payloads: map<string, Bytes>, peers: Peers, p: Id, root: string)
    requires MeshSafe(payloads, peers) && p in peers
    ensures root in peers[p].recipes ==> root in payloads && peers[p].recipes[root] == |payloads[root]|
    ensures root in peers[p].reconstructed ==> root in payloads && peers[p].reconstructed[root] == payloads[root]
  {
    assert PeerSafe(payloads, peers[p]);
  }

  /**
   What a successful fetch leaves behind: the peer has the payload and droplets that suffice to decode it; of
   everything else only the droplets stored for the root change, and no seed is lost.
   */
  ghost predicate Keeps(base: Codec, before: Peers, now: Peers, p: Id, root: string, data: Bytes) {
    && p in before && p in now
    && now[p].reconstructed == before[p].reconstructed[root := data]
    && Sufficient(base, now[p], |data|, StoredFor(now[p], root))
    && OnlyStores(before, now[p := now[p].(reconstructed := before[p].reconstructed)], root)
  }

  lemma RebuiltStore(peer: Peer, root: string, data: Bytes, gathered: seq<Droplet>)
    ensures var after := Rebuilt(peer, root, data, gathered);
            && StoredFor(after, root) == gathered
            && after.droplets - {root} == peer.droplets - {root}
            && after.reconstructed == peer.reconstructed[root := data]
            && after == peer.(droplets := after.droplets, reconstructed := after.reconstructed)
  {
  }

  /** A peer that has only droplets of the root changed so far keeps what it reconstructs. */
  lemma RebuiltKeeps(base: Codec, before: Peers, at: Peers, p: Id, root: string, data: Bytes, gathered: seq<Droplet>)
    requires OnlyStores(before, at, root) && p in before && p in at
    requires Sufficient(base, at[p], |data|, gathered) && SeedsWithin(StoredFor(before[p], root), gathered)
    ensures Keeps(base, before, at[p := Rebuilt(at[p], root, data, gathered)], p, root, data)
  {
    var now := at[p := Rebuilt(at[p], root, data, gathered)];
    var plain := now[p].(reconstructed := before[p].reconstructed);
    OnlyStoresMeans(before, at, root, p);
    RebuiltStore(at[p], root, data, gathered);
    SufficientBySize(base, at[p], now[p], |data|, gathered);
    assert StoredFor(plain, root) == gathered;
    hide Rebuilt, Sufficient, SeedsWithin, StoredFor;
    assert OnlyStores(before, now[p := plain], root);
  }

  /** A fetch, from the swarm or from what the peer had, leaves it with the payload, and all links as they were. */
  lemma FetchLeaves(base: Codec, before: Peers, now: Peers, p: Id, root: string, data: Bytes)
    requires p in before && (root in before[p].reconstructed ==> now == before && before[p].reconstructed[root] == data)
    requires root !in before[p].reconstructed ==> Keeps(base, before, now, p, root, data)
    ensures now.Keys == before.Keys && root in now[p].reconstructed && now[p].reconstructed[root] == data
    ensures forall r :: r in before ==>
              && now[r].alive == before[r].alive && now[r].symbolSize == before[r].symbolSize
              && now[r].neighbours == before[r].neighbours && now[r].lossRate == before[r].lossRate
              && now[r].recipes == before[r].recipes
  {
    hide Sufficient, StoredFor, SeedsWithin;
    if root !in before[p].reconstructed {
      assert OnlyStores(before, now[p := now[p].(reconstructed := before[p].reconstructed)], root);
    }
  }

  lemma LinksLossless(before: Peers, now: Peers)
    requires Lossless(before) && forall r :: r in now ==> r in before && now[r].lossRate == before[r].lossRate
    ensures Lossless(now)
  {
  }

  // ---------------------------------------------------------------- building the mesh

  function Taught(peer: Peer, root: string, total: nat, droplets: seq<Droplet>): Peer {
    peer.(recipes := peer.recipes[root := total],
          droplets := peer.droplets[root := PutAll(StoredFor(peer, root), droplets)])
  }

  /** Storing content keeps what was stored, replaces droplets by seed, and concerns this root alone. */
  lemma TaughtStores(peer: Peer, root: string, total: nat, droplets: seq<Droplet>)
    ensures var after := Taught(peer, root, total, droplets);
            && root in after.recipes && after.recipes[root] == total && after.recipes - {root} == peer.recipes - {root}
            && after.droplets - {root} == peer.droplets - {root}
            && after == peer.(recipes := after.recipes, droplets := after.droplets)
            && SeedsWithin(StoredFor(peer, root), StoredFor(after, root))
            && SeedsWithin(droplets, StoredFor(after, root))
            && (forall d :: d in StoredFor(after, root) ==> d in StoredFor(peer, root) || d in droplets)
            && (DistinctSeeds(droplets) ==> forall d :: d in droplets ==> d in StoredFor(after, root))
  {
    TaughtFields(peer, root, total, droplets);
    hide *;
    var held := StoredFor(peer, root);
    PutAllSeeds(held, droplets);
    PutAllFrom(held, droplets);
    if DistinctSeeds(droplets) {
      PutAllHolds(held, droplets);
    }
  }

  lemma TaughtFields(peer: Peer, root: string, total: nat, droplets: seq<Droplet>)
    ensures var after := Taught(peer, root, total, droplets);
            && root in after.recipes && after.recipes[root] == total && after.recipes - {root} == peer.recipes - {root}
            && after.droplets - {root} == peer.droplets - {root}
            && after == peer.(recipes := after.recipes, droplets := after.droplets)
            && StoredFor(after, root) == PutAll(StoredFor(peer, root), droplets)
  {
    hide PutAll;
  }

  lemma {:induction false} PutAllFrom(store: seq<Droplet>, ds: seq<Droplet>)
    ensures forall d :: d in PutAll(store, ds) ==> d in store || d in ds
  {
    if ds != [] {
      PutAllFrom(store, ds[..|ds| - 1]);
      hide Put;
    }
  }

  lemma TaughtSafe(payloads: map<string, Bytes>, peers: Peers, p: Id, root: string, droplets: seq<Droplet>)
    requires MeshSafe(payloads, peers) && p in peers && root in payloads && AllGenuine(payloads[root], droplets)
    ensures MeshSafe(payloads, peers[p := Taught(peers[p], root, |payloads[root]|, droplets)])
  {
    var peer := peers[p];
    assert PeerSafe(payloads, peer);
    StoredGenuine(payloads, peer, root);
    PutAllGenuine(payloads[root], StoredFor(peer, root), droplets);
    PutAllDistinct(StoredFor(peer, root), droplets);
    PeerSafeStore(payloads, peer, root, PutAll(StoredFor(peer, root), droplets));
    hide AllGenuine, MeshSafe, StoredFor, DistinctSeeds;
    assert PeerSafe(payloads, Taught(peer, root, |payloads[root]|, droplets));
    hide PeerSafe;
    MeshSafeStore(payloads, peers, p, Taught(peer, root, |payloads[root]|, droplets));
  }

  /** The neighbours a peer gains when `p` and `q` are linked. */
  function Gained(p: Id, q: Id, r: Id): set<Id> {
    (if r == p then {q} else {}) + if r == q then {p} else {}
  }

  function Linked(peers: Peers, p: Id, q: Id): Peers {
    map r | r in peers :: peers[r].(neighbours := peers[r].neighbours + Gained(p, q, r))
  }

  lemma LinkSafe(payloads: map<string, Bytes>, peers: Peers, p: Id, q: Id)
    requires MeshSafe(payloads, peers) && p in peers && q in peers
    ensures MeshSafe(payloads, Linked(peers, p, q))
  {
    hide PeerSafe;
    forall r | r in peers ensures PeerSafe(payloads, Linked(peers, p, q)[r]) {
      NeighboursIrrelevant(payloads, peers[r], peers[r].neighbours + Gained(p, q, r));
    }
  }

  lemma NeighboursIrrelevant(payloads: map<string, Bytes>, peer: Peer, neighbours: set<Id>)
    requires PeerSafe(payloads, peer)
    ensures PeerSafe(payloads, peer.(neighbours := neighbours))
  {
    hide AllGenuine, DistinctSeeds;
  }

  // ---------------------------------------------------------------- the mesh

  class SwarmNetwork {
    const codec: Codec
    var peers: Peers
    /** The payload each root stands for. */
    ghost const payloads: map<string, Bytes>

    ghost predicate Valid()
      reads this
    {
      MeshSafe(payloads, peers)
    }

    constructor (codec: Codec, ghost payloads: map<string, Bytes>)
      ensures Valid() && peers == map[] && this.codec == codec && this.payloads == payloads
    {
      this.codec, this.payloads, peers := codec, payloads, map[];
    }

    /** A new peer, holding nothing and linked to nobody. */
    method AddPeer(p: Id, lossRate: real, symbolSize: SymbolSize)
      requires Valid()
      modifies this`peers
      ensures Valid()
      ensures peers == old(peers)[p := Peer(true, symbolSize, lossRate, {}, map[], map[], map[])]
    {
      peers := peers[p := Peer(true, symbolSize, lossRate, {}, map[], map[], map[])];
    }

    /** Links two peers in both directions. */
    method Connect(p: Id, q: Id)
      requires Valid() && p in peers && q in peers
      modifies this`peers
      ensures Valid() && peers.Keys == old(peers).Keys
      ensures forall r :: r in peers ==>
                peers[r] == old(peers)[r].(neighbours := old(peers)[r].neighbours + Gained(p, q, r))
    {
      LinkSafe(payloads, peers, p, q);
      hide MeshSafe;
      peers := Linked(peers, p, q);
    }

    /** A peer fails, or comes back. */
    method SetAlive(p: Id, alive: bool)
      requires Valid() && p in peers
      modifies this`peers
      ensures Valid() && peers == old(peers)[p := old(peers)[p].(alive := alive)]
    {
      assert PeerSafe(payloads, peers[p].(alive := alive)) by {
        assert PeerSafe(payloads, peers[p]);
      }
      hide PeerSafe;
      MeshSafeStore(payloads, peers, p, peers[p].(alive := alive));
      peers := peers[p := peers[p].(alive := alive)];
    }

    /** Stores published content; with no droplets, what a gossip announcement teaches. */
    method StoreContent(p: Id, root: string, total: nat, droplets: seq<Droplet>)
      requires Valid() && p in peers
      requires root in payloads && total == |payloads[root]| && AllGenuine(payloads[root], droplets)
      modifies this`peers
      ensures Valid()
      ensures peers == old(peers)[p := Taught(old(peers)[p], root, total, droplets)]
    {
      hide AllGenuine, MeshSafe;
      TaughtSafe(payloads, peers, p, root, droplets);
      peers := peers[p := Taught(peers[p], root, total, droplets)];
    }

    /** Link loss: each droplet gets through when its draw reaches the loss rate. */
    method Transmit(droplets: seq<Droplet>, lossRate: real) returns (kept: seq<Droplet>)
      ensures forall d :: d in kept ==> d in droplets
      ensures lossRate <= 0.0 ==> kept == droplets
      ensures lossRate >= 1.0 ==> kept == []
    {
      kept := [];
      for i := 0 to |droplets|
        invariant forall d :: d in kept ==> d in droplets
        invariant lossRate <= 0.0 ==> kept == droplets[..i]
        invariant lossRate >= 1.0 ==> kept == []
      {
        var draw: real :| 0.0 <= draw < 1.0;
        if draw >= lossRate {
          kept := kept + [droplets[i]];
        }
      }
      assert droplets[..|droplets|] == droplets;
    }

    /** Refreshes a peer's store from its reconstructed payload. */
    method Synthesize(p: Id, root: string)
      requires Valid() && p in peers
      modifies this`peers
      ensures Valid()
      ensures peers == old(peers)[p := Synthesized(codec, old(peers)[p], root)]
      ensures OnlyStores(old(peers), peers, root)
      ensures StoredFor(peers[p], root) == [] ==> Silent(peers[p], root)
    {
      hide MeshSafe, PeerSafe, OnlyStores, StoredFor, Synthesized, Silent;
      SynthesisKeeps(codec, payloads, peers, p, root);
      peers := peers[p := Synthesized(codec, peers[p], root)];
    }

    /** Sends droplets over the peer's link. */
    method Send(p: Id, root: string, droplets: seq<Droplet>) returns (out: seq<Droplet>)
      requires p in peers && GenuineFor(payloads, root, droplets) && droplets != []
      ensures GenuineFor(payloads, root, out)
      ensures Lossless(peers) ==> out == droplets
      ensures forall d :: d in out ==> d in droplets
    {
      hide GenuineFor;
      out := Transmit(droplets, peers[p].lossRate);
      SubsetGenuine(payloads, root, droplets, out);
      if Lossless(peers) {
        RateOf(peers, p);
      }
    }

    /**
     Answers a request for droplets, routing it on when nothing is stored locally. The visited set
     strictly grows with every hop, so the request terminates.
     */
    method RequestDroplets(p: Id, root: string, visited: set<Id>) returns (out: seq<Droplet>, vis: set<Id>)
      requires Valid() && p in peers && visited <= peers.Keys && p !in visited
      modifies this`peers
      ensures Valid() && OnlyStores(old(peers), peers, root) && Unchanged(old(peers), peers, visited)
      ensures visited <= vis <= peers.Keys && (old(peers)[p].alive ==> p in vis)
      ensures GenuineFor(payloads, root, out) && FromStore(peers, root, vis, out)
      ensures out == [] ==> Asking(old(peers), peers, root, visited, vis)
      ensures Lossless(peers) && old(peers)[p].alive ==> SeedsWithin(StoredFor(old(peers)[p], root), out)
      ensures Lossless(peers) && old(peers)[p].alive ==>
                AnswersWith(StoredFor(Synthesized(codec, old(peers)[p], root), root), out)
      decreases |peers.Keys - visited|, 2
    {
      out, vis := [], visited;
      NothingIsGenuine(payloads, root);
      NothingFromStore(peers, root, visited);
      AskingStarts(peers, root, visited);
      if !peers[p].alive {
        return;
      }
      vis := visited + {p};
      ghost var before := peers;
      hide Asking, Unchanged, GenuineFor, OnlyStores, Lossless, Explored, StoredFor, Synthesized, MeshSafe, Silent,
        SeedsWithin, FromStore;
      Synthesize(p, root);
      ghost var middle := peers;
      OnlyStoresMeans(before, middle, root, p);
      OthersUnchanged(before, p, middle[p], visited);
      var stored := StoredFor(peers[p], root);
      if stored != [] {
        StoreIsGenuine(payloads, peers, p, root);
        out := Send(p, root, stored);
        FromOwnStore(peers, root, p, vis, out);
        if out == [] {
          SilenceIsLoss(before, peers, root, visited, vis);
        }
        return;
      }
      NoSeeds(StoredFor(before[p], root));
      out, vis := RouteOn(p, root, visited);
      OnlyStoresTrans(before, middle, peers, root);
      UnchangedTrans(before, middle, peers, visited, visited + {p});
      SeedsOfNothing(StoredFor(before[p], root), out);
      if out == [] {
        AskingSince(before, middle, peers, root, visited, vis);
      }
    }

    /** Asks one neighbour. An answer is passed on, over a link that may lose all of it. */
    method AskNeighbour(p: Id, n: Id, root: string, known: set<Id>, ghost start: Peers, ghost visited: set<Id>,
                        ghost left: set<Id>)
      returns (answered: bool, out: seq<Droplet>, vis: set<Id>)
      requires Valid() && p in peers && n in peers && n !in known
      requires p !in visited && visited + {p} <= known <= peers.Keys
      requires Asking(start, peers, root, visited + {p}, known) && NeighboursDone(peers, p, left, known + {n})
      requires peers[n].alive
      modifies this`peers
      ensures Valid() && peers.Keys == old(peers).Keys && peers[p].neighbours == old(peers)[p].neighbours
      ensures known <= vis <= peers.Keys
      ensures answered ==> Answered(payloads, start, peers, root, p, visited, vis, out)
      ensures !answered ==>
                out == [] && Asking(start, peers, root, visited + {p}, vis) && NeighboursDone(peers, p, left, vis)
      decreases |peers.Keys - visited|, 0
    {
      hide *;
      ghost var before := peers;
      FewerUnvisited(peers.Keys, visited, known, p);
      out, vis := RequestDroplets(n, root, known);
      AliveStays(before, peers, root);
      answered := out != [];
      if answered {
        ghost var answer := out;
        out := Send(p, root, out);
        FromStorePassed(peers, root, vis, answer, out);
        AnswerPassed(payloads, start, before, peers, root, p, visited, known, vis, out);
      } else {
        AskingContinues(start, before, peers, root, visited + {p}, known, vis);
        DoneLater(before, peers, root, p, left, n, known, vis);
      }
    }

    /** Asks the live neighbours one after another, until one of them answers. */
    method RouteOn(p: Id, root: string, visited: set<Id>) returns (out: seq<Droplet>, vis: set<Id>)
      requires Valid() && p in peers && visited <= peers.Keys && p !in visited && Silent(peers[p], root)
      modifies this`peers
      ensures Valid() && visited + {p} <= vis <= peers.Keys
      ensures Answered(payloads, old(peers), peers, root, p, visited, vis, out)
      decreases |peers.Keys - visited|, 1
    {
      var asked := visited + {p};
      out, vis := [], asked;
      AskingStarts(peers, root, asked);
      assert NeighboursDone(peers, p, peers[p].neighbours, vis);
      hide *;
      var left, answered := peers[p].neighbours, false;
      while left != {} && !answered
        invariant Valid() && p in peers && old(peers).Keys == peers.Keys && asked <= vis <= peers.Keys
        invariant left <= peers[p].neighbours
        invariant answered ==> Answered(payloads, old(peers), peers, root, p, visited, vis, out)
        invariant !answered ==>
                  out == [] && Asking(old(peers), peers, root, asked, vis) && NeighboursDone(peers, p, left, vis)
        decreases |left|
      {
        var n :| n in left;
        DoneWithout(peers, p, left, vis, n);
        left := left - {n};
        KnownNeighbour(p, n);
        if peers[n].alive && n !in vis {
          answered, out, vis := AskNeighbour(p, n, root, vis, old(peers), visited, left);
        }
      }
      if !answered {
        AskingEnds(old(peers), peers, root, p, visited, vis);
        NobodyAnswered(payloads, old(peers), peers, root, p, visited, vis);
      }
    }

    lemma KnownNeighbour(p: Id, n: Id)
      requires Valid() && p in peers && n in peers[p].neighbours
      ensures n in peers
    {
      hide MeshSafe;
      NeighbourKnown(payloads, peers, p, n);
    }

    /** Decodes what was gathered, if there is enough of it, and keeps the result. */
    method TryDecode(p: Id, root: string, total: nat, gathered: seq<Droplet>) returns (out: Option<Bytes>)
      requires Valid() && p in peers && root in payloads && total == |payloads[root]|
      requires AllGenuine(payloads[root], gathered) && DistinctSeeds(gathered)
      modifies this`peers
      ensures Valid()
      ensures out.Some? <==> Sufficient(codec, old(peers)[p], total, gathered)
      ensures out.Some? ==>
                out.value == payloads[root]
                    && peers == old(peers)[p := Rebuilt(old(peers)[p], root, payloads[root], gathered)]
      ensures out.None? ==> peers == old(peers)
    {
      var k := CeilDiv(total, peers[p].symbolSize);
      AttemptExact(codec, payloads[root], peers[p], gathered);
      RebuiltSafe(payloads, peers, p, root, gathered);
      hide MeshSafe, AllGenuine, Sufficient, DistinctSeeds;
      if |gathered| < k {
        TooFewFail(codec, peers[p], total, gathered);
        return None;
      }
      var r := FountainCodec.Decode(codec.(symbolSize := peers[p].symbolSize), gathered, k, total, None, true);
      if r.Failure? {
        return None;
      }
      peers := peers[p := Rebuilt(peers[p], root, r.value, gathered)];
      return Some(r.value);
    }

    /** Adds incoming droplets one by one, attempting to decode after each. */
    method Gather(p: Id, root: string, total: nat, before: seq<Droplet>, incoming: seq<Droplet>)
      returns (gathered: seq<Droplet>, out: Option<Bytes>)
      requires Valid() && p in peers && root in payloads && total == |payloads[root]|
      requires AllGenuine(payloads[root], before) && DistinctSeeds(before) && AllGenuine(payloads[root], incoming)
      modifies this`peers
      ensures Valid() && AllGenuine(payloads[root], gathered) && DistinctSeeds(gathered)
      ensures out.Some? ==> out.value == payloads[root]
      ensures out.None? && incoming != [] ==> !Sufficient(codec, old(peers)[p], total, gathered)
      ensures out.None? ==> peers == old(peers) && gathered == PutAll(before, incoming)
      ensures out.Some? ==>
                && peers == old(peers)[p := Rebuilt(old(peers)[p], root, payloads[root], gathered)]
                && Sufficient(codec, old(peers)[p], total, gathered)
      ensures SeedsWithin(before, gathered)
    {
      gathered, out := before, None;
      PutAllNothing(before);
      SeedsSelf(before);
      hide *;
      for i := 0 to |incoming|
        invariant Valid() && peers == old(peers) && AllGenuine(payloads[root], gathered) && out.None?
        invariant gathered == PutAll(before, incoming[..i]) && DistinctSeeds(gathered)
        invariant i > 0 ==> !Sufficient(codec, peers[p], total, gathered)
        invariant SeedsWithin(before, gathered)
      {
        GenuineAt(payloads[root], incoming, i);
        PutSeeds(gathered, incoming[i]);
        SeedsTrans(before, gathered, Put(gathered, incoming[i]));
        assert incoming[..i + 1][..i] == incoming[..i];
        PutAllUnfold(before, incoming[..i + 1]);
        PutGenuine(payloads[root], gathered, incoming[i]);
        PutDistinct(gathered, incoming[i]);
        gathered := Put(gathered, incoming[i]);
        out := TryDecode(p, root, total, gathered);
        if out.Some? {
          return;
        }
      }
      assert incoming[..|incoming|] == incoming;
    }

    /** Queries every neighbour once. */
    method Sweep(p: Id, root: string, total: nat, order: seq<Id>, before: seq<Droplet>)
      returns (gathered: seq<Droplet>, out: Option<Bytes>, ghost at: Peers, ghost asked: seq<Id>)
      requires Valid() && p in peers && root in payloads && total == |payloads[root]|
      requires AllGenuine(payloads[root], before) && DistinctSeeds(before)
      requires forall i :: 0 <= i < |order| ==> order[i] in peers
      modifies this`peers
      ensures Valid() && AllGenuine(payloads[root], gathered) && DistinctSeeds(gathered)
      ensures out.Some? ==> out.value == payloads[root]
      ensures OnlyStores(old(peers), at, root) && p in at && SeedsWithin(before, gathered)
      ensures out.Some? ==>
                && peers == at[p := Rebuilt(at[p], root, payloads[root], gathered)]
                && Sufficient(codec, at[p], total, gathered)
      ensures out.None? ==> peers == at && !Sufficient(codec, peers[p], total, gathered) && asked == order
      ensures out.None? && Lossless(old(peers)) ==> Covers(old(peers), root, order, |order|, gathered)
      ensures out.None? && Lossless(old(peers)) ==> NoSource(old(peers), root, old(peers)[p].symbolSize, order, |order|)
    {
      hide MeshSafe, AllGenuine, Sufficient, OnlyStores, Asking, Unchanged, SeedsWithin, Covers, Lossless,
        DistinctSeeds, NoSource, StoredFor, Synthesized;
      gathered, out, at, asked := before, None, peers, [];
      OnlyStoresRefl(peers, root);
      SeedsSelf(before);
      CoversNone(peers, root, order, gathered);
      NoSourceNone(peers, root, peers[p].symbolSize, order);
      for i := 0 to |order|
        invariant Valid() && AllGenuine(payloads[root], gathered) && DistinctSeeds(gathered) && out.None?
        invariant OnlyStores(old(peers), peers, root) && peers.Keys == old(peers).Keys
        invariant SeedsWithin(before, gathered) && asked == order[..i]
        invariant Lossless(old(peers)) ==> Covers(old(peers), root, order, i, gathered)
        invariant Lossless(old(peers)) ==> NoSource(old(peers), root, old(peers)[p].symbolSize, order, i)
      {
        ghost var middle, held := peers, gathered;
        var incoming, vis := RequestDroplets(order[i], root, {});
        asked := asked + [order[i]];
        AliveStays(middle, peers, root);
        OnlyStoresTrans(old(peers), middle, peers, root);
        LosslessStays(old(peers), peers, root);
        AnswerGenuine(payloads, root, incoming);
        at := peers;
        gathered, out := Gather(p, root, total, gathered, incoming);
        SeedsTrans(before, held, gathered);
        if out.Some? {
          return;
        }
        PutAllSeeds(held, incoming);
        if Lossless(old(peers)) {
          CoversMore(old(peers), middle, root, order, i, held, incoming, gathered);
          NoSourceMore(codec, payloads, old(peers), middle, peers, p, root, order, i, held, incoming);
        }
      }
      assert order[..|order|] == order;
      at := peers;
      out := TryDecode(p, root, total, gathered);
    }

    /**
     Fetches a payload from the swarm in five sweeps. Success(None) stands for a dead peer's null. A
     returned payload is the one its root stands for. A fetch fails only when the droplets gathered do
     not determine it; these hold every seed the peer itself stored and, over lossless links, every seed
     that a live neighbour stored. Over lossless links a live neighbour of the same symbol size that has
     the payload and its recipe is enough for the fetch to succeed.
     */
    method SwarmFetch(p: Id, root: string)
      returns (out: Result<Option<Bytes>, SwarmError>, ghost gathered: seq<Droplet>, ghost asked: seq<Id>)
      requires Valid() && p in peers
      modifies this`peers
      ensures Valid()
      ensures out == Success(None) <==> !old(peers)[p].alive
      ensures out.Success? && out.value.Some? ==> root in payloads && out.value.value == payloads[root]
      ensures out.Success? && out.value.Some? ==>
                p in peers && root in peers[p].reconstructed && peers[p].reconstructed[root] == out.value.value
                && peers[p].recipes == old(peers)[p].recipes
      ensures out.Success? && out.value.Some? ==>
                if root in old(peers)[p].reconstructed then peers == old(peers)
                else Keeps(codec, old(peers), peers, p, root, payloads[root])
      ensures out.Success? && out.value.None? ==> peers == old(peers)
      ensures out.Failure? ==> OnlyStores(old(peers), peers, root)
      ensures out.Failure? && out.error != UnknownRoot ==>
                exists order ::
                  && Gossip.Visits(order, LiveNeighbours(old(peers), p))
                  && asked == order + order + order + order + order
      ensures out == Failure(UnknownRoot) <==>
              old(peers)[p].alive && root !in old(peers)[p].reconstructed && root !in old(peers)[p].recipes
      ensures out.Failure? && out.error != UnknownRoot ==>
                root in payloads && AllGenuine(payloads[root], gathered)
                && !Sufficient(codec, old(peers)[p], |payloads[root]|, gathered)
                && SeedsWithin(StoredFor(old(peers)[p], root), gathered)
      ensures out.Failure? && out.error != UnknownRoot && Lossless(old(peers)) ==>
                forall q :: q in LiveNeighbours(old(peers), p) ==> SeedsWithin(StoredFor(old(peers)[q], root), gathered)
      ensures out.Failure? && out.error != UnknownRoot && Lossless(old(peers)) ==>
                forall q :: q in LiveNeighbours(old(peers), p) ==>
                    !IsSource(old(peers)[q], root, old(peers)[p].symbolSize)
    {
      gathered, asked := [], [];
      RecipeMeans(payloads, peers, p, root);
      StoreIsGenuine(payloads, peers, p, root);
      StoreIsDistinct(payloads, peers, p, root);
      if !peers[p].alive {
        return Success(None), gathered, asked;
      }
      if root in peers[p].reconstructed {
        return Success(Some(peers[p].reconstructed[root])), gathered, asked;
      }
      if root !in peers[p].recipes {
        return Failure(UnknownRoot), gathered, asked;
      }
      var total := peers[p].recipes[root];
      var held := StoredFor(peers[p], root);
      AnswerGenuine(payloads, root, held);
      var order := GossipRound.Visit(LiveNeighbours(peers, p));
      out, gathered, asked := Sweeps(p, root, total, order, held);
      if out.Failure? && Lossless(old(peers)) {
        CoversLive(old(peers), p, root, order, gathered);
      }
    }

    method Sweeps(p: Id, root: string, total: nat, order: seq<Id>, before: seq<Droplet>)
      returns (out: Result<Option<Bytes>, SwarmError>, ghost all: seq<Droplet>, ghost asked: seq<Id>)
      requires Valid() && p in peers && root in payloads && total == |payloads[root]|
      requires AllGenuine(payloads[root], before) && before == StoredFor(peers[p], root) && DistinctSeeds(before)
      requires forall i :: 0 <= i < |order| ==> order[i] in peers
      modifies this`peers
      ensures Valid() && AllGenuine(payloads[root], all)
      ensures out.Success? ==> out.value == Some(payloads[root])
      ensures out.Success? ==> Keeps(codec, old(peers), peers, p, root, payloads[root])
      ensures out.Failure? ==> OnlyStores(old(peers), peers, root)
      ensures out.Failure? ==> asked == order + order + order + order + order
      ensures out.Failure? ==> out.error != UnknownRoot && !Sufficient(codec, old(peers)[p], total, all)
      ensures out.Failure? ==> SeedsWithin(before, all)
      ensures out.Failure? && Lossless(old(peers)) ==> Covers(old(peers), root, order, |order|, all)
      ensures out.Failure? && Lossless(old(peers)) ==>
                NoSource(old(peers), root, old(peers)[p].symbolSize, order, |order|)
    {
      hide MeshSafe, AllGenuine, Sufficient, OnlyStores, SeedsWithin, Covers, Lossless, DistinctSeeds, NoSource,
        StoredFor, Rebuilt, Keeps;
      var gathered, found := before, None;
      ghost var at, round;
      asked := [];
      OnlyStoresRefl(peers, root);
      SeedsSelf(before);
      for i := 0 to 5
        invariant Valid() && AllGenuine(payloads[root], gathered) && DistinctSeeds(gathered)
        invariant OnlyStores(old(peers), peers, root) && peers.Keys == old(peers).Keys
        invariant SeedsWithin(before, gathered)
        invariant asked == Rounds(order, i)
        invariant i > 0 ==> !Sufficient(codec, peers[p], total, gathered)
        invariant i > 0 && Lossless(old(peers)) ==> Covers(old(peers), root, order, |order|, gathered)
        invariant i > 0 && Lossless(old(peers)) ==>
                  NoSource(old(peers), root, old(peers)[p].symbolSize, order, |order|)
      {
        ghost var middle, held := peers, gathered;
        LosslessStays(old(peers), middle, root);
        gathered, found, at, round := Sweep(p, root, total, order, gathered);
        asked := asked + round;
        SeedsTrans(before, held, gathered);
        OnlyStoresTrans(old(peers), middle, at, root);
        if found.Some? {
          RebuiltKeeps(codec, old(peers), at, p, root, payloads[root], gathered);
          return Success(found), gathered, asked;
        }
        if Lossless(old(peers)) {
          CoversEarlier(old(peers), middle, root, order, gathered);
          NoSourceEarlier(old(peers), middle, root, p, order);
        }
        AliveStays(middle, peers, root);
      }
      OnlyStoresMeans(old(peers), peers, root, p);
      SufficientBySize(codec, old(peers)[p], peers[p], total, gathered);
      found := TryDecode(p, root, total, gathered);
      assert found.None?;
      FiveRounds(order);
      var k := CeilDiv(total, peers[p].symbolSize);
      return Failure(if |gathered| >= k then DecodingFailed else Insufficient), gathered, asked;
    }

    /** All peers but these fail. */
    method FailOthers(survivors: set<Id>)
      requires Valid()
      modifies this`peers
      ensures Valid() && peers.Keys == old(peers).Keys
      ensures forall r :: r in peers ==>
                peers[r] == if r in survivors then old(peers)[r] else old(peers)[r].(alive := false)
    {
      var left := peers.Keys - survivors;
      while left != {}
        invariant Valid() && peers.Keys == old(peers).Keys && left <= peers.Keys - survivors
        invariant forall r :: r in peers ==>
                    peers[r] == if r in survivors || r in left then old(peers)[r] else old(peers)[r].(alive := false)
      {
        hide MeshSafe;
        var r :| r in left;
        SetAlive(r, false);
        left := left - {r};
      }
    }

    /**
     Churn of the origin is survived: a peer fetches a nonempty payload, then every peer but this one and a live
     neighbour of the same symbol size fails. Over lossless links the neighbour still fetches the payload.
     */
    method FetchThroughChurn(p: Id, q: Id, root: string) returns (first: Option<Bytes>, second: Option<Bytes>)
      requires Valid() && p in peers && q in peers && p in peers[q].neighbours && Lossless(peers)
      requires peers[p].alive && peers[q].alive && peers[q].symbolSize == peers[p].symbolSize
      requires root in peers[p].recipes && root in peers[q].recipes
      modifies this`peers
      ensures Valid() && peers.Keys == old(peers).Keys
      ensures first.Some? && first.value != [] ==> second == first
      ensures first.Some? ==> forall r :: r in peers && r != p && r != q ==> !peers[r].alive
    {
      hide MeshSafe, Keeps, OnlyStores, Sufficient, SeedsWithin, AllGenuine, StoredFor, Lossless;
      second := None;
      RecipeMeans(payloads, peers, p, root);
      ghost var before := peers;
      ghost var gathered, asked;
      var fetched;
      fetched, gathered, asked := SwarmFetch(p, root);
      if fetched.Failure? || fetched.value.None? {
        return None, None;
      }
      first := fetched.value;
      FetchLeaves(codec, before, peers, p, root, first.value);
      LinksLossless(before, peers);
      FailOthers({p, q});
      LinksLossless(before, peers);
      ghost var dead := peers;
      assert first.value != [] ==> p in LiveNeighbours(dead, q) && IsSource(dead[p], root, dead[q].symbolSize);
      fetched, gathered, asked := SwarmFetch(q, root);
      if fetched.Success? {
        second := fetched.value;
        FetchLeaves(codec, dead, peers, q, root, second.value);
      } else {
        AliveStays(dead, peers, root);
      }
    }
  }
}
