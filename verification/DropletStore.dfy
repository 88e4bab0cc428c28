/** A dictionary of droplets keyed by seed, in Python's insertion order. */
module DropletStore {
  import opened Wrappers
  import opened Fountain

  function FindSeed(store: seq<Droplet>, seed: int): (p: Option<nat>)
    ensures p.Some? ==> p.value < |store| && store[p.value].seed == seed
    ensures p.None? ==> forall d :: d in store ==> d.seed != seed
  {
    if store == [] then None
    else if store[0].seed == seed then Some(0)
    else
      match FindSeed(store[1..], seed)
      case None => None
      case Some(p) => Some(p + 1)
  }

  /** `store[d.seed] = d` */
  function Put(store: seq<Droplet>, d: Droplet): (s: seq<Droplet>)
    ensures d in s
    ensures forall e :: e in s ==> e == d || e in store
    ensures forall e :: e in store && e.seed != d.seed ==> e in s
  {
    match FindSeed(store, d.seed)
    case None => store + [d]
    case Some(p) =>
      assert store[p := d][p] == d;
      assert forall e :: e in store && e.seed != d.seed ==>
        exists i :: 0 <= i < |store| && store[i] == e && store[p := d][i] == e;
      store[p := d]
  }

  function PutAll(store: seq<Droplet>, ds: seq<Droplet>): seq<Droplet> {
    if ds == [] then store else Put(PutAll(store, ds[..|ds| - 1]), ds[|ds| - 1])
  }

  predicate DistinctSeeds(store: seq<Droplet>) {
    forall i, j :: 0 <= i < j < |store| ==> store[i].seed != store[j].seed
  }

  lemma PutDistinct(store: seq<Droplet>, d: Droplet)
    requires DistinctSeeds(store)
    ensures DistinctSeeds(Put(store, d))
  {
  }

  /** Writing an entry replaces the one of its seed and nothing else. */
  lemma PutMembers(store: seq<Droplet>, d: Droplet, e: Droplet)
    requires DistinctSeeds(store)
    ensures e in Put(store, d) <==> e == d || (e in store && e.seed != d.seed)
  {
  }

  /** Stored into an empty dictionary, droplets of different seeds keep their order. */
  lemma {:induction false} PutAllFresh(ds: seq<Droplet>)
    requires DistinctSeeds(ds)
    ensures PutAll([], ds) == ds
  {
    if ds != [] {
      var n := |ds| - 1;
      PutAllFresh(ds[..n]);
      PutNew(ds[..n], ds[n]);
      hide Put;
      assert ds == ds[..n] + [ds[n]];
    }
  }

  lemma PutNew(store: seq<Droplet>, d: Droplet)
    requires forall i :: 0 <= i < |store| ==> store[i].seed != d.seed
    ensures Put(store, d) == store + [d]
  {
  }

  /** An entry keeps its place; a new one comes last. */
  lemma PutPlace(store: seq<Droplet>, d: Droplet, i: nat)
    requires DistinctSeeds(store)
    ensures (exists e :: e in store && e.seed == d.seed) ==> |Put(store, d)| == |store|
    ensures (forall e :: e in store ==> e.seed != d.seed) ==> Put(store, d) == store + [d]
    ensures i < |store| ==> i < |Put(store, d)| && Put(store, d)[i] == if store[i].seed == d.seed then d else store[i]
  {
  }

  /** Droplets that are determined by their seeds are never displaced by a different one. */
  lemma PutKeeps(store: seq<Droplet>, d: Droplet)
    requires forall e :: e in store && e.seed == d.seed ==> e == d
    ensures forall e :: e in Put(store, d) <==> e in store || e == d
  {
  }
}
