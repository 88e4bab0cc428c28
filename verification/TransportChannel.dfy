/** The transport channel: droplets are admitted by the anti-pollution filter and decoded under a root. */
module TransportChannel {
  import opened Wrappers
  import opened Bytes
  import opened Fountain
  import opened FountainDecoding
  import opened FountainEncoding
  import opened DropletStore
  import FountainCodec

  predicate Admissible(codec: Codec, k: nat, d: Droplet) {
    |d.payload| == codec.symbolSize && AuthenticSeed(codec.expand, d.seed, k, Some(d.degree), Some(d.indices))
  }

  /** What the channel holds after a sequence of arrivals. */
  function Received(codec: Codec, k: nat, arrivals: seq<Droplet>): seq<Droplet> {
    if arrivals == [] then []
    else
      var n := |arrivals| - 1;
      var before := Received(codec, k, arrivals[..n]);
      if Admissible(codec, k, arrivals[n]) then Put(before, arrivals[n]) else before
  }

  /** How many of the arrivals the filter turned away. */
  function Rejections(codec: Codec, k: nat, arrivals: seq<Droplet>): nat {
    if arrivals == [] then 0
    else
      var n := |arrivals| - 1;
      Rejections(codec, k, arrivals[..n]) + if Admissible(codec, k, arrivals[n]) then 0 else 1
  }

  class TransportFountainChannel {
    const codec: Codec
    const root: string
    const k: nat
    const origLen: nat
    var receivedDroplets: seq<Droplet>
    var rejectedCount: nat
    /** Every droplet offered so far. */
    ghost var arrivals: seq<Droplet>

    ghost predicate Valid()
      reads this
    {
      && receivedDroplets == Received(codec, k, arrivals)
      && DistinctSeeds(receivedDroplets)
      && rejectedCount == Rejections(codec, k, arrivals)
    }

    constructor (codec: Codec, root: string, k: nat, origLen: nat)
      ensures Valid() && arrivals == [] && receivedDroplets == [] && rejectedCount == 0
      ensures this.codec == codec && this.root == root && this.k == k && this.origLen == origLen
    {
      this.codec, this.root, this.k, this.origLen := codec, root, k, origLen;
      receivedDroplets, rejectedCount, arrivals := [], 0, [];
    }

    method AdmitDroplet(d: Droplet) returns (admitted: bool)
      requires Valid()
      modifies this
      ensures Valid() && arrivals == old(arrivals) + [d]
      ensures admitted <==> Admissible(codec, k, d)
      ensures admitted ==> receivedDroplets == Put(old(receivedDroplets), d) && rejectedCount == old(rejectedCount)
      ensures !admitted ==> receivedDroplets == old(receivedDroplets) && rejectedCount == old(rejectedCount) + 1
    {
      arrivals := arrivals + [d];
      assert arrivals[..|arrivals| - 1] == old(arrivals);
      if |d.payload| != codec.symbolSize {
        rejectedCount := rejectedCount + 1;
        return false;
      }
      if !AuthenticSeed(codec.expand, d.seed, k, Some(d.degree), Some(d.indices)) {
        rejectedCount := rejectedCount + 1;
        return false;
      }
      PutDistinct(receivedDroplets, d);
      receivedDroplets := Put(receivedDroplets, d);
      return true;
    }

    /** Enough droplets were collected for a decoding not to fail for want of them. */
    function CanDecode(): bool
      reads this
    {
      |receivedDroplets| >= k
    }

    method Decode() returns (r: Result<Bytes, DecodeError>)
      ensures r == Decoded(codec, receivedDroplets, k, origLen, Some(root), true)
      ensures !CanDecode() ==> r == Failure(TooFewDroplets)
    {
      UsableCount(codec, receivedDroplets, k, Some(root), true);
      r := FountainCodec.Decode(codec, receivedDroplets, k, origLen, Some(root), true);
    }
  }

  /** The root names the payload, in either letter case and with or without a hexadecimal prefix. */
  predicate RootOf(codec: Codec, data: Bytes, root: string) {
    Lower(StripHexPrefix(root)) == Lower(codec.sha3(data))
  }

  // ---------------------------------------------------------------- what the filter fixes

  /** Droplets are admitted exactly if they are one symbol wide and follow their seeds. */
  lemma AdmissibleIff(codec: Codec, k: nat, d: Droplet)
    ensures Admissible(codec, k, d) <==> FollowsSeed(codec, d, if k == 0 then 1 else k)
  {
    FilterIs(codec.expand, d.seed, k, Some(d.degree), Some(d.indices));
  }

  /** Only the width of a payload enters the filter. */
  lemma FilterIgnoresPayload(codec: Codec, k: nat, d: Droplet, payload: Bytes)
    requires |payload| == |d.payload|
    ensures Admissible(codec, k, d.(payload := payload)) <==> Admissible(codec, k, d)
  {
  }

  /**
   An admitted droplet's equation is the genuine one of its seed, so of the droplets the filter lets
   through exactly the genuine ones are consistent with the payload.
   */
  lemma AdmittedGenuineIff(codec: Codec, data: Bytes, d: Droplet)
    requires data != [] && Admissible(codec, CeilDiv(|data|, codec.symbolSize), d)
    ensures var x := Source(data, codec.symbolSize);
            Explains(d, x) <==> d == DropletFor(codec, x, d.seed)
  {
    var x := Source(data, codec.symbolSize);
    CeilDivBounds(|data|, codec.symbolSize);
    SourceBound(data, codec.symbolSize);
    DropletForExplained(codec, x, d.seed);
    ToFromBytes(d.payload);
    ToFromBytes(DropletFor(codec, x, d.seed).payload);
  }

  // ---------------------------------------------------------------- what the channel holds

  /** The last admissible arrival of its seed. */
  predicate LastAdmissible(codec: Codec, k: nat, arrivals: seq<Droplet>, d: Droplet) {
    exists i :: 0 <= i < |arrivals| && arrivals[i] == d && Admissible(codec, k, d)
             && forall j :: i < j < |arrivals| && Admissible(codec, k, arrivals[j]) ==> arrivals[j].seed != d.seed
  }

  lemma LastStep(codec: Codec, k: nat, before: seq<Droplet>, a: Droplet, d: Droplet)
    ensures LastAdmissible(codec, k, before + [a], d)
       <==> if Admissible(codec, k, a) then d == a || (LastAdmissible(codec, k, before, d) && d.seed != a.seed)
            else LastAdmissible(codec, k, before, d)
  {
    hide Admissible;
    var all, n := before + [a], |before|;
    assert all[n] == a && forall j :: 0 <= j < n ==> all[j] == before[j];
    if LastAdmissible(codec, k, all, d) {
      var i :| 0 <= i < |all| && all[i] == d && Admissible(codec, k, d)
            && forall j :: i < j < |all| && Admissible(codec, k, all[j]) ==> all[j].seed != d.seed;
      if i < n {
        assert before[i] == d;
        assert forall j :: i < j < n && Admissible(codec, k, before[j]) ==> all[j].seed != d.seed;
      }
    }
    if LastAdmissible(codec, k, before, d) && (Admissible(codec, k, a) ==> d.seed != a.seed) {
      var i :| 0 <= i < n && before[i] == d && Admissible(codec, k, d)
            && forall j :: i < j < n && Admissible(codec, k, before[j]) ==> before[j].seed != d.seed;
      assert all[i] == d;
    }
  }

  /** Over any arrivals the channel holds the last admissible one of each seed. */
  lemma {:induction false} ReceivedIsLast(codec: Codec, k: nat, arrivals: seq<Droplet>)
    ensures DistinctSeeds(Received(codec, k, arrivals))
    ensures forall d :: d in Received(codec, k, arrivals) <==> LastAdmissible(codec, k, arrivals, d)
  {
    if arrivals != [] {
      var n := |arrivals| - 1;
      var before, a := Received(codec, k, arrivals[..n]), arrivals[n];
      ReceivedIsLast(codec, k, arrivals[..n]);
      assert arrivals == arrivals[..n] + [a];
      PutDistinct(before, a);
      hide Admissible, LastAdmissible, DistinctSeeds;
      forall d ensures d in Received(codec, k, arrivals) <==> LastAdmissible(codec, k, arrivals, d) {
        LastStep(codec, k, arrivals[..n], a, d);
        PutMembers(before, a, d);
      }
    }
  }

  /** When admitted arrivals are genuine, nothing admitted is lost, whatever else is offered. */
  lemma {:induction false} ReceivedGenuine(codec: Codec, data: Bytes, arrivals: seq<Droplet>)
    requires CeilDiv(|data|, codec.symbolSize) < MAX_UINT32
    requires forall d :: d in arrivals && Admissible(codec, CeilDiv(|data|, codec.symbolSize), d) ==>
              Emitted(codec, data, d)
    ensures var k := CeilDiv(|data|, codec.symbolSize);
            forall d :: d in Received(codec, k, arrivals) <==> d in arrivals && Admissible(codec, k, d)
  {
    hide Admissible, Emitted;
    if arrivals != [] {
      var k, n := CeilDiv(|data|, codec.symbolSize), |arrivals| - 1;
      ReceivedGenuine(codec, data, arrivals[..n]);
      assert arrivals == arrivals[..n] + [arrivals[n]];
      var before := Received(codec, k, arrivals[..n]);
      if Admissible(codec, k, arrivals[n]) {
        forall e | e in before && e.seed == arrivals[n].seed ensures e == arrivals[n] {
          EmittedBySeed(codec, data, e);
          EmittedBySeed(codec, data, arrivals[n]);
        }
        PutKeeps(before, arrivals[n]);
      }
    }
  }

  lemma EmittedBySeed(codec: Codec, data: Bytes, d: Droplet)
    requires CeilDiv(|data|, codec.symbolSize) < MAX_UINT32
    requires Emitted(codec, data, d)
    ensures d == DropletFor(codec, Source(data, codec.symbolSize), d.seed)
    ensures Explains(d, Source(data, codec.symbolSize))
    ensures Admissible(codec, CeilDiv(|data|, codec.symbolSize), d)
  {
    var redundancy, root, nonce :|
      var r := Encoded(codec, data, redundancy, root, nonce);
      r.Some? && d in r.value;
    EncodedCoherent(codec, data, redundancy, root, nonce, d);
    EncodedExplained(codec, data, redundancy, root, nonce, d);
  }

  lemma {:induction false} ReceivedUsable(codec: Codec, k: nat, root: string, arrivals: seq<Droplet>)
    ensures UsableDroplets(codec, Received(codec, k, arrivals), k, Some(root), true) == Received(codec, k, arrivals)
  {
    ReceivedIsLast(codec, k, arrivals);
    hide LastAdmissible;
    forall d | d in Received(codec, k, arrivals) ensures Usable(codec, d, k, Some(root), true) {
      assert LastAdmissible(codec, k, arrivals, d);
      LastIsAdmissible(codec, k, arrivals, d);
    }
    AllUsable(codec, Received(codec, k, arrivals), k, Some(root), true);
  }

  lemma LastIsAdmissible(codec: Codec, k: nat, arrivals: seq<Droplet>, d: Droplet)
    requires LastAdmissible(codec, k, arrivals, d)
    ensures d in arrivals && Admissible(codec, k, d)
  {
  }

  /**
   Over any arrivals of which the last admissible one of each seed is genuine, the channel decodes to the
   payload exactly when what it holds has full rank, and raises a rank error otherwise.
   */
  lemma ChannelExact(codec: Codec, data: Bytes, root: string, arrivals: seq<Droplet>)
    requires RootOf(codec, data, root)
    requires forall d :: LastAdmissible(codec, CeilDiv(|data|, codec.symbolSize), arrivals, d) ==>
               Explains(d, Source(data, codec.symbolSize))
    ensures var k := CeilDiv(|data|, codec.symbolSize);
            var held := Received(codec, k, arrivals);
            var r := Decoded(codec, held, k, |data|, Some(root), true);
            if FullRank(held, k) then r == Success(data) else IsRankError(r)
  {
    var k, x := CeilDiv(|data|, codec.symbolSize), Source(data, codec.symbolSize);
    ReceivedIsLast(codec, k, arrivals);
    ReceivedUsable(codec, k, root, arrivals);
    hide LastAdmissible, FullRank, Explains, Received, Decoded;
    assert ExplainsAll(Received(codec, k, arrivals), x);
    DecodeExact(codec, Received(codec, k, arrivals), k, |data|, Some(root), true, x);
    JoinSource(data, codec.symbolSize);
  }

  /** When all admissible arrivals are genuine, none is displaced: their rank alone decides. */
  lemma ChannelLosesNothing(codec: Codec, data: Bytes, root: string, arrivals: seq<Droplet>, genuine: seq<Droplet>)
    requires CeilDiv(|data|, codec.symbolSize) < MAX_UINT32 && RootOf(codec, data, root)
    requires forall d :: d in arrivals && Admissible(codec, CeilDiv(|data|, codec.symbolSize), d) ==>
              Emitted(codec, data, d)
    requires forall d :: d in genuine <==> d in arrivals && Emitted(codec, data, d)
    ensures var k := CeilDiv(|data|, codec.symbolSize);
            var r := Decoded(codec, Received(codec, k, arrivals), k, |data|, Some(root), true);
            if FullRank(genuine, k) then r == Success(data) else IsRankError(r)
  {
    var k, x := CeilDiv(|data|, codec.symbolSize), Source(data, codec.symbolSize);
    var received := Received(codec, k, arrivals);
    ReceivedGenuine(codec, data, arrivals);
    ReceivedIsLast(codec, k, arrivals);
    hide LastAdmissible, FullRank, Explains, Received, Decoded, Emitted, Admissible;
    forall d | d in arrivals && Emitted(codec, data, d) ensures Explains(d, x) && Admissible(codec, k, d) {
      EmittedBySeed(codec, data, d);
    }
    FullRankMembers(received, genuine, k);
    FullRankMembers(genuine, received, k);
    ChannelExact(codec, data, root, arrivals);
  }

  // ---------------------------------------------------------------- an admitted droplet that is not genuine

  lemma {:induction false} JoinStarts(x: seq<nat>, size: nat)
    requires x != [] && size > 0
    ensures Join(x, size) != [] && Join(x, size)[0] == ToBytes(x[0], size)[0]
  {
    if |x| > 1 {
      JoinStarts(x[..|x| - 1], size);
    } else {
      assert Join(x[..0], size) == [];
    }
  }

  lemma ReceivedNew(codec: Codec, k: nat, arrivals: seq<Droplet>, d: Droplet)
    requires Admissible(codec, k, d) && forall e :: e in Received(codec, k, arrivals) ==> e.seed != d.seed
    ensures Received(codec, k, arrivals + [d]) == Received(codec, k, arrivals) + [d]
  {
    assert (arrivals + [d])[..|arrivals|] == arrivals;
  }

  lemma SourceAdmissible(codec: Codec, x: seq<nat>, i: nat)
    requires Below256(x, codec.symbolSize) && i < |x|
    ensures Admissible(codec, |x|, SystematicDroplet(codec, x, i))
  {
    SystematicExplained(codec, x, i);
  }

  lemma SeedBelow(codec: Codec, x: seq<nat>, n: nat, d: Droplet)
    requires n <= |x| && d in SystematicDroplets(codec, x)[..n]
    ensures d.seed < n
  {
    var i :| 0 <= i < n && SystematicDroplets(codec, x)[i] == d;
  }

  /** The source droplets of a payload, one by one, are all held. */
  lemma {:induction false} SourceReceived(codec: Codec, x: seq<nat>, n: nat)
    requires n <= |x| && Below256(x, codec.symbolSize)
    ensures Received(codec, |x|, SystematicDroplets(codec, x)[..n]) == SystematicDroplets(codec, x)[..n]
  {
    var ds := SystematicDroplets(codec, x);
    if n > 0 {
      var d := ds[n - 1];
      assert d == SystematicDroplet(codec, x, n - 1) && d.seed == n - 1;
      assert ds[..n] == ds[..n - 1] + [d];
      hide *;
      SourceReceived(codec, x, n - 1);
      SourceAdmissible(codec, x, n - 1);
      forall e | e in ds[..n - 1] ensures e.seed != d.seed {
        SeedBelow(codec, x, n - 1, e);
      }
      ReceivedNew(codec, |x|, ds[..n - 1], d);
    } else {
      assert ds[..0] == [];
    }
  }

  /** The first source droplet with another payload: admissible, and it displaces the genuine one. */
  lemma PollutedReceived(codec: Codec, x: seq<nat>, payload: Bytes)
    requires x != [] && Below256(x, codec.symbolSize) && |payload| == codec.symbolSize
    ensures var ds := SystematicDroplets(codec, x);
            Received(codec, |x|, ds + [ds[0].(payload := payload)]) == ds[0 := ds[0].(payload := payload)]
  {
    var ds := SystematicDroplets(codec, x);
    var p := ds[0].(payload := payload);
    SourceReceived(codec, x, |x|);
    assert ds[..|x|] == ds && (ds + [p])[..|x|] == ds;
    assert Admissible(codec, |x|, p);
  }

  /** The polluted list is the source droplets of another word vector. */
  lemma PollutedExplained(codec: Codec, x: seq<nat>, payload: Bytes)
    requires x != [] && Below256(x, codec.symbolSize) && |payload| == codec.symbolSize
    ensures var ds := SystematicDroplets(codec, x);
            ExplainsAll(ds[0 := ds[0].(payload := payload)], x[0 := FromBytes(payload)])
  {
    var ds, y := SystematicDroplets(codec, x), x[0 := FromBytes(payload)];
    ToFromBytes(payload);
    assert Below256(y, codec.symbolSize);
    assert SystematicDroplet(codec, y, 0) == ds[0].(payload := payload);
    forall i | 0 <= i < |x| ensures Explains(SystematicDroplet(codec, y, i), y) {
      SystematicExplained(codec, y, i);
    }
    assert forall i :: 0 < i < |x| ==> ds[i] == SystematicDroplet(codec, y, i);
  }

  /** Decoding held droplets that some word vector explains and determines. */
  lemma HeldDecodes(codec: Codec, held: seq<Droplet>, data: Bytes, root: string, k: nat, y: seq<nat>,
                    arrivals: seq<Droplet>)
    requires |y| == k && RootOf(codec, data, root) && held == Received(codec, k, arrivals)
    requires ExplainsAll(held, y) && FullRank(held, k)
    ensures var out := Take(Join(y, codec.symbolSize), |data|);
            Decoded(codec, held, k, |data|, Some(root), true)
            == if Lower(codec.sha3(out)) == Lower(codec.sha3(data)) then Success(out) else Failure(IntegrityFailure)
  {
    hide Received, ExplainsAll, FullRank, Decoded, Lower, Join, StripHexPrefix;
    ReceivedUsable(codec, k, root, arrivals);
    DecodeExact(codec, held, k, |data|, Some(root), true, y);
  }

  lemma OtherDiffers(data: Bytes, size: SymbolSize, payload: Bytes)
    requires data != [] && |payload| == size && payload[0] != data[0] && Source(data, size) != []
    ensures Take(Join(Source(data, size)[0 := FromBytes(payload)], size), |data|) != data
  {
    ToFromBytes(payload);
    JoinStarts(Source(data, size)[0 := FromBytes(payload)], size);
  }

  /**
   One admitted droplet that is not genuine is enough: behind a complete set of source droplets, which
   decodes, it displaces the genuine one of its seed, and the decoder refuses the result unless the two
   payloads have the same digest.
   */
  lemma PollutionDisplaces(codec: Codec, data: Bytes, root: string, payload: Bytes)
    requires data != [] && RootOf(codec, data, root)
    requires |payload| == codec.symbolSize && payload[0] != data[0]
    ensures var k, x := CeilDiv(|data|, codec.symbolSize), Source(data, codec.symbolSize);
            var ds, other :=
                SystematicDroplets(codec, x), Take(Join(x[0 := FromBytes(payload)], codec.symbolSize), |data|);
            && |ds| > 0 && Admissible(codec, k, ds[0].(payload := payload)) && other != data
            && Decoded(codec, Received(codec, k, ds), k, |data|, Some(root), true) == Success(data)
            && Decoded(codec, Received(codec, k, ds + [ds[0].(payload := payload)]), k, |data|, Some(root), true)
               == (if Lower(codec.sha3(other)) == Lower(codec.sha3(data)) then Success(other)
                   else Failure(IntegrityFailure))
  {
    var size := codec.symbolSize;
    var k, x := CeilDiv(|data|, size), Source(data, size);
    CeilDivBounds(|data|, size);
    SourceBound(data, size);
    var ds, y := SystematicDroplets(codec, x), x[0 := FromBytes(payload)];
    var polluted := ds[0 := ds[0].(payload := payload)];
    SourceReceived(codec, x, k);
    assert ds[..k] == ds;
    PollutedReceived(codec, x, payload);
    forall i | 0 <= i < k ensures Explains(ds[i], x) {
      SystematicExplained(codec, x, i);
    }
    PollutedExplained(codec, x, payload);
    OtherDiffers(data, size, payload);
    UnitsFullRank(ds, k);
    UnitsFullRank(polluted, k);
    hide *;
    HeldDecodes(codec, ds, data, root, k, x, ds);
    HeldDecodes(codec, polluted, data, root, k, y, ds + [ds[0].(payload := payload)]);
    JoinSource(data, size);
  }

  /** Whatever is offered, polluted payloads included, a returned payload is the named one or collides with it. */
  lemma ChannelNeverLies(codec: Codec, data: Bytes, root: string, k: nat, origLen: nat, arrivals: seq<Droplet>)
    requires RootOf(codec, data, root)
    ensures var r := Decoded(codec, Received(codec, k, arrivals), k, origLen, Some(root), true);
            r.Success? && r.value != data ==> Lower(codec.sha3(r.value)) == Lower(codec.sha3(data))
  {
    DecodeIntegrity(codec, Received(codec, k, arrivals), k, origLen, Some(root), true);
  }
}
