/** End-to-end behaviour of one broadcast and one listener. */
module Broadcast {
  import opened Wrappers
  import opened Bytes
  import opened Gf2
  import opened Fountain
  import opened FountainDecoding
  import opened FountainEncoding
  import opened DropletStore
  import opened Meshtastic
  import Slip

  /** One call of the broadcaster. */
  datatype Job = Job(codec: Codec, data: Bytes, ch: Channel, redundancy: real, interval: int) {
    function K(): nat {
      CeilDiv(|data|, codec.symbolSize)
    }

    function X(): (x: seq<nat>)
      ensures |x| == K()
    {
      Source(data, codec.symbolSize)
    }

    function Droplets(): seq<Droplet> {
      PlainDroplets(codec, data, redundancy)
    }

    function SessionId(): nat {
      Masked(ch.sessionId, 4)
    }

    /** Seeds and the symbol size fit their 16 bits. */
    predicate Fits() {
      codec.symbolSize < 0x1_0000 && |Droplets()| <= 0x1_0000
    }

    function Written(): Sent {
      Broadcasted(codec, data, ch, redundancy, interval)
    }

    function Manifest(): Bytes {
      ToBytes(|data|, 4) + ToBytes(K(), 4) + ToBytes(codec.symbolSize, 2)
    }
  }

  /** The frame, if it is about this session at all, is one the broadcast wrote. */
  predicate FromBroadcast(job: Job, frame: Bytes) {
    var p := DecodeFrame(frame);
    p.Some? && p.value.sessionId == job.SessionId() ==> frame in job.Written().frames
  }

  /** What an aligned frame contributes: the manifest, a droplet, or nothing. */
  datatype Content = ManifestContent | DropletContent(d: Droplet) | OtherContent

  /** The droplet a data packet of this broadcast carries. */
  function ContentOf(job: Job, frame: Bytes): Content {
    var p := DecodeFrame(frame);
    if p.None? || p.value.sessionId != job.SessionId() then OtherContent
    else if p.value.flags % 2 == FLAG_MANIFEST then ManifestContent
    else DropletContent(DropletFor(job.codec, job.X(), p.value.seed))
  }

  /** The droplets ingested after the first manifest; None before any manifest. */
  function Collected(job: Job, frames: seq<Bytes>): Option<seq<Droplet>> {
    if frames == [] then None
    else
      var before := Collected(job, frames[..|frames| - 1]);
      match ContentOf(job, frames[|frames| - 1])
      case OtherContent => before
      case ManifestContent => if before.None? then Some([]) else before
      case DropletContent(d) => if before.None? then None else Some(before.value + [d])
  }

  // ---------------------------------------------------------------- the frames of a broadcast

  lemma PlainSeeds(job: Job, i: nat)
    requires i < |job.Droplets()|
    ensures job.data != [] && job.K() > 0
    ensures job.Droplets()[i] == DropletFor(job.codec, job.X(), i)
  {
    CeilDivBounds(|job.data|, job.codec.symbolSize);
  }

  lemma SizesFit(job: Job)
    requires job.Fits()
    ensures job.K() <= |job.Droplets()| && (job.K() == 0 <==> job.data == [])
    ensures |job.data| < Pow(256, 4) && job.K() < Pow(256, 4) && job.codec.symbolSize < Pow(256, 2)
    ensures ManifestData(|job.data|, job.K(), job.codec.symbolSize) == Some(job.Manifest())
  {
    CeilDivBounds(|job.data|, job.codec.symbolSize);
    if job.data == [] {
      EmptyHasNoBlocks(job.codec.symbolSize);
    }
    MulMonotone(job.K(), 0x1_0000, job.codec.symbolSize);
    assert Pow(256, 2) == 0x1_0000;
    assert Pow(256, 4) == 0x1_0000_0000;
  }

  lemma {:induction false} InterleavedMembers(ch: Channel, manifest: Bytes, droplets: seq<Droplet>, interval: int,
                                              n: nat, frame: Bytes)
    requires n <= |droplets| && (interval != 0 || n <= 1)
    ensures frame in Interleaved(ch, manifest, droplets, interval, n) ==>
              frame == ManifestFrame(ch, manifest) || exists i :: 0 <= i < n && frame == DataFrame(ch, droplets[i])
  {
    hide ManifestFrame, DataFrame;
    if n > 0 {
      InterleavedMembers(ch, manifest, droplets, interval, n - 1, frame);
    }
  }

  lemma WrittenMembers(job: Job, frame: Bytes)
    requires job.Fits() && frame in job.Written().frames
    ensures frame == ManifestFrame(job.ch, job.Manifest())
         || exists i :: 0 <= i < |job.Droplets()| && frame == DataFrame(job.ch, job.Droplets()[i])
  {
    SizesFit(job);
    hide DecodeFrame, ManifestFrame, DataFrame, Interleaved, ManifestData;
    InterleavedMembers(job.ch, job.Manifest(), job.Droplets(), job.interval, SentCount(job.Droplets(), job.interval),
                       frame);
  }

  lemma ManifestPacket(job: Job)
    ensures DecodeFrame(ManifestFrame(job.ch, job.Manifest()))
         == Some(Stamped(job.ch.sessionId, 0, 0, job.Manifest(), FLAG_MANIFEST, job.ch.channelIndex, job.ch.hopLimit))
    ensures Masked(FLAG_MANIFEST, 1) == FLAG_MANIFEST
  {
    DecodeEncodeFrame(job.ch.sessionId, 0, 0, job.Manifest(), FLAG_MANIFEST, job.ch.channelIndex, job.ch.hopLimit);
    assert Pow(256, 1) == 256;
    MaskIdentity(FLAG_MANIFEST, 1);
  }

  lemma DataPacket(job: Job, i: nat)
    requires job.Fits() && i < |job.Droplets()|
    ensures var d, p := job.Droplets()[i], DecodeFrame(DataFrame(job.ch, job.Droplets()[i]));
            && d == DropletFor(job.codec, job.X(), i)
            && p.Some? && p.value.sessionId == job.SessionId() && p.value.flags == FLAG_DATA
            && p.value.seed == i && p.value.data == d.payload
  {
    PlainSeeds(job, i);
    var d := job.Droplets()[i];
    DecodeEncodeFrame(job.ch.sessionId, d.seed, d.degree, d.payload, FLAG_DATA, job.ch.channelIndex, job.ch.hopLimit);
    assert Pow(256, 2) == 0x1_0000;
    assert Pow(256, 1) == 256;
    MaskIdentity(i, 2);
    MaskIdentity(FLAG_DATA, 1);
  }

  lemma ManifestContents(job: Job)
    ensures var frame := ManifestFrame(job.ch, job.Manifest());
            && ContentOf(job, frame) == ManifestContent
            && DecodeFrame(frame).Some? && DecodeFrame(frame).value.data == job.Manifest()
  {
    ManifestPacket(job);
    hide ManifestFrame, DecodeFrame, Masked;
  }

  lemma DataContents(job: Job, i: nat)
    requires job.Fits() && i < |job.Droplets()|
    ensures var d := job.Droplets()[i];
            && ContentOf(job, DataFrame(job.ch, d)) == DropletContent(d)
            && DecodeFrame(DataFrame(job.ch, d)).Some? && DecodeFrame(DataFrame(job.ch, d)).value.data == d.payload
  {
    DataPacket(job, i);
    hide DataFrame, DecodeFrame, Masked, DropletFor;
  }

  /** A frame of the broadcast for this session is the manifest or carries the droplet of its seed. */
  lemma BroadcastFrameCases(job: Job, frame: Bytes)
    requires job.Fits() && FromBroadcast(job, frame) && !ContentOf(job, frame).OtherContent?
    ensures ContentOf(job, frame).ManifestContent? ==> DecodeFrame(frame).value.data == job.Manifest()
    ensures ContentOf(job, frame).DropletContent? ==>
              job.data != [] && DecodeFrame(frame).value.data == ContentOf(job, frame).d.payload
  {
    assert frame in job.Written().frames;
    hide *;
    WrittenMembers(job, frame);
    if frame == ManifestFrame(job.ch, job.Manifest()) {
      ManifestContents(job);
    } else {
      var i :| 0 <= i < |job.Droplets()| && frame == DataFrame(job.ch, job.Droplets()[i]);
      DataContents(job, i);
      PlainSeeds(job, i);
    }
  }

  // ---------------------------------------------------------------- the listener's state

  /** The listener's session agrees with the droplets collected so far. */
  ghost predicate Tracks(job: Job, sessions: map<nat, Session>, collected: Option<seq<Droplet>>) {
    && (job.SessionId() in sessions <==> collected.Some?)
    && (collected.Some? ==>
          var s := sessions[job.SessionId()];
          && s.origLen == |job.data| && s.k == job.K() && s.symbolSize == job.codec.symbolSize
          && (forall d :: d in collected.value ==> d == DropletFor(job.codec, job.X(), d.seed))
          && (forall d :: d in s.droplets ==> d in collected.value)
          && (s.reconstructed.None? ==> forall d :: d in collected.value ==> d in s.droplets)
          && s.reconstructed == if job.data != [] && FullRank(collected.value, job.K()) then Some(job.data) else None)
  }

  /** The listener reads the sizes the manifest states. */
  lemma ManifestFields(job: Job)
    requires job.Fits()
    ensures |job.Manifest()| == 10
    ensures FromBytes(job.Manifest()[..4]) == |job.data| && FromBytes(job.Manifest()[4..8]) == job.K()
    ensures FromBytes(job.Manifest()[8..10]) == job.codec.symbolSize
  {
    SizesFit(job);
    hide *;
    FromToBytes(|job.data|, 4);
    FromToBytes(job.K(), 4);
    FromToBytes(job.codec.symbolSize, 2);
    ThreeFields(ToBytes(|job.data|, 4), ToBytes(job.K(), 4), ToBytes(job.codec.symbolSize, 2));
    ManifestIs(job);
  }

  lemma ManifestIs(job: Job)
    ensures job.Manifest() == ToBytes(|job.data|, 4) + ToBytes(job.K(), 4) + ToBytes(job.codec.symbolSize, 2)
  {
  }

  lemma ThreeFields(a: Bytes, b: Bytes, c: Bytes)
    requires |a| == 4 && |b| == 4 && |c| == 2
    ensures var m := a + b + c; |m| == 10 && m[..4] == a && m[4..8] == b && m[8..10] == c
  {
  }

  /** The first manifest opens the session, a later one changes nothing. */
  lemma ManifestOpens(job: Job, sessions: map<nat, Session>, p: Packet)
    requires job.Fits() && p.sessionId == job.SessionId() && p.data == job.Manifest()
    ensures IngestManifest(sessions, p).0
         == if job.SessionId() in sessions then sessions
            else sessions[job.SessionId() := Session(|job.data|, job.K(), job.codec.symbolSize, [], None)]
  {
    ManifestFields(job);
    hide FromBytes, Job.Manifest, Job.SessionId;
  }

  lemma TrackOpened(job: Job, sessions: map<nat, Session>)
    requires job.Fits()
    ensures Tracks(job, sessions[job.SessionId() := Session(|job.data|, job.K(), job.codec.symbolSize, [], None)],
                   Some([]))
  {
    SizesFit(job);
    if job.data != [] {
      TooFewEquations(SystemOf([], job.K()), job.K());
    }
    hide Job.Manifest, Job.SessionId, Job.K, Job.Fits, Job.X, Job.Droplets, DropletFor, FullRank;
  }

  lemma TrackManifest(job: Job, sessions: map<nat, Session>, collected: Option<seq<Droplet>>, p: Packet)
    requires job.Fits() && Tracks(job, sessions, collected)
    requires p.sessionId == job.SessionId() && p.data == job.Manifest()
    ensures Tracks(job, IngestManifest(sessions, p).0, if collected.None? then Some([]) else collected)
  {
    assert job.SessionId() in sessions <==> collected.Some?;
    hide *;
    ManifestOpens(job, sessions, p);
    TrackOpened(job, sessions);
  }

  lemma RebuiltDroplet(job: Job, seed: nat)
    ensures var d := DropletFor(job.codec, job.X(), seed);
            Rebuilt(job.codec.expand, job.K(), seed, d.payload) == d && d.seed == seed
  {
  }

  lemma {:induction false} SeedOf(job: Job, seed: int)
    ensures DropletFor(job.codec, job.X(), seed).seed == seed
  {
  }

  /** One droplet moves the session from the rank of the old collection to that of the new one. */
  lemma TrackDroplet(job: Job, s: Session, collected: seq<Droplet>, seed: nat)
    requires job.Fits()
    requires s.origLen == |job.data| && s.k == job.K() && s.symbolSize == job.codec.symbolSize
    requires forall d :: d in collected ==> d == DropletFor(job.codec, job.X(), d.seed)
    requires forall d :: d in s.droplets <==> d in collected
    requires s.reconstructed.None?
    ensures var d := DropletFor(job.codec, job.X(), seed);
            var t := IngestDroplet(job.codec, s, seed, d.payload).0;
            && t.origLen == s.origLen && t.k == s.k && t.symbolSize == s.symbolSize
            && (forall e :: e in t.droplets <==> e in collected + [d])
            && t.reconstructed == if FullRank(collected + [d], job.K()) then Some(job.data) else None
  {
    var d := DropletFor(job.codec, job.X(), seed);
    RebuiltDroplet(job, seed);
    PutKeeps(s.droplets, d);
    var stored := Put(s.droplets, d);
    assert forall e :: e in stored <==> e in collected + [d];
    FullRankMembers(stored, collected + [d], job.K());
    FullRankMembers(collected + [d], stored, job.K());
    DecodeCollected(job, stored);
  }

  lemma DecodeCollected(job: Job, stored: seq<Droplet>)
    requires forall d :: d in stored ==> d == DropletFor(job.codec, job.X(), d.seed)
    ensures var r := Decoded(job.codec, stored, job.K(), |job.data|, None, false);
            if FullRank(stored, job.K()) then |stored| >= job.K() && r == Success(job.data) else r.Failure?
  {
    SourceBound(job.data, job.codec.symbolSize);
    forall d | d in stored ensures Explains(d, job.X()) && Usable(job.codec, d, job.K(), None, false) {
      DropletForExplained(job.codec, job.X(), d.seed);
    }
    AllUsable(job.codec, stored, job.K(), None, false);
    DecodeExact(job.codec, stored, job.K(), |job.data|, None, false, job.X());
    JoinSource(job.data, job.codec.symbolSize);
    if |stored| < job.K() {
      TooFewEquations(SystemOf(stored, job.K()), job.K());
    }
  }

  lemma TrackStep(job: Job, sessions: map<nat, Session>, collected: Option<seq<Droplet>>, frame: Bytes)
    requires job.Fits() && FromBroadcast(job, frame) && Tracks(job, sessions, collected)
    ensures var after := match ContentOf(job, frame)
              case OtherContent => collected
              case ManifestContent => if collected.None? then Some([]) else collected
              case DropletContent(d) => if collected.None? then None else Some(collected.value + [d]);
            Tracks(job, Ingest(job.codec, sessions, frame).0, after)
  {
    hide FromBroadcast, Decoded, DecodeFrame, Put, FromBytes;
    var content := ContentOf(job, frame);
    if !content.OtherContent? {
      BroadcastFrameCases(job, frame);
      var p := DecodeFrame(frame).value;
      if content.ManifestContent? {
        TrackManifest(job, sessions, collected, p);
      } else if collected.Some? {
        var s := sessions[job.SessionId()];
        SeedOf(job, p.seed);
        if s.reconstructed.None? {
          TrackDroplet(job, s, collected.value, p.seed);
        } else {
          FullRankMembers(collected.value, collected.value + [content.d], job.K());
        }
      }
    }
  }

  /**
   End to end: whatever frames of the broadcast arrive, in whatever order, repeated or lost, and mixed
   with arbitrary frames of other sessions, the listener holds the payload exactly when there is one, a
   manifest has arrived and the droplets behind it have full rank; otherwise it holds nothing.
   */
  lemma {:induction false} ListenerExact(job: Job, sessions: map<nat, Session>, frames: seq<Bytes>)
    requires job.Fits() && job.SessionId() !in sessions
    requires forall f :: f in frames ==> FromBroadcast(job, f)
    ensures Tracks(job, Heard(job.codec, sessions, frames), Collected(job, frames))
  {
    hide FromBroadcast, ContentOf, Ingest;
    if frames != [] {
      var n := |frames| - 1;
      ListenerExact(job, sessions, frames[..n]);
      assert frames[n] in frames;
      TrackStep(job, Heard(job.codec, sessions, frames[..n]), Collected(job, frames[..n]), frames[n]);
    }
  }

  /** What a caller is given, as the collected droplets determine it. */
  lemma ReconstructionIff(job: Job, sessions: map<nat, Session>, frames: seq<Bytes>)
    requires job.Fits() && job.SessionId() !in sessions
    requires forall f :: f in frames ==> FromBroadcast(job, f)
    ensures var c := Collected(job, frames);
            Assembled(Heard(job.codec, sessions, frames), job.SessionId())
              == if job.data != [] && c.Some? && FullRank(c.value, job.K()) then Some(job.data) else None
  {
    ListenerExact(job, sessions, frames);
  }

  /** An empty broadcast is a manifest and nothing else, and its session never completes. */
  lemma EmptyNeverCompletes(job: Job, sessions: map<nat, Session>, frames: seq<Bytes>)
    requires job.Fits() && job.SessionId() !in sessions && job.data == []
    requires forall f :: f in frames ==> FromBroadcast(job, f)
    ensures job.Written() == Sent([ManifestFrame(job.ch, job.Manifest())], false)
    ensures Assembled(Heard(job.codec, sessions, frames), job.SessionId()) == None
  {
    SizesFit(job);
    ReconstructionIff(job, sessions, frames);
  }

  /** Once set, the reconstruction never changes, whatever arrives afterwards. */
  lemma {:induction false} ReconstructionIsStable(codec: Codec, sessions: map<nat, Session>, frames: seq<Bytes>,
                                                  sid: nat)
    requires sid in sessions && sessions[sid].reconstructed.Some?
    ensures sid in Heard(codec, sessions, frames)
    ensures Heard(codec, sessions, frames)[sid].reconstructed == sessions[sid].reconstructed
  {
    if frames != [] {
      ReconstructionIsStable(codec, sessions, frames[..|frames| - 1], sid);
    }
  }

  // ---------------------------------------------------------------- a lossless transmission completes

  lemma {:induction false} CollectedInterleaved(job: Job, n: nat)
    requires job.Fits() && n <= |job.Droplets()| && (job.interval != 0 || n <= 1)
    ensures Collected(job, [ManifestFrame(job.ch, job.Manifest())]
                           + Interleaved(job.ch, job.Manifest(), job.Droplets(), job.interval, n))
         == Some(job.Droplets()[..n])
  {
    hide ManifestFrame, DataFrame, ContentOf, Job.Droplets, Job.Manifest, Job.Fits;
    var first := ManifestFrame(job.ch, job.Manifest());
    var ds := job.Droplets();
    ManifestContents(job);
    if n == 0 {
      assert Collected(job, []) == None;
      CollectedSnoc(job, [], first);
      assert [] + [first] == [first] + Interleaved(job.ch, job.Manifest(), ds, job.interval, 0);
    } else {
      CollectedInterleaved(job, n - 1);
      hide Collected;
      var before := [first] + Interleaved(job.ch, job.Manifest(), ds, job.interval, n - 1);
      var middle := before + if n - 1 > 0 && FloorMod(n - 1, job.interval) == 0 then [first] else [];
      CollectedSnoc(job, before, first);
      assert middle == before || middle == before + [first];
      DataContents(job, n - 1);
      CollectedSnoc(job, middle, DataFrame(job.ch, ds[n - 1]));
      assert ds[..n] == ds[..n - 1] + [ds[n - 1]];
      assert [first] + Interleaved(job.ch, job.Manifest(), ds, job.interval, n)
          == middle + [DataFrame(job.ch, ds[n - 1])];
    }
  }

  lemma CollectedSnoc(job: Job, frames: seq<Bytes>, frame: Bytes)
    ensures Collected(job, frames + [frame]) == match ContentOf(job, frame)
              case OtherContent => Collected(job, frames)
              case ManifestContent => if Collected(job, frames).None? then Some([]) else Collected(job, frames)
              case DropletContent(d) =>
                if Collected(job, frames).None? then None else Some(Collected(job, frames).value + [d])
  {
    assert (frames + [frame])[..|frames|] == frames;
  }

  // ---------------------------------------------------------------- from bytes to bytes

  function ManifestRaw(job: Job): Bytes {
    Raw(Stamped(job.ch.sessionId, 0, 0, job.Manifest(), FLAG_MANIFEST, job.ch.channelIndex, job.ch.hopLimit))
  }

  function DataRaw(ch: Channel, d: Droplet): Bytes {
    Raw(Stamped(ch.sessionId, d.seed, d.degree, d.payload, FLAG_DATA, ch.channelIndex, ch.hopLimit))
  }

  /** The packets behind the frames written for one droplet. */
  function DropletRaws(job: Job, i: nat): seq<Bytes>
    requires i < |job.Droplets()| && (job.interval != 0 || i == 0)
  {
    (if i > 0 && FloorMod(i, job.interval) == 0 then [ManifestRaw(job)] else []) + [DataRaw(job.ch, job.Droplets()[i])]
  }

  lemma InterleavedStep(job: Job, i: nat)
    requires i < |job.Droplets()| && (job.interval != 0 || i == 0)
    ensures Interleaved(job.ch, job.Manifest(), job.Droplets(), job.interval, i + 1)
         == Interleaved(job.ch, job.Manifest(), job.Droplets(), job.interval, i) + Slip.Frames(DropletRaws(job, i))
  {
    hide Slip.Pack, Raw, Stamped, Job.Droplets, Job.Manifest, ManifestRaw;
    var data := DataRaw(job.ch, job.Droplets()[i]);
    FramesConcat([ManifestRaw(job)], [data]);
    FramesOne(data);
    FramesOne(ManifestRaw(job));
    ManifestRawIs(job);
    assert [] + [data] == [data];
  }

  /** Every frame written is a packed packet. */
  lemma {:induction false} InterleavedPackets(job: Job, n: nat) returns (packets: seq<Bytes>)
    requires n <= |job.Droplets()| && (job.interval != 0 || n <= 1)
    ensures Slip.Frames(packets) == Interleaved(job.ch, job.Manifest(), job.Droplets(), job.interval, n)
  {
    packets := [];
    if n > 0 {
      hide *;
      var before := InterleavedPackets(job, n - 1);
      packets := before + DropletRaws(job, n - 1);
      FramesConcat(before, DropletRaws(job, n - 1));
      InterleavedStep(job, n - 1);
    }
  }

  lemma ManifestRawIs(job: Job)
    ensures Slip.Pack(ManifestRaw(job)) == ManifestFrame(job.ch, job.Manifest())
  {
    hide Slip.Pack, Raw, Stamped;
  }

  lemma FramesOne(payload: Bytes)
    ensures Slip.Frames([payload]) == [Slip.Pack(payload)] && Slip.Frames([]) == []
  {
    hide Slip.Pack;
  }

  lemma {:induction false} FramesConcat(a: seq<Bytes>, b: seq<Bytes>)
    ensures Slip.Frames(a + b) == Slip.Frames(a) + Slip.Frames(b)
  {
    hide Slip.Pack;
    if a == [] {
      assert a + b == b;
    } else {
      FramesConcat(a[1..], b);
      assert (a + b)[1..] == a[1..] + b;
    }
  }

  lemma WrittenPackets(job: Job) returns (packets: seq<Bytes>)
    requires job.Fits()
    ensures Slip.Frames(packets) == job.Written().frames
  {
    SizesFit(job);
    var n := SentCount(job.Droplets(), job.interval);
    var rest := InterleavedPackets(job, n);
    packets := [ManifestRaw(job)] + rest;
    hide Slip.Pack, Raw, Stamped, Interleaved, ManifestRaw;
    FramesConcat([ManifestRaw(job)], rest);
    FramesOne(ManifestRaw(job));
    ManifestRawIs(job);
  }

  /**
   From bytes to bytes: if the serial stream carries all frames of a broadcast that did not raise, cut
   into reads in any way, the frames the splitter emits leave the listener with exactly the payload, or
   with nothing if the payload is empty.
   */
  lemma LosslessStream(job: Job, chunks: seq<Bytes>)
    requires job.Fits() && !job.Written().raised
    requires Concat(chunks) == Concat(job.Written().frames)
    ensures Assembled(Heard(job.codec, map[], Slip.Listen([], chunks).frames), job.SessionId())
         == if job.data == [] then None else Some(job.data)
  {
    var packets := WrittenPackets(job);
    Slip.StreamRoundTrip(packets, chunks);
    var frames := job.Written().frames;
    WrittenCollects(job);
    assert forall f :: f in frames ==> FromBroadcast(job, f);
    hide *;
    ReconstructionIff(job, map[], frames);
  }

  /** All frames together carry all droplets, which have full rank. */
  lemma WrittenCollects(job: Job)
    requires job.Fits() && !job.Written().raised
    ensures var c := Collected(job, job.Written().frames); c.Some? && FullRank(c.value, job.K())
  {
    SizesFit(job);
    var n := SentCount(job.Droplets(), job.interval);
    CollectedInterleaved(job, n);
    assert job.Droplets()[..n] == job.Droplets();
    PlainEncoding(job.codec, job.data, job.redundancy);
    EncodedFullRank(job.codec, job.data, job.redundancy, None, []);
  }

  // ---------------------------------------------------------------- joining late

  lemma {:induction false} FramesFrom(packets: seq<Bytes>, i: nat)
    requires i <= |Slip.Frames(packets)|
    ensures |packets| == |Slip.Frames(packets)| && Slip.Frames(packets[i..]) == Slip.Frames(packets)[i..]
    decreases |packets|
  {
    hide Slip.Pack;
    if packets != [] {
      FramesFrom(packets[1..], if i == 0 then 0 else i - 1);
      assert i > 0 ==> packets[1..][i - 1..] == packets[i..];
      assert i == 0 ==> packets[i..] == packets && Slip.Frames(packets)[i..] == Slip.Frames(packets);
    }
  }

  /** A frame without content changes nothing. */
  lemma EmptyFrameIgnored(codec: Codec, sessions: map<nat, Session>)
    ensures Ingest(codec, sessions, [Slip.END, Slip.END]) == (sessions, Ignored)
  {
    assert [Slip.END, Slip.END] == Slip.Pack([]);
    Slip.UnpackPack([]);
  }

  lemma {:induction false} EmptyFramesIgnored(codec: Codec, sessions: map<nat, Session>, n: nat)
    ensures Heard(codec, sessions, Slip.EmptyFrames(n)) == sessions
  {
    if n > 0 {
      EmptyFramesIgnored(codec, sessions, n - 1);
      EmptyFrameIgnored(codec, sessions);
      assert Slip.EmptyFrames(n)[..n - 1] == Slip.EmptyFrames(n - 1);
      hide Ingest;
    }
  }

  /** A listener that joins a broadcast between two frames hears all that follow. */
  lemma JoinBetween(job: Job, i: nat, chunks: seq<Bytes>)
    requires job.Fits() && i <= |job.Written().frames| && Concat(chunks) == Concat(job.Written().frames[i..])
    ensures Slip.Listen([], chunks) == Slip.Cut(job.Written().frames[i..], [])
  {
    var packets := WrittenPackets(job);
    hide *;
    FramesFrom(packets, i);
    Slip.StreamRoundTrip(packets[i..], chunks);
  }

  /**
   A listener that joins inside a frame, of which `noise` and an END byte are still to come, hears nothing of the
   broadcast, however often the manifest is repeated and however the stream is read.
   */
  lemma JoinInside(job: Job, i: nat, noise: Bytes, sessions: map<nat, Session>, chunks: seq<Bytes>)
    requires job.Fits() && i <= |job.Written().frames| && Slip.END !in noise
    requires Concat(chunks) == noise + [Slip.END] + Concat(job.Written().frames[i..])
    ensures Heard(job.codec, sessions, Slip.Listen([], chunks).frames) == sessions
  {
    var packets := WrittenPackets(job);
    assert Slip.NextFrame([]).None? && [] + Concat(chunks) == Concat(chunks);
    hide *;
    FramesFrom(packets, i);
    Slip.ListenAnyReads([], chunks);
    Slip.LateJoin(noise, packets[i..]);
    EmptyFramesIgnored(job.codec, sessions, |packets[i..]|);
  }
}
