/** Packets, the broadcaster and the listener of the Meshtastic bridge. */
module Meshtastic {
  import opened Wrappers
  import opened Bytes
  import opened Fountain
  import opened DropletStore
  import FountainCodec
  import Slip

  datatype Packet = Packet(sessionId: nat, seed: nat, degree: nat, flags: nat, channelIndex: nat, hopLimit: nat,
                           data: Bytes)

  const HEADER_SIZE: nat := 10
  const FLAG_DATA: nat := 0
  const FLAG_MANIFEST: nat := 1

  /** `v & mask` for a mask of `n` low bytes. */
  function Masked(v: int, n: nat): (m: nat)
    ensures m < Pow(256, n)
  {
    PowPositive(256, n);
    ModBelow(v, Pow(256, n));
    v % Pow(256, n)
  }

  lemma MaskIdentity(v: int, n: nat)
    requires 0 <= v < Pow(256, n)
    ensures Masked(v, n) == v
  {
    SmallMod(v, Pow(256, n));
  }

  lemma SmallMod(v: int, m: int)
    requires 0 <= v < m
    ensures v % m == v
  {
  }

  function Raw(p: Packet): Bytes {
    ToBytes(p.sessionId, 4) + ToBytes(p.seed, 2) + ToBytes(p.degree, 1) + ToBytes(p.flags, 1)
    + ToBytes(p.channelIndex, 1) + ToBytes(p.hopLimit, 1) + p.data
  }

  /** The packet that travels: every field cut down to its width. */
  function Stamped(sessionId: int, seed: int, degree: int, data: Bytes, flags: int, channelIndex: int,
                   hopLimit: int): Packet {
    Packet(Masked(sessionId, 4), Masked(seed, 2), Masked(degree, 1), Masked(flags, 1), Masked(channelIndex, 1),
           Masked(hopLimit, 1), data)
  }

  function EncodeFrame(sessionId: int, seed: int, degree: int, data: Bytes, flags: int, channelIndex: int,
                       hopLimit: int): Bytes {
    Slip.Pack(Raw(Stamped(sessionId, seed, degree, data, flags, channelIndex, hopLimit)))
  }

  function ParseRaw(raw: Bytes): Option<Packet> {
    if |raw| < HEADER_SIZE then None
    else Some(Packet(FromBytes(raw[..4]), FromBytes(raw[4..6]), FromBytes(raw[6..7]), FromBytes(raw[7..8]),
                     FromBytes(raw[8..9]), FromBytes(raw[9..10]), raw[10..]))
  }

  /** None stands for the errors of unframing and of a short header. */
  function DecodeFrame(frame: Bytes): Option<Packet> {
    match Slip.Unpack(frame)
    case Failure(_) => None
    case Success(raw) => ParseRaw(raw)
  }

  predicate PacketFits(p: Packet) {
    && p.sessionId < Pow(256, 4) && p.seed < Pow(256, 2) && p.degree < Pow(256, 1)
    && p.flags < Pow(256, 1) && p.channelIndex < Pow(256, 1) && p.hopLimit < Pow(256, 1)
  }

  lemma ParseRawInverse(p: Packet)
    requires PacketFits(p)
    ensures ParseRaw(Raw(p)) == Some(p)
  {
    hide Pow, ToBytes, FromBytes;
    FromToBytes(p.sessionId, 4);
    FromToBytes(p.seed, 2);
    FromToBytes(p.degree, 1);
    FromToBytes(p.flags, 1);
    FromToBytes(p.channelIndex, 1);
    FromToBytes(p.hopLimit, 1);
    var raw := Raw(p);
    assert raw[..4] == ToBytes(p.sessionId, 4);
    assert raw[4..6] == ToBytes(p.seed, 2);
    assert raw[6..7] == ToBytes(p.degree, 1);
    assert raw[7..8] == ToBytes(p.flags, 1);
    assert raw[8..9] == ToBytes(p.channelIndex, 1);
    assert raw[9..10] == ToBytes(p.hopLimit, 1);
    assert raw[10..] == p.data;
  }

  /** A frame carries its packet, with each field masked to its width. */
  lemma DecodeEncodeFrame(sessionId: int, seed: int, degree: int, data: Bytes, flags: int, channelIndex: int,
                          hopLimit: int)
    ensures DecodeFrame(EncodeFrame(sessionId, seed, degree, data, flags, channelIndex, hopLimit))
         == Some(Stamped(sessionId, seed, degree, data, flags, channelIndex, hopLimit))
  {
    var p := Stamped(sessionId, seed, degree, data, flags, channelIndex, hopLimit);
    Slip.UnpackPack(Raw(p));
    ParseRawInverse(p);
  }

  lemma Widths()
    ensures Pow(256, 1) == 0x100 && Pow(256, 2) == 0x1_0000 && Pow(256, 4) == 0x1_0000_0000
  {
    assert Pow(256, 2) == 0x1_0000;
    PowAdd(256, 2, 2);
  }

  lemma OneByte(v: nat)
    requires v < 0x100
    ensures ToBytes(v, 1) == [v]
  {
    assert ToBytes(v, 0) == [];
    assert Pow(256, 0) == 1 && v / 256 == 0;
  }

  /** What is put on the air, byte by byte, before it is escaped. */
  lemma FrameLayout(sessionId: int, seed: int, degree: int, data: Bytes, flags: int, channelIndex: int, hopLimit: int)
    returns (raw: Bytes)
    ensures EncodeFrame(sessionId, seed, degree, data, flags, channelIndex, hopLimit)
         == [0xC0] + Slip.Escape(raw) + [0xC0]
    ensures |raw| == 10 + |data| && raw[10..] == data
    ensures Word32(raw[..4]) == sessionId % 0x1_0000_0000 && Word16(raw[4..6]) == seed % 0x1_0000
    ensures raw[6] == degree % 0x100 && raw[7] == flags % 0x100
    ensures raw[8] == channelIndex % 0x100 && raw[9] == hopLimit % 0x100
  {
    Widths();
    var p := Stamped(sessionId, seed, degree, data, flags, channelIndex, hopLimit);
    raw := Raw(p);
    OneByte(p.degree);
    OneByte(p.flags);
    OneByte(p.channelIndex);
    OneByte(p.hopLimit);
    FromToBytes(p.sessionId, 4);
    FromToBytes(p.seed, 2);
    WordOfFour(ToBytes(p.sessionId, 4));
    WordOfTwo(ToBytes(p.seed, 2));
    hide Pow, ToBytes, FromBytes, Word16, Word32;
    assert raw[..4] == ToBytes(p.sessionId, 4) && raw[4..6] == ToBytes(p.seed, 2);
  }

  // ---------------------------------------------------------------- broadcasting

  /** The data of a manifest packet; None when a field overflows its slot. */
  function ManifestData(origLen: nat, k: nat, symbolSize: nat): Option<Bytes> {
    if origLen < Pow(256, 4) && k < Pow(256, 4) && symbolSize < Pow(256, 2)
    then Some(ToBytes(origLen, 4) + ToBytes(k, 4) + ToBytes(symbolSize, 2))
    else None
  }

  /** The manifest: length and block count in four bytes each, the symbol size in two. */
  lemma ManifestLayout(origLen: nat, k: nat, symbolSize: nat)
    ensures ManifestData(origLen, k, symbolSize).Some? <==>
              origLen < 0x1_0000_0000 && k < 0x1_0000_0000 && symbolSize < 0x1_0000
    ensures ManifestData(origLen, k, symbolSize).Some? ==>
              var m := ManifestData(origLen, k, symbolSize).value;
              |m| == 10 && Word32(m[..4]) == origLen && Word32(m[4..8]) == k && Word16(m[8..]) == symbolSize
  {
    Widths();
    hide Pow, ToBytes, FromBytes, Word16, Word32;
    if ManifestData(origLen, k, symbolSize).Some? {
      var m := ManifestData(origLen, k, symbolSize).value;
      assert m[..4] == ToBytes(origLen, 4) && m[4..8] == ToBytes(k, 4) && m[8..] == ToBytes(symbolSize, 2);
      FromToBytes(origLen, 4);
      FromToBytes(k, 4);
      FromToBytes(symbolSize, 2);
      WordOfFour(m[..4]);
      WordOfFour(m[4..8]);
      WordOfTwo(m[8..]);
    }
  }

  datatype Channel = Channel(sessionId: int, channelIndex: int, hopLimit: int)

  function ManifestFrame(ch: Channel, manifest: Bytes): Bytes {
    EncodeFrame(ch.sessionId, 0, 0, manifest, FLAG_MANIFEST, ch.channelIndex, ch.hopLimit)
  }

  function DataFrame(ch: Channel, d: Droplet): Bytes {
    EncodeFrame(ch.sessionId, d.seed, d.degree, d.payload, FLAG_DATA, ch.channelIndex, ch.hopLimit)
  }

  /**
   The first `n` droplets, with the manifest repeated in front of each but the first whose position the
   interval divides. The remainder is Python's, so a negative interval repeats like its absolute value.
   */
  function Interleaved(ch: Channel, manifest: Bytes, droplets: seq<Droplet>, interval: int, n: nat): seq<Bytes>
    requires n <= |droplets| && (interval != 0 || n <= 1)
  {
    if n == 0 then []
    else
      var i := n - 1;
      Interleaved(ch, manifest, droplets, interval, i)
      + (if i > 0 && FloorMod(i, interval) == 0 then [ManifestFrame(ch, manifest)] else [])
      + [DataFrame(ch, droplets[i])]
  }

  /** The packets of the two kinds of frames, as a receiver decodes them. */
  lemma FramesDecoded(ch: Channel, manifest: Bytes, d: Droplet)
    ensures DecodeFrame(ManifestFrame(ch, manifest)) ==
              Some(Packet(ch.sessionId % 0x1_0000_0000, 0, 0, 1, ch.channelIndex % 0x100, ch.hopLimit % 0x100,
                          manifest))
    ensures DecodeFrame(DataFrame(ch, d)) ==
              Some(Packet(ch.sessionId % 0x1_0000_0000, d.seed % 0x1_0000, d.degree % 0x100, 0,
                          ch.channelIndex % 0x100, ch.hopLimit % 0x100, d.payload))
  {
    Widths();
    hide Pow, DecodeFrame, EncodeFrame;
    DecodeEncodeFrame(ch.sessionId, 0, 0, manifest, FLAG_MANIFEST, ch.channelIndex, ch.hopLimit);
    DecodeEncodeFrame(ch.sessionId, d.seed, d.degree, d.payload, FLAG_DATA, ch.channelIndex, ch.hopLimit);
  }

  /** The manifest is repeated in front of droplet `i`. */
  predicate IsRepeat(i: nat, m: nat)
    requires m > 0
  {
    i > 0 && i % m == 0
  }

  /** How often it has been repeated in front of droplet `i`. */
  function Repeats(i: nat, m: nat): nat
    requires m > 0
  {
    i / m
  }

  lemma RepeatsStep(i: nat, m: nat)
    requires m > 0
    ensures Repeats(i + 1, m) == Repeats(i, m) + if IsRepeat(i + 1, m) then 1 else 0
    ensures Repeats(0, m) == 0 && !IsRepeat(0, m)
  {
    var q, r := i / m, i % m;
    assert i == q * m + r;
    if r + 1 == m {
      assert i + 1 == (q + 1) * m + 0;
      DivModUnique(m, q + 1, 0);
    } else {
      DivModUnique(m, q, r + 1);
    }
  }

  predicate StandsAt(frames: seq<Bytes>, pos: nat, frame: Bytes) {
    pos < |frames| && frames[pos] == frame
  }

  /** Droplet frame `i`, and the manifest directly before it where it is repeated. */
  predicate Placed(frames: seq<Bytes>, manifest: Bytes, data: Bytes, m: nat, i: nat)
    requires m > 0
  {
    && StandsAt(frames, i + Repeats(i, m), data)
    && (IsRepeat(i, m) ==> StandsAt(frames, i + Repeats(i, m) - 1, manifest))
  }

  lemma PlacedStays(front: seq<Bytes>, back: seq<Bytes>, manifest: Bytes, data: Bytes, m: nat, i: nat)
    requires m > 0 && Placed(front, manifest, data, m, i)
    ensures Placed(front + back, manifest, data, m, i)
  {
    hide Repeats, IsRepeat;
  }

  lemma PlacedLast(frames: seq<Bytes>, manifest: Bytes, data: Bytes, m: nat, i: nat)
    requires m > 0 && |frames| == if i == 0 then 0 else i + Repeats(i - 1, m)
    ensures var more := frames + if IsRepeat(i, m) then [manifest, data] else [data];
            |more| == i + 1 + Repeats(i, m) && Placed(more, manifest, data, m, i)
  {
    RepeatsStep(0, m);
    if i > 0 {
      RepeatsStep(i - 1, m);
    }
    hide Repeats, IsRepeat;
  }

  lemma InterleavedNext(ch: Channel, manifest: Bytes, droplets: seq<Droplet>, interval: int, m: nat, i: nat)
    requires i < |droplets| && m > 0 && (interval == m || interval + m == 0)
    ensures Interleaved(ch, manifest, droplets, interval, 0) == []
    ensures Interleaved(ch, manifest, droplets, interval, i + 1)
         == Interleaved(ch, manifest, droplets, interval, i)
            + (if IsRepeat(i, m) then [ManifestFrame(ch, manifest), DataFrame(ch, droplets[i])]
               else [DataFrame(ch, droplets[i])])
  {
    hide DataFrame, ManifestFrame;
  }

  /**
   Where the frames lie: in front of droplet `i` there are `i` droplets and a manifest for every multiple of the
   interval up to `i`, the last of them directly before it where `i` is such a multiple.
   */
  lemma {:induction false} InterleavedAt(ch: Channel, manifest: Bytes, droplets: seq<Droplet>, interval: int, m: nat,
                                         n: nat, i: nat)
    requires i < n <= |droplets| && m > 0 && (interval == m || interval + m == 0)
    ensures var frames := Interleaved(ch, manifest, droplets, interval, n);
            && |frames| == n + Repeats(n - 1, m)
            && Placed(frames, ManifestFrame(ch, manifest), DataFrame(ch, droplets[i]), m, i)
    decreases n
  {
    hide *;
    var before, mf := Interleaved(ch, manifest, droplets, interval, n - 1), ManifestFrame(ch, manifest);
    var last := DataFrame(ch, droplets[n - 1]);
    InterleavedNext(ch, manifest, droplets, interval, m, n - 1);
    if n > 1 {
      InterleavedAt(ch, manifest, droplets, interval, m, n - 1, if i < n - 1 then i else 0);
    }
    PlacedLast(before, mf, last, m, n - 1);
    if i < n - 1 {
      PlacedStays(before, if IsRepeat(n - 1, m) then [mf, last] else [last], mf, DataFrame(ch, droplets[i]), m, i);
    }
  }

  function PlainDroplets(codec: Codec, data: Bytes, redundancy: real): seq<Droplet> {
    PlainEncoding(codec, data, redundancy);
    Encoded(codec, data, redundancy, None, []).value
  }

  lemma PlainEncoding(codec: Codec, data: Bytes, redundancy: real)
    ensures Encoded(codec, data, redundancy, None, []).Some?
  {
  }

  /** The frames written, and whether the call then raised. */
  datatype Sent = Sent(frames: seq<Bytes>, raised: bool)

  /** How many droplets go out: an interval of zero divides by zero at the second one. */
  function SentCount(droplets: seq<Droplet>, interval: int): (n: nat)
    ensures n <= |droplets| && (interval != 0 || n <= 1)
  {
    if interval == 0 && |droplets| > 1 then 1 else |droplets|
  }

  /** One broadcast. Nothing is written when the manifest cannot be packed. */
  function Broadcasted(codec: Codec, data: Bytes, ch: Channel, redundancy: real, interval: int): Sent {
    var droplets := PlainDroplets(codec, data, redundancy);
    match ManifestData(|data|, CeilDiv(|data|, codec.symbolSize), codec.symbolSize)
    case None => Sent([], true)
    case Some(manifest) =>
      var n := SentCount(droplets, interval);
      Sent([ManifestFrame(ch, manifest)] + Interleaved(ch, manifest, droplets, interval, n), n < |droplets|)
  }

  method BroadcastBytes(codec: Codec, data: Bytes, ch: Channel, redundancy: real, interval: int) returns (sent: Sent)
    ensures sent == Broadcasted(codec, data, ch, redundancy, interval)
  {
    hide Encoded, ManifestData, ManifestFrame, DataFrame, CeilDiv;
    PlainEncoding(codec, data, redundancy);
    var encoded := FountainCodec.Encode(codec, data, redundancy, None, []);
    var (droplets, k, origLen) := encoded.value;
    var manifest := ManifestData(origLen, k, codec.symbolSize);
    if manifest.None? {
      return Sent([], true);
    }
    var manifestFrame := ManifestFrame(ch, manifest.value);
    var frames := [manifestFrame];
    for i := 0 to |droplets|
      invariant interval != 0 || i <= 1
      invariant frames == [manifestFrame] + Interleaved(ch, manifest.value, droplets, interval, i)
    {
      if i > 0 {
        if interval == 0 {
          return Sent(frames, true);
        }
        if FloorMod(i, interval) == 0 {
          frames := frames + [manifestFrame];
        }
      }
      frames := frames + [DataFrame(ch, droplets[i])];
    }
    return Sent(frames, false);
  }

  // ---------------------------------------------------------------- listening

  datatype Session = Session(origLen: nat, k: nat, symbolSize: SymbolSize, droplets: seq<Droplet>,
                             reconstructed: Option<Bytes>)

  datatype Outcome = Accepted | Ignored | Raised

  /** The droplet a listener rebuilds from a seed and a payload. */
  function Rebuilt(expand: Sampler, k: nat, seed: nat, payload: Bytes): Droplet {
    if seed < k then Droplet(seed, 1, [seed], payload)
    else Droplet(seed, |expand(seed, k)|, expand(seed, k), payload)
  }

  function IngestManifest(sessions: map<nat, Session>, p: Packet): (map<nat, Session>, Outcome) {
    if |p.data| < 10 then (sessions, Ignored)
    else if p.sessionId in sessions then (sessions, Accepted)
    else
      var size := FromBytes(p.data[8..10]);
      if size < 16 then (sessions, Raised)
      else (sessions[p.sessionId := Session(FromBytes(p.data[..4]), FromBytes(p.data[4..8]), size, [], None)], Accepted)
  }

  function IngestDroplet(codec: Codec, session: Session, seed: nat, payload: Bytes): (Session, Outcome) {
    if session.reconstructed.Some? then (session, Accepted)
    else
      var s := session.(droplets := Put(session.droplets, Rebuilt(codec.expand, session.k, seed, payload)));
      if |s.droplets| < s.k then (s, Ignored)
      else
        match Decoded(codec.(symbolSize := s.symbolSize), s.droplets, s.k, s.origLen, None, false)
        case Success(data) => (s.(reconstructed := Some(data)), Accepted)
        case Failure(_) => (s, Ignored)
  }

  function Ingest(codec: Codec, sessions: map<nat, Session>, frame: Bytes): (map<nat, Session>, Outcome) {
    match DecodeFrame(frame)
    case None => (sessions, Ignored)
    case Some(p) =>
      if p.flags % 2 == FLAG_MANIFEST then IngestManifest(sessions, p)
      else if p.sessionId !in sessions then (sessions, Ignored)
      else
        var (session, outcome) := IngestDroplet(codec, sessions[p.sessionId], p.seed, p.data);
        (sessions[p.sessionId := session], outcome)
  }

  /** The sessions after a sequence of frames. */
  function Heard(codec: Codec, sessions: map<nat, Session>, frames: seq<Bytes>): map<nat, Session> {
    if frames == [] then sessions
    else Ingest(codec, Heard(codec, sessions, frames[..|frames| - 1]), frames[|frames| - 1]).0
  }

  /** What a session has reconstructed; None stands for the error of an incomplete one. */
  function Assembled(sessions: map<nat, Session>, sessionId: nat): Option<Bytes> {
    if sessionId in sessions then sessions[sessionId].reconstructed else None
  }

  class MeshtasticListener {
    const codec: Codec
    var sessions: map<nat, Session>

    constructor (codec: Codec)
      ensures this.codec == codec && sessions == map[]
    {
      this.codec := codec;
      sessions := map[];
    }

    method IngestFrame(frame: Bytes) returns (outcome: Outcome)
      modifies this
      ensures (sessions, outcome) == Ingest(codec, old(sessions), frame)
    {
      hide DecodeFrame, Decoded, Put, Rebuilt, FromBytes;
      var decoded := DecodeFrame(frame);
      if decoded.None? {
        return Ignored;
      }
      var p := decoded.value;
      if p.flags % 2 == FLAG_MANIFEST {
        if |p.data| < 10 {
          return Ignored;
        }
        if p.sessionId !in sessions {
          var size := FromBytes(p.data[8..10]);
          if size < 16 {
            return Raised;
          }
          sessions := sessions[p.sessionId := Session(FromBytes(p.data[..4]), FromBytes(p.data[4..8]), size, [], None)];
        }
        return Accepted;
      }
      if p.sessionId !in sessions {
        return Ignored;
      }
      var state := sessions[p.sessionId];
      if state.reconstructed.Some? {
        assert sessions[p.sessionId := state] == sessions;
        return Accepted;
      }
      state := state.(droplets := Put(state.droplets, Rebuilt(codec.expand, state.k, p.seed, p.data)));
      sessions := sessions[p.sessionId := state];
      if |state.droplets| >= state.k {
        var recovered :=
            FountainCodec.Decode(codec.(symbolSize := state.symbolSize), state.droplets, state.k, state.origLen, None,
                                 false);
        if recovered.Success? {
          state := state.(reconstructed := Some(recovered.value));
          sessions := sessions[p.sessionId := state];
          assert sessions == old(sessions)[p.sessionId := state];
          return Accepted;
        }
      }
      return Ignored;
    }

    method IsComplete(sessionId: nat) returns (complete: bool)
      ensures complete <==> Assembled(sessions, sessionId).Some?
    {
      return sessionId in sessions && sessions[sessionId].reconstructed.Some?;
    }

    method Assemble(sessionId: nat) returns (data: Option<Bytes>)
      ensures data == Assembled(sessions, sessionId)
    {
      if sessionId !in sessions || sessions[sessionId].reconstructed.None? {
        return None;
      }
      return sessions[sessionId].reconstructed;
    }
  }
}
