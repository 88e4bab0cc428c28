/** SLIP framing of packets (RFC 1055) and the splitter that cuts a byte stream into frames. */
module Slip {
  import opened Wrappers
  import opened Bytes

  const END: byte := 0xC0
  const ESC: byte := 0xDB
  const ESC_END: byte := 0xDC
  const ESC_ESC: byte := 0xDD

  datatype SlipError = DanglingEscape | InvalidEscape | UnexpectedEnd

  function EscapeByte(b: byte): Bytes {
    if b == END then [ESC, ESC_END] else if b == ESC then [ESC, ESC_ESC] else [b]
  }

  function Escape(payload: Bytes): Bytes {
    if payload == [] then [] else EscapeByte(payload[0]) + Escape(payload[1..])
  }

  function Pack(payload: Bytes): Bytes {
    [END] + Escape(payload) + [END]
  }

  /** The body of a frame, one escape sequence or plain byte at a time. */
  function Unescape(body: Bytes): Result<Bytes, SlipError> {
    if body == [] then Success([])
    else if body[0] == ESC then
      if |body| == 1 then Failure(DanglingEscape)
      else if body[1] == ESC_END then Prepend(END, Unescape(body[2..]))
      else if body[1] == ESC_ESC then Prepend(ESC, Unescape(body[2..]))
      else Failure(InvalidEscape)
    else if body[0] == END then Failure(UnexpectedEnd)
    else Prepend(body[0], Unescape(body[1..]))
  }

  function Prepend(b: byte, r: Result<Bytes, SlipError>): Result<Bytes, SlipError> {
    match r
    case Success(rest) => Success([b] + rest)
    case Failure(e) => Failure(e)
  }

  function StripLeft(raw: Bytes): Bytes {
    if raw != [] && raw[0] == END then StripLeft(raw[1..]) else raw
  }

  function StripRight(raw: Bytes): Bytes {
    if raw != [] && raw[|raw| - 1] == END then StripRight(raw[..|raw| - 1]) else raw
  }

  function Unpack(raw: Bytes): Result<Bytes, SlipError> {
    Unescape(StripRight(StripLeft(raw)))
  }

  // ---------------------------------------------------------------- methods

  method SlipPack(payload: Bytes) returns (out: Bytes)
    ensures out == Pack(payload)
  {
    out := [END];
    for i := 0 to |payload|
      invariant out == [END] + Escape(payload[..i])
    {
      var b := payload[i];
      assert payload[..i + 1] == payload[..i] + [b];
      EscapeAppend(payload[..i], [b]);
      assert Escape([b]) == EscapeByte(b);
      if b == END {
        out := out + [ESC, ESC_END];
      } else if b == ESC {
        out := out + [ESC, ESC_ESC];
      } else {
        out := out + [b];
      }
    }
    assert payload[..|payload|] == payload;
    out := out + [END];
  }

  method SlipUnpack(raw: Bytes) returns (r: Result<Bytes, SlipError>)
    ensures r == Unpack(raw)
  {
    var start := SkipLeft(raw);
    var end := SkipRight(raw[start..]);
    hide StripLeft, StripRight, Unescape;
    r := UnescapeBody(raw[start..][..end]);
  }

  /** Where the END bytes in front stop. */
  method SkipLeft(raw: Bytes) returns (start: nat)
    ensures start <= |raw| && raw[start..] == StripLeft(raw)
  {
    start := 0;
    while start < |raw| && raw[start] == END
      invariant start <= |raw| && StripLeft(raw[start..]) == StripLeft(raw)
    {
      assert raw[start..][1..] == raw[start + 1..];
      start := start + 1;
    }
  }

  /** Where the END bytes behind begin. */
  method SkipRight(raw: Bytes) returns (end: nat)
    ensures end <= |raw| && raw[..end] == StripRight(raw)
  {
    end := |raw|;
    assert raw[..end] == raw;
    while end > 0 && raw[end - 1] == END
      invariant end <= |raw| && StripRight(raw[..end]) == StripRight(raw)
    {
      assert raw[..end][..end - 1] == raw[..end - 1];
      end := end - 1;
    }
  }

  function After(out: Bytes, r: Result<Bytes, SlipError>): Result<Bytes, SlipError> {
    match r
    case Success(rest) => Success(out + rest)
    case Failure(e) => Failure(e)
  }

  lemma AfterPrepend(out: Bytes, b: byte, r: Result<Bytes, SlipError>)
    ensures After(out, Prepend(b, r)) == After(out + [b], r)
  {
    if r.Success? {
      assert out + ([b] + r.value) == (out + [b]) + r.value;
    }
  }

  method UnescapeBody(body: Bytes) returns (r: Result<Bytes, SlipError>)
    ensures r == Unescape(body)
  {
    var out: Bytes := [];
    var i := 0;
    assert body[0..] == body;
    assert Unescape(body).Success? ==> [] + Unescape(body).value == Unescape(body).value;
    while i < |body|
      invariant 0 <= i <= |body|
      invariant After(out, Unescape(body[i..])) == Unescape(body)
    {
      var b := body[i];
      ghost var rest := body[i..];
      if b == ESC {
        i := i + 1;
        if i >= |body| {
          return Failure(DanglingEscape);
        }
        assert rest[2..] == body[i + 1..];
        AfterPrepend(out, if body[i] == ESC_END then END else ESC, Unescape(body[i + 1..]));
        var escaped := body[i];
        if escaped == ESC_END {
          out := out + [END];
        } else if escaped == ESC_ESC {
          out := out + [ESC];
        } else {
          return Failure(InvalidEscape);
        }
      } else if b == END {
        return Failure(UnexpectedEnd);
      } else {
        assert rest[1..] == body[i + 1..];
        AfterPrepend(out, b, Unescape(body[i + 1..]));
        out := out + [b];
      }
      i := i + 1;
    }
    assert out + [] == out;
    return Success(out);
  }

  // ---------------------------------------------------------------- framing is invertible

  lemma ConcatAssoc(a: Bytes, b: Bytes, c: Bytes)
    ensures a + (b + c) == (a + b) + c
  {
  }

  lemma EscapeCons(b: byte, rest: Bytes)
    ensures Escape([b] + rest) == EscapeByte(b) + Escape(rest)
  {
    assert ([b] + rest)[1..] == rest;
  }

  lemma {:induction false} EscapeAppend(a: Bytes, b: Bytes)
    ensures Escape(a + b) == Escape(a) + Escape(b)
  {
    if a == [] {
      assert a + b == b;
    } else {
      hide *;
      var x, rest := a[0], a[1..];
      assert a == [x] + rest;
      EscapeAppend(rest, b);
      EscapeCons(x, rest + b);
      EscapeCons(x, rest);
      ConcatAssoc([x], rest, b);
      ConcatAssoc(EscapeByte(x), Escape(rest), Escape(b));
    }
  }

  lemma {:induction false} UnescapeEscape(payload: Bytes)
    ensures Unescape(Escape(payload)) == Success(payload)
  {
    if payload != [] {
      var b, rest := payload[0], payload[1..];
      UnescapeEscape(rest);
      UnescapeSequence(b, Escape(rest));
      assert payload == [b] + rest;
    }
  }

  lemma UnescapeSequence(b: byte, tail: Bytes)
    ensures Unescape(EscapeByte(b) + tail) == Prepend(b, Unescape(tail))
  {
    var e := EscapeByte(b) + tail;
    if b == END || b == ESC {
      assert e[2..] == tail;
    } else {
      assert e[1..] == tail;
    }
  }

  lemma {:induction false} EscapeUnescape(body: Bytes)
    requires Unescape(body).Success?
    ensures Escape(Unescape(body).value) == body
  {
    if body != [] {
      var skip := if body[0] == ESC then 2 else 1;
      var tail := body[skip..];
      EscapeUnescape(tail);
      var p := Unescape(body).value;
      assert p[1..] == Unescape(tail).value;
      assert body == EscapeByte(p[0]) + tail;
    }
  }

  /** A body is accepted exactly when it is the escaping of the payload it yields. */
  lemma UnescapeIff(body: Bytes, payload: Bytes)
    ensures Unescape(body) == Success(payload) <==> body == Escape(payload)
  {
    UnescapeEscape(payload);
    if Unescape(body).Success? {
      EscapeUnescape(body);
    }
  }

  /** The code of RFC 1055, wherever the byte stands. */
  lemma EscapesSpelledOut(before: Bytes, b: byte, after: Bytes)
    ensures Escape(before + [b] + after)
         == Escape(before) + (if b == 0xC0 then [0xDB, 0xDC] else if b == 0xDB then [0xDB, 0xDD] else [b])
             + Escape(after)
    ensures Pack([b]) == [0xC0] + Escape([b]) + [0xC0]
  {
    EscapeAppend(before + [b], after);
    EscapeAppend(before, [b]);
    EscapeCons(b, []);
    assert [b] + [] == [b];
    ConcatAssoc(Escape(before), EscapeByte(b), Escape([]));
    assert EscapeByte(b) + [] == EscapeByte(b);
  }

  lemma {:induction false} EscapeHasNoEnd(payload: Bytes)
    ensures END !in Escape(payload)
  {
    if payload != [] {
      EscapeHasNoEnd(payload[1..]);
    }
  }

  lemma StripEnds(body: Bytes)
    requires END !in body
    ensures StripRight(StripLeft([END] + body + [END])) == body
  {
    var raw := [END] + body + [END];
    assert raw[1..] == body + [END];
    if body == [] {
      assert StripLeft(raw[1..]) == [];
    } else {
      assert body[0] in body && (body + [END])[0] == body[0];
      assert StripLeft(raw) == body + [END];
      assert (body + [END])[..|body|] == body;
      assert body[|body| - 1] in body;
    }
  }

  /** Every packet survives framing. */
  lemma UnpackPack(payload: Bytes)
    ensures Unpack(Pack(payload)) == Success(payload)
  {
    EscapeHasNoEnd(payload);
    StripEnds(Escape(payload));
    UnescapeEscape(payload);
  }

  // ---------------------------------------------------------------- splitting a stream

  function FindEnd(buffer: Bytes, from: nat): (p: Option<nat>)
    requires from <= |buffer|
    ensures p.Some? ==> from <= p.value < |buffer| && buffer[p.value] == END
    ensures p.Some? ==> forall i :: from <= i < p.value ==> buffer[i] != END
    ensures p.None? ==> forall i :: from <= i < |buffer| ==> buffer[i] != END
    decreases |buffer| - from
  {
    if from == |buffer| then None else if buffer[from] == END then Some(from) else FindEnd(buffer, from + 1)
  }

  /** Frames cut off a buffer, and what is left of it. */
  datatype Cut = Cut(frames: seq<Bytes>, rest: Bytes)

  function Following(frames: seq<Bytes>, cut: Cut): Cut {
    Cut(frames + cut.frames, cut.rest)
  }

  lemma FollowingAssoc(f: seq<Bytes>, g: seq<Bytes>, cut: Cut)
    ensures Following(f, Following(g, cut)) == Following(f + g, cut)
    ensures Following([], cut) == cut
  {
    assert f + (g + cut.frames) == (f + g) + cut.frames;
    assert [] + cut.frames == cut.frames;
  }

  /** One turn of the splitter: the first frame and the bytes behind it. */
  function NextFrame(buffer: Bytes): (r: Option<(Bytes, Bytes)>)
    ensures r.Some? ==> |r.value.1| < |buffer|
  {
    var first := FindEnd(buffer, 0);
    if first.None? then None
    else
      var next := FindEnd(buffer, first.value + 1);
      if next.None? then None
      else Some((buffer[first.value..next.value + 1], buffer[next.value + 1..]))
  }

  function Split(buffer: Bytes): Cut
    decreases |buffer|
  {
    match NextFrame(buffer)
    case None => Cut([], buffer)
    case Some((frame, rest)) => Following([frame], Split(rest))
  }

  /** The listening loop over successive reads. */
  function Listen(buffer: Bytes, chunks: seq<Bytes>): Cut
    decreases |chunks|
  {
    if chunks == [] then Cut([], buffer)
    else
      var cut := Split(buffer + chunks[0]);
      Following(cut.frames, Listen(cut.rest, chunks[1..]))
  }

  method SplitBuffer(buffer: Bytes) returns (cut: Cut)
    ensures cut == Split(buffer)
  {
    var frames: seq<Bytes>, rest := [], buffer;
    FollowingAssoc([], [], Split(buffer));
    while END in rest
      invariant Split(buffer) == Following(frames, Split(rest))
      decreases |rest|
    {
      var first := FindEnd(rest, 0);
      var next := FindEnd(rest, first.value + 1);
      if next.None? {
        break;
      }
      var frame := rest[first.value..next.value + 1];
      FollowingAssoc(frames, [frame], Split(rest[next.value + 1..]));
      frames := frames + [frame];
      rest := rest[next.value + 1..];
    }
    assert NextFrame(rest).None?;
    assert frames + [] == frames;
    return Cut(frames, rest);
  }

  method ListenStream(chunks: seq<Bytes>) returns (cut: Cut)
    ensures cut == Listen([], chunks)
  {
    var frames: seq<Bytes>, buffer: Bytes := [], [];
    FollowingAssoc([], [], Listen([], chunks));
    assert chunks[0..] == chunks;
    for i := 0 to |chunks|
      invariant Listen([], chunks) == Following(frames, Listen(buffer, chunks[i..]))
    {
      var next := SplitBuffer(buffer + chunks[i]);
      assert chunks[i..][1..] == chunks[i + 1..];
      FollowingAssoc(frames, next.frames, Listen(next.rest, chunks[i + 1..]));
      frames := frames + next.frames;
      buffer := next.rest;
    }
    assert frames + [] == frames;
    return Cut(frames, buffer);
  }

  lemma {:induction false} FindEndAppend(a: Bytes, b: Bytes, from: nat)
    requires from <= |a|
    ensures FindEnd(a, from).Some? ==> FindEnd(a + b, from) == FindEnd(a, from)
    decreases |a| - from
  {
    if from < |a| {
      FindEndAppend(a, b, from + 1);
    }
  }

  /** A complete frame is cut off the same way whatever arrives later. */
  lemma NextFrameAppend(a: Bytes, b: Bytes)
    requires NextFrame(a).Some?
    ensures NextFrame(a + b) == Some((NextFrame(a).value.0, NextFrame(a).value.1 + b))
  {
    var first := FindEnd(a, 0);
    var next := FindEnd(a, first.value + 1);
    FindEndAppend(a, b, 0);
    FindEndAppend(a, b, first.value + 1);
    assert (a + b)[next.value + 1..] == a[next.value + 1..] + b;
    assert (a + b)[first.value..next.value + 1] == a[first.value..next.value + 1];
  }

  lemma FirstEnd(before: Bytes, after: Bytes, from: nat)
    requires from <= |before| && forall i :: from <= i < |before| ==> before[i] != END
    ensures FindEnd(before + [END] + after, from) == Some(|before|)
    ensures FindEnd(before, from) == None
  {
    var all := before + [END] + after;
    assert all[|before|] == END;
    forall i | from <= i < |before| ensures all[i] != END {
    }
  }

  /**
   A frame of any stream runs from an END byte to the next one; what lies in front of it is dropped, and what does
   not make up a frame yet is kept.
   */
  lemma SplitLaw(noise: Bytes, body: Bytes, rest: Bytes)
    requires END !in noise && END !in body
    ensures Split(noise + [END] + body + [END] + rest)
         == Cut([[END] + body + [END]] + Split(rest).frames, Split(rest).rest)
    ensures Split(noise) == Cut([], noise)
    ensures Split(noise + [END] + body) == Cut([], noise + [END] + body)
  {
    var open1 := noise + [END] + body;
    var all := open1 + [END] + rest;
    FirstEnd(noise, body, 0);
    FirstEnd(noise, body + [END] + rest, 0);
    assert all == noise + [END] + (body + [END] + rest);
    forall i | |noise| + 1 <= i < |open1| ensures open1[i] != END {
      assert open1[i] == body[i - |noise| - 1];
    }
    FirstEnd(open1, rest, |noise| + 1);
    assert all[|noise|..|open1| + 1] == [END] + body + [END] && all[|open1| + 1..] == rest;
    hide FindEnd;
  }

  /** Splitting early and then going on is the same as splitting once at the end. */
  lemma {:induction false} SplitAppend(a: Bytes, b: Bytes)
    ensures Split(a + b) == Following(Split(a).frames, Split(Split(a).rest + b))
    decreases |a|
  {
    hide NextFrame;
    match NextFrame(a)
    case None =>
      FollowingAssoc([], [], Split(a + b));
    case Some((frame, rest)) =>
      NextFrameAppend(a, b);
      SplitAppend(rest, b);
      FollowingAssoc([frame], Split(rest).frames, Split(Split(rest).rest + b));
  }

  /** How the stream is divided into reads does not matter. */
  lemma {:induction false} ListenAnyReads(buffer: Bytes, chunks: seq<Bytes>)
    requires NextFrame(buffer).None?
    ensures Listen(buffer, chunks) == Split(buffer + Concat(chunks))
    decreases |chunks|
  {
    hide NextFrame;
    if chunks == [] {
      assert buffer + Concat(chunks) == buffer;
    } else {
      var cut := Split(buffer + chunks[0]);
      SplitRest(buffer + chunks[0]);
      ListenAnyReads(cut.rest, chunks[1..]);
      SplitAppend(buffer + chunks[0], Concat(chunks[1..]));
      assert buffer + Concat(chunks) == (buffer + chunks[0]) + Concat(chunks[1..]);
    }
  }

  lemma {:induction false} SplitRest(buffer: Bytes)
    ensures NextFrame(Split(buffer).rest).None?
    decreases |buffer|
  {
    hide FindEnd;
    match NextFrame(buffer)
    case None =>
    case Some((_, rest)) => SplitRest(rest);
  }

  function Frames(payloads: seq<Bytes>): seq<Bytes> {
    if payloads == [] then [] else [Pack(payloads[0])] + Frames(payloads[1..])
  }

  lemma NextFrameIsPacket(payload: Bytes, rest: Bytes)
    ensures NextFrame(Pack(payload) + rest) == Some((Pack(payload), rest))
  {
    EscapeHasNoEnd(payload);
    var body, frame := Escape(payload), Pack(payload);
    var buffer, n := frame + rest, |frame| - 1;
    assert buffer[0] == END && buffer[n] == END;
    forall i | 1 <= i < n ensures buffer[i] != END {
      assert buffer[i] == body[i - 1];
    }
    assert FindEnd(buffer, 0) == Some(0);
    assert FindEnd(buffer, 1) == Some(n);
    assert buffer[0..n + 1] == frame;
    assert buffer[n + 1..] == rest;
  }

  /** An aligned stream of frames is cut into exactly those frames. */
  lemma {:induction false} SplitFrames(payloads: seq<Bytes>)
    ensures Split(Concat(Frames(payloads))) == Cut(Frames(payloads), [])
  {
    if payloads != [] {
      SplitFrames(payloads[1..]);
      assert Frames(payloads)[1..] == Frames(payloads[1..]);
      NextFrameIsPacket(payloads[0], Concat(Frames(payloads[1..])));
      hide NextFrame, Pack;
    }
  }

  /** Starting aligned, any division of the frames into reads yields exactly the frames, in order. */
  lemma StreamRoundTrip(payloads: seq<Bytes>, chunks: seq<Bytes>)
    requires Concat(chunks) == Concat(Frames(payloads))
    ensures Listen([], chunks) == Cut(Frames(payloads), [])
  {
    assert NextFrame([]).None? && [] + Concat(chunks) == Concat(chunks);
    hide *;
    ListenAnyReads([], chunks);
    SplitFrames(payloads);
  }

  /** Before the stream ends, what has been emitted is a prefix of the frames. */
  lemma StreamPrefix(payloads: seq<Bytes>, chunks: seq<Bytes>, unread: Bytes)
    requires Concat(chunks) + unread == Concat(Frames(payloads))
    ensures Listen([], chunks).frames <= Frames(payloads)
  {
    ListenAnyReads([], chunks);
    assert [] + Concat(chunks) == Concat(chunks);
    SplitAppend(Concat(chunks), unread);
    SplitFrames(payloads);
  }

  // ---------------------------------------------------------------- joining late

  /** `n` frames without content. */
  function EmptyFrames(n: nat): (f: seq<Bytes>)
    ensures |f| == n && forall i :: 0 <= i < n ==> f[i] == [END, END]
  {
    seq(n, _ => [END, END])
  }

  lemma LateStep(noise: Bytes, payload: Bytes, later: Bytes)
    requires END !in noise
    ensures Split(noise + [END] + (Pack(payload) + later))
         == Following([[END, END]], Split(Escape(payload) + [END] + later))
  {
    var rest := Escape(payload) + [END] + later;
    assert Pack(payload) + later == [END] + rest;
    assert noise + [END] + ([END] + rest) == noise + [END] + [] + [END] + rest;
    SplitLaw(noise, [], rest);
    assert [END] + [] + [END] == [END, END];
  }

  /**
   A listener that joins a stream inside a frame, of which `noise` and an END byte are still to come, cuts off an empty
   frame for every packet that follows, and none of the packets.
   */
  lemma {:induction false} LateJoin(noise: Bytes, payloads: seq<Bytes>)
    requires END !in noise
    ensures Split(noise + [END] + Concat(Frames(payloads))).frames == EmptyFrames(|payloads|)
    decreases |payloads|
  {
    if payloads == [] {
      SplitLaw(noise, [], []);
      assert noise + [END] + [] == noise + [END];
    } else {
      var later := Concat(Frames(payloads[1..]));
      assert Frames(payloads)[1..] == Frames(payloads[1..]);
      EscapeHasNoEnd(payloads[0]);
      LateStep(noise, payloads[0], later);
      LateJoin(Escape(payloads[0]), payloads[1..]);
    }
    hide Split, Pack, Escape;
  }
}
