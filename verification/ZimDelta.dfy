/** The delta engine's loops over streamed files. */
module ZimDelta {
  import opened Wrappers
  import opened Bytes
  import opened Digests
  import opened StreamChunks
  import opened ZimPatch

  const DEFAULT_STREAM_BUFFER_SIZE: nat := 0x10_0000

  /** Successive reads of at most `size` bytes. */
  method ReadFile(file: Bytes, size: nat) returns (pieces: seq<Bytes>)
    requires size > 0
    ensures Concat(pieces) == file
    ensures forall i :: 0 <= i < |pieces| ==> pieces[i] != []
  {
    pieces := [];
    var pos := 0;
    while pos < |file|
      invariant pos <= |file| && Concat(pieces) == file[..pos]
      invariant forall i :: 0 <= i < |pieces| ==> pieces[i] != []
      decreases |file| - pos
    {
      var piece := Read(file, pos, size);
      ConcatSnoc(pieces, piece);
      assert piece == file[pos..pos + |piece|];
      assert file[..pos] + piece == file[..pos + |piece|];
      pieces := pieces + [piece];
      pos := pos + |piece|;
    }
    assert file[..|file|] == file;
  }

  /** The index of the base archive and its digest. */
  method ScanBaseFile(engine: Engine, file: Bytes, limits: Limits)
    returns (offsets: Option<map<string, (nat, nat)>>, digest: HexDigest)
    ensures offsets == Index(FileEntries(engine.chunker, engine.sha3, file), limits)
    ensures digest == engine.sha3(file)
  {
    digest := engine.sha3(file);
    var pieces := ReadFile(file, DEFAULT_STREAM_BUFFER_SIZE);
    var entries := StreamFile(engine.chunker, engine.sha3, pieces);
    var m: map<string, (nat, nat)> := map[];
    for i := 0 to |entries|
      invariant Index(entries[..i], limits) == Some(m)
    {
      var e := entries[i];
      assert entries[..i + 1][..i] == entries[..i];
      if |e.chunk| > limits.maxChunkBytes || (e.digest !in m && |m| >= limits.maxChunks) {
        IndexFails(entries, limits, i + 1);
        return None, digest;
      }
      if e.digest !in m {
        m := m[e.digest := (e.offset, |e.chunk|)];
      }
    }
    assert entries[..|entries|] == entries;
    return Some(m), digest;
  }

  lemma {:induction false} IndexFails(entries: seq<Entry>, limits: Limits, n: nat)
    requires n <= |entries| && Index(entries[..n], limits).None?
    ensures Index(entries, limits).None?
    decreases |entries| - n
  {
    if n < |entries| {
      assert entries[..n + 1][..n] == entries[..n];
      IndexFails(entries, limits, n + 1);
    } else {
      assert entries[..n] == entries;
    }
  }

  lemma {:induction false} CollectFails(entries: seq<Entry>, offsets: map<string, (nat, nat)>, limits: Limits, n: nat)
    requires n <= |entries| && Collected(entries[..n], offsets, limits).Failure?
    ensures Collected(entries, offsets, limits) == Collected(entries[..n], offsets, limits)
    decreases |entries| - n
  {
    if n < |entries| {
      assert entries[..n + 1][..n] == entries[..n];
      CollectFails(entries, offsets, limits, n + 1);
    } else {
      assert entries[..n] == entries;
    }
  }

  lemma CollectStep(entries: seq<Entry>, offsets: map<string, (nat, nat)>, limits: Limits, i: nat)
    requires i < |entries| && Collected(entries[..i], offsets, limits).Success?
    ensures var e, novel := entries[i], Collected(entries[..i], offsets, limits).value;
            Collected(entries[..i + 1], offsets, limits) ==
              if i >= limits.maxChunks || |e.chunk| > limits.maxChunkBytes then Failure(TargetExceedsLimits)
              else if e.digest in offsets || HasDigest(novel, e.digest) then Success(novel)
              else if |e.chunk| >= Pow(256, 4) then Failure(FieldOverflow)
              else Success(novel + [e])
  {
    assert entries[..i + 1][..i] == entries[..i];
  }

  /** The running totals of the novel chunks `firsts`. */
  ghost predicate TallyOf(firsts: seq<Entry>, novel: set<string>, total: nat, spool: Bytes) {
    && (forall d :: d in novel <==> HasDigest(firsts, d))
    && |novel| == |firsts| && total == TotalBytes(firsts) && spool == Records(firsts)
  }

  lemma TallyMember(firsts: seq<Entry>, novel: set<string>, total: nat, spool: Bytes, d: string)
    requires TallyOf(firsts, novel, total, spool)
    ensures d in novel <==> HasDigest(firsts, d)
  {
  }

  lemma TallySnoc(firsts: seq<Entry>, novel: set<string>, total: nat, spool: Bytes, e: Entry)
    requires TallyOf(firsts, novel, total, spool) && e.digest !in novel
    ensures TallyOf(firsts + [e], novel + {e.digest}, total + |e.chunk|, spool + Record(e))
  {
    hide Record;
    var all := firsts + [e];
    assert all[..|firsts|] == firsts && all[|firsts|] == e;
    forall d ensures HasDigest(all, d) <==> HasDigest(firsts, d) || d == e.digest {
      if HasDigest(firsts, d) {
        var i :| 0 <= i < |firsts| && firsts[i].digest == d;
        assert all[i].digest == d;
      }
    }
  }

  /** The producer's variables behind the first `i` target chunks. */
  ghost predicate Tallied(entries: seq<Entry>, offsets: map<string, (nat, nat)>, limits: Limits, i: nat,
                          hashes: seq<string>, novel: set<string>, total: nat, spool: Bytes)
    requires i <= |entries|
  {
    && Collected(entries[..i], offsets, limits).Success?
    && TallyOf(Collected(entries[..i], offsets, limits).value, novel, total, spool)
    && hashes == DigestsOf(entries)[..i]
  }

  lemma TallyNext(entries: seq<Entry>, offsets: map<string, (nat, nat)>, limits: Limits, i: nat,
                  hashes: seq<string>, novel: set<string>, total: nat, spool: Bytes)
    requires i < |entries| && Tallied(entries, offsets, limits, i, hashes, novel, total, spool)
    ensures |hashes| == i
    ensures var e := entries[i];
            if i >= limits.maxChunks || |e.chunk| > limits.maxChunkBytes then
              Collected(entries, offsets, limits) == Failure(TargetExceedsLimits)
            else if e.digest in offsets || e.digest in novel then
              Tallied(entries, offsets, limits, i + 1, hashes + [e.digest], novel, total, spool)
            else if |e.chunk| >= Pow(256, 4) then
              Collected(entries, offsets, limits) == Failure(FieldOverflow)
            else
              Tallied(entries, offsets, limits, i + 1, hashes + [e.digest], novel + {e.digest}, total + |e.chunk|,
                      spool + Record(e))
  {
    assert Collected(entries[..i], offsets, limits).Success?;
    var e, firsts := entries[i], Collected(entries[..i], offsets, limits).value;
    assert TallyOf(firsts, novel, total, spool) && hashes == DigestsOf(entries)[..i];
    hide *;
    CollectStep(entries, offsets, limits, i);
    TallyMember(firsts, novel, total, spool, e.digest);
    DigestsSnoc(entries, i, hashes);
    if Collected(entries[..i + 1], offsets, limits).Failure? {
      CollectFails(entries, offsets, limits, i + 1);
    } else if e.digest in offsets || e.digest in novel {
      TalliedFrom(entries, offsets, limits, i + 1, hashes + [e.digest], novel, total, spool);
    } else {
      TallySnoc(firsts, novel, total, spool, e);
      TalliedFrom(entries, offsets, limits, i + 1, hashes + [e.digest], novel + {e.digest}, total + |e.chunk|,
                  spool + Record(e));
    }
  }

  lemma DigestsSnoc(entries: seq<Entry>, i: nat, hashes: seq<string>)
    requires i < |entries| && hashes == DigestsOf(entries)[..i]
    ensures |hashes| == i && hashes + [entries[i].digest] == DigestsOf(entries)[..i + 1]
  {
  }

  lemma TalliedFrom(entries: seq<Entry>, offsets: map<string, (nat, nat)>, limits: Limits, i: nat,
                    hashes: seq<string>, novel: set<string>, total: nat, spool: Bytes)
    requires i <= |entries| && Collected(entries[..i], offsets, limits).Success?
    requires TallyOf(Collected(entries[..i], offsets, limits).value, novel, total, spool)
    requires hashes == DigestsOf(entries)[..i]
    ensures Tallied(entries, offsets, limits, i, hashes, novel, total, spool)
  {
    hide Collected, TallyOf;
  }

  lemma TallyEnds(entries: seq<Entry>, offsets: map<string, (nat, nat)>, limits: Limits,
                  hashes: seq<string>, novel: set<string>, total: nat, spool: Bytes)
    requires Tallied(entries, offsets, limits, |entries|, hashes, novel, total, spool)
    ensures Collected(entries, offsets, limits).Success?
    ensures var firsts := Collected(entries, offsets, limits).value;
            hashes == DigestsOf(entries) && |novel| == |firsts| && total == TotalBytes(firsts)
                && spool == Records(firsts)
  {
    assert entries[..|entries|] == entries;
    assert hashes == DigestsOf(entries);
  }

  /** The target's digests, the novel chunks and their records. */
  method CollectTarget(entries: seq<Entry>, offsets: map<string, (nat, nat)>, limits: Limits)
    returns (r: Result<(seq<string>, nat, nat, Bytes), PatchError>)
    ensures match Collected(entries, offsets, limits)
            case Failure(e) => r == Failure(e)
            case Success(novel) => r == Success((DigestsOf(entries), |novel|, TotalBytes(novel), Records(novel)))
  {
    var hashes: seq<string> := [];
    var novel: set<string> := {};
    var total: nat, spool: Bytes := 0, [];
    assert Tallied(entries, offsets, limits, 0, hashes, novel, total, spool);
    hide Tallied, Collected, Record, Records, TotalBytes, Pow, DigestsOf;
    for i := 0 to |entries|
      invariant Tallied(entries, offsets, limits, i, hashes, novel, total, spool)
    {
      var e := entries[i];
      TallyNext(entries, offsets, limits, i, hashes, novel, total, spool);
      if |hashes| >= limits.maxChunks || |e.chunk| > limits.maxChunkBytes {
        return Failure(TargetExceedsLimits);
      }
      hashes := hashes + [e.digest];
      if e.digest !in offsets && e.digest !in novel {
        if |e.chunk| >= Pow(256, 4) {
          return Failure(FieldOverflow);
        }
        novel, total, spool := novel + {e.digest}, total + |e.chunk|, spool + Record(e);
      }
    }
    TallyEnds(entries, offsets, limits, hashes, novel, total, spool);
    return Success((hashes, |novel|, total, spool));
  }

  method CreatePatch(engine: Engine, base: Bytes, target: Bytes, metadata: Metadata, limits: Limits)
    returns (r: Result<Bytes, PatchError>)
    ensures r == Created(engine, base, target, metadata, limits)
  {
    hide Index, FileEntries, Collected, Records;
    if |base| > limits.maxTargetBytes || |target| > limits.maxTargetBytes {
      return Failure(ArchiveTooLarge);
    }
    var offsets, baseHash := ScanBaseFile(engine, base, limits);
    if offsets.None? {
      return Failure(BaseExceedsLimits);
    }
    var pieces := ReadFile(target, DEFAULT_STREAM_BUFFER_SIZE);
    var entries := StreamFile(engine.chunker, engine.sha3, pieces);
    var collected := CollectTarget(entries, offsets.value, limits);
    if collected.Failure? {
      return Failure(collected.error);
    }
    var (hashes, novelCount, total, spool) := collected.value;
    var header := Header(baseHash, engine.sha3(target), |target|, hashes, novelCount, total,
                         Some(ParametersOf(engine.chunker)));
    CollectedIsNovel(entries, offsets.value, limits);
    assert header == HeaderFor(engine, base, target, offsets.value);
    var raw := engine.json.render(header, metadata);
    if raw.None? {
      return Failure(BadHeaderText);
    }
    if |raw.value| > limits.maxHeaderBytes {
      return Failure(HeaderTooLarge);
    }
    if |raw.value| >= Pow(256, 4) {
      return Failure(FieldOverflow);
    }
    return Success(MAGIC + ToBytes(|raw.value|, 4) + raw.value + spool);
  }

  lemma {:induction false} ReadRecordsFails(h: Hasher, patch: Bytes, limits: Limits, start: nat, n: nat, count: nat)
    requires n <= count && ReadRecords(h, patch, limits, start, n).Failure?
    ensures ReadRecords(h, patch, limits, start, count) == ReadRecords(h, patch, limits, start, n)
    decreases count - n
  {
    hide ReadRecord;
    if n < count {
      ReadRecordsFails(h, patch, limits, start, n, count - 1);
    }
  }

  method ReadNovelRecords(h: Hasher, patch: Bytes, limits: Limits, start: nat, count: nat)
    returns (r: Result<Novelties, PatchError>)
    ensures r == ReadRecords(h, patch, limits, start, count)
  {
    var novel: map<string, (nat, nat)> := map[];
    var payloadTotal, pos := 0, start;
    for i := 0 to count
      invariant ReadRecords(h, patch, limits, start, i) == Success(Novelties(novel, payloadTotal, pos))
    {
      var next := ReadRecord(h, patch, limits, Novelties(novel, payloadTotal, pos));
      if next.Failure? {
        ReadRecordsFails(h, patch, limits, start, i + 1, count);
        return Failure(next.error);
      }
      novel, payloadTotal, pos := next.value.index, next.value.total, next.value.pos;
    }
    return Success(Novelties(novel, payloadTotal, pos));
  }

  lemma {:induction false} RebuildFails(h: Hasher, base: Bytes, patch: Bytes, offsets: map<string, (nat, nat)>,
                                        novel: map<string, (nat, nat)>, limits: Limits, size: int, hashes: seq<string>,
                                        n: nat)
    requires n <= |hashes| && Rebuild(h, base, patch, offsets, novel, limits, size, hashes[..n]).Failure?
    ensures Rebuild(h, base, patch, offsets, novel, limits, size, hashes)
         == Rebuild(h, base, patch, offsets, novel, limits, size, hashes[..n])
    decreases |hashes| - n
  {
    hide RebuildChunk;
    if n < |hashes| {
      assert hashes[..n + 1][..n] == hashes[..n];
      RebuildFails(h, base, patch, offsets, novel, limits, size, hashes, n + 1);
    } else {
      assert hashes[..n] == hashes;
    }
  }

  method RebuildTarget(h: Hasher, base: Bytes, patch: Bytes, offsets: map<string, (nat, nat)>,
                       novel: map<string, (nat, nat)>, limits: Limits, size: int, hashes: seq<string>)
    returns (r: Result<Bytes, PatchError>)
    ensures r == Rebuild(h, base, patch, offsets, novel, limits, size, hashes)
  {
    var out: Bytes := [];
    for i := 0 to |hashes|
      invariant Rebuild(h, base, patch, offsets, novel, limits, size, hashes[..i]) == Success(out)
    {
      assert hashes[..i + 1][..i] == hashes[..i];
      var next := RebuildChunk(h, base, patch, offsets, novel, limits, size, hashes[i], out);
      if next.Failure? {
        RebuildFails(h, base, patch, offsets, novel, limits, size, hashes, i + 1);
        return Failure(next.error);
      }
      out := next.value;
    }
    assert hashes[..|hashes|] == hashes;
    return Success(out);
  }

  /** Success is the installed output; on a failure nothing is installed. */
  method ApplyPatch(engine: Engine, base: Bytes, patch: Bytes, limits: Limits) returns (r: Result<Bytes, PatchError>)
    ensures r == Applied(engine, base, patch, limits)
  {
    hide Index, FileEntries, ReadRecords, Rebuild, ReadHeader;
    if |base| > limits.maxTargetBytes {
      return Failure(ArchiveTooLarge);
    }
    var read := ReadHeader(engine, patch, limits);
    if read.Failure? {
      return Failure(read.error);
    }
    var (header, start) := read.value;
    var count := if header.novelChunkCount < 0 then 0 else header.novelChunkCount;
    var records := ReadNovelRecords(engine.sha3, patch, limits, start, count);
    if records.Failure? {
      return Failure(records.error);
    }
    var so := records.value;
    if Read(patch, so.pos, 1) != [] || so.total != header.totalNovelBytes
       || exists digest :: digest in so.index && digest !in header.targetChunkHashes {
      return Failure(UnexpectedRecords);
    }
    var offsets, baseHash := ScanBaseFile(engine, base, limits);
    if offsets.None? {
      return Failure(BaseExceedsLimits);
    }
    if baseHash != header.baseSha3 {
      return Failure(BaseDigestMismatch);
    }
    var rebuilt :=
        RebuildTarget(engine.sha3, base, patch, offsets.value, so.index, limits, header.targetSize,
                      header.targetChunkHashes);
    if rebuilt.Failure? {
      return Failure(rebuilt.error);
    }
    if |rebuilt.value| != header.targetSize || engine.sha3(rebuilt.value) != header.targetSha3 {
      return Failure(IntegrityFailure);
    }
    return rebuilt;
  }
}
