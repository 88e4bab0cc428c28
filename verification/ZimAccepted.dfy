/** Which patches are created and which are accepted: limits on one side, the whole shape of a patch on the other. */
module ZimAccepted {
  import opened Wrappers
  import opened Bytes
  import opened Cdc
  import opened Digests
  import opened StreamChunks
  import opened ZimPatch
  import opened ZimRoundTrip

  // ---------------------------------------------------------------- what the limits admit

  /** All digests of a scanned file. */
  function DigestSet(entries: seq<Entry>): set<string> {
    set i | 0 <= i < |entries| :: entries[i].digest
  }

  predicate SizesWithin(entries: seq<Entry>, maximum: nat) {
    forall i :: 0 <= i < |entries| ==> |entries[i].chunk| <= maximum
  }

  lemma DigestSetSnoc(before: seq<Entry>, e: Entry)
    ensures DigestSet(before + [e]) == DigestSet(before) + {e.digest}
    ensures e.digest in DigestSet(before) ==> |DigestSet(before + [e])| == |DigestSet(before)|
    ensures e.digest !in DigestSet(before) ==> |DigestSet(before + [e])| == |DigestSet(before)| + 1
    ensures forall n :: SizesWithin(before + [e], n) <==> SizesWithin(before, n) && |e.chunk| <= n
  {
    var all := before + [e];
    assert all[|before|] == e && forall i :: 0 <= i < |before| ==> all[i] == before[i];
    forall d | d in DigestSet(before) + {e.digest} ensures d in DigestSet(all) {
      if d != e.digest {
        var i :| 0 <= i < |before| && before[i].digest == d;
        assert all[i].digest == d;
      }
    }
    assert DigestSet(all) == DigestSet(before) + {e.digest};
    if e.digest in DigestSet(before) {
      assert DigestSet(before) + {e.digest} == DigestSet(before);
    }
  }

  /** A base archive is indexed exactly if its chunks and the number of its different digests keep to the limits. */
  lemma {:induction false} IndexIff(entries: seq<Entry>, limits: Limits)
    ensures Index(entries, limits).Some? <==>
              SizesWithin(entries, limits.maxChunkBytes) && |DigestSet(entries)| <= limits.maxChunks
    ensures Index(entries, limits).Some? ==> Index(entries, limits).value.Keys == DigestSet(entries)
  {
    if entries != [] {
      var n := |entries| - 1;
      var before, e := entries[..n], entries[n];
      assert entries == before + [e];
      IndexIff(before, limits);
      DigestSetSnoc(before, e);
      IndexUnfold(before, e, limits);
      hide Index, DigestSet, SizesWithin;
    }
  }

  lemma IndexUnfold(before: seq<Entry>, e: Entry, limits: Limits)
    ensures var i := Index(before, limits);
            Index(before + [e], limits)
            == if i.None? || |e.chunk| > limits.maxChunkBytes || (e.digest !in i.value && |i.value| >= limits.maxChunks)
               then None
               else if e.digest in i.value then i else Some(i.value[e.digest := (e.offset, |e.chunk|)])
  {
    assert (before + [e])[..|before|] == before;
  }

  /** The target is collected exactly if its chunks keep to the limits and the novel ones to their length field. */
  lemma {:induction false} CollectedIff(entries: seq<Entry>, offsets: map<string, (nat, nat)>, limits: Limits)
    ensures Collected(entries, offsets, limits).Success? <==>
              && |entries| <= limits.maxChunks && SizesWithin(entries, limits.maxChunkBytes)
              && RecordsFit(Novel(entries, offsets))
  {
    if entries != [] {
      var n := |entries| - 1;
      var before, e := entries[..n], entries[n];
      assert entries == before + [e];
      CollectedIff(before, offsets, limits);
      DigestSetSnoc(before, e);
      NovelUnfold(before, e, offsets);
      if Collected(before, offsets, limits).Success? {
        CollectedIsNovel(before, offsets, limits);
      }
      hide Novel, SizesWithin, RecordsFit, HasDigest;
    }
  }

  lemma NovelUnfold(before: seq<Entry>, e: Entry, offsets: map<string, (nat, nat)>)
    ensures var novel := Novel(before, offsets);
            && (e.digest in offsets || HasDigest(novel, e.digest) ==> Novel(before + [e], offsets) == novel)
            && (e.digest !in offsets && !HasDigest(novel, e.digest) ==> Novel(before + [e], offsets) == novel + [e])
            && (RecordsFit(novel + [e]) <==> RecordsFit(novel) && |e.chunk| < Pow(256, 4))
  {
    assert (before + [e])[..|before|] == before;
    hide Pow;
    var novel := Novel(before, offsets);
    assert (novel + [e])[|novel|] == e && forall i :: 0 <= i < |novel| ==> (novel + [e])[i] == novel[i];
  }

  /**
   A patch is created exactly if both files keep to the size limit, the chunks of both to theirs, the base to the
   number of different digests and the target to the number of chunks, and if the header can be printed and keeps to
   its limit.
   */
  lemma CreatedIff(engine: Engine, base: Bytes, target: Bytes, metadata: Metadata, limits: Limits)
    ensures var prior := FileEntries(engine.chunker, engine.sha3, base);
            var entries := FileEntries(engine.chunker, engine.sha3, target);
            Created(engine, base, target, metadata, limits).Success? <==>
              && |base| <= limits.maxTargetBytes && |target| <= limits.maxTargetBytes
              && SizesWithin(prior, limits.maxChunkBytes) && |DigestSet(prior)| <= limits.maxChunks
              && SizesWithin(entries, limits.maxChunkBytes) && |entries| <= limits.maxChunks
              && RecordsFit(Novel(entries, map k | k in DigestSet(prior) :: (0, 0)))
              && var text := HeaderText(engine, base, target, metadata, limits);
                 text.Some? && |text.value.1| <= limits.maxHeaderBytes && |text.value.1| < Pow(256, 4)
  {
    var prior := FileEntries(engine.chunker, engine.sha3, base);
    var entries := FileEntries(engine.chunker, engine.sha3, target);
    IndexIff(prior, limits);
    var index := Index(prior, limits);
    if index.Some? {
      CollectedIff(entries, index.value, limits);
      NovelByKeys(entries, index.value, map k | k in DigestSet(prior) :: (0, 0));
    }
    hide Index, FileEntries, Collected, Novel, HeaderFor, DigestSet, SizesWithin, RecordsFit, Records, Pow, ToBytes;
  }

  /** Which entries are novel depends on the indexed digests alone. */
  lemma {:induction false} NovelByKeys(entries: seq<Entry>, m: map<string, (nat, nat)>, n: map<string, (nat, nat)>)
    requires m.Keys == n.Keys
    ensures Novel(entries, m) == Novel(entries, n)
  {
    if entries != [] {
      NovelByKeys(entries[..|entries| - 1], m, n);
      var d := entries[|entries| - 1].digest;
      assert d in m <==> d in m.Keys;
      assert d in n <==> d in n.Keys;
      hide HasDigest;
    }
  }

  // ---------------------------------------------------------------- what an accepted patch looks like

  lemma FullRead(file: Bytes, pos: nat, n: nat)
    requires |Read(file, pos, n)| == n > 0
    ensures pos + n <= |file| && Read(file, pos, n) == file[pos..pos + n]
  {
  }

  lemma HoldsAtJoin(file: Bytes, pos: nat, a: Bytes, b: Bytes)
    requires HoldsAt(file, pos, a) && HoldsAt(file, pos + |a|, b)
    ensures HoldsAt(file, pos, a + b)
  {
    assert file[pos..pos + |a + b|] == file[pos..pos + |a|] + file[pos + |a|..pos + |a + b|];
  }

  lemma ReadIsHeld(file: Bytes, pos: nat, part: Bytes)
    requires part != [] && Read(file, pos, |part|) == part
    ensures HoldsAt(file, pos, part)
  {
  }

  lemma AsciiDigest(b: Bytes, digest: HexDigest)
    requires FromAscii(b) == Some(digest)
    ensures |b| == 64 && b == HexBytes(digest)
  {
    assert forall i :: 0 <= i < |b| ==> digest[i] == b[i] as char;
  }

  /** What reading a record checks. */
  lemma RecordParts(h: Hasher, patch: Bytes, limits: Limits, prior: Novelties)
    returns (record: Bytes, text: Bytes, e: Entry)
    requires ReadRecord(h, patch, limits, prior).Success?
    ensures record == Read(patch, prior.pos, 5) && |record| == 5 && record[0] == 64
    ensures text == Read(patch, prior.pos + 5, 64) && FromAscii(text) == Some(e.digest)
    ensures |e.chunk| == FromBytes(record[1..]) && e.chunk == Read(patch, prior.pos + 69, |e.chunk|)
    ensures 0 < |e.chunk| <= limits.maxChunkBytes && h(e.chunk) == e.digest && e.digest !in prior.index
    ensures ReadRecord(h, patch, limits, prior).value == Behind(prior, e)
  {
    record, text := Read(patch, prior.pos, 5), Read(patch, prior.pos + 5, 64);
    e := Entry(0, Read(patch, prior.pos + 69, FromBytes(record[1..])), FromAscii(text).value);
    hide Read, FromBytes, FromAscii;
  }

  lemma RecordHeld(patch: Bytes, pos: nat, record: Bytes, text: Bytes, e: Entry)
    requires |record| == 5 && record[0] == 64 && |e.chunk| == FromBytes(record[1..])
    requires FromAscii(text) == Some(e.digest)
    requires HoldsAt(patch, pos, record) && HoldsAt(patch, pos + 5, text) && HoldsAt(patch, pos + 69, e.chunk)
    ensures |e.chunk| < Pow(256, 4) && HoldsAt(patch, pos, Record(e))
  {
    ToFromBytes(record[1..]);
    AsciiDigest(text, e.digest);
    hide FromBytes, ToBytes, FromAscii, HexBytes, HoldsAt, Pow, IsHexDigest;
    assert record == [64] + ToBytes(|e.chunk|, 4);
    HoldsAtJoin(patch, pos, record, text);
    HoldsAtJoin(patch, pos, record + text, e.chunk);
  }

  /** A record that is read is one that the producer writes. */
  lemma RecordIs(h: Hasher, patch: Bytes, limits: Limits, prior: Novelties) returns (e: Entry)
    requires ReadRecord(h, patch, limits, prior).Success?
    ensures GoodEntry(h, e, limits) && e.digest !in prior.index
    ensures HoldsAt(patch, prior.pos, Record(e)) && HoldsAt(patch, prior.pos + 69, e.chunk)
    ensures ReadRecord(h, patch, limits, prior).value == Behind(prior, e)
  {
    var record, text;
    record, text, e := RecordParts(h, patch, limits, prior);
    AsciiDigest(text, e.digest);
    hide Read, FromBytes, FromAscii, HexBytes, HoldsAt, Pow, IsHexDigest, Record, ReadRecord, Behind;
    ReadIsHeld(patch, prior.pos, record);
    ReadIsHeld(patch, prior.pos + 5, text);
    ReadIsHeld(patch, prior.pos + 69, e.chunk);
    RecordHeld(patch, prior.pos, record, text, e);
  }

  lemma ReadRecordsStep(h: Hasher, patch: Bytes, limits: Limits, start: nat, count: nat)
    requires count > 0 && ReadRecords(h, patch, limits, start, count).Success?
    ensures ReadRecords(h, patch, limits, start, count - 1).Success?
    ensures ReadRecords(h, patch, limits, start, count)
         == ReadRecord(h, patch, limits, ReadRecords(h, patch, limits, start, count - 1).value)
  {
    hide ReadRecord;
  }

  lemma GoodBehind(h: Hasher, before: seq<Entry>, e: Entry, limits: Limits)
    requires GoodEntries(h, before, limits) && GoodEntry(h, e, limits)
    ensures GoodEntries(h, before + [e], limits)
  {
    hide GoodEntry;
  }

  /** The entries whose records were read. */
  ghost predicate AreRead(h: Hasher, patch: Bytes, limits: Limits, start: nat, carried: seq<Entry>, so: Novelties) {
    && GoodEntries(h, carried, limits) && DistinctDigests(carried)
    && HoldsAt(patch, start, Records(carried)) && ReadBack(patch, start, carried, so)
  }

  lemma ReadBackNext(patch: Bytes, start: nat, before: seq<Entry>, prior: Novelties, e: Entry)
    requires ReadBack(patch, start, before, prior) && e.digest !in prior.index
    requires HoldsAt(patch, prior.pos + 69, e.chunk)
    ensures prior.pos == start + |Records(before)| && !HasDigest(before, e.digest)
    ensures ReadBack(patch, start, before + [e], Behind(prior, e))
  {
    hide *;
    ReadBackPosition(patch, start, before, prior);
    ReadBackMember(patch, start, before, prior, e.digest);
    ReadBackStep(patch, start, before, e, prior);
  }

  lemma RecordsNext(patch: Bytes, start: nat, before: seq<Entry>, e: Entry)
    requires HoldsAt(patch, start, Records(before)) && HoldsAt(patch, start + |Records(before)|, Record(e))
    ensures HoldsAt(patch, start, Records(before + [e]))
  {
    hide *;
    RecordsAppend(before, e);
    HoldsAtJoin(patch, start, Records(before), Record(e));
  }

  lemma NextIsRead(h: Hasher, patch: Bytes, limits: Limits, start: nat, before: seq<Entry>, prior: Novelties)
    returns (e: Entry)
    requires AreRead(h, patch, limits, start, before, prior) && ReadRecord(h, patch, limits, prior).Success?
    ensures AreRead(h, patch, limits, start, before + [e], ReadRecord(h, patch, limits, prior).value)
  {
    hide GoodEntries, GoodEntry, DistinctDigests, HoldsAt, Record, Records, ReadBack, ReadRecord, Behind, HasDigest,
      Pow;
    e := RecordIs(h, patch, limits, prior);
    ReadBackNext(patch, start, before, prior, e);
    RecordsNext(patch, start, before, e);
    DistinctSnoc(before, e);
    GoodBehind(h, before, e, limits);
  }

  /** All records that are read are those of entries with different digests. */
  lemma {:induction false} RecordsAre(h: Hasher, patch: Bytes, limits: Limits, start: nat, count: nat)
    returns (carried: seq<Entry>)
    requires ReadRecords(h, patch, limits, start, count).Success? && start <= |patch|
    ensures |carried| == count
    ensures AreRead(h, patch, limits, start, carried, ReadRecords(h, patch, limits, start, count).value)
  {
    if count == 0 {
      carried := [];
      assert Records([]) == [];
    } else {
      hide *;
      ReadRecordsStep(h, patch, limits, start, count);
      var before := RecordsAre(h, patch, limits, start, count - 1);
      var e := NextIsRead(h, patch, limits, start, before, ReadRecords(h, patch, limits, start, count - 1).value);
      carried := before + [e];
    }
    hide *;
  }

  /** One part of an installed output: a chunk the patch carries, or else one of the base. */
  predicate PartFrom(carried: seq<Entry>, base: seq<Bytes>, digest: string, part: Bytes) {
    if HasDigest(carried, digest) then
      exists j :: 0 <= j < |carried| && carried[j].digest == digest && part == carried[j].chunk
    else part in base
  }

  lemma CarriedPart(h: Hasher, base: Bytes, patch: Bytes, offsets: map<string, (nat, nat)>, limits: Limits, size: int,
                    start: nat, carried: seq<Entry>, so: Novelties, digest: string, out: Bytes)
    returns (j: nat)
    requires ReadBack(patch, start, carried, so) && digest in so.index
    requires RebuildChunk(h, base, patch, offsets, so.index, limits, size, digest, out).Success?
    ensures j < |carried| && carried[j].digest == digest && h(carried[j].chunk) == digest
    ensures RebuildChunk(h, base, patch, offsets, so.index, limits, size, digest, out).value == out + carried[j].chunk
  {
    ReadBackMember(patch, start, carried, so, digest);
    j :| 0 <= j < |carried| && carried[j].digest == digest;
    ReadBackSlice(patch, start, carried, so, j);
    hide ReadBack, HasDigest;
  }

  lemma BasePart(c: Chunker, h: Hasher, base: Bytes, patch: Bytes, limits: Limits, size: int,
                 novel: map<string, (nat, nat)>, digest: string, out: Bytes)
    returns (part: Bytes)
    requires Index(FileEntries(c, h, base), limits).Some? && digest !in novel
    requires RebuildChunk(h, base, patch, Index(FileEntries(c, h, base), limits).value, novel, limits, size, digest,
                          out)
               .Success?
    ensures part in Chunks(c, base) && h(part) == digest
    ensures RebuildChunk(h, base, patch, Index(FileEntries(c, h, base), limits).value, novel, limits, size, digest, out)
         == Success(out + part)
  {
    var entries := FileEntries(c, h, base);
    IndexSound(entries, limits);
    EntryCount(c, h, base);
    var offsets := Index(entries, limits).value;
    hide Index, FileEntries, Chunks, HasDigest;
    assert IndexEntry(entries, digest, offsets[digest]);
    var i :| 0 <= i < |entries| && entries[i].digest == digest
        && offsets[digest] == (entries[i].offset, |entries[i].chunk|);
    hide IndexEntry;
    TargetEntry(c, h, base, i);
    part := entries[i].chunk;
    assert Read(base, offsets[digest].0, offsets[digest].1) == part;
  }

  predicate PartsFrom(h: Hasher, carried: seq<Entry>, base: seq<Bytes>, hashes: seq<string>, parts: seq<Bytes>) {
    && |parts| == |hashes|
    && forall i :: 0 <= i < |hashes| ==> h(parts[i]) == hashes[i] && PartFrom(carried, base, hashes[i], parts[i])
  }

  lemma PartsSnoc(h: Hasher, carried: seq<Entry>, base: seq<Bytes>, hashes: seq<string>, parts: seq<Bytes>,
                  digest: string, part: Bytes)
    requires PartsFrom(h, carried, base, hashes, parts) && h(part) == digest && PartFrom(carried, base, digest, part)
    ensures PartsFrom(h, carried, base, hashes + [digest], parts + [part])
  {
    hide PartFrom;
  }

  lemma NextPart(c: Chunker, h: Hasher, base: Bytes, patch: Bytes, limits: Limits, size: int, start: nat,
                 carried: seq<Entry>, so: Novelties, digest: string, out: Bytes)
    returns (part: Bytes)
    requires Index(FileEntries(c, h, base), limits).Some? && ReadBack(patch, start, carried, so)
    requires RebuildChunk(h, base, patch, Index(FileEntries(c, h, base), limits).value, so.index, limits, size, digest,
                          out).Success?
    ensures h(part) == digest && PartFrom(carried, Chunks(c, base), digest, part)
    ensures RebuildChunk(h, base, patch, Index(FileEntries(c, h, base), limits).value, so.index, limits, size, digest,
                         out)
         == Success(out + part)
  {
    var offsets := Index(FileEntries(c, h, base), limits).value;
    ReadBackMember(patch, start, carried, so, digest);
    hide Index, FileEntries, Chunks, ReadBack, RebuildChunk, HasDigest;
    if digest in so.index {
      var j := CarriedPart(h, base, patch, offsets, limits, size, start, carried, so, digest, out);
      part := carried[j].chunk;
    } else {
      part := BasePart(c, h, base, patch, limits, size, so.index, digest, out);
    }
  }

  /** Whatever is rebuilt is made of chunks with the listed digests, in order. */
  lemma {:induction false} PartsAre(c: Chunker, h: Hasher, base: Bytes, patch: Bytes, limits: Limits, size: int,
                                    start: nat, carried: seq<Entry>, so: Novelties, hashes: seq<string>)
    returns (parts: seq<Bytes>)
    requires Index(FileEntries(c, h, base), limits).Some? && ReadBack(patch, start, carried, so)
    requires Rebuild(h, base, patch, Index(FileEntries(c, h, base), limits).value, so.index, limits, size,
                     hashes).Success?
    ensures PartsFrom(h, carried, Chunks(c, base), hashes, parts)
    ensures Concat(parts)
         == Rebuild(h, base, patch, Index(FileEntries(c, h, base), limits).value, so.index, limits, size, hashes).value
  {
    if hashes == [] {
      parts := [];
    } else {
      var n := |hashes| - 1;
      var front, last := hashes[..n], hashes[n];
      assert hashes == front + [last];
      RebuildLast(h, base, patch, Index(FileEntries(c, h, base), limits).value, so.index, limits, size, front, last);
      hide *;
      var before := PartsAre(c, h, base, patch, limits, size, start, carried, so, front);
      var part := NextPart(c, h, base, patch, limits, size, start, carried, so, last, Concat(before));
      PartsSnoc(h, carried, Chunks(c, base), front, before, last, part);
      ConcatSnoc(before, part);
      parts := before + [part];
    }
    hide *;
  }

  lemma RebuildLast(h: Hasher, base: Bytes, patch: Bytes, offsets: map<string, (nat, nat)>,
                    novel: map<string, (nat, nat)>, limits: Limits, size: int, front: seq<string>, last: string)
    ensures var before := Rebuild(h, base, patch, offsets, novel, limits, size, front);
            Rebuild(h, base, patch, offsets, novel, limits, size, front + [last])
            == if before.Failure? then before
               else RebuildChunk(h, base, patch, offsets, novel, limits, size, last, before.value)
  {
    assert (front + [last])[..|front|] == front;
    hide RebuildChunk;
  }

  lemma AcceptableMeans(header: Header, limits: Limits)
    requires HeaderAcceptable(header, limits)
    ensures 0 <= header.targetSize <= limits.maxTargetBytes && 0 <= header.totalNovelBytes <= limits.maxTargetBytes
    ensures 0 <= header.novelChunkCount <= limits.maxChunks && |header.targetChunkHashes| <= limits.maxChunks
    ensures IsHexDigest(header.baseSha3) && IsHexDigest(header.targetSha3)
    ensures forall i :: 0 <= i < |header.targetChunkHashes| ==> IsHexDigest(header.targetChunkHashes[i])
  {
    hide IsHexDigest;
  }

  /** What the header reader checks, and where the records begin. */
  lemma HeaderIs(engine: Engine, patch: Bytes, limits: Limits) returns (header: Header, raw: Bytes)
    requires ReadHeader(engine, patch, limits).Success?
    ensures ReadHeader(engine, patch, limits).value == (header, 12 + |raw|)
    ensures 12 + |raw| <= |patch| && patch[..12 + |raw|] == MAGIC + ToBytes(|raw|, 4) + raw
    ensures 0 < |raw| <= limits.maxHeaderBytes && |raw| < Pow(256, 4) && engine.json.parse(raw) == Some(header)
    ensures HeaderAcceptable(header, limits)
    ensures (if header.chunkerParams.Some? then header.chunkerParams.value else [16384, 65536, 131072])
         == [engine.chunker.p.minSize, engine.chunker.p.targetSize, engine.chunker.p.maxSize]
  {
    var lengthRaw := Read(patch, 8, 4);
    var length := FromBytes(lengthRaw);
    raw := Read(patch, 12, length);
    header := engine.json.parse(raw).value;
    ToFromBytes(lengthRaw);
    hide HeaderAcceptable, FromBytes, ToBytes, Pow;
    assert patch[..12 + length] == patch[0..8] + patch[8..12] + patch[12..12 + length];
  }

  /**
   An accepted patch has the shape of a created one: magic, header text, and the records of as many entries as the
   header says, with different digests, each of its own chunk and listed as one of the target's. What is installed is
   made of chunks with the listed digests in order, each carried by the patch or else a chunk of the base, and has
   size and digest as declared, on the declared base.
   */
  lemma AcceptedShape(engine: Engine, base: Bytes, patch: Bytes, limits: Limits)
    returns (header: Header, raw: Bytes, carried: seq<Entry>, parts: seq<Bytes>)
    requires Applied(engine, base, patch, limits).Success?
    ensures patch == MAGIC + ToBytes(|raw|, 4) + raw + Records(carried) && 0 < |raw| <= limits.maxHeaderBytes
    ensures engine.json.parse(raw) == Some(header)
    ensures 0 <= header.targetSize <= limits.maxTargetBytes && 0 <= header.totalNovelBytes <= limits.maxTargetBytes
    ensures 0 <= header.novelChunkCount <= limits.maxChunks && |header.targetChunkHashes| <= limits.maxChunks
    ensures IsHexDigest(header.baseSha3) && IsHexDigest(header.targetSha3)
    ensures forall i :: 0 <= i < |header.targetChunkHashes| ==> IsHexDigest(header.targetChunkHashes[i])
    ensures (if header.chunkerParams.Some? then header.chunkerParams.value else [16384, 65536, 131072])
         == [engine.chunker.p.minSize, engine.chunker.p.targetSize, engine.chunker.p.maxSize]
    ensures |carried| == header.novelChunkCount && TotalBytes(carried) == header.totalNovelBytes
    ensures DistinctDigests(carried) && GoodEntries(engine.sha3, carried, limits)
    ensures forall i :: 0 <= i < |carried| ==> carried[i].digest in header.targetChunkHashes
    ensures PartsFrom(engine.sha3, carried, Chunks(engine.chunker, base), header.targetChunkHashes, parts)
    ensures Applied(engine, base, patch, limits).value == Concat(parts)
    ensures |Concat(parts)| == header.targetSize && engine.sha3(Concat(parts)) == header.targetSha3
    ensures engine.sha3(base) == header.baseSha3 && |base| <= limits.maxTargetBytes
  {
    hide *;
    var start, so;
    header, start, so := AppliedParts(engine, base, patch, limits);
    var read;
    read, raw := HeaderIs(engine, patch, limits);
    AcceptableMeans(header, limits);
    carried := RecordsAre(engine.sha3, patch, limits, start, header.novelChunkCount);
    AllRead(engine.sha3, patch, limits, start, carried, so);
    parts := PartsAre(engine.chunker, engine.sha3, base, patch, limits, header.targetSize, start, carried, so,
                      header.targetChunkHashes);
    assert patch == patch[..start] + patch[start..];
  }

  lemma AllRead(h: Hasher, patch: Bytes, limits: Limits, start: nat, carried: seq<Entry>, so: Novelties)
    requires AreRead(h, patch, limits, start, carried, so) && so.pos >= |patch| >= start
    ensures GoodEntries(h, carried, limits) && DistinctDigests(carried) && ReadBack(patch, start, carried, so)
    ensures patch[start..] == Records(carried) && so.total == TotalBytes(carried)
    ensures forall i :: 0 <= i < |carried| ==> carried[i].digest in so.index
  {
    hide GoodEntries, GoodEntry, DistinctDigests, HoldsAt, Record, Records, ReadBack, HasDigest, TotalBytes;
    ReadBackPosition(patch, start, carried, so);
    RestHeld(patch, start, Records(carried));
    forall i | 0 <= i < |carried| ensures carried[i].digest in so.index {
      ReadBackMember(patch, start, carried, so, carried[i].digest);
      AtIndexHasDigest(carried, i);
    }
  }

  lemma RestHeld(file: Bytes, start: nat, part: Bytes)
    requires HoldsAt(file, start, part) && start + |part| >= |file|
    ensures start <= |file| && file[start..] == part
  {
  }

  /** What applying a patch went through. */
  lemma AppliedParts(engine: Engine, base: Bytes, patch: Bytes, limits: Limits)
    returns (header: Header, start: nat, so: Novelties)
    requires Applied(engine, base, patch, limits).Success?
    ensures ReadHeader(engine, patch, limits) == Success((header, start)) && |base| <= limits.maxTargetBytes
    ensures header.novelChunkCount >= 0
    ensures ReadRecords(engine.sha3, patch, limits, start, header.novelChunkCount) == Success(so)
    ensures so.pos >= |patch| && so.total == header.totalNovelBytes
    ensures forall d :: d in so.index ==> d in header.targetChunkHashes
    ensures Index(FileEntries(engine.chunker, engine.sha3, base), limits).Some? && engine.sha3(base) == header.baseSha3
    ensures var out :=
        Rebuild(engine.sha3, base, patch, Index(FileEntries(engine.chunker, engine.sha3, base), limits).value,
                               so.index, limits, header.targetSize, header.targetChunkHashes);
            && out.Success? && Applied(engine, base, patch, limits) == out
            && |out.value| == header.targetSize && engine.sha3(out.value) == header.targetSha3
  {
    var at := ReadHeader(engine, patch, limits).value;
    header, start := at.0, at.1;
    var same, raw := HeaderIs(engine, patch, limits);
    so := ReadRecords(engine.sha3, patch, limits, start, header.novelChunkCount).value;
    hide ReadHeader, ReadRecords, Index, FileEntries, Rebuild;
  }
}
