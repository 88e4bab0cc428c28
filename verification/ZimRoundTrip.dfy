/** Patches rebuild their target, and nothing else is ever installed. */
module ZimRoundTrip {
  import opened Wrappers
  import opened Bytes
  import opened Cdc
  import opened Digests
  import opened StreamChunks
  import opened ZimPatch

  // ---------------------------------------------------------------- the base index

  predicate IndexEntry(entries: seq<Entry>, digest: string, at: (nat, nat)) {
    exists i :: 0 <= i < |entries| && entries[i].digest == digest && at == (entries[i].offset, |entries[i].chunk|)
  }

  lemma EntryBehind(before: seq<Entry>, e: Entry, d: string, at: (nat, nat))
    ensures IndexEntry(before, d, at) ==> IndexEntry(before + [e], d, at)
    ensures IndexEntry(before + [e], e.digest, (e.offset, |e.chunk|))
    ensures HasDigest(before + [e], d) <==> HasDigest(before, d) || d == e.digest
  {
    var all := before + [e];
    assert all[|before|] == e && forall i :: 0 <= i < |before| ==> all[i] == before[i];
  }

  lemma {:induction false} IndexSound(entries: seq<Entry>, limits: Limits)
    requires Index(entries, limits).Some?
    ensures var m := Index(entries, limits).value;
            && (forall d :: d in m ==> IndexEntry(entries, d, m[d]))
            && (forall d :: HasDigest(entries, d) ==> d in m)
            && (forall d :: d in m ==> m[d].1 <= limits.maxChunkBytes)
  {
    if entries != [] {
      var n := |entries| - 1;
      IndexSound(entries[..n], limits);
      var m := Index(entries, limits).value;
      IndexStep(entries, limits);
      hide Index, HasDigest, IndexEntry;
      assert entries == entries[..n] + [entries[n]];
      forall d | d in m ensures IndexEntry(entries, d, m[d]) {
        EntryBehind(entries[..n], entries[n], d, m[d]);
      }
      forall d | HasDigest(entries, d) ensures d in m {
        EntryBehind(entries[..n], entries[n], d, (0, 0));
      }
    }
  }

  /** What scanning one more entry does to the index. */
  lemma IndexStep(entries: seq<Entry>, limits: Limits)
    requires entries != [] && Index(entries, limits).Some?
    ensures var before, e := Index(entries[..|entries| - 1], limits), entries[|entries| - 1];
            && before.Some? && |e.chunk| <= limits.maxChunkBytes
            && Index(entries, limits).value
               == if e.digest in before.value then before.value else before.value[e.digest := (e.offset, |e.chunk|)]
  {
  }

  // ---------------------------------------------------------------- the novel chunks

  predicate DistinctDigests(entries: seq<Entry>) {
    forall i, j :: 0 <= i < j < |entries| ==> entries[i].digest != entries[j].digest
  }

  lemma {:induction false} NovelMembers(entries: seq<Entry>, offsets: map<string, (nat, nat)>)
    ensures |Novel(entries, offsets)| <= |entries|
    ensures forall e :: e in Novel(entries, offsets) ==> e in entries
  {
    if entries != [] {
      var n := |entries| - 1;
      NovelMembers(entries[..n], offsets);
      hide HasDigest;
      assert entries == entries[..n] + [entries[n]];
    }
  }

  lemma DistinctSnoc(before: seq<Entry>, e: Entry)
    ensures DistinctDigests(before + [e]) <==> DistinctDigests(before) && !HasDigest(before, e.digest)
    ensures TotalBytes(before + [e]) == TotalBytes(before) + |e.chunk|
  {
    var all := before + [e];
    assert all[..|before|] == before;
    if DistinctDigests(all) {
      forall i, j | 0 <= i < j < |before| ensures before[i].digest != before[j].digest {
        assert all[i] == before[i] && all[j] == before[j];
      }
      forall i | 0 <= i < |before| ensures before[i].digest != e.digest {
        assert all[i] == before[i] && all[|before|] == e;
      }
    }
  }

  lemma {:induction false} NovelDistinct(entries: seq<Entry>, offsets: map<string, (nat, nat)>)
    ensures DistinctDigests(Novel(entries, offsets))
    ensures TotalBytes(Novel(entries, offsets)) <= TotalBytes(entries)
  {
    if entries != [] {
      var n := |entries| - 1;
      NovelDistinct(entries[..n], offsets);
      hide DistinctDigests, HasDigest;
      DistinctSnoc(Novel(entries[..n], offsets), entries[n]);
    }
  }

  lemma {:induction false} NovelCovers(entries: seq<Entry>, offsets: map<string, (nat, nat)>, d: string)
    requires HasDigest(entries, d)
    ensures d in offsets || HasDigest(Novel(entries, offsets), d)
  {
    var n := |entries| - 1;
    var before, novel := entries[..n], Novel(entries, offsets);
    var i :| 0 <= i < |entries| && entries[i].digest == d;
    if i < n {
      assert before[i].digest == d;
      NovelCovers(before, offsets, d);
      if d !in offsets {
        var j :| 0 <= j < |Novel(before, offsets)| && Novel(before, offsets)[j].digest == d;
        assert novel[j].digest == d;
      }
    } else if d !in offsets && !HasDigest(Novel(before, offsets), d) {
      assert novel[|novel| - 1].digest == d;
    }
  }

  lemma {:induction false} TotalOfEntries(h: Hasher, chunks: seq<Bytes>, offset: nat, n: nat)
    requires n <= |chunks|
    ensures TotalBytes(Entries(h, chunks, offset)[..n]) == OffsetOf(chunks, n)
  {
    if n > 0 {
      TotalOfEntries(h, chunks, offset, n - 1);
      var e := Entries(h, chunks, offset);
      assert e[..n][..n - 1] == e[..n - 1];
      EntryIs(h, chunks, offset, n - 1);
    }
  }

  // ---------------------------------------------------------------- reading the records back

  /** The state of the reader behind the records of `novel`. */
  ghost predicate ReadBack(patch: Bytes, start: nat, novel: seq<Entry>, so: Novelties) {
    && so.pos == start + |Records(novel)| && so.total == TotalBytes(novel)
    && DigestsRead(novel, so.index) && SlicesRead(patch, novel, so.index)
  }

  ghost predicate DigestsRead(novel: seq<Entry>, index: map<string, (nat, nat)>) {
    forall d :: d in index <==> HasDigest(novel, d)
  }

  predicate EntryRead(patch: Bytes, e: Entry, index: map<string, (nat, nat)>) {
    e.digest in index && SliceIs(patch, index[e.digest], e.chunk)
  }

  predicate SlicesRead(patch: Bytes, novel: seq<Entry>, index: map<string, (nat, nat)>) {
    forall i :: 0 <= i < |novel| ==> EntryRead(patch, novel[i], index)
  }

  predicate SliceIs(file: Bytes, at: (nat, nat), chunk: Bytes) {
    at.1 == |chunk| && at.0 + at.1 <= |file| && file[at.0..at.0 + at.1] == chunk
  }

  /** Records that the reader accepts. */
  predicate GoodEntry(h: Hasher, e: Entry, limits: Limits) {
    && 0 < |e.chunk| <= limits.maxChunkBytes && |e.chunk| < Pow(256, 4)
    && e.digest == h(e.chunk)
  }

  predicate GoodEntries(h: Hasher, entries: seq<Entry>, limits: Limits) {
    forall i :: 0 <= i < |entries| ==> GoodEntry(h, entries[i], limits)
  }

  /** `part` lies in `file` at `pos`. */
  predicate HoldsAt(file: Bytes, pos: nat, part: Bytes) {
    pos + |part| <= |file| && file[pos..pos + |part|] == part
  }

  lemma HoldsAtSplit(file: Bytes, pos: nat, a: Bytes, b: Bytes)
    requires HoldsAt(file, pos, a + b)
    ensures HoldsAt(file, pos, a) && HoldsAt(file, pos + |a|, b)
  {
    var all := a + b;
    assert file[pos..pos + |all|][..|a|] == file[pos..pos + |a|];
    assert file[pos..pos + |all|][|a|..] == file[pos + |a|..pos + |all|];
  }

  lemma RecordFields(patch: Bytes, pos: nat, e: Entry)
    requires HoldsAt(patch, pos, Record(e)) && |e.chunk| < Pow(256, 4)
    ensures Read(patch, pos, 5) == [64] + ToBytes(|e.chunk|, 4) && FromBytes(Read(patch, pos, 5)[1..]) == |e.chunk|
    ensures FromAscii(Read(patch, pos + 5, 64)) == Some(e.digest)
    ensures HoldsAt(patch, pos + 69, e.chunk) && Read(patch, pos + 69, |e.chunk|) == e.chunk
  {
    hide Pow, ToBytes, FromBytes, HexBytes, FromAscii;
    var length, digest := ToBytes(|e.chunk|, 4), HexBytes(e.digest);
    HoldsAtSplit(patch, pos, [64] + length + digest, e.chunk);
    HoldsAtSplit(patch, pos, [64] + length, digest);
    FromToBytes(|e.chunk|, 4);
    assert ([64] + length)[1..] == length;
    HexBytesRoundTrip(e.digest);
  }

  /** The reader's state behind one more record. */
  function Behind(prior: Novelties, e: Entry): Novelties {
    Novelties(prior.index[e.digest := (prior.pos + 69, |e.chunk|)], prior.total + |e.chunk|, prior.pos + 69 + |e.chunk|)
  }

  lemma RecordRead(h: Hasher, patch: Bytes, limits: Limits, e: Entry, prior: Novelties)
    requires HoldsAt(patch, prior.pos, Record(e)) && GoodEntry(h, e, limits) && e.digest !in prior.index
    ensures HoldsAt(patch, prior.pos + 69, e.chunk)
    ensures ReadRecord(h, patch, limits, prior) == Success(Behind(prior, e))
  {
    assert 0 < |e.chunk| <= limits.maxChunkBytes && |e.chunk| < Pow(256, 4) && e.digest == h(e.chunk);
    hide Read, Record, FromAscii, FromBytes, ToBytes, Pow, HoldsAt, IsHexDigest, GoodEntry;
    RecordFields(patch, prior.pos, e);
  }

  /** The reader takes the next record and is then behind it. */
  lemma ReadNextRecord(h: Hasher, patch: Bytes, limits: Limits, start: nat, before: seq<Entry>, e: Entry,
                       prior: Novelties)
    requires ReadBack(patch, start, before, prior) && GoodEntry(h, e, limits) && !HasDigest(before, e.digest)
    requires HoldsAt(patch, start + |Records(before)|, Record(e))
    ensures ReadRecord(h, patch, limits, prior) == Success(Behind(prior, e))
    ensures ReadBack(patch, start, before + [e], Behind(prior, e))
  {
    hide *;
    ReadBackPosition(patch, start, before, prior);
    ReadBackMember(patch, start, before, prior, e.digest);
    RecordRead(h, patch, limits, e, prior);
    ReadBackStep(patch, start, before, e, prior);
  }

  lemma GoodSnoc(h: Hasher, before: seq<Entry>, e: Entry, limits: Limits)
    requires GoodEntries(h, before + [e], limits)
    ensures GoodEntries(h, before, limits) && GoodEntry(h, e, limits)
  {
    var all := before + [e];
    assert all[|before|] == e;
    hide GoodEntry;
    forall i | 0 <= i < |before| ensures GoodEntry(h, before[i], limits) {
      assert all[i] == before[i];
    }
  }

  lemma RecordsAppend(before: seq<Entry>, e: Entry)
    ensures Records(before + [e]) == Records(before) + Record(e)
  {
    assert (before + [e])[..|before|] == before;
  }

  lemma LastRecord(h: Hasher, patch: Bytes, limits: Limits, start: nat, before: seq<Entry>, e: Entry)
    requires HoldsAt(patch, start, Records(before + [e])) && DistinctDigests(before + [e])
    requires GoodEntries(h, before + [e], limits)
    ensures HoldsAt(patch, start, Records(before)) && DistinctDigests(before) && GoodEntries(h, before, limits)
    ensures HoldsAt(patch, start + |Records(before)|, Record(e)) && GoodEntry(h, e, limits)
    ensures !HasDigest(before, e.digest)
  {
    hide *;
    DistinctSnoc(before, e);
    GoodSnoc(h, before, e, limits);
    RecordsAppend(before, e);
    HoldsAtSplit(patch, start, Records(before), Record(e));
  }

  lemma {:induction false} ReadAllRecords(h: Hasher, patch: Bytes, limits: Limits, start: nat, novel: seq<Entry>)
    returns (so: Novelties)
    requires HoldsAt(patch, start, Records(novel)) && DistinctDigests(novel) && GoodEntries(h, novel, limits)
    ensures ReadRecords(h, patch, limits, start, |novel|) == Success(so)
    ensures ReadBack(patch, start, novel, so)
  {
    if novel == [] {
      so := Novelties(map[], 0, start);
    } else {
      hide GoodEntries, GoodEntry, Record, Records, ReadRecord, ReadBack, DistinctDigests, HasDigest, HoldsAt, Behind;
      var n := |novel| - 1;
      var before, e := novel[..n], novel[n];
      assert novel == before + [e];
      LastRecord(h, patch, limits, start, before, e);
      var prior := ReadAllRecords(h, patch, limits, start, before);
      ReadNextRecord(h, patch, limits, start, before, e, prior);
      so := Behind(prior, e);
    }
  }

  lemma ReadBackPosition(patch: Bytes, start: nat, novel: seq<Entry>, so: Novelties)
    requires ReadBack(patch, start, novel, so)
    ensures so.pos == start + |Records(novel)| && so.total == TotalBytes(novel)
  {
  }

  lemma HeldSlice(patch: Bytes, pos: nat, chunk: Bytes)
    requires HoldsAt(patch, pos, chunk)
    ensures SliceIs(patch, (pos, |chunk|), chunk)
  {
  }

  lemma StepDigests(before: seq<Entry>, e: Entry, prior: Novelties)
    requires DigestsRead(before, prior.index)
    ensures DigestsRead(before + [e], Behind(prior, e).index)
  {
    hide HasDigest;
    forall d ensures d in Behind(prior, e).index <==> HasDigest(before + [e], d) {
      EntryBehind(before, e, d, (0, 0));
    }
  }

  lemma StepSlices(patch: Bytes, before: seq<Entry>, e: Entry, prior: Novelties)
    requires SlicesRead(patch, before, prior.index) && !HasDigest(before, e.digest)
    requires HoldsAt(patch, prior.pos + 69, e.chunk)
    ensures SlicesRead(patch, before + [e], Behind(prior, e).index)
  {
    HeldSlice(patch, prior.pos + 69, e.chunk);
    hide HasDigest, HoldsAt, SliceIs;
    var novel := before + [e];
    forall i | 0 <= i < |novel| ensures EntryRead(patch, novel[i], Behind(prior, e).index) {
      if i < |before| {
        assert novel[i] == before[i] && EntryRead(patch, before[i], prior.index);
        AtIndexHasDigest(before, i);
      }
    }
  }

  lemma ReadBackStep(patch: Bytes, start: nat, before: seq<Entry>, e: Entry, prior: Novelties)
    requires ReadBack(patch, start, before, prior) && !HasDigest(before, e.digest)
    requires HoldsAt(patch, prior.pos + 69, e.chunk)
    ensures ReadBack(patch, start, before + [e], Behind(prior, e))
  {
    hide DigestsRead, SlicesRead, Records, TotalBytes, HoldsAt, HasDigest;
    RecordsSnoc(before, e);
    StepDigests(before, e, prior);
    StepSlices(patch, before, e, prior);
  }

  lemma AtIndexHasDigest(entries: seq<Entry>, i: nat)
    requires i < |entries|
    ensures HasDigest(entries, entries[i].digest)
  {
  }

  lemma RecordsSnoc(before: seq<Entry>, e: Entry)
    ensures |Records(before + [e])| == |Records(before)| + 69 + |e.chunk|
    ensures TotalBytes(before + [e]) == TotalBytes(before) + |e.chunk|
  {
    assert (before + [e])[..|before|] == before;
  }

  // ---------------------------------------------------------------- rebuilding

  /** All chunks of the two files that share a digest are equal. */
  ghost predicate NoCollision(h: Hasher, chunks: seq<Bytes>) {
    forall i, j :: 0 <= i < |chunks| && 0 <= j < |chunks| && h(chunks[i]) == h(chunks[j]) ==> chunks[i] == chunks[j]
  }

  /** Every digest of the target leads the consumer to the chunk itself. */
  ghost predicate Sourced(base: Bytes, patch: Bytes, offsets: map<string, (nat, nat)>, novel: map<string, (nat, nat)>,
                          limits: Limits, e: Entry)
  {
    if e.digest in novel then SliceIs(patch, novel[e.digest], e.chunk) && novel[e.digest].1 <= limits.maxChunkBytes
    else e.digest in offsets && SliceIs(base, offsets[e.digest], e.chunk) && offsets[e.digest].1 <= limits.maxChunkBytes
  }

  /** Every entry of the target is sourced. */
  ghost predicate AllSourced(base: Bytes, patch: Bytes, offsets: map<string, (nat, nat)>,
                             novel: map<string, (nat, nat)>, limits: Limits, entries: seq<Entry>)
  {
    forall i :: 0 <= i < |entries| ==> Sourced(base, patch, offsets, novel, limits, entries[i])
  }

  lemma {:induction false} RebuildPrefix(h: Hasher, c: Chunker, base: Bytes, patch: Bytes,
                                         offsets: map<string, (nat, nat)>, novel: map<string, (nat, nat)>,
                                         limits: Limits, target: Bytes, n: nat)
    requires n <= |Chunks(c, target)|
    requires AllSourced(base, patch, offsets, novel, limits, FileEntries(c, h, target))
    ensures OffsetOf(Chunks(c, target), n) <= |target|
    ensures Rebuild(h, base, patch, offsets, novel, limits, |target|, DigestsOf(FileEntries(c, h, target))[..n])
         == Success(target[..OffsetOf(Chunks(c, target), n)])
  {
    ChunksFromBoundary(c, target, n);
    if n == 0 {
      assert target[..0] == [];
    } else {
      hide Chunks, AllSourced, Rebuild, OffsetOf, FileEntries;
      RebuildPrefix(h, c, base, patch, offsets, novel, limits, target, n - 1);
      RebuildStep(h, c, base, patch, offsets, novel, limits, target, n);
    }
  }

  lemma RebuildStep(h: Hasher, c: Chunker, base: Bytes, patch: Bytes, offsets: map<string, (nat, nat)>,
                    novel: map<string, (nat, nat)>, limits: Limits, target: Bytes, n: nat)
    requires 0 < n <= |Chunks(c, target)|
    requires AllSourced(base, patch, offsets, novel, limits, FileEntries(c, h, target))
    requires OffsetOf(Chunks(c, target), n - 1) <= |target|
    requires Rebuild(h, base, patch, offsets, novel, limits, |target|, DigestsOf(FileEntries(c, h, target))[..n - 1])
          == Success(target[..OffsetOf(Chunks(c, target), n - 1)])
    ensures OffsetOf(Chunks(c, target), n) <= |target|
    ensures Rebuild(h, base, patch, offsets, novel, limits, |target|, DigestsOf(FileEntries(c, h, target))[..n])
         == Success(target[..OffsetOf(Chunks(c, target), n)])
  {
    hide Sourced, FileEntries, Chunks, RebuildChunk, Rebuild;
    TargetEntry(c, h, target, n - 1);
    var hashes := DigestsOf(FileEntries(c, h, target));
    var e, o := FileEntries(c, h, target)[n - 1], OffsetOf(Chunks(c, target), n - 1);
    assert Sourced(base, patch, offsets, novel, limits, e);
    hide AllSourced;
    PrefixExtend(target, o, e.chunk);
    SourcedChunk(h, base, patch, offsets, novel, limits, |target|, e, target[..o]);
    RebuildSnoc(h, base, patch, offsets, novel, limits, |target|, hashes, n);
  }

  lemma PrefixExtend(file: Bytes, o: nat, chunk: Bytes)
    requires o + |chunk| <= |file| && chunk == file[o..o + |chunk|]
    ensures file[..o] + chunk == file[..o + |chunk|]
  {
  }

  lemma TargetEntry(c: Chunker, h: Hasher, target: Bytes, i: nat)
    requires i < |Chunks(c, target)|
    ensures |FileEntries(c, h, target)| == |Chunks(c, target)|
    ensures var e, o := FileEntries(c, h, target)[i], OffsetOf(Chunks(c, target), i);
            && e in FileEntries(c, h, target) && e.digest == h(e.chunk) && e.offset == o
                && e.chunk == Chunks(c, target)[i]
            && o + |e.chunk| <= |target| && e.chunk == target[o..o + |e.chunk|]
  {
    hide Chunks, Entries, OffsetOf;
    EntryIs(h, Chunks(c, target), 0, i);
    EntryIsSlice(c, h, target, i);
    assert FileEntries(c, h, target)[i] in FileEntries(c, h, target);
  }

  lemma RebuildSnoc(h: Hasher, base: Bytes, patch: Bytes, offsets: map<string, (nat, nat)>,
                    novel: map<string, (nat, nat)>, limits: Limits, size: int, hashes: seq<string>, n: nat)
    requires 0 < n <= |hashes|
    ensures var before := Rebuild(h, base, patch, offsets, novel, limits, size, hashes[..n - 1]);
            Rebuild(h, base, patch, offsets, novel, limits, size, hashes[..n]) ==
              if before.Failure? then before
              else RebuildChunk(h, base, patch, offsets, novel, limits, size, hashes[n - 1], before.value)
  {
    hide RebuildChunk;
    assert hashes[..n][..n - 1] == hashes[..n - 1];
  }

  lemma SourcedChunk(h: Hasher, base: Bytes, patch: Bytes, offsets: map<string, (nat, nat)>,
                     novel: map<string, (nat, nat)>, limits: Limits, size: int, e: Entry, out: Bytes)
    requires Sourced(base, patch, offsets, novel, limits, e) && e.digest == h(e.chunk)
    requires |out| + |e.chunk| <= size
    ensures RebuildChunk(h, base, patch, offsets, novel, limits, size, e.digest, out) == Success(out + e.chunk)
  {
  }

  /** A digest among the novel chunks leads to the target chunk of that digest. */
  lemma NovelSource(engine: Engine, base: Bytes, target: Bytes, patch: Bytes, limits: Limits,
                    offsets: map<string, (nat, nat)>, start: nat, so: Novelties, i: nat)
    requires i < |Chunks(engine.chunker, target)|
    requires ReadBack(patch, start, Novel(FileEntries(engine.chunker, engine.sha3, target), offsets), so)
    requires WithinLimits(FileEntries(engine.chunker, engine.sha3, target), limits)
    requires NoCollision(engine.sha3, Chunks(engine.chunker, base) + Chunks(engine.chunker, target))
    requires FileEntries(engine.chunker, engine.sha3, target)[i].digest in so.index
    ensures Sourced(base, patch, offsets, so.index, limits, FileEntries(engine.chunker, engine.sha3, target)[i])
  {
    var c, h := engine.chunker, engine.sha3;
    EntryCount(c, h, target);
    hide FileEntries, Chunks, Novel, ReadBack, NoCollision;
    var entries := FileEntries(c, h, target);
    var q := NovelEntry(patch, start, entries, offsets, so, entries[i].digest);
    SameTargetChunk(c, h, base, target, i, q);
  }

  lemma NovelEntry(patch: Bytes, start: nat, entries: seq<Entry>, offsets: map<string, (nat, nat)>, so: Novelties,
                   d: string)
    returns (q: nat)
    requires ReadBack(patch, start, Novel(entries, offsets), so) && d in so.index
    ensures q < |entries| && entries[q].digest == d && SliceIs(patch, so.index[d], entries[q].chunk)
  {
    var novel := Novel(entries, offsets);
    NovelMembers(entries, offsets);
    ReadBackMember(patch, start, novel, so, d);
    var j :| 0 <= j < |novel| && novel[j].digest == d;
    ReadBackSlice(patch, start, novel, so, j);
    hide Novel, ReadBack;
    assert novel[j] in novel;
    q :| 0 <= q < |entries| && entries[q] == novel[j];
  }

  lemma ReadBackMember(patch: Bytes, start: nat, novel: seq<Entry>, so: Novelties, d: string)
    requires ReadBack(patch, start, novel, so)
    ensures d in so.index <==> HasDigest(novel, d)
  {
  }

  lemma ReadBackSlice(patch: Bytes, start: nat, novel: seq<Entry>, so: Novelties, j: nat)
    requires ReadBack(patch, start, novel, so) && j < |novel|
    ensures novel[j].digest in so.index && SliceIs(patch, so.index[novel[j].digest], novel[j].chunk)
  {
    assert EntryRead(patch, novel[j], so.index);
  }

  lemma SameTargetChunk(c: Chunker, h: Hasher, base: Bytes, target: Bytes, i: nat, q: nat)
    requires i < |Chunks(c, target)| && q < |Chunks(c, target)|
    requires NoCollision(h, Chunks(c, base) + Chunks(c, target))
    ensures |FileEntries(c, h, target)| == |Chunks(c, target)|
    ensures var entries := FileEntries(c, h, target);
            entries[i].digest == entries[q].digest ==> entries[i].chunk == entries[q].chunk
  {
    hide FileEntries, Chunks;
    TargetEntry(c, h, target, i);
    TargetEntry(c, h, target, q);
    var entries, all := FileEntries(c, h, target), Chunks(c, base) + Chunks(c, target);
    assert all[|Chunks(c, base)| + i] == entries[i].chunk;
    assert all[|Chunks(c, base)| + q] == entries[q].chunk;
  }

  /** A digest of the target that is not a novel one is indexed in the base. */
  lemma BaseIndexed(patch: Bytes, start: nat, prior: seq<Entry>, entries: seq<Entry>, offsets: map<string, (nat, nat)>,
                    limits: Limits, so: Novelties, i: nat) returns (q: nat)
    requires i < |entries| && Index(prior, limits) == Some(offsets)
    requires ReadBack(patch, start, Novel(entries, offsets), so) && entries[i].digest !in so.index
    ensures q < |prior| && prior[q].digest == entries[i].digest && entries[i].digest in offsets
    ensures offsets[entries[i].digest] == (prior[q].offset, |prior[q].chunk|)
    ensures |prior[q].chunk| <= limits.maxChunkBytes
  {
    var d := entries[i].digest;
    ReadBackMember(patch, start, Novel(entries, offsets), so, d);
    AtIndexHasDigest(entries, i);
    NovelCovers(entries, offsets, d);
    IndexSound(prior, limits);
    hide ReadBack, Novel, Index, HasDigest;
    assert IndexEntry(prior, d, offsets[d]);
    q :| 0 <= q < |prior| && prior[q].digest == d && offsets[d] == (prior[q].offset, |prior[q].chunk|);
  }

  /** Without collisions entries of base and target with one digest hold the same chunk. */
  lemma SameDigestChunk(c: Chunker, h: Hasher, base: Bytes, target: Bytes, q: nat, i: nat)
    requires q < |Chunks(c, base)| && i < |Chunks(c, target)|
    requires NoCollision(h, Chunks(c, base) + Chunks(c, target))
    ensures |FileEntries(c, h, base)| == |Chunks(c, base)| && |FileEntries(c, h, target)| == |Chunks(c, target)|
    ensures FileEntries(c, h, base)[q].digest == FileEntries(c, h, target)[i].digest ==>
              FileEntries(c, h, base)[q].chunk == FileEntries(c, h, target)[i].chunk
  {
    hide FileEntries, Chunks;
    TargetEntry(c, h, base, q);
    TargetEntry(c, h, target, i);
    var all := Chunks(c, base) + Chunks(c, target);
    assert all[q] == FileEntries(c, h, base)[q].chunk;
    assert all[|Chunks(c, base)| + i] == FileEntries(c, h, target)[i].chunk;
  }

  /** Any other digest of the target leads to a base chunk with the same bytes. */
  lemma BaseSource(engine: Engine, base: Bytes, target: Bytes, patch: Bytes, limits: Limits,
                   offsets: map<string, (nat, nat)>, start: nat, so: Novelties, i: nat)
    requires i < |Chunks(engine.chunker, target)|
    requires Index(FileEntries(engine.chunker, engine.sha3, base), limits) == Some(offsets)
    requires ReadBack(patch, start, Novel(FileEntries(engine.chunker, engine.sha3, target), offsets), so)
    requires NoCollision(engine.sha3, Chunks(engine.chunker, base) + Chunks(engine.chunker, target))
    requires FileEntries(engine.chunker, engine.sha3, target)[i].digest !in so.index
    ensures Sourced(base, patch, offsets, so.index, limits, FileEntries(engine.chunker, engine.sha3, target)[i])
  {
    var c, h := engine.chunker, engine.sha3;
    var prior, entries := FileEntries(c, h, base), FileEntries(c, h, target);
    hide FileEntries, Chunks, Novel, Index, ReadBack, NoCollision;
    EntryCount(c, h, target);
    EntryCount(c, h, base);
    var q := BaseIndexed(patch, start, prior, entries, offsets, limits, so, i);
    SameDigestChunk(c, h, base, target, q, i);
    TargetEntry(c, h, target, i);
    TargetEntry(c, h, base, q);
  }

  lemma EntryCount(c: Chunker, h: Hasher, file: Bytes)
    ensures |FileEntries(c, h, file)| == |Chunks(c, file)|
  {
  }

  // ---------------------------------------------------------------- the round trip

  /** The layout of a created patch. */
  lemma PatchLayout(raw: Bytes, body: Bytes)
    requires |raw| < Pow(256, 4)
    ensures var patch := MAGIC + ToBytes(|raw|, 4) + raw + body;
            && Read(patch, 0, 8) == MAGIC
            && Read(patch, 8, 4) == ToBytes(|raw|, 4) && FromBytes(ToBytes(|raw|, 4)) == |raw|
            && Read(patch, 12, |raw|) == raw
            && |patch| == 12 + |raw| + |body| && patch[12 + |raw|..] == body
  {
    hide Pow, ToBytes, FromBytes;
    FromToBytes(|raw|, 4);
    var patch := MAGIC + ToBytes(|raw|, 4) + raw + body;
    assert patch[0..8] == MAGIC;
    assert patch[8..12] == ToBytes(|raw|, 4);
    assert patch[12..12 + |raw|] == raw;
  }

  lemma DigestsAreHex(entries: seq<Entry>)
    ensures forall i :: 0 <= i < |entries| ==> IsHexDigest(DigestsOf(entries)[i])
  {
    forall i | 0 <= i < |entries| ensures IsHexDigest(DigestsOf(entries)[i]) {
      assert IsHexDigest(entries[i].digest);
    }
  }

  lemma NovelBounds(c: Chunker, h: Hasher, target: Bytes, offsets: map<string, (nat, nat)>)
    ensures var entries := FileEntries(c, h, target);
            |Novel(entries, offsets)| <= |entries| && TotalBytes(Novel(entries, offsets)) <= |target|
  {
    var entries := FileEntries(c, h, target);
    assert entries[..|entries|] == entries;
    TotalOfEntries(h, Chunks(c, target), 0, |entries|);
    hide FileEntries, Chunks, Novel, TotalBytes;
    NovelMembers(entries, offsets);
    NovelDistinct(entries, offsets);
    ChunksFromBoundary(c, target, |entries|);
  }

  lemma HeaderIsAcceptable(engine: Engine, base: Bytes, target: Bytes, offsets: map<string, (nat, nat)>, limits: Limits)
    requires |target| <= limits.maxTargetBytes
    requires WithinLimits(FileEntries(engine.chunker, engine.sha3, target), limits)
    ensures HeaderAcceptable(HeaderFor(engine, base, target, offsets), limits)
  {
    assert IsHexDigest(engine.sha3(base)) && IsHexDigest(engine.sha3(target));
    hide FileEntries, Novel, TotalBytes, DigestsOf, IsHexDigest;
    NovelBounds(engine.chunker, engine.sha3, target, offsets);
    DigestsAreHex(FileEntries(engine.chunker, engine.sha3, target));
  }

  lemma AllGood(engine: Engine, target: Bytes, offsets: map<string, (nat, nat)>, limits: Limits)
    requires WithinLimits(FileEntries(engine.chunker, engine.sha3, target), limits)
    requires RecordsFit(Novel(FileEntries(engine.chunker, engine.sha3, target), offsets))
    ensures GoodEntries(engine.sha3, Novel(FileEntries(engine.chunker, engine.sha3, target), offsets), limits)
  {
    var c, h := engine.chunker, engine.sha3;
    var entries := FileEntries(c, h, target);
    var novel := Novel(entries, offsets);
    NovelMembers(entries, offsets);
    EntryCount(c, h, target);
    hide FileEntries, Novel, Pow;
    forall j | 0 <= j < |novel| ensures GoodEntry(h, novel[j], limits) {
      assert novel[j] in novel;
      var i :| 0 <= i < |entries| && entries[i] == novel[j];
      TargetEntry(c, h, target, i);
      ChunkSizes(c, target, i);
    }
  }

  lemma SubsetDigests(engine: Engine, target: Bytes, offsets: map<string, (nat, nat)>, d: string)
    requires HasDigest(Novel(FileEntries(engine.chunker, engine.sha3, target), offsets), d)
    ensures d in DigestsOf(FileEntries(engine.chunker, engine.sha3, target))
  {
    var entries := FileEntries(engine.chunker, engine.sha3, target);
    var novel := Novel(entries, offsets);
    NovelMembers(entries, offsets);
    hide FileEntries, Novel;
    var j :| 0 <= j < |novel| && novel[j].digest == d;
    assert novel[j] in novel;
    var i :| 0 <= i < |entries| && entries[i] == novel[j];
    assert DigestsOf(entries)[i] == d;
  }

  /** Without digest collisions among the chunks, a created patch is accepted and rebuilds the target. */
  lemma AppliedCreated(engine: Engine, base: Bytes, target: Bytes, metadata: Metadata, limits: Limits)
    requires Created(engine, base, target, metadata, limits).Success?
    requires ReadsBack(engine, base, target, metadata, limits)
    requires NoCollision(engine.sha3, Chunks(engine.chunker, base) + Chunks(engine.chunker, target))
    ensures Applied(engine, base, Created(engine, base, target, metadata, limits).value, limits) == Success(target)
  {
    var c, h := engine.chunker, engine.sha3;
    var patch := Created(engine, base, target, metadata, limits).value;
    var entries := FileEntries(c, h, target);
    var offsets, raw := CreatedParts(engine, base, target, metadata, limits);
    var novel, header, start := Novel(entries, offsets), HeaderFor(engine, base, target, offsets), 12 + |raw|;
    HeaderFields(engine, base, target, offsets);
    AllGood(engine, target, offsets, limits);
    NovelDistinct(entries, offsets);
    hide *;
    SuffixHeld(patch, start, Records(novel));
    var so := ReadAllRecords(h, patch, limits, start, novel);
    RebuildCreated(engine, base, target, patch, limits, offsets, start, so);
    ReadBackPosition(patch, start, novel, so);
    forall d | d in so.index ensures d in header.targetChunkHashes {
      ReadBackMember(patch, start, novel, so, d);
      SubsetDigests(engine, target, offsets, d);
    }
    AppliedSteps(engine, base, patch, limits, header, start, so, offsets, target);
  }

  lemma SuffixHeld(file: Bytes, start: nat, b: Bytes)
    requires start <= |file| && file[start..] == b
    ensures HoldsAt(file, start, b)
  {
  }

  lemma HeaderFields(engine: Engine, base: Bytes, target: Bytes, offsets: map<string, (nat, nat)>)
    ensures var entries := FileEntries(engine.chunker, engine.sha3, target);
            var header := HeaderFor(engine, base, target, offsets);
            && header.targetChunkHashes == DigestsOf(entries) && header.novelChunkCount == |Novel(entries, offsets)|
            && header.totalNovelBytes == TotalBytes(Novel(entries, offsets)) && header.targetSize == |target|
            && header.baseSha3 == engine.sha3(base) && header.targetSha3 == engine.sha3(target)
  {
    hide FileEntries, Novel, TotalBytes, DigestsOf;
  }

  lemma AppliedSteps(engine: Engine, base: Bytes, patch: Bytes, limits: Limits, header: Header, start: nat,
                     so: Novelties, offsets: map<string, (nat, nat)>, out: Bytes)
    requires |base| <= limits.maxTargetBytes
    requires ReadHeader(engine, patch, limits) == Success((header, start)) && header.novelChunkCount >= 0
    requires ReadRecords(engine.sha3, patch, limits, start, header.novelChunkCount) == Success(so)
    requires so.pos == |patch| && so.total == header.totalNovelBytes
    requires forall d :: d in so.index ==> d in header.targetChunkHashes
    requires Index(FileEntries(engine.chunker, engine.sha3, base), limits) == Some(offsets)
    requires engine.sha3(base) == header.baseSha3
    requires Rebuild(engine.sha3, base, patch, offsets, so.index, limits, header.targetSize, header.targetChunkHashes)
         == Success(out)
    requires |out| == header.targetSize && engine.sha3(out) == header.targetSha3
    ensures Applied(engine, base, patch, limits) == Success(out)
  {
    hide ReadHeader, ReadRecords, Index, FileEntries, Rebuild;
  }

  /** What a successful creation went through, and how its header reads back. */
  lemma CreatedParts(engine: Engine, base: Bytes, target: Bytes, metadata: Metadata, limits: Limits)
    returns (offsets: map<string, (nat, nat)>, raw: Bytes)
    requires Created(engine, base, target, metadata, limits).Success?
    requires ReadsBack(engine, base, target, metadata, limits)
    ensures var entries := FileEntries(engine.chunker, engine.sha3, target);
            var novel := Novel(entries, offsets);
            var patch := Created(engine, base, target, metadata, limits).value;
            && |base| <= limits.maxTargetBytes
            && Index(FileEntries(engine.chunker, engine.sha3, base), limits) == Some(offsets)
            && WithinLimits(entries, limits) && RecordsFit(novel)
            && |patch| == 12 + |raw| + |Records(novel)| && patch[12 + |raw|..] == Records(novel)
            && ReadHeader(engine, patch, limits) == Success((HeaderFor(engine, base, target, offsets), 12 + |raw|))
  {
    var c, h := engine.chunker, engine.sha3;
    var entries := FileEntries(c, h, target);
    offsets := Index(FileEntries(c, h, base), limits).value;
    CollectedIsNovel(entries, offsets, limits);
    raw := engine.json.render(HeaderFor(engine, base, target, offsets), metadata).value;
    assert HeaderFor(engine, base, target, offsets).chunkerParams == Some(ParametersOf(c));
    var patch := Created(engine, base, target, metadata, limits).value;
    assert patch == MAGIC + ToBytes(|raw|, 4) + raw + Records(Novel(entries, offsets));
    HeaderIsAcceptable(engine, base, target, offsets, limits);
    hide Index, FileEntries, Novel, Records, Collected, HeaderFor, Created, HeaderAcceptable, Pow, ToBytes, FromBytes,
      Read;
    PatchLayout(raw, Records(Novel(entries, offsets)));
  }

  lemma RebuildCreated(engine: Engine, base: Bytes, target: Bytes, patch: Bytes, limits: Limits,
                       offsets: map<string, (nat, nat)>, start: nat, so: Novelties)
    requires Index(FileEntries(engine.chunker, engine.sha3, base), limits) == Some(offsets)
    requires ReadBack(patch, start, Novel(FileEntries(engine.chunker, engine.sha3, target), offsets), so)
    requires WithinLimits(FileEntries(engine.chunker, engine.sha3, target), limits)
    requires NoCollision(engine.sha3, Chunks(engine.chunker, base) + Chunks(engine.chunker, target))
    ensures Rebuild(engine.sha3, base, patch, offsets, so.index, limits, |target|,
                    DigestsOf(FileEntries(engine.chunker, engine.sha3, target))) == Success(target)
  {
    var c, h := engine.chunker, engine.sha3;
    var entries := FileEntries(c, h, target);
    EntryCount(c, h, target);
    hide FileEntries, Chunks, Sourced;
    forall i | 0 <= i < |entries| ensures Sourced(base, patch, offsets, so.index, limits, entries[i]) {
      if entries[i].digest in so.index {
        NovelSource(engine, base, target, patch, limits, offsets, start, so, i);
      } else {
        BaseSource(engine, base, target, patch, limits, offsets, start, so, i);
      }
    }
    var n := |Chunks(c, target)|;
    RebuildPrefix(h, c, base, patch, offsets, so.index, limits, target, n);
    assert DigestsOf(entries)[..n] == DigestsOf(entries);
    LastOffset(c, target);
    assert target[..|target|] == target;
  }

  lemma LastOffset(c: Chunker, data: Bytes)
    ensures OffsetOf(Chunks(c, data), |Chunks(c, data)|) == |data|
  {
    var chunks := Chunks(c, data);
    ChunksFromBoundary(c, data, |chunks|);
    assert chunks[|chunks|..] == [];
  }

  /** A created patch whose header text cannot be read is refused. */
  lemma RefusedCreated(engine: Engine, base: Bytes, target: Bytes, metadata: Metadata, limits: Limits)
    requires Created(engine, base, target, metadata, limits).Success?
    requires !ReadsBack(engine, base, target, metadata, limits) && NotMistaken(engine, base, target, metadata, limits)
    ensures Applied(engine, base, Created(engine, base, target, metadata, limits).value, limits).Failure?
  {
    var entries := FileEntries(engine.chunker, engine.sha3, target);
    var (header, raw) := HeaderText(engine, base, target, metadata, limits).value;
    var offsets := Index(FileEntries(engine.chunker, engine.sha3, base), limits).value;
    CollectedIsNovel(entries, offsets, limits);
    hide Index, FileEntries, Novel, Records, Collected, HeaderFor, HeaderAcceptable, Pow, ToBytes, FromBytes, Read,
      ReadRecords, Rebuild;
    PatchLayout(raw, Records(Novel(entries, offsets)));
  }

  /**
   With one engine and one set of limits, a created patch rebuilds the target byte for byte exactly if its
   header text reads back, and is refused otherwise; or two different chunks of the files with the same
   digest are exhibited.
   */
  lemma PatchReadsBack(engine: Engine, base: Bytes, target: Bytes, metadata: Metadata, limits: Limits)
    returns (a: Bytes, b: Bytes)
    requires Created(engine, base, target, metadata, limits).Success?
    requires NotMistaken(engine, base, target, metadata, limits)
    ensures var applied := Applied(engine, base, Created(engine, base, target, metadata, limits).value, limits);
            var chunks := Chunks(engine.chunker, base) + Chunks(engine.chunker, target);
            || (applied == Success(target) <==> ReadsBack(engine, base, target, metadata, limits))
            || (Collide(engine.sha3, a, b) && a in chunks && b in chunks)
    ensures !ReadsBack(engine, base, target, metadata, limits) ==>
              Applied(engine, base, Created(engine, base, target, metadata, limits).value, limits).Failure?
  {
    hide Created, Applied, ReadsBack, NotMistaken, Chunks;
    a, b := [], [];
    var chunks := Chunks(engine.chunker, base) + Chunks(engine.chunker, target);
    if !ReadsBack(engine, base, target, metadata, limits) {
      RefusedCreated(engine, base, target, metadata, limits);
    } else if NoCollision(engine.sha3, chunks) {
      AppliedCreated(engine, base, target, metadata, limits);
    } else {
      var i, j :| 0 <= i < |chunks| && 0 <= j < |chunks| && engine.sha3(chunks[i]) == engine.sha3(chunks[j])
          && chunks[i] != chunks[j];
      a, b := chunks[i], chunks[j];
    }
  }

  /**
   Round trip: with one engine and one set of limits, a created patch rebuilds the target byte for byte
   exactly if no two keys of an object in its metadata print alike, and is refused otherwise; or two
   different chunks of the files with the same digest are exhibited.
   */
  lemma PatchRoundTrip(engine: Engine, base: Bytes, target: Bytes, metadata: Metadata, limits: Limits)
    returns (a: Bytes, b: Bytes)
    requires Created(engine, base, target, metadata, limits).Success?
    requires FollowsJson(engine, base, target, metadata, limits)
    ensures var applied := Applied(engine, base, Created(engine, base, target, metadata, limits).value, limits);
            var chunks := Chunks(engine.chunker, base) + Chunks(engine.chunker, target);
            || (applied == Success(target) <==> PrintsApart(metadata))
            || (Collide(engine.sha3, a, b) && a in chunks && b in chunks)
    ensures !PrintsApart(metadata) ==>
              Applied(engine, base, Created(engine, base, target, metadata, limits).value, limits).Failure?
  {
    ReadsBackIff(engine, base, target, metadata, limits);
    hide *;
    a, b := PatchReadsBack(engine, base, target, metadata, limits);
  }

  lemma ReadsBackIff(engine: Engine, base: Bytes, target: Bytes, metadata: Metadata, limits: Limits)
    requires Created(engine, base, target, metadata, limits).Success?
    requires FollowsJson(engine, base, target, metadata, limits)
    ensures NotMistaken(engine, base, target, metadata, limits)
    ensures ReadsBack(engine, base, target, metadata, limits) <==> PrintsApart(metadata)
  {
    hide Index, FileEntries, Collected, HeaderFor, Records, PrintsApart, Pow, ToBytes;
  }

  /** A number and the string it prints as, for keys of one object. */
  function NumberAndText(a: Metadata, b: Metadata): Metadata {
    Object([(Text("x"), Object([(Other("1"), a), (Text("1"), b)]))])
  }

  lemma NumberPrintsAsText(a: Metadata, b: Metadata)
    ensures !PrintsApart(NumberAndText(a, b))
  {
    var inner := Object([(Other("1"), a), (Text("1"), b)]);
    assert inner.entries[0].0.text == inner.entries[1].0.text;
    assert NumberAndText(a, b).entries[0].1 == inner;
  }

  /** Metadata whose keys are different but print alike: a patch created with it is refused. */
  lemma KeysPrintAlike(engine: Engine, base: Bytes, target: Bytes, a: Metadata, b: Metadata, limits: Limits)
    requires Created(engine, base, target, NumberAndText(a, b), limits).Success?
    requires FollowsJson(engine, base, target, NumberAndText(a, b), limits)
    ensures Applied(engine, base, Created(engine, base, target, NumberAndText(a, b), limits).value, limits).Failure?
  {
    NumberPrintsAsText(a, b);
    hide *;
    var x, y := PatchRoundTrip(engine, base, target, NumberAndText(a, b), limits);
  }

  /** For an arbitrary patch, what is installed has the size and digest its header declares, on the declared base. */
  lemma InstalledMatchesHeader(engine: Engine, base: Bytes, patch: Bytes, limits: Limits)
    requires Applied(engine, base, patch, limits).Success?
    ensures var out := Applied(engine, base, patch, limits).value;
            var header := ReadHeader(engine, patch, limits);
            && header.Success?
            && |out| == header.value.0.targetSize <= limits.maxTargetBytes
            && engine.sha3(out) == header.value.0.targetSha3
            && engine.sha3(base) == header.value.0.baseSha3
  {
  }

  /** Two patches whose headers name the same target digest install the same bytes, or exhibit a collision. */
  lemma SameTargetSameBytes(engine: Engine, base1: Bytes, patch1: Bytes, base2: Bytes, patch2: Bytes, limits: Limits)
    requires Applied(engine, base1, patch1, limits).Success? && Applied(engine, base2, patch2, limits).Success?
    requires ReadHeader(engine, patch1, limits).value.0.targetSha3
         == ReadHeader(engine, patch2, limits).value.0.targetSha3
    ensures var out1, out2 :=
        Applied(engine, base1, patch1, limits).value, Applied(engine, base2, patch2, limits).value;
            out1 == out2 || Collide(engine.sha3, out1, out2)
  {
    InstalledMatchesHeader(engine, base1, patch1, limits);
    InstalledMatchesHeader(engine, base2, patch2, limits);
  }
}
