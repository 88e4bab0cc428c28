/** What a created patch carries: the header, and the target chunks the base does not have, once each. */
module ZimRecords {
  import opened Wrappers
  import opened Bytes
  import opened Cdc
  import opened Digests
  import opened StreamChunks
  import opened ZimPatch
  import opened ZimRoundTrip

  /** The chunk is the first of its digest among the target's, and no chunk of the base has that digest. */
  predicate FirstNovel(h: Hasher, base: seq<Bytes>, target: seq<Bytes>, i: nat)
    requires i < |target|
  {
    && (forall j :: 0 <= j < i ==> h(target[j]) != h(target[i]))
    && (forall j :: 0 <= j < |base| ==> h(base[j]) != h(target[i]))
  }

  /** The chunks at these positions, each behind the length of its digest, its own length and its digest. */
  function Carried(h: Hasher, chunks: seq<Bytes>, at: seq<nat>): Bytes
    requires forall k :: 0 <= k < |at| ==> at[k] < |chunks|
  {
    if at == [] then []
    else
      var chunk := chunks[at[|at| - 1]];
      Carried(h, chunks, at[..|at| - 1]) + ([64] + ToBytes(|chunk|, 4) + HexBytes(h(chunk)) + chunk)
  }

  predicate Rising(at: seq<nat>, n: nat) {
    && (forall k :: 0 <= k < |at| ==> at[k] < n)
    && forall k, l :: 0 <= k < l < |at| ==> at[k] < at[l]
  }

  /** An entry is novel if its digest is neither indexed nor that of an entry in front of it. */
  predicate NovelAt(entries: seq<Entry>, offsets: map<string, (nat, nat)>, i: nat)
    requires i < |entries|
  {
    entries[i].digest !in offsets && forall j :: 0 <= j < i ==> entries[j].digest != entries[i].digest
  }

  /** These are the positions of the novel entries. */
  ghost predicate AreAt(entries: seq<Entry>, offsets: map<string, (nat, nat)>, novel: seq<Entry>, at: seq<nat>) {
    && Rising(at, |entries|) && |at| == |novel|
    && (forall k :: 0 <= k < |at| ==> novel[k] == entries[at[k]])
    && forall i: nat :: i < |entries| ==> (i in at <==> NovelAt(entries, offsets, i))
  }

  lemma NovelBefore(entries: seq<Entry>, e: Entry, offsets: map<string, (nat, nat)>, i: nat)
    requires i < |entries|
    ensures NovelAt(entries + [e], offsets, i) <==> NovelAt(entries, offsets, i)
  {
    assert forall j :: 0 <= j <= i ==> (entries + [e])[j] == entries[j];
  }

  lemma AtSkipped(entries: seq<Entry>, e: Entry, offsets: map<string, (nat, nat)>, novel: seq<Entry>, at: seq<nat>)
    requires AreAt(entries, offsets, novel, at) && !NovelAt(entries + [e], offsets, |entries|)
    ensures AreAt(entries + [e], offsets, novel, at)
  {
    hide NovelAt;
    forall i: nat | i < |entries| ensures NovelAt(entries + [e], offsets, i) <==> NovelAt(entries, offsets, i) {
      NovelBefore(entries, e, offsets, i);
    }
  }

  lemma AtAdded(entries: seq<Entry>, e: Entry, offsets: map<string, (nat, nat)>, novel: seq<Entry>, at: seq<nat>)
    requires AreAt(entries, offsets, novel, at) && NovelAt(entries + [e], offsets, |entries|)
    ensures AreAt(entries + [e], offsets, novel + [e], at + [|entries|])
  {
    hide NovelAt;
    forall i: nat | i < |entries| ensures NovelAt(entries + [e], offsets, i) <==> NovelAt(entries, offsets, i) {
      NovelBefore(entries, e, offsets, i);
    }
  }

  /** The novel entries have positions. */
  lemma {:induction false} NovelPositions(entries: seq<Entry>, offsets: map<string, (nat, nat)>) returns (at: seq<nat>)
    ensures AreAt(entries, offsets, Novel(entries, offsets), at)
  {
    if entries == [] {
      at := [];
    } else {
      var n := |entries| - 1;
      var before, e := entries[..n], entries[n];
      assert entries == before + [e];
      NovelLast(entries, offsets);
      at := NovelPositions(before, offsets);
      hide AreAt, Novel, NovelAt;
      if NovelAt(entries, offsets, n) {
        AtAdded(before, e, offsets, Novel(before, offsets), at);
        at := at + [n];
      } else {
        AtSkipped(before, e, offsets, Novel(before, offsets), at);
      }
    }
    hide AreAt, Novel, NovelAt;
  }

  /** The last entry is added exactly if it is novel. */
  lemma NovelLast(entries: seq<Entry>, offsets: map<string, (nat, nat)>)
    requires entries != []
    ensures var n := |entries| - 1;
            Novel(entries, offsets)
            == Novel(entries[..n], offsets) + if NovelAt(entries, offsets, n) then [entries[n]] else []
  {
    var n := |entries| - 1;
    var before, d := entries[..n], entries[n].digest;
    NovelMembers(before, offsets);
    var novel := Novel(before, offsets);
    if j :| 0 <= j < n && entries[j].digest == d {
      assert before[j].digest == d;
      if d !in offsets {
        NovelCovers(before, offsets, d);
      }
    } else if HasDigest(novel, d) {
      var k :| 0 <= k < |novel| && novel[k].digest == d;
      assert novel[k] in before;
    }
  }

  /** Every entry of a file holds a chunk of it and that chunk's digest. */
  lemma EntriesOfFile(c: Chunker, h: Hasher, file: Bytes)
    ensures var entries, chunks := FileEntries(c, h, file), Chunks(c, file);
            && |entries| == |chunks|
            && forall i :: 0 <= i < |entries| ==> entries[i].chunk == chunks[i] && entries[i].digest == h(chunks[i])
  {
    EntryCount(c, h, file);
    forall i | 0 <= i < |Chunks(c, file)|
      ensures FileEntries(c, h, file)[i].chunk == Chunks(c, file)[i]
      ensures FileEntries(c, h, file)[i].digest == h(Chunks(c, file)[i])
    {
      TargetEntry(c, h, file, i);
    }
  }

  /** A digest is indexed exactly if it is that of an entry. */
  lemma IndexedIff(prior: seq<Entry>, limits: Limits, d: string)
    requires Index(prior, limits).Some?
    ensures d in Index(prior, limits).value <==> exists j :: 0 <= j < |prior| && prior[j].digest == d
  {
    IndexSound(prior, limits);
    hide Index;
    if d in Index(prior, limits).value {
      assert IndexEntry(prior, d, Index(prior, limits).value[d]);
    }
    if exists j :: 0 <= j < |prior| && prior[j].digest == d {
      assert HasDigest(prior, d);
    }
  }

  lemma NovelIsFirst(c: Chunker, h: Hasher, base: Bytes, target: Bytes, limits: Limits, i: nat)
    requires Index(FileEntries(c, h, base), limits).Some? && i < |Chunks(c, target)|
    ensures |FileEntries(c, h, target)| == |Chunks(c, target)|
    ensures NovelAt(FileEntries(c, h, target), Index(FileEntries(c, h, base), limits).value, i)
       <==> FirstNovel(h, Chunks(c, base), Chunks(c, target), i)
  {
    EntriesOfFile(c, h, base);
    EntriesOfFile(c, h, target);
    IndexedIff(FileEntries(c, h, base), limits, h(Chunks(c, target)[i]));
    hide FileEntries, Chunks, Index;
  }

  lemma {:induction false} RecordsAt(h: Hasher, entries: seq<Entry>, chunks: seq<Bytes>, novel: seq<Entry>,
                                     at: seq<nat>)
    requires |entries| == |chunks| && |novel| == |at| && Rising(at, |chunks|)
    requires forall i :: 0 <= i < |entries| ==> entries[i].chunk == chunks[i] && entries[i].digest == h(chunks[i])
    requires forall k :: 0 <= k < |at| ==> novel[k] == entries[at[k]]
    ensures Records(novel) == Carried(h, chunks, at)
    ensures TotalBytes(novel) + 69 * |at| == |Carried(h, chunks, at)|
  {
    if at != [] {
      var n := |at| - 1;
      RecordsAt(h, entries, chunks, novel[..n], at[..n]);
      assert novel[n] == entries[at[n]];
    }
  }

  /**
   What a created patch consists of: magic, length and text of a header that names both files, the digests of the
   target's chunks in order and the chunker, then one record for each digest of the target that no chunk of the base
   has, holding the first chunk with it.
   */
  lemma PatchContents(engine: Engine, base: Bytes, target: Bytes, metadata: Metadata, limits: Limits)
    returns (header: Header, raw: Bytes, at: seq<nat>)
    requires Created(engine, base, target, metadata, limits).Success?
    ensures var h, p := engine.sha3, engine.chunker.p;
            var prior, chunks := Chunks(engine.chunker, base), Chunks(engine.chunker, target);
            && Rising(at, |chunks|)
            && (forall i: nat :: i < |chunks| ==> (i in at <==> FirstNovel(h, prior, chunks, i)))
            && Created(engine, base, target, metadata, limits).value
               == [0x54, 0x46, 0x50, 0x5A, 0x49, 0x4D, 0x50, 0x31] + ToBytes(|raw|, 4) + raw + Carried(h, chunks, at)
            && engine.json.render(header, metadata) == Some(raw) && |raw| < 0x1_0000_0000
            && header.baseSha3 == h(base) && header.targetSha3 == h(target) && header.targetSize == |target|
            && |header.targetChunkHashes| == |chunks|
            && (forall i :: 0 <= i < |chunks| ==> header.targetChunkHashes[i] == h(chunks[i]))
            && header.novelChunkCount == |at| && header.totalNovelBytes == |Carried(h, chunks, at)| - 69 * |at|
            && header.chunkerParams == Some([p.minSize, p.targetSize, p.maxSize])
  {
    var c, h := engine.chunker, engine.sha3;
    var entries, chunks := FileEntries(c, h, target), Chunks(c, target);
    var offsets := Index(FileEntries(c, h, base), limits).value;
    EntriesOfFile(c, h, target);
    CollectedIsNovel(entries, offsets, limits);
    at := NovelPositions(entries, offsets);
    forall i: nat | i < |chunks| ensures i in at <==> FirstNovel(h, Chunks(c, base), chunks, i) {
      NovelIsFirst(c, h, base, target, limits, i);
    }
    header := HeaderFor(engine, base, target, offsets);
    raw := engine.json.render(header, metadata).value;
    hide FileEntries, Chunks, Index, Collected, Novel, Records, Carried, TotalBytes, FirstNovel, NovelAt;
    RecordsAt(h, entries, chunks, Novel(entries, offsets), at);
  }
}
