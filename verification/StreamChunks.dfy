/** The streaming chunker: chunks of a file read piece by piece through a bounded buffer. */
module StreamChunks {
  import opened Bytes
  import opened Cdc
  import opened Digests

  /** A chunk as the scanners yield it: offset in the file, bytes, digest. */
  datatype Entry = Entry(offset: nat, chunk: Bytes, digest: HexDigest)

  function Entries(h: Hasher, chunks: seq<Bytes>, offset: nat): (e: seq<Entry>)
    ensures |e| == |chunks|
  {
    if chunks == [] then []
    else [Entry(offset, chunks[0], h(chunks[0]))] + Entries(h, chunks[1..], offset + |chunks[0]|)
  }

  /** What streaming a file yields. */
  function FileEntries(c: Chunker, h: Hasher, file: Bytes): seq<Entry> {
    Entries(h, Chunks(c, file), 0)
  }

  lemma HeadChunk(c: Chunker, head: Bytes, tail: Bytes)
    requires head + tail != [] && CutLength(c, head + tail) == |head|
    ensures Chunks(c, head + tail) == [head] + Chunks(c, tail)
  {
    var data := head + tail;
    assert data[..|head|] == head && data[|head|..] == tail;
  }

  lemma EntriesStep(c: Chunker, h: Hasher, head: Bytes, tail: Bytes, offset: nat)
    requires head + tail != [] && CutLength(c, head + tail) == |head|
    ensures Entries(h, Chunks(c, head + tail), offset)
         == [Entry(offset, head, h(head))] + Entries(h, Chunks(c, tail), offset + |head|)
  {
    HeadChunk(c, head, tail);
    hide Chunks, CutLength;
    assert ([head] + Chunks(c, tail))[1..] == Chunks(c, tail);
  }

  /** The cut the buffer determines is the cut of everything still to come. */
  lemma BufferStep(c: Chunker, h: Hasher, buffer: Bytes, unread: Bytes, offset: nat)
    requires buffer != []
    requires unread == [] || (c.p.minSize < |buffer| && c.p.maxSize <= |buffer|)
    ensures var n := CutLength(c, buffer);
            Entries(h, Chunks(c, buffer + unread), offset)
              == [Entry(offset, buffer[..n], h(buffer[..n]))] + Entries(h, Chunks(c, buffer[n..] + unread), offset + n)
  {
    var n := CutLength(c, buffer);
    CutUnchanged(c, buffer, unread);
    hide *;
    SplitAppend(buffer, unread, n);
    EntriesStep(c, h, buffer[..n], buffer[n..] + unread, offset);
  }

  lemma SplitAppend(a: Bytes, b: Bytes, n: nat)
    requires n <= |a|
    ensures a + b == a[..n] + (a[n..] + b)
  {
  }

  lemma CutUnchanged(c: Chunker, buffer: Bytes, unread: Bytes)
    requires buffer != []
    requires unread == [] || (c.p.minSize < |buffer| && c.p.maxSize <= |buffer|)
    ensures CutLength(c, buffer + unread) == CutLength(c, buffer)
  {
    hide CutLength;
    if unread == [] {
      assert buffer + unread == buffer;
    } else {
      CutIsLocal(c, buffer, unread);
    }
  }

  /**
   Streaming a file in any nonempty reads terminates and yields the whole-buffer chunks with their
   offsets and digests.
   */
  method StreamFile(c: Chunker, h: Hasher, pieces: seq<Bytes>) returns (out: seq<Entry>)
    requires forall i :: 0 <= i < |pieces| ==> pieces[i] != []
    ensures out == FileEntries(c, h, Concat(pieces))
  {
    hide CutLength, Chunks, Entries;
    out := [];
    var buffer: Bytes := [];
    var fileOffset, eof, i := 0, false, 0;
    assert pieces[0..] == pieces && [] + Concat(pieces) == Concat(pieces);
    NoChunks(c, h);
    while !eof || buffer != []
      invariant 0 <= i <= |pieces| && (eof ==> i == |pieces|)
      invariant out + Entries(h, Chunks(c, buffer + Concat(pieces[i..])), fileOffset)
           == FileEntries(c, h, Concat(pieces))
      decreases |pieces| - i, !eof, |buffer|
    {
      if !eof && |buffer| < c.p.maxSize * 2 {
        if i == |pieces| {
          eof := true;
        } else {
          ReadStep(buffer, pieces, i);
          buffer := buffer + pieces[i];
          i := i + 1;
        }
      }
      if buffer == [] {
        break;
      }
      if |buffer| <= c.p.minSize && !eof {
        continue;
      }
      if Min(c.p.maxSize, |buffer|) < c.p.maxSize && !eof {
        continue;
      }
      ghost var unread := Concat(pieces[i..]);
      BufferStep(c, h, buffer, unread, fileOffset);
      var n;
      if |buffer| <= c.p.minSize {
        ShortCut(c, buffer);
        n := |buffer|;
      } else {
        assert buffer[0..] == buffer;
        n := FindCut(c, buffer, 0);
      }
      ghost var rest := Entries(h, Chunks(c, buffer[n..] + unread), fileOffset + n);
      var entry := Entry(fileOffset, buffer[..n], h(buffer[..n]));
      assert out + ([entry] + rest) == (out + [entry]) + rest;
      out := out + [entry];
      buffer := buffer[n..];
      fileOffset := fileOffset + n;
    }
    assert buffer + Concat(pieces[i..]) == [];
  }

  lemma ShortCut(c: Chunker, buffer: Bytes)
    requires 0 < |buffer| <= c.p.minSize
    ensures CutLength(c, buffer) == |buffer|
  {
  }

  lemma NoChunks(c: Chunker, h: Hasher)
    ensures forall offset :: Entries(h, Chunks(c, []), offset) == []
  {
  }

  lemma ReadStep(buffer: Bytes, pieces: seq<Bytes>, i: nat)
    requires i < |pieces|
    ensures buffer + Concat(pieces[i..]) == (buffer + pieces[i]) + Concat(pieces[i + 1..])
  {
    assert pieces[i..][1..] == pieces[i + 1..];
  }

  lemma {:induction false} EntryIs(h: Hasher, chunks: seq<Bytes>, offset: nat, i: nat)
    requires i < |chunks|
    ensures Entries(h, chunks, offset)[i] == Entry(offset + OffsetOf(chunks, i), chunks[i], h(chunks[i]))
  {
    if i > 0 {
      EntryIs(h, chunks[1..], offset + |chunks[0]|, i - 1);
      OffsetOfTail(chunks, i);
    }
  }

  lemma FirstOfRest(parts: seq<Bytes>, i: nat)
    requires i < |parts|
    ensures parts[i..] != [] && parts[i..][0] == parts[i]
  {
  }

  lemma SliceOfRest(file: Bytes, o: nat, n: nat)
    requires o + n <= |file|
    ensures file[o..][..n] == file[o..o + n]
  {
  }

  lemma ChunkIsSlice(c: Chunker, file: Bytes, i: nat)
    requires i < |Chunks(c, file)|
    ensures var o, n := OffsetOf(Chunks(c, file), i), |Chunks(c, file)[i]|;
            o + n <= |file| && Chunks(c, file)[i] == file[o..o + n]
  {
    ChunksFromBoundary(c, file, i);
    hide *;
    var o := OffsetOf(Chunks(c, file), i);
    FirstOfRest(Chunks(c, file), i);
    FirstIsPrefix(c, file[o..]);
    SliceOfRest(file, o, |Chunks(c, file)[i]|);
  }

  lemma FirstIsPrefix(c: Chunker, data: Bytes)
    requires Chunks(c, data) != []
    ensures |Chunks(c, data)[0]| <= |data| && Chunks(c, data)[0] == data[..|Chunks(c, data)[0]|]
  {
  }

  /** Every entry is the slice of the file at its offset, with that slice's digest. */
  lemma EntryIsSlice(c: Chunker, h: Hasher, file: Bytes, i: nat)
    requires i < |Chunks(c, file)|
    ensures var e := FileEntries(c, h, file)[i];
            && e.offset + |e.chunk| <= |file|
            && e.chunk == file[e.offset..e.offset + |e.chunk|]
            && e.digest == h(e.chunk)
  {
    ChunkIsSlice(c, file, i);
    hide Chunks, OffsetOf;
    EntryIs(h, Chunks(c, file), 0, i);
  }
}
