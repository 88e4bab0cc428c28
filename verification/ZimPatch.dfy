/** Delta patches: the format, its producer and its consumer, as functions of the files involved. */
module ZimPatch {
  import opened Wrappers
  import opened Bytes
  import opened Cdc
  import opened Digests
  import opened StreamChunks

  /** "TFPZIMP1" */
  const MAGIC: Bytes := [0x54, 0x46, 0x50, 0x5A, 0x49, 0x4D, 0x50, 0x31]

  datatype Limits = Limits(maxHeaderBytes: nat, maxChunks: nat, maxChunkBytes: nat, maxTargetBytes: nat)

  datatype Header = Header(baseSha3: string, targetSha3: string, targetSize: int, targetChunkHashes: seq<string>,
                           novelChunkCount: int, totalNovelBytes: int, chunkerParams: Option<seq<int>>)

  /** A key of a metadata object, with the text it is printed as: a string, or a number, a flag or null. */
  datatype Key = Text(text: string) | Other(text: string)

  datatype Metadata = Object(entries: seq<(Key, Metadata)>) | Array(items: seq<Metadata>) | Scalar(text: string)

  /** No two keys of an object print alike. */
  predicate PrintsApart(m: Metadata) {
    match m
    case Object(entries) =>
      && (forall i, j :: 0 <= i < j < |entries| ==> entries[i].0.text != entries[j].0.text)
      && (forall i :: 0 <= i < |entries| ==> PrintsApart(entries[i].1))
    case Array(items) => forall i :: 0 <= i < |items| ==> PrintsApart(items[i])
    case Scalar(_) => true
  }

  /** Header text: printing may raise, parsing raises on anything that is not such a record. */
  datatype Json = Json(render: (Header, Metadata) -> Option<Bytes>, parse: Bytes -> Option<Header>)

  datatype Engine = Engine(chunker: Chunker, sha3: Hasher, json: Json)

  datatype PatchError =
    | ArchiveTooLarge | BaseExceedsLimits | TargetExceedsLimits | BadHeaderText | HeaderTooLarge | FieldOverflow
    | BadMagic | Truncated | BadHeaderFields | ParametersDiffer | BadChunkLength | BadDigest | DuplicateNovelChunk
    | ChunkDigestMismatch | UnexpectedRecords | BaseDigestMismatch | MissingChunk | ChunkTooLarge
    | SizeExceeded | IntegrityFailure

  // ---------------------------------------------------------------- the base index

  /** Offsets and sizes of the first copy of each chunk of a scanned file; None when a limit is exceeded. */
  function Index(entries: seq<Entry>, limits: Limits): Option<map<string, (nat, nat)>> {
    if entries == [] then Some(map[])
    else
      var e := entries[|entries| - 1];
      var before := Index(entries[..|entries| - 1], limits);
      if before.None? then None
      else if |e.chunk| > limits.maxChunkBytes
          || (e.digest !in before.value && |before.value| >= limits.maxChunks) then None
      else if e.digest in before.value then before
      else Some(before.value[e.digest := (e.offset, |e.chunk|)])
  }

  // ---------------------------------------------------------------- creating

  function DigestsOf(entries: seq<Entry>): (d: seq<string>)
    ensures |d| == |entries|
  {
    seq(|entries|, i requires 0 <= i < |entries| => entries[i].digest)
  }

  predicate HasDigest(entries: seq<Entry>, digest: string) {
    exists i :: 0 <= i < |entries| && entries[i].digest == digest
  }

  /** The entries whose chunk is neither in the base nor seen before. */
  function Novel(entries: seq<Entry>, offsets: map<string, (nat, nat)>): seq<Entry> {
    if entries == [] then []
    else
      var e := entries[|entries| - 1];
      var before := Novel(entries[..|entries| - 1], offsets);
      if e.digest in offsets || HasDigest(before, e.digest) then before else before + [e]
  }

  function TotalBytes(entries: seq<Entry>): nat {
    if entries == [] then 0 else TotalBytes(entries[..|entries| - 1]) + |entries[|entries| - 1].chunk|
  }

  function Record(e: Entry): Bytes {
    [64] + ToBytes(|e.chunk|, 4) + HexBytes(e.digest) + e.chunk
  }

  function Records(entries: seq<Entry>): Bytes {
    if entries == [] then [] else Records(entries[..|entries| - 1]) + Record(entries[|entries| - 1])
  }

  /** The producer's loop over the target chunks: the novel ones, or the first failure. */
  function Collected(entries: seq<Entry>, offsets: map<string, (nat, nat)>,
                     limits: Limits): Result<seq<Entry>, PatchError> {
    if entries == [] then Success([])
    else
      var n := |entries| - 1;
      var e := entries[n];
      match Collected(entries[..n], offsets, limits)
      case Failure(error) => Failure(error)
      case Success(novel) =>
        if n >= limits.maxChunks || |e.chunk| > limits.maxChunkBytes then Failure(TargetExceedsLimits)
        else if e.digest in offsets || HasDigest(novel, e.digest) then Success(novel)
        else if |e.chunk| >= Pow(256, 4) then Failure(FieldOverflow)
        else Success(novel + [e])
  }

  predicate WithinLimits(entries: seq<Entry>, limits: Limits) {
    && |entries| <= limits.maxChunks
    && forall i :: 0 <= i < |entries| ==> |entries[i].chunk| <= limits.maxChunkBytes
  }

  lemma {:induction false} CollectedIsNovel(entries: seq<Entry>, offsets: map<string, (nat, nat)>, limits: Limits)
    requires Collected(entries, offsets, limits).Success?
    ensures Collected(entries, offsets, limits).value == Novel(entries, offsets)
    ensures WithinLimits(entries, limits) && RecordsFit(Novel(entries, offsets))
  {
    if entries != [] {
      CollectedIsNovel(entries[..|entries| - 1], offsets, limits);
    }
  }

  /** Record lengths that fit their four bytes. */
  predicate RecordsFit(entries: seq<Entry>) {
    forall i :: 0 <= i < |entries| ==> |entries[i].chunk| < Pow(256, 4)
  }

  function ParametersOf(c: Chunker): seq<int> {
    [c.p.minSize, c.p.targetSize, c.p.maxSize]
  }

  function HeaderFor(engine: Engine, base: Bytes, target: Bytes, offsets: map<string, (nat, nat)>): Header {
    var entries := FileEntries(engine.chunker, engine.sha3, target);
    var novel := Novel(entries, offsets);
    Header(engine.sha3(base), engine.sha3(target), |target|, DigestsOf(entries), |novel|, TotalBytes(novel),
           Some(ParametersOf(engine.chunker)))
  }

  /** The header text a creation prints, for the base index it built. */
  function HeaderText(engine: Engine, base: Bytes, target: Bytes, metadata: Metadata,
                      limits: Limits): Option<(Header, Bytes)> {
    var offsets := Index(FileEntries(engine.chunker, engine.sha3, base), limits);
    if offsets.None? then None
    else
      var header := HeaderFor(engine, base, target, offsets.value);
      var raw := engine.json.render(header, metadata);
      if raw.None? then None else Some((header, raw.value))
  }

  /** The printed text is read as the header it was printed from. */
  predicate ReadsBack(engine: Engine, base: Bytes, target: Bytes, metadata: Metadata, limits: Limits) {
    match HeaderText(engine, base, target, metadata, limits)
    case None => false
    case Some((header, raw)) => raw != [] && engine.json.parse(raw) == Some(header)
  }

  /** The printed text is never read as another header; it may not be readable at all. */
  predicate NotMistaken(engine: Engine, base: Bytes, target: Bytes, metadata: Metadata, limits: Limits) {
    match HeaderText(engine, base, target, metadata, limits)
    case None => true
    case Some((header, raw)) => engine.json.parse(raw) in {None, Some(header)}
  }

  /** The printed text is read as its header, unless it repeats a field. */
  predicate FollowsJson(engine: Engine, base: Bytes, target: Bytes, metadata: Metadata, limits: Limits) {
    match HeaderText(engine, base, target, metadata, limits)
    case None => true
    case Some((header, raw)) =>
      raw != [] && engine.json.parse(raw) == if PrintsApart(metadata) then Some(header) else None
  }

  function Created(engine: Engine, base: Bytes, target: Bytes, metadata: Metadata,
                   limits: Limits): Result<Bytes, PatchError> {
    if |base| > limits.maxTargetBytes || |target| > limits.maxTargetBytes then Failure(ArchiveTooLarge)
    else
      var offsets := Index(FileEntries(engine.chunker, engine.sha3, base), limits);
      if offsets.None? then Failure(BaseExceedsLimits)
      else
        var entries := FileEntries(engine.chunker, engine.sha3, target);
        var novel := Collected(entries, offsets.value, limits);
        if novel.Failure? then Failure(novel.error)
        else
          var raw := engine.json.render(HeaderFor(engine, base, target, offsets.value), metadata);
          if raw.None? then Failure(BadHeaderText)
          else if |raw.value| > limits.maxHeaderBytes then Failure(HeaderTooLarge)
          else if |raw.value| >= Pow(256, 4) then Failure(FieldOverflow)
          else Success(MAGIC + ToBytes(|raw.value|, 4) + raw.value + Records(novel.value))
  }

  // ---------------------------------------------------------------- applying

  /** `stream.read(n)` at position `pos`. */
  function Read(file: Bytes, pos: nat, n: nat): (b: Bytes)
    ensures |b| <= n
    ensures pos + n <= |file| ==> |b| == n && b == file[pos..pos + n]
  {
    if pos >= |file| then [] else if pos + n <= |file| then file[pos..pos + n] else file[pos..]
  }

  datatype Novelties = Novelties(index: map<string, (nat, nat)>, total: nat, pos: nat)

  /** One record behind those already read. */
  function ReadRecord(h: Hasher, patch: Bytes, limits: Limits, so: Novelties): Result<Novelties, PatchError> {
    var record := Read(patch, so.pos, 5);
    if |record| != 5 then Failure(Truncated)
    else
      var length := FromBytes(record[1..]);
      if record[0] != 64 || !(0 < length <= limits.maxChunkBytes) then Failure(BadChunkLength)
      else
        var digest := FromAscii(Read(patch, so.pos + 5, 64));
        if digest.None? || !IsHexDigest(digest.value) then Failure(BadDigest)
        else if digest.value in so.index then Failure(DuplicateNovelChunk)
        else
          var chunk := Read(patch, so.pos + 69, length);
          if |chunk| != length || h(chunk) != digest.value then Failure(ChunkDigestMismatch)
          else Success(Novelties(so.index[digest.value := (so.pos + 69, length)], so.total + length,
                                 so.pos + 69 + length))
  }

  function ReadRecords(h: Hasher, patch: Bytes, limits: Limits, start: nat, count: nat): Result<Novelties, PatchError> {
    if count == 0 then Success(Novelties(map[], 0, start))
    else
      match ReadRecords(h, patch, limits, start, count - 1)
      case Failure(e) => Failure(e)
      case Success(so) => ReadRecord(h, patch, limits, so)
  }

  predicate Bounded(v: int, maximum: nat) {
    0 <= v <= maximum
  }

  predicate HeaderAcceptable(header: Header, limits: Limits) {
    && Bounded(header.targetSize, limits.maxTargetBytes)
    && Bounded(header.novelChunkCount, limits.maxChunks)
    && Bounded(header.totalNovelBytes, limits.maxTargetBytes)
    && |header.targetChunkHashes| <= limits.maxChunks
    && (forall i :: 0 <= i < |header.targetChunkHashes| ==> IsHexDigest(header.targetChunkHashes[i]))
    && IsHexDigest(header.baseSha3) && IsHexDigest(header.targetSha3)
  }

  /** The header and the position behind it. */
  function ReadHeader(engine: Engine, patch: Bytes, limits: Limits): Result<(Header, nat), PatchError> {
    if Read(patch, 0, 8) != MAGIC then Failure(BadMagic)
    else
      var lengthRaw := Read(patch, 8, 4);
      if |lengthRaw| != 4 then Failure(Truncated)
      else
        var length := FromBytes(lengthRaw);
        if !(0 < length <= limits.maxHeaderBytes) then Failure(HeaderTooLarge)
        else
          var raw := Read(patch, 12, length);
          if |raw| != length then Failure(Truncated)
          else
            match engine.json.parse(raw)
            case None => Failure(BadHeaderText)
            case Some(header) =>
              if !HeaderAcceptable(header, limits) then Failure(BadHeaderFields)
              else if (if header.chunkerParams.Some? then header.chunkerParams.value else [16384, 65536, 131072])
                      != ParametersOf(engine.chunker) then Failure(ParametersDiffer)
              else Success((header, 12 + length))
  }

  /** One more target chunk behind `out`. */
  function RebuildChunk(h: Hasher, base: Bytes, patch: Bytes, offsets: map<string, (nat, nat)>,
                        novel: map<string, (nat, nat)>, limits: Limits, size: int, digest: string, out: Bytes)
    : Result<Bytes, PatchError>
  {
    var source, index := if digest in novel then patch else base, if digest in novel then novel else offsets;
    if digest !in index then Failure(MissingChunk)
    else
      var (offset, length) := index[digest];
      if length > limits.maxChunkBytes then Failure(ChunkTooLarge)
      else
        var chunk := Read(source, offset, length);
        if h(chunk) != digest then Failure(ChunkDigestMismatch)
        else if |out| + |chunk| > size then Failure(SizeExceeded)
        else Success(out + chunk)
  }

  function Rebuild(h: Hasher, base: Bytes, patch: Bytes, offsets: map<string, (nat, nat)>,
                   novel: map<string, (nat, nat)>, limits: Limits, size: int, hashes: seq<string>)
    : Result<Bytes, PatchError>
  {
    if hashes == [] then Success([])
    else
      match Rebuild(h, base, patch, offsets, novel, limits, size, hashes[..|hashes| - 1])
      case Failure(e) => Failure(e)
      case Success(out) => RebuildChunk(h, base, patch, offsets, novel, limits, size, hashes[|hashes| - 1], out)
  }

  /** The installed output; a failure installs nothing. */
  function Applied(engine: Engine, base: Bytes, patch: Bytes, limits: Limits): Result<Bytes, PatchError> {
    if |base| > limits.maxTargetBytes then Failure(ArchiveTooLarge)
    else
      match ReadHeader(engine, patch, limits)
      case Failure(e) => Failure(e)
      case Success((header, start)) =>
        var count := if header.novelChunkCount < 0 then 0 else header.novelChunkCount;
        match ReadRecords(engine.sha3, patch, limits, start, count)
        case Failure(e) => Failure(e)
        case Success(so) =>
          if Read(patch, so.pos, 1) != [] || so.total != header.totalNovelBytes
             || exists digest :: digest in so.index && digest !in header.targetChunkHashes
          then Failure(UnexpectedRecords)
          else
            match Index(FileEntries(engine.chunker, engine.sha3, base), limits)
            case None => Failure(BaseExceedsLimits)
            case Some(offsets) =>
              if engine.sha3(base) != header.baseSha3 then Failure(BaseDigestMismatch)
              else
                match Rebuild(engine.sha3, base, patch, offsets, so.index, limits, header.targetSize,
                              header.targetChunkHashes)
                case Failure(e) => Failure(e)
                case Success(out) =>
                  if |out| != header.targetSize || engine.sha3(out) != header.targetSha3 then Failure(IntegrityFailure)
                  else Success(out)
  }
}
