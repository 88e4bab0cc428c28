/** Bulletin admission: the committed tables, the caches in front of them, and what each operation does to both. */
module Bulletins {
  import opened Wrappers
  import opened Bytes
  import opened BulletinIdentity
  import opened BulletinContent
  import Fetch

  /** Bulletin and revision. */
  type RowKey = (string, int)

  /** Publisher and bulletin. */
  type MarkKey = (string, string)

  /** A display row. Digest and root may be NULL; an empty title also stands for NULL. */
  datatype Row = Row(publisher: string, contentHash: Option<string>, rootHash: Option<string>, title: string,
                     receivedAt: real)

  /** A watermark, whose digest and root are never NULL. An empty title also stands for NULL. */
  datatype Mark = Mark(maxRevision: int, contentHash: string, rootHash: string, title: string)

  datatype Tables = Tables(rows: map<RowKey, Row>, marks: map<MarkKey, Mark>)

  /**
   The database, the caches and the content stores of the running process, every record ever admitted, and
   the payloads admitted in this run.
   */
  datatype State = State(db: Tables, cachedRows: map<RowKey, Row>, cachedMarks: map<MarkKey, Mark>, content: Content,
                         history: set<Record>, payloads: map<Record, Bytes>)

  /** A bulletin on its way in. */
  datatype Submission = Submission(record: Record, data: Bytes, receivedAt: real)

  /** What the tables take over of it, with the root its content is stored under. */
  datatype Request = Request(record: Record, receivedAt: real, root: string)

  /** What goes wrong inside the transaction: a displayed row's content is missing, or the payload cannot be packed. */
  datatype Trouble = ContentMissing | PublicationFailed

  datatype Outcome = Admitted | Replayed | Refused(why: Verdict) | Raised(trouble: Trouble)

  function OrEmpty(s: Option<string>): string {
    if s.Some? then s.value else ""
  }

  /** What identity validation and the title default leave of a record. */
  predicate ValidRecord(r: Record) {
    r.bulletinId != "" && r.title != "" && r.revision >= 1
  }

  predicate ValidRequest(req: Request) {
    ValidRecord(req.record)
  }

  /** The digest is that of the payload. */
  predicate ValidSubmission(setup: Fetch.Setup, sub: Submission) {
    ValidRecord(sub.record) && sub.data != [] && sub.record.contentHash == setup.hashing.sha3(sub.data)
  }

  function Under(sub: Submission, root: string): Request {
    Request(sub.record, sub.receivedAt, root)
  }

  /** A display row as a query returns it. */
  function RecordOf(k: RowKey, row: Row): Record {
    Record(k.0, k.1, row.publisher, OrEmpty(row.contentHash), row.title)
  }

  function RowOf(req: Request): Row {
    Row(req.record.publisher, Some(req.record.contentHash), Some(req.root), req.record.title, req.receivedAt)
  }

  function KeyOf(r: Record): RowKey {
    (r.bulletinId, r.revision)
  }

  function MarkKeyOf(r: Record): MarkKey {
    (r.publisher, r.bulletinId)
  }

  /** A missing title stands for the bulletin's name. */
  function Canonical(title: string, bid: string): string {
    if title != "" then title else bid
  }

  /** The record a watermark stands for. */
  function MarkRecord(k: MarkKey, m: Mark): Record {
    Record(k.1, m.maxRevision, k.0, m.contentHash, Canonical(m.title, k.1))
  }

  /** The record a display row stands for. */
  function RowRecord(k: RowKey, row: Row): Record {
    Record(k.0, k.1, row.publisher, OrEmpty(row.contentHash), Canonical(row.title, k.0))
  }

  function Displayed(rows: map<RowKey, Row>): set<Record> {
    set k | k in rows :: RecordOf(k, rows[k])
  }

  /** A query result for one bulletin: any enumeration of the matching rows. */
  predicate Lists(list: seq<Record>, s: set<Record>, bid: string) {
    && (forall i :: 0 <= i < |list| ==> list[i] in s && list[i].bulletinId == bid)
    && (forall r :: r in s && r.bulletinId == bid ==> r in list)
  }

  predicate ListsMarks(list: seq<(string, Mark)>, marks: map<MarkKey, Mark>, bid: string) {
    && (forall i :: 0 <= i < |list| ==> (list[i].0, bid) in marks && marks[(list[i].0, bid)] == list[i].1)
    && (forall k :: k in marks && k.1 == bid ==> (k.0, marks[k]) in list)
  }

  // ---------------------------------------------------------------- admission

  /** The title a replay at the watermark must carry: from the display row if there is one. */
  function ExpectedTitle(rows: map<RowKey, Row>, r: Record, m: Mark): string {
    Canonical(if KeyOf(r) in rows then rows[KeyOf(r)].title else m.title, r.bulletinId)
  }

  function MarkVerdict(pub: string, m: Mark, rows: map<RowKey, Row>, r: Record): Verdict {
    if pub != r.publisher then PublisherConflict
    else if r.revision < m.maxRevision then Stale
    else if r.revision == m.maxRevision then
      if r.contentHash == m.contentHash && r.title == ExpectedTitle(rows, r, m) then Duplicate else RevisionConflict
    else Fresh
  }

  /** The first check, against the watermarks of the bulletin in the order the query lists them. */
  function WatermarkVerdict(list: seq<(string, Mark)>, rows: map<RowKey, Row>, r: Record): Verdict {
    if list == [] then Fresh
    else
      var v := MarkVerdict(list[0].0, list[0].1, rows, r);
      if v != Fresh then v else WatermarkVerdict(list[1..], rows, r)
  }

  /** Both checks. */
  function Admission(markList: seq<(string, Mark)>, rowList: seq<Record>, rows: map<RowKey, Row>, r: Record): Verdict {
    var v := WatermarkVerdict(markList, rows, r);
    if v != Fresh then v else CheckRevision(rowList, r)
  }

  /** The upsert of the watermark table. */
  function Upserted(marks: map<MarkKey, Mark>, req: Request): map<MarkKey, Mark> {
    var r := req.record;
    var k := MarkKeyOf(r);
    if k !in marks then marks[k := Mark(r.revision, r.contentHash, req.root, r.title)]
    else
      var m := marks[k];
      marks[k := Mark(if r.revision > m.maxRevision then r.revision else m.maxRevision,
                      if r.revision >= m.maxRevision then r.contentHash else m.contentHash,
                      if r.revision >= m.maxRevision then req.root else m.rootHash,
                      if r.revision >= m.maxRevision then r.title else m.title)]
  }

  /** The cache assignment next to it, written independently. */
  function Recached(marks: map<MarkKey, Mark>, req: Request): map<MarkKey, Mark> {
    var r := req.record;
    var k := MarkKeyOf(r);
    var prevMax := if k in marks then marks[k].maxRevision else 0;
    if k !in marks || r.revision >= prevMax
    then marks[k := Mark(if r.revision >= prevMax then r.revision else prevMax, r.contentHash, req.root, r.title)]
    else marks[k := marks[k].(maxRevision := prevMax)]
  }

  function Inserted(s: State, req: Request): State {
    var k, row := KeyOf(req.record), RowOf(req);
    s.(db := Tables(s.db.rows[k := row], Upserted(s.db.marks, req)), cachedRows := s.cachedRows[k := row],
       cachedMarks := Recached(s.cachedMarks, req), history := s.history + {req.record})
  }

  /** An exact replay of a pruned record puts its display row back. */
  function Readmitted(s: State, req: Request): State {
    var k, mk, row := KeyOf(req.record), MarkKeyOf(req.record), RowOf(req);
    var marks :=
      if mk in s.db.marks then s.db.marks[mk := s.db.marks[mk].(title := req.record.title, rootHash := req.root)]
      else s.db.marks;
    var cached :=
      if mk in s.cachedMarks then
        var m := s.cachedMarks[mk].(rootHash := req.root);
        s.cachedMarks[mk := if m.title == "" then m.(title := req.record.title) else m]
      else s.cachedMarks;
    s.(db := Tables(s.db.rows[k := row], marks), cachedRows := s.cachedRows[k := row], cachedMarks := cached)
  }

  /** The root a display row's content is read under. */
  function ContentKey(row: Row): string {
    if OrEmpty(row.rootHash) != "" then row.rootHash.value else OrEmpty(row.contentHash)
  }

  /** Reading the record's display row, if there is one, does not raise. */
  predicate Readable(s: State, r: Record) {
    KeyOf(r) in s.db.rows ==> Held(s.content, ContentKey(s.db.rows[KeyOf(r)]))
  }

  /** The content behind reading the record's display row. */
  function RowRead(s: State, r: Record): Content {
    if KeyOf(r) in s.db.rows then Ensured(s.content, ContentKey(s.db.rows[KeyOf(r)])) else s.content
  }

  /** The root the watermark names. */
  function MarkedRoot(s: State, r: Record): string {
    if MarkKeyOf(r) in s.db.marks then s.db.marks[MarkKeyOf(r)].rootHash else ""
  }

  /** The root an accepted replay is stored under: the watermark's if the node knows it. */
  function ReplayRoot(s: State, sub: Submission): string {
    var marked := MarkedRoot(s, sub.record);
    if Known(s.content, marked) then marked else RootOf(s.content.setup, sub.data)
  }

  /** A replay the watermark accepts, the display row read. Only a pruned record's content is committed. */
  function Replay(s: State, sub: Submission): (State, Outcome) {
    var r, marked := sub.record, MarkedRoot(s, sub.record);
    var found := s.(content := Ensured(s.content, marked));
    if Known(s.content, marked) then
      (if KeyOf(r) in s.db.rows then found else Readmitted(found, Under(sub, marked)), Replayed)
    else if !Packs(s.content.setup, sub.data) then (found, Raised(PublicationFailed))
    else if KeyOf(r) in s.db.rows then (found.(content := InMemory(found.content, sub.data)), Replayed)
    else
      (Readmitted(found.(content := Persisted(found.content, sub.data)), Under(sub, RootOf(s.content.setup, sub.data))),
       Replayed)
  }

  /** The watermark is of the submission's revision; `w` says whether it agrees. */
  function AtWatermark(s: State, sub: Submission, w: Verdict): (State, Outcome) {
    var t := s.(content := RowRead(s, sub.record));
    if !Readable(s, sub.record) then (t, Raised(ContentMissing))
    else if w == Duplicate then Replay(t, sub)
    else (t, Refused(w))
  }

  /** A display row that no watermark covers agrees with the submission. */
  function AtRow(s: State, sub: Submission): (State, Outcome) {
    if KeyOf(sub.record) !in s.db.rows then (s, Replayed)
    else
      var root := OrEmpty(s.db.rows[KeyOf(sub.record)].rootHash);
      var found := s.(content := Ensured(s.content, root));
      var t := found.(content := RowRead(found, sub.record));
      if !Readable(found, sub.record) then (t, Raised(ContentMissing))
      else if root in t.content.memory.recipes then (t, Replayed)
      else if !Packs(s.content.setup, sub.data) then (t, Raised(PublicationFailed))
      else (t.(content := InMemory(t.content, sub.data)), Replayed)
  }

  /** A fresh submission is published and entered in one transaction. */
  function AdmitFresh(s: State, sub: Submission): (State, Outcome) {
    if !Packs(s.content.setup, sub.data) then (s, Raised(PublicationFailed))
    else
      (Inserted(s, Under(sub, RootOf(s.content.setup, sub.data)))
         .(content := Persisted(s.content, sub.data), payloads := s.payloads[sub.record := sub.data]),
       Admitted)
  }

  /** One store, for given query results. */
  function Stored(s: State, sub: Submission, markList: seq<(string, Mark)>, rowList: seq<Record>): (State, Outcome) {
    var w := WatermarkVerdict(markList, s.db.rows, sub.record);
    if w == Duplicate || w == RevisionConflict then AtWatermark(s, sub, w)
    else if w != Fresh then (s, Refused(w))
    else
      var c := CheckRevision(rowList, sub.record);
      if c == Fresh then AdmitFresh(s, sub)
      else if c == Duplicate then AtRow(s, sub)
      else (s, Refused(c))
  }

  /** What `get_bulletin` returns for a display row. */
  function Served(s: State, k: RowKey): Result<Bytes, Fetch.FetchError>
    requires k in s.db.rows
  {
    Read(s.content, ContentKey(s.db.rows[k]))
  }

  // ---------------------------------------------------------------- pruning

  /** `a` comes no later than `b` in the pruning order: by time of receipt, then by revision. */
  predicate NoNewer(rows: map<RowKey, Row>, a: RowKey, b: RowKey)
    requires a in rows && b in rows
  {
    rows[a].receivedAt < rows[b].receivedAt || (rows[a].receivedAt == rows[b].receivedAt && a.1 <= b.1)
  }

  /** `ORDER BY received_at DESC, revision DESC LIMIT n`; a negative limit is no limit. */
  predicate KeepsNewest(rows: map<RowKey, Row>, n: int, kept: set<RowKey>) {
    && kept <= rows.Keys
    && |kept| == (if 0 <= n < |rows| then n else |rows|)
    && forall a, b :: a in rows && a !in kept && b in kept ==> NoNewer(rows, a, b)
  }

  function Restricted(rows: map<RowKey, Row>, kept: set<RowKey>): map<RowKey, Row> {
    map k | k in rows && k in kept :: rows[k]
  }

  function Pruned(s: State, kept: set<RowKey>): State {
    s.(db := s.db.(rows := Restricted(s.db.rows, kept)), cachedRows := Restricted(s.cachedRows, kept))
  }

  // ---------------------------------------------------------------- reopening

  /** The newest display row of a publisher's bulletin. */
  ghost predicate IsTop(rows: map<RowKey, Row>, k: MarkKey, t: RowKey) {
    && t in rows && t.0 == k.1 && rows[t].publisher == k.0
    && forall u :: u in rows && u.0 == k.1 && rows[u].publisher == k.0 ==> u.1 <= t.1
  }

  ghost predicate HasRows(rows: map<RowKey, Row>, k: MarkKey) {
    exists t :: t in rows && t.0 == k.1 && rows[t].publisher == k.0
  }

  /** The watermark after merging the newest display row into it. */
  function Joined(marks: map<MarkKey, Mark>, k: MarkKey, revision: int, row: Row): Mark {
    if k !in marks || revision > marks[k].maxRevision then
      Mark(revision, OrEmpty(row.contentHash), OrEmpty(row.rootHash), row.title)
    else if revision == marks[k].maxRevision then
      var m := marks[k];
      Mark(m.maxRevision,
           if m.contentHash == "" then OrEmpty(row.contentHash) else m.contentHash,
           if m.rootHash == "" then OrEmpty(row.rootHash) else m.rootHash,
           if m.title == "" then row.title else m.title)
    else marks[k]
  }

  /** The backfill of the watermark table from the display rows. */
  ghost predicate IsBackfill(rows: map<RowKey, Row>, marks: map<MarkKey, Mark>, after: map<MarkKey, Mark>) {
    && (forall k :: k in after ==> k in marks || HasRows(rows, k))
    && (forall k :: k in marks ==> k in after)
    && (forall k :: k in marks && !HasRows(rows, k) ==> after[k] == marks[k])
    && (forall k, t :: IsTop(rows, k, t) ==> k in after && after[k] == Joined(marks, k, t.1, rows[t]))
  }

  /**
   The backfill writes the newest rows into columns that cannot be NULL, so the database opens only if each
   of those has digest and root.
   */
  ghost predicate Openable(rows: map<RowKey, Row>) {
    forall k, t :: IsTop(rows, k, t) ==> rows[t].contentHash.Some? && rows[t].rootHash.Some?
  }

  /** A process starting on a database: watermarks backfilled and cached, display cache and stores empty. */
  function Opened(db: Tables, content: Content, after: map<MarkKey, Mark>, history: set<Record>): State {
    State(db.(marks := after), map[], after, Restarted(content), history, map[])
  }

  /** A restart in a run. */
  function Reopened(s: State, after: map<MarkKey, Mark>): State {
    Opened(s.db, s.content, after, s.history).(payloads := s.payloads)
  }

  // ---------------------------------------------------------------- the machine

  datatype Op =
    | Store(sub: Submission, markList: seq<(string, Mark)>, rowList: seq<Record>)
    | Prune(limit: int, kept: set<RowKey>)
    | Fail
    | Reopen(after: map<MarkKey, Mark>)

  ghost predicate Enabled(s: State, op: Op) {
    match op
    case Store(sub, markList, rowList) =>
      && ValidSubmission(s.content.setup, sub)
      && ListsMarks(markList, s.db.marks, sub.record.bulletinId)
      && Lists(rowList, Displayed(s.db.rows), sub.record.bulletinId)
    case Prune(limit, kept) => KeepsNewest(s.db.rows, limit, kept)
    case Fail => true
    case Reopen(after) => Openable(s.db.rows) && IsBackfill(s.db.rows, s.db.marks, after)
  }

  /** The state behind an operation. A failed operation is rolled back. */
  function Next(s: State, op: Op): State {
    match op
    case Store(sub, markList, rowList) => Stored(s, sub, markList, rowList).0
    case Prune(limit, kept) => Pruned(s, kept)
    case Fail => s
    case Reopen(after) => Reopened(s, after)
  }

  ghost predicate Run(states: seq<State>, ops: seq<Op>) {
    && |states| == |ops| + 1
    && forall i :: 0 <= i < |ops| ==> Enabled(states[i], ops[i]) && states[i + 1] == Next(states[i], ops[i])
  }

  /** The operation stores or re-admits this record. */
  predicate Accepts(s: State, op: Op, r: Record) {
    op.Store? && op.sub.record == r && Stored(s, op.sub, op.markList, op.rowList).1 in {Admitted, Replayed}
  }

  // ---------------------------------------------------------------- invariants

  /** One publisher per bulletin and one content and title per revision. */
  predicate Coherent(s: set<Record>) {
    forall a, b :: a in s && b in s && a.bulletinId == b.bulletinId ==>
        a.publisher == b.publisher && (a.revision == b.revision ==> a == b)
  }

  predicate IsNewest(s: set<Record>, r: Record) {
    r in s && forall q :: q in s && q.bulletinId == r.bulletinId ==> q.revision <= r.revision
  }

  /** Every watermark is the newest record of its bulletin. */
  predicate MarksNewest(marks: map<MarkKey, Mark>, s: set<Record>) {
    forall k :: k in marks ==> IsNewest(s, MarkRecord(k, marks[k]))
  }

  /** Every bulletin has a watermark. */
  predicate AllMarked(marks: map<MarkKey, Mark>, s: set<Record>) {
    forall r :: r in s ==> MarkKeyOf(r) in marks
  }

  predicate RowsKnown(rows: map<RowKey, Row>, s: set<Record>) {
    forall k :: k in rows ==> RowRecord(k, rows[k]) in s
  }

  predicate Agrees(cached: map<RowKey, Row>, rows: map<RowKey, Row>) {
    forall k :: k in cached ==> k in rows && cached[k] == rows[k]
  }

  predicate Inv(s: State) {
    && Coherent(s.history)
    && RowsKnown(s.db.rows, s.history)
    && MarksNewest(s.db.marks, s.history) && AllMarked(s.db.marks, s.history)
    && s.cachedMarks == s.db.marks
    && Agrees(s.cachedRows, s.db.rows)
  }

  // ---------------------------------------------------------------- databases of earlier versions

  /** Everything the tables name for a bulletin comes from one publisher. */
  predicate OnePublisher(db: Tables) {
    && (forall j, k :: j in db.rows && k in db.rows && j.0 == k.0 ==> db.rows[j].publisher == db.rows[k].publisher)
    && (forall j, k :: j in db.rows && k in db.marks && j.0 == k.1 ==> db.rows[j].publisher == k.0)
    && (forall j, k :: j in db.marks && k in db.marks && j.1 == k.1 ==> j == k)
  }

  /** Where a watermark and the newest display row are of one revision they agree, up to what the watermark lacks. */
  ghost predicate TopsAgree(db: Tables) {
    forall k, t :: k in db.marks && IsTop(db.rows, k, t) && t.1 == db.marks[k].maxRevision ==>
      && db.marks[k].contentHash in {OrEmpty(db.rows[t].contentHash), ""}
      && db.marks[k].title in {Canonical(db.rows[t].title, t.0), ""}
  }

  /**
   Tables that do not contradict themselves. Watermarks may be missing or behind the display rows, and
   rows and watermarks may lack a title or a digest, as in a database an earlier version left behind.
   */
  ghost predicate Consistent(db: Tables) {
    OnePublisher(db) && TopsAgree(db)
  }

  /** All that the tables still know. */
  function Remembered(db: Tables): set<Record> {
    (set k | k in db.rows :: RowRecord(k, db.rows[k])) + (set k | k in db.marks :: MarkRecord(k, db.marks[k]))
  }

  /** The tables hold records of `history`, as far as they hold anything; only titles and digests may be missing. */
  ghost predicate Recalls(db: Tables, history: set<Record>) {
    && Coherent(history)
    && (forall k :: k in db.rows ==> exists r :: r in history && KeyOf(r) == k && RowUpTo(db.rows[k], r))
    && (forall k :: k in db.marks ==> exists r :: r in history && MarkKeyOf(r) == k && MarkUpTo(db.marks[k], r))
  }

  predicate RowUpTo(row: Row, r: Record) {
    row.publisher == r.publisher && OrEmpty(row.contentHash) == r.contentHash && row.title in {r.title, ""}
  }

  predicate MarkUpTo(m: Mark, r: Record) {
    m.maxRevision == r.revision && m.contentHash in {r.contentHash, ""} && m.title in {r.title, ""}
  }
}
