/** Bulletin safety over whole runs of stores, prunes, failures and restarts. */
module BulletinRuns {
  import opened Wrappers
  import opened BulletinIdentity
  import opened BulletinContent
  import opened Bulletins
  import opened BulletinSafety
  import opened BulletinReopen
  import Fetch
  import Sets

  // ---------------------------------------------------------------- runs

  lemma StepKeepsInv(s: State, op: Op)
    requires Inv(s) && Enabled(s, op)
    ensures Inv(Next(s, op))
  {
    hide Inv, Stored, ValidSubmission, ListsMarks, Lists, KeepsNewest, IsBackfill, Openable;
    match op
    case Store(sub, markList, rowList) => StoredKeepsInv(s, sub, markList, rowList);
    case Prune(limit, kept) => PrunedKeepsInv(s, kept);
    case Fail =>
    case Reopen(after) => ReopenKeepsInv(s, after);
  }

  lemma {:induction false} RunKeepsInv(states: seq<State>, ops: seq<Op>, i: nat)
    requires Run(states, ops) && Inv(states[0]) && i < |states|
    ensures Inv(states[i])
  {
    hide Inv, Enabled, Next;
    if i > 0 {
      RunKeepsInv(states, ops, i - 1);
      StepKeepsInv(states[i - 1], ops[i - 1]);
    }
  }

  /** Nothing admitted is ever forgotten, and watermarks never go down. */
  predicate Progress(s: State, t: State) {
    && s.history <= t.history
    && forall k :: k in s.db.marks ==> k in t.db.marks && s.db.marks[k].maxRevision <= t.db.marks[k].maxRevision
  }

  lemma ReopenProgress(s: State, after: map<MarkKey, Mark>)
    requires IsBackfill(s.db.rows, s.db.marks, after)
    ensures Progress(s, Reopened(s, after))
  {
    forall k | k in s.db.marks ensures k in after && s.db.marks[k].maxRevision <= after[k].maxRevision {
      if HasRows(s.db.rows, k) {
        var u :| u in s.db.rows && u.0 == k.1 && s.db.rows[u].publisher == k.0;
        var t := TopExists(s.db.rows, k, u);
      }
    }
  }

  lemma UpsertProgress(marks: map<MarkKey, Mark>, req: Request)
    ensures forall k :: k in marks ==>
              k in Upserted(marks, req) && marks[k].maxRevision <= Upserted(marks, req)[k].maxRevision
  {
  }

  lemma TablesProgress(s: State, t: State, sub: Submission, root: string)
    requires || SameTables(s, t) || SameTables(Inserted(s, Under(sub, root)), t)
             || SameTables(Readmitted(s, Under(sub, root)), t)
    ensures Progress(s, t)
  {
    UpsertProgress(s.db.marks, Under(sub, root));
    hide Upserted, Recached;
  }

  lemma StepProgress(s: State, op: Op)
    requires Enabled(s, op)
    ensures Progress(s, Next(s, op))
  {
    hide ValidSubmission, ListsMarks, Lists, KeepsNewest, IsBackfill, Stored, Openable, ReplayRoot, RootOf, Inserted,
      Readmitted, SameTables, PutsBack;
    match op
    case Store(sub, markList, rowList) =>
      StoredTables(s, sub, markList, rowList);
      TablesProgress(s, Next(s, op), sub,
                     if PutsBack(s, sub, markList, rowList) then ReplayRoot(s, sub)
                     else RootOf(s.content.setup, sub.data));
    case Prune(limit, kept) =>
    case Fail =>
    case Reopen(after) => ReopenProgress(s, after);
  }

  lemma {:induction false} RunProgress(states: seq<State>, ops: seq<Op>, i: nat, j: nat)
    requires Run(states, ops) && i <= j < |states|
    ensures Progress(states[i], states[j])
    decreases j
  {
    hide Enabled, Next;
    if i < j {
      RunProgress(states, ops, i, j - 1);
      StepProgress(states[j - 1], ops[j - 1]);
      assert states[j] == Next(states[j - 1], ops[j - 1]);
    }
  }

  /**
   Bulletin safety: over any run of stores, replays, prunes, failures and restarts, each bulletin keeps
   one publisher and no revision is accepted with two contents or titles.
   */
  lemma OneContentPerRevision(states: seq<State>, ops: seq<Op>, i: nat, j: nat, a: Record, b: Record)
    requires Run(states, ops) && Inv(states[0]) && i < |ops| && j < |ops|
    requires Accepts(states[i], ops[i], a) && Accepts(states[j], ops[j], b) && a.bulletinId == b.bulletinId
    ensures a.publisher == b.publisher
    ensures a.revision == b.revision ==> a == b
  {
    hide Inv, Enabled, Next, Stored;
    AcceptedIsKnown(states, ops, i, a);
    AcceptedIsKnown(states, ops, j, b);
    RunKeepsInv(states, ops, |ops|);
    InvParts(states[|ops|]);
    Coherence(states[|ops|].history, a, b);
  }

  lemma AcceptedIsKnown(states: seq<State>, ops: seq<Op>, i: nat, r: Record)
    requires Run(states, ops) && Inv(states[0]) && i < |ops| && Accepts(states[i], ops[i], r)
    ensures r in states[|ops|].history
  {
    RunKeepsInv(states, ops, i);
    hide Inv, Stored, ListsMarks, Lists, ValidSubmission;
    assert Enabled(states[i], ops[i]) && states[i + 1] == Next(states[i], ops[i]);
    StoredKeepsInv(states[i], ops[i].sub, ops[i].markList, ops[i].rowList);
    hide Next;
    RunProgress(states, ops, i + 1, |ops|);
  }

  /** In every state the watermark bounds every stored revision, and the cached watermarks are the committed ones. */
  lemma WatermarkBounds(states: seq<State>, ops: seq<Op>, i: nat, k: RowKey)
    requires Run(states, ops) && Inv(states[0]) && i < |states|
    ensures states[i].cachedMarks == states[i].db.marks
    ensures k in states[i].db.rows ==>
              var mk := (states[i].db.rows[k].publisher, k.0);
              mk in states[i].db.marks && k.1 <= states[i].db.marks[mk].maxRevision
  {
    var s := states[i];
    RunKeepsInv(states, ops, i);
    InvParts(s);
    hide Inv, Enabled, Next, Coherent, RowsKnown, MarksNewest, AllMarked;
    if k in s.db.rows {
      var r := RowRecord(k, s.db.rows[k]);
      RowMeans(s, k);
      HistoryMarked(s, r);
      MarkMeans(s, MarkKeyOf(r));
    }
  }

  /** The operation admits the record. */
  predicate Admits(s: State, op: Op, r: Record) {
    op.Store? && op.sub.record == r && Stored(s, op.sub, op.markList, op.rowList).1 == Admitted
  }

  /** The record was admitted by one of the first `n` operations. */
  ghost predicate AdmittedBefore(states: seq<State>, ops: seq<Op>, n: nat, r: Record)
    requires |states| == |ops| + 1 && n <= |ops|
  {
    exists i :: 0 <= i < n && Admits(states[i], ops[i], r)
  }

  lemma StepHistory(s: State, op: Op)
    ensures Next(s, op).history
         == s.history
            + if op.Store? && Stored(s, op.sub, op.markList, op.rowList).1 == Admitted then {op.sub.record} else {}
  {
    hide Stored, Restricted, RootOf, ReplayRoot, Upserted, Recached, PutsBack;
    if op.Store? {
      StoredTables(s, op.sub, op.markList, op.rowList);
      PutBackOnlyReplays(s, op.sub, op.markList, op.rowList);
    }
  }

  lemma PutBackOnlyReplays(s: State, sub: Submission, markList: seq<(string, Mark)>, rowList: seq<Record>)
    ensures PutsBack(s, sub, markList, rowList) ==> Stored(s, sub, markList, rowList).1 == Replayed
  {
    hide Stored, WatermarkVerdict;
  }

  lemma StepAdmits(s: State, op: Op, r: Record)
    ensures r in Next(s, op).history <==> r in s.history || Admits(s, op, r)
  {
    hide Next, Stored;
    StepHistory(s, op);
  }

  lemma AdmittedNext(states: seq<State>, ops: seq<Op>, n: nat, r: Record)
    requires |states| == |ops| + 1 && n < |ops|
    ensures AdmittedBefore(states, ops, n + 1, r)
       <==> AdmittedBefore(states, ops, n, r) || Admits(states[n], ops[n], r)
  {
    hide Admits;
  }

  /** The history holds what was there at the start and what the run admitted, and nothing else. */
  lemma {:induction false} HistoryIsAdmitted(states: seq<State>, ops: seq<Op>, n: nat, r: Record)
    requires Run(states, ops) && n <= |ops|
    ensures r in states[n].history <==> r in states[0].history || AdmittedBefore(states, ops, n, r)
  {
    if n > 0 {
      hide *;
      RunStep(states, ops, n - 1);
      HistoryIsAdmitted(states, ops, n - 1, r);
      StepAdmits(states[n - 1], ops[n - 1], r);
      AdmittedNext(states, ops, n - 1, r);
    } else {
      hide Admits;
      assert !AdmittedBefore(states, ops, 0, r);
    }
    hide *;
  }

  /**
   Over any run a submission is admitted exactly when the policy accepts it against the complete history and
   its payload can be packed.
   */
  lemma AdmittedIff(states: seq<State>, ops: seq<Op>, i: nat, historyList: seq<Record>)
    requires Run(states, ops) && Inv(states[0]) && i < |ops| && ops[i].Store?
    requires Lists(historyList, states[i].history, ops[i].sub.record.bulletinId)
    ensures Stored(states[i], ops[i].sub, ops[i].markList, ops[i].rowList).1 == Admitted
       <==> CheckRevision(historyList, ops[i].sub.record) == Fresh && Packs(states[i].content.setup, ops[i].sub.data)
  {
    RunKeepsInv(states, ops, i);
    var s, op := states[i], ops[i];
    assert Enabled(s, op) && op == Store(op.sub, op.markList, op.rowList);
    EnabledStore(s, op.sub, op.markList, op.rowList);
    hide *;
    AdmissionRefinesHistory(s, op.markList, op.rowList, historyList, op.sub.record);
    StoredOutcome(s, op.sub, op.markList, op.rowList);
    AdmissionFresh(op.markList, op.rowList, s.db.rows, op.sub.record);
  }

  lemma AdmissionFresh(markList: seq<(string, Mark)>, rowList: seq<Record>, rows: map<RowKey, Row>, r: Record)
    ensures Admission(markList, rowList, rows, r) == Fresh
       <==> WatermarkVerdict(markList, rows, r) == Fresh && CheckRevision(rowList, r) == Fresh
  {
    hide WatermarkVerdict, CheckRevision;
  }

  // ---------------------------------------------------------------- roots

  /** A displayed record at its watermark names the same recipe root as the watermark. */
  predicate RootsAgree(t: Tables) {
    forall k :: k in t.marks && (k.1, t.marks[k].maxRevision) in t.rows ==>
      OrEmpty(t.rows[(k.1, t.marks[k].maxRevision)].rootHash) == t.marks[k].rootHash
  }

  /** Writing one row and the watermark it belongs to keeps roots in agreement. */
  lemma RootsWritten(t: Tables, mk: MarkKey, m: Mark, row: Row)
    requires RootsAgree(t) && m.rootHash == OrEmpty(row.rootHash)
    requires forall k :: k in t.marks && k.1 == mk.1 ==> k == mk
    ensures RootsAgree(Tables(t.rows[(mk.1, m.maxRevision) := row], t.marks[mk := m]))
  {
  }

  lemma OwnMark(s: State, r: Record, k: MarkKey)
    requires Inv(s) && SetVerdict(s.history, r) == Fresh && k in s.db.marks && k.1 == r.bulletinId
    ensures k == MarkKeyOf(r) && s.db.marks[k].maxRevision < r.revision
  {
    MarkMeans(s, k);
    FreshMeans(s.history, r);
    hide Inv, SetVerdict;
    var q := MarkRecord(k, s.db.marks[k]);
    assert q.bulletinId == r.bulletinId && q.publisher == k.0;
  }

  lemma InsertedRoots(s: State, req: Request)
    requires Inv(s) && SetVerdict(s.history, req.record) == Fresh && RootsAgree(s.db)
    ensures RootsAgree(Inserted(s, req).db)
  {
    var r, mk := req.record, MarkKeyOf(req.record);
    hide Inv, SetVerdict, RootsAgree;
    forall k | k in s.db.marks && k.1 == mk.1 ensures k == mk && s.db.marks[k].maxRevision < r.revision {
      OwnMark(s, r, k);
    }
    RootsWritten(s.db, mk, Mark(r.revision, r.contentHash, req.root, r.title), RowOf(req));
  }

  lemma ReadmittedRoots(s: State, req: Request)
    requires Inv(s) && RootsAgree(s.db)
    requires var k := MarkKeyOf(req.record); k in s.db.marks && MarkRecord(k, s.db.marks[k]) == req.record
    ensures RootsAgree(Readmitted(s, req).db)
  {
    var mk := MarkKeyOf(req.record);
    hide Inv, RootsAgree;
    forall k | k in s.db.marks && k.1 == mk.1 ensures k == mk {
      MarkUnique(s, k, mk);
    }
    RootsWritten(s.db, mk, s.db.marks[mk].(title := req.record.title, rootHash := req.root), RowOf(req));
  }

  lemma JoinedRoot(marks: map<MarkKey, Mark>, k: MarkKey, revision: int, row: Row)
    requires k in marks && revision <= marks[k].maxRevision
    requires revision == marks[k].maxRevision ==> OrEmpty(row.rootHash) == marks[k].rootHash
    ensures Joined(marks, k, revision, row).maxRevision == marks[k].maxRevision
    ensures Joined(marks, k, revision, row).rootHash == marks[k].rootHash
  {
  }

  lemma RootOfRow(t: Tables, k: MarkKey, u: RowKey)
    requires RootsAgree(t) && k in t.marks && u in t.rows && u.0 == k.1 && u.1 == t.marks[k].maxRevision
    ensures OrEmpty(t.rows[u].rootHash) == t.marks[k].rootHash
  {
    assert u == (k.1, t.marks[k].maxRevision);
  }

  lemma RowBelowMark(s: State, k: MarkKey, u: RowKey)
    requires Inv(s) && k in s.db.marks && u in s.db.rows && u.0 == k.1
    ensures u.1 <= s.db.marks[k].maxRevision
  {
    MarkMeans(s, k);
    RowMeans(s, u);
    hide Inv;
    assert RowRecord(u, s.db.rows[u]).bulletinId == k.1;
  }

  /** A backfill of agreeing tables leaves revision and root of every watermark as they were. */
  lemma ReopenedMark(s: State, after: map<MarkKey, Mark>, k: MarkKey)
    requires Inv(s) && RootsAgree(s.db) && IsBackfill(s.db.rows, s.db.marks, after) && k in s.db.marks
    ensures k in after && after[k].maxRevision == s.db.marks[k].maxRevision
    ensures after[k].rootHash == s.db.marks[k].rootHash
  {
    hide Inv, Joined, RootsAgree;
    if HasRows(s.db.rows, k) {
      var u :| u in s.db.rows && u.0 == k.1 && s.db.rows[u].publisher == k.0;
      var t := TopExists(s.db.rows, k, u);
      RowBelowMark(s, k, t);
      if t.1 == s.db.marks[k].maxRevision {
        RootOfRow(s.db, k, t);
      }
      JoinedRoot(s.db.marks, k, t.1, s.db.rows[t]);
    }
  }

  lemma ReopenedRoots(s: State, after: map<MarkKey, Mark>)
    requires Inv(s) && RootsAgree(s.db) && IsBackfill(s.db.rows, s.db.marks, after)
    ensures RootsAgree(s.db.(marks := after))
  {
    ReopenKeepsInv(s, after);
    hide Inv, IsBackfill;
    forall k | k in after
      ensures k in s.db.marks && after[k].maxRevision == s.db.marks[k].maxRevision
      ensures after[k].rootHash == s.db.marks[k].rootHash
    {
      var t := Reopened(s, after);
      MarkMeans(t, k);
      HistoryMarked(s, MarkRecord(k, after[k]));
      ReopenedMark(s, after, k);
    }
  }

  lemma StoredRoots(s: State, sub: Submission, markList: seq<(string, Mark)>, rowList: seq<Record>)
    requires Inv(s) && Enabled(s, Store(sub, markList, rowList)) && RootsAgree(s.db)
    ensures RootsAgree(Stored(s, sub, markList, rowList).0.db)
  {
    var t := Stored(s, sub, markList, rowList).0;
    EnabledStore(s, sub, markList, rowList);
    hide *;
    StoredTables(s, sub, markList, rowList);
    if Stored(s, sub, markList, rowList).1 == Admitted {
      StoredKeepsInv(s, sub, markList, rowList);
      var req := Under(sub, RootOf(s.content.setup, sub.data));
      UnderIs(sub, req.root);
      InsertedRoots(s, req);
      SameDb(Inserted(s, req), t);
    } else if PutsBack(s, sub, markList, rowList) {
      PutBackIsDuplicate(s, sub, markList, rowList);
      DuplicateIsMarked(s, markList, sub.record);
      var req := Under(sub, ReplayRoot(s, sub));
      UnderIs(sub, req.root);
      ReadmittedRoots(s, req);
      SameDb(Readmitted(s, req), t);
    } else {
      SameDb(s, t);
    }
  }

  lemma UnderIs(sub: Submission, root: string)
    ensures Under(sub, root).record == sub.record && Under(sub, root).root == root
  {
  }

  lemma SameDb(s: State, t: State)
    requires SameTables(s, t)
    ensures t.db == s.db
  {
  }

  lemma PrunedRoots(s: State, kept: set<RowKey>)
    requires RootsAgree(s.db)
    ensures RootsAgree(Pruned(s, kept).db)
  {
  }

  lemma StepKeepsRoots(s: State, op: Op)
    requires Inv(s) && Enabled(s, op) && RootsAgree(s.db)
    ensures RootsAgree(Next(s, op).db)
  {
    hide Inv, Stored, RootsAgree, ListsMarks, Lists, ValidSubmission, KeepsNewest, IsBackfill, Openable, Pruned;
    match op
    case Store(sub, markList, rowList) => StoredRoots(s, sub, markList, rowList);
    case Prune(limit, kept) => PrunedRoots(s, kept);
    case Fail =>
    case Reopen(after) => ReopenedRoots(s, after);
  }

  /** Over any run a record displayed at its watermark is displayed under the watermark's root. */
  lemma {:induction false} RunKeepsRoots(states: seq<State>, ops: seq<Op>, i: nat)
    requires Run(states, ops) && Inv(states[0]) && RootsAgree(states[0].db) && i < |states|
    ensures RootsAgree(states[i].db)
  {
    hide Inv, Enabled, Next, RootsAgree;
    if i > 0 {
      RunKeepsRoots(states, ops, i - 1);
      RunKeepsInv(states, ops, i - 1);
      StepKeepsRoots(states[i - 1], ops[i - 1]);
    }
  }

  // ---------------------------------------------------------------- pruning order

  /** Of two displayed revisions of a bulletin the lower was received no later. */
  predicate Ordered(rows: map<RowKey, Row>) {
    forall a, b :: a in rows && b in rows && a.0 == b.0 && a.1 < b.1 ==> rows[a].receivedAt <= rows[b].receivedAt
  }

  predicate NotAfter(rows: map<RowKey, Row>, now: real) {
    forall k :: k in rows ==> rows[k].receivedAt <= now
  }

  /** A reading of the clock per operation, none before an earlier one, at which stores are received. */
  predicate Clocked(ops: seq<Op>, clock: seq<real>) {
    && |clock| == |ops|
    && (forall i, j :: 0 <= i <= j < |ops| ==> clock[i] <= clock[j])
    && forall i :: 0 <= i < |ops| && ops[i].Store? ==> ops[i].sub.receivedAt == clock[i]
  }

  predicate OnTop(rows: map<RowKey, Row>, r: Record) {
    forall a :: a in rows && a.0 == r.bulletinId ==> a.1 <= r.revision
  }

  lemma RowInserted(rows: map<RowKey, Row>, k: RowKey, row: Row)
    requires Ordered(rows) && NotAfter(rows, row.receivedAt)
    requires forall a :: a in rows && a.0 == k.0 ==> a.1 <= k.1
    ensures Ordered(rows[k := row]) && NotAfter(rows[k := row], row.receivedAt)
  {
  }

  lemma KnownOnTop(s: State, r: Record)
    requires Inv(s) && forall q :: q in s.history && q.bulletinId == r.bulletinId ==> q.revision <= r.revision
    ensures OnTop(s.db.rows, r)
  {
    hide Inv;
    forall a | a in s.db.rows && a.0 == r.bulletinId ensures a.1 <= r.revision {
      RowMeans(s, a);
    }
  }

  lemma DuplicateOnTop(s: State, markList: seq<(string, Mark)>, r: Record)
    requires Inv(s) && ListsMarks(markList, s.db.marks, r.bulletinId)
    requires WatermarkVerdict(markList, s.db.rows, r) == Duplicate
    ensures OnTop(s.db.rows, r)
  {
    DuplicateIsMarked(s, markList, r);
    MarkMeans(s, MarkKeyOf(r));
    hide Inv, ListsMarks, WatermarkVerdict, OnTop;
    KnownOnTop(s, r);
  }

  lemma FreshOnTop(s: State, markList: seq<(string, Mark)>, r: Record)
    requires Inv(s) && ListsMarks(markList, s.db.marks, r.bulletinId)
    requires WatermarkVerdict(markList, s.db.rows, r) == Fresh
    ensures OnTop(s.db.rows, r)
  {
    hide Inv, ListsMarks, WatermarkVerdict, SetVerdict, OnTop;
    WatermarkVersusHistory(s, markList, r);
    FreshMeans(s.history, r);
    KnownOnTop(s, r);
  }

  /** The row a store writes belongs to the highest revision of its bulletin. */
  lemma StoredOnTop(s: State, sub: Submission, markList: seq<(string, Mark)>, rowList: seq<Record>) returns (row: Row)
    requires Inv(s) && Enabled(s, Store(sub, markList, rowList))
    ensures row.receivedAt == sub.receivedAt
    ensures var rows := Stored(s, sub, markList, rowList).0.db.rows;
            rows == s.db.rows || (rows == s.db.rows[KeyOf(sub.record) := row] && OnTop(s.db.rows, sub.record))
  {
    var t := Stored(s, sub, markList, rowList).0;
    EnabledStore(s, sub, markList, rowList);
    hide *;
    StoredTables(s, sub, markList, rowList);
    if Stored(s, sub, markList, rowList).1 == Admitted {
      StoredOutcome(s, sub, markList, rowList);
      FreshOnTop(s, markList, sub.record);
      row := RowWritten(s, sub, RootOf(s.content.setup, sub.data));
      SameDb(Inserted(s, Under(sub, RootOf(s.content.setup, sub.data))), t);
    } else if PutsBack(s, sub, markList, rowList) {
      PutBackIsDuplicate(s, sub, markList, rowList);
      DuplicateOnTop(s, markList, sub.record);
      row := RowWritten(s, sub, ReplayRoot(s, sub));
      SameDb(Readmitted(s, Under(sub, ReplayRoot(s, sub))), t);
    } else {
      row := Row("", None, None, "", sub.receivedAt);
      SameDb(s, t);
    }
  }

  lemma RowWritten(s: State, sub: Submission, root: string) returns (row: Row)
    ensures row.receivedAt == sub.receivedAt && row == RowOf(Under(sub, root))
    ensures Inserted(s, Under(sub, root)).db.rows == s.db.rows[KeyOf(sub.record) := row]
    ensures Readmitted(s, Under(sub, root)).db.rows == s.db.rows[KeyOf(sub.record) := row]
  {
    row := RowOf(Under(sub, root));
    hide Upserted, Recached;
  }

  lemma StepKeepsOrder(s: State, op: Op, now: real)
    requires Inv(s) && Enabled(s, op) && Ordered(s.db.rows) && NotAfter(s.db.rows, now)
    requires op.Store? ==> op.sub.receivedAt == now
    ensures Ordered(Next(s, op).db.rows) && NotAfter(Next(s, op).db.rows, now)
  {
    hide Inv, Stored, ListsMarks, Lists, ValidSubmission, KeepsNewest, IsBackfill, Openable;
    match op
    case Store(sub, markList, rowList) =>
      var row := StoredOnTop(s, sub, markList, rowList);
      if Stored(s, sub, markList, rowList).0.db.rows != s.db.rows {
        RowInserted(s.db.rows, KeyOf(sub.record), row);
      }
    case Prune(limit, kept) =>
    case Fail =>
    case Reopen(after) =>
  }

  lemma ClockStep(ops: seq<Op>, clock: seq<real>, i: nat)
    requires Clocked(ops, clock) && i < |ops|
    ensures ops[i].Store? ==> ops[i].sub.receivedAt == clock[i]
    ensures i + 1 < |ops| ==> clock[i] <= clock[i + 1]
  {
  }

  lemma NotAfterLater(rows: map<RowKey, Row>, now: real, later: real)
    requires NotAfter(rows, now) && now <= later
    ensures NotAfter(rows, later)
  {
  }

  lemma RunStep(states: seq<State>, ops: seq<Op>, i: nat)
    requires Run(states, ops) && i < |ops|
    ensures |states| == |ops| + 1 && Enabled(states[i], ops[i]) && states[i + 1] == Next(states[i], ops[i])
  {
    hide Enabled, Next;
  }

  /** Under such a clock display rows stay ordered and never lie in the future. */
  ghost predicate InOrder(states: seq<State>, clock: seq<real>, i: nat) {
    i < |states| && Ordered(states[i].db.rows) && (i < |clock| ==> NotAfter(states[i].db.rows, clock[i]))
  }

  lemma OrderStep(states: seq<State>, ops: seq<Op>, clock: seq<real>, i: nat)
    requires Run(states, ops) && Clocked(ops, clock) && i < |ops| && InOrder(states, clock, i) && Inv(states[i])
    ensures InOrder(states, clock, i + 1)
  {
    assert |clock| == |ops|;
    RunStep(states, ops, i);
    ClockStep(ops, clock, i);
    hide Run, Clocked, Inv, Enabled, Next, Ordered, NotAfter;
    StepKeepsOrder(states[i], ops[i], clock[i]);
    if i + 1 < |clock| {
      NotAfterLater(states[i + 1].db.rows, clock[i], clock[i + 1]);
    }
  }

  lemma {:induction false} RunKeepsOrder(states: seq<State>, ops: seq<Op>, clock: seq<real>, i: nat)
    requires Run(states, ops) && Inv(states[0]) && Clocked(ops, clock) && i <= |ops|
    requires InOrder(states, clock, 0)
    ensures InOrder(states, clock, i)
  {
    if i > 0 {
      hide Inv, Clocked, InOrder, Enabled, Next;
      RunKeepsOrder(states, ops, clock, i - 1);
      RunKeepsInv(states, ops, i - 1);
      OrderStep(states, ops, clock, i - 1);
    }
  }

  /** A prune that drops a revision of a bulletin drops the lower ones too. */
  predicate DropsLowerFirst(rows: map<RowKey, Row>, kept: set<RowKey>) {
    forall low, high :: low in rows && high in rows && low.0 == high.0 && low.1 < high.1 && low in kept ==> high in kept
  }

  function NewerThan(rows: map<RowKey, Row>, b: RowKey): set<RowKey>
    requires b in rows
  {
    set k | k in rows && !NoNewer(rows, k, b)
  }

  /** Some limit makes a prune keep just the rows newer than a given one. */
  lemma KeepsNewerThan(rows: map<RowKey, Row>, b: RowKey)
    requires b in rows
    ensures KeepsNewest(rows, |NewerThan(rows, b)|, NewerThan(rows, b))
  {
    var kept := NewerThan(rows, b);
    assert b in rows.Keys && b !in kept && kept <= rows.Keys;
    Sets.SubsetSize(kept, rows.Keys - {b});
    assert |rows.Keys| == |rows|;
  }

  /** Prunes of any size drop lower revisions first exactly if times of receipt follow the revisions. */
  lemma PruneOrderIff(rows: map<RowKey, Row>)
    ensures (forall n, kept | KeepsNewest(rows, n, kept) :: DropsLowerFirst(rows, kept)) <==> Ordered(rows)
  {
    if Ordered(rows) {
      forall n, kept | KeepsNewest(rows, n, kept) ensures DropsLowerFirst(rows, kept) {
        OrderedPrune(rows, n, kept);
      }
    } else {
      var a, b :| a in rows && b in rows && a.0 == b.0 && a.1 < b.1 && rows[b].receivedAt < rows[a].receivedAt;
      KeepsNewerThan(rows, b);
      assert a in NewerThan(rows, b) && b !in NewerThan(rows, b);
      assert !DropsLowerFirst(rows, NewerThan(rows, b));
    }
  }

  lemma OrderedPrune(rows: map<RowKey, Row>, n: int, kept: set<RowKey>)
    requires Ordered(rows) && KeepsNewest(rows, n, kept)
    ensures DropsLowerFirst(rows, kept)
  {
    forall low, high | low in rows && high in rows && low.0 == high.0 && low.1 < high.1 && low in kept
      ensures high in kept
    {
      assert high !in kept ==> NoNewer(rows, high, low);
    }
  }

  /**
   Under a clock that does not run backwards, wherever a prune occurs in a run it never drops a
   revision of a bulletin while keeping a lower one.
   */
  lemma PruneDropsLowerFirst(states: seq<State>, ops: seq<Op>, clock: seq<real>, i: nat)
    requires Run(states, ops) && Inv(states[0]) && Clocked(ops, clock) && i < |ops| && ops[i].Prune?
    requires InOrder(states, clock, 0)
    ensures DropsLowerFirst(states[i].db.rows, ops[i].kept)
    ensures states[i + 1].db.rows == Restricted(states[i].db.rows, ops[i].kept)
  {
    RunKeepsOrder(states, ops, clock, i);
    RunStep(states, ops, i);
    hide Inv, Run, KeepsNewest, Ordered, DropsLowerFirst;
    OrderedPrune(states[i].db.rows, ops[i].limit, ops[i].kept);
  }

  // ---------------------------------------------------------------- two stores on a new database

  function NewDatabase(setup: Fetch.Setup): State {
    State(Tables(map[], map[]), map[], map[], NoContent(setup), {}, map[])
  }

  function MarkOf(setup: Fetch.Setup, sub: Submission): Mark {
    Mark(sub.record.revision, sub.record.contentHash, RootOf(setup, sub.data), sub.record.title)
  }

  /** Two revisions of one bulletin, stored one after the other. */
  function TwoOps(setup: Fetch.Setup, first: Submission, second: Submission): (ops: seq<Op>)
    ensures |ops| == 2 && ops[0] == Store(first, [], []) && ops[1].Store? && ops[1].sub == second
  {
    [Store(first, [], []), Store(second, [(first.record.publisher, MarkOf(setup, first))], [first.record])]
  }

  function TwoStates(setup: Fetch.Setup, first: Submission, second: Submission): (states: seq<State>)
    ensures |states| == 3 && states[0] == NewDatabase(setup)
  {
    var ops := TwoOps(setup, first, second);
    var s0 := NewDatabase(setup);
    [s0, Next(s0, ops[0]), Next(Next(s0, ops[0]), ops[1])]
  }

  /** The second submission is a later revision of the first one's bulletin, and both can be packed. */
  predicate Succeeds(setup: Fetch.Setup, first: Submission, second: Submission) {
    && ValidSubmission(setup, first) && ValidSubmission(setup, second)
    && MarkKeyOf(first.record) == MarkKeyOf(second.record) && first.record.revision < second.record.revision
    && Packs(setup, first.data) && Packs(setup, second.data)
  }

  /** The state after a fresh record was entered, as far as its tables go. */
  ghost predicate Entered(s: State, sub: Submission, t: State) {
    && t.db.rows == s.db.rows[KeyOf(sub.record) := RowOf(Under(sub, RootOf(s.content.setup, sub.data)))]
    && t.db.marks == Upserted(s.db.marks, Under(sub, RootOf(s.content.setup, sub.data)))
    && t.history == s.history + {sub.record} && t.content.setup == s.content.setup
  }

  lemma StoredEnters(s: State, sub: Submission, markList: seq<(string, Mark)>, rowList: seq<Record>)
    requires WatermarkVerdict(markList, s.db.rows, sub.record) == Fresh && CheckRevision(rowList, sub.record) == Fresh
    requires Packs(s.content.setup, sub.data)
    ensures Stored(s, sub, markList, rowList).1 == Admitted
    ensures Entered(s, sub, Stored(s, sub, markList, rowList).0)
  {
    hide WatermarkVerdict, CheckRevision, Packs, RootOf, Upserted, Recached, Fetch.Published;
  }

  lemma FirstStored(setup: Fetch.Setup, first: Submission)
    requires ValidSubmission(setup, first) && Packs(setup, first.data)
    ensures var s := NewDatabase(setup);
            && Enabled(s, Store(first, [], [])) && Stored(s, first, [], []).1 == Admitted
            && Entered(s, first, Next(s, Store(first, [], [])))
  {
    hide Packs, Stored, Entered;
    StoredEnters(NewDatabase(setup), first, [], []);
  }

  lemma FirstTables(setup: Fetch.Setup, first: Submission, s: State)
    requires ValidSubmission(setup, first) && Entered(NewDatabase(setup), first, s)
    ensures s.db.rows == map[KeyOf(first.record) := RowOf(Under(first, RootOf(setup, first.data)))]
    ensures s.db.marks == map[MarkKeyOf(first.record) := MarkOf(setup, first)]
    ensures s.history == {first.record} && s.content.setup == setup
    ensures Displayed(s.db.rows) == {first.record}
  {
    hide RootOf;
    var rows := s.db.rows;
    assert KeyOf(first.record) in rows && RecordOf(KeyOf(first.record), rows[KeyOf(first.record)]) == first.record;
  }

  lemma SecondMark(first: Submission, m: Mark, rows: map<RowKey, Row>, q: Record)
    requires q.publisher == first.record.publisher && m.maxRevision < q.revision
    ensures WatermarkVerdict([(first.record.publisher, m)], rows, q) == Fresh
  {
    var list := [(first.record.publisher, m)];
    assert list[1..] == [];
  }

  lemma SecondRow(r: Record, q: Record)
    requires r.publisher == q.publisher && r.revision < q.revision
    ensures CheckRevision([r], q) == Fresh
  {
    var list := [r];
    assert list[1..] == [];
    assert FirstHit(list[1..], q).None? && FirstHit(list, q).None?;
  }

  lemma OneListed(k: MarkKey, m: Mark, r: Record)
    ensures ListsMarks([(k.0, m)], map[k := m], k.1) && Lists([r], {r}, r.bulletinId)
  {
    assert (k.0, m) == [(k.0, m)][0] && r == [r][0];
  }

  lemma SecondParts(setup: Fetch.Setup, first: Submission, second: Submission)
    requires Succeeds(setup, first, second)
    ensures ValidSubmission(setup, second)
    ensures MarkKeyOf(first.record) == (second.record.publisher, second.record.bulletinId)
    ensures first.record.publisher == second.record.publisher && first.record.bulletinId == second.record.bulletinId
    ensures first.record.revision < second.record.revision && MarkOf(setup, first).maxRevision == first.record.revision
    ensures TwoOps(setup, first, second)[1]
         == Store(second, [(second.record.publisher, MarkOf(setup, first))], [first.record])
  {
    hide RootOf, Packs;
  }

  lemma EnabledFrom(s: State, sub: Submission, markList: seq<(string, Mark)>, rowList: seq<Record>)
    requires ValidSubmission(s.content.setup, sub) && ListsMarks(markList, s.db.marks, sub.record.bulletinId)
    requires Lists(rowList, Displayed(s.db.rows), sub.record.bulletinId)
    ensures Enabled(s, Store(sub, markList, rowList))
  {
    hide ValidSubmission, ListsMarks, Lists, Displayed;
  }

  lemma SecondVerdicts(setup: Fetch.Setup, first: Submission, second: Submission, s: State)
    requires Succeeds(setup, first, second) && s.content.setup == setup
    requires s.db.marks == map[MarkKeyOf(first.record) := MarkOf(setup, first)]
    requires Displayed(s.db.rows) == {first.record}
    ensures var op := TwoOps(setup, first, second)[1];
            && Enabled(s, op)
            && WatermarkVerdict(op.markList, s.db.rows, second.record) == Fresh
            && CheckRevision(op.rowList, second.record) == Fresh
  {
    hide *;
    var m := MarkOf(setup, first);
    SecondParts(setup, first, second);
    OneListed(MarkKeyOf(first.record), m, first.record);
    EnabledFrom(s, second, [(second.record.publisher, m)], [first.record]);
    SecondMark(first, m, s.db.rows, second.record);
    SecondRow(first.record, second.record);
  }

  lemma SecondStored(setup: Fetch.Setup, first: Submission, second: Submission, s: State)
    requires Succeeds(setup, first, second) && Entered(NewDatabase(setup), first, s)
    ensures var op := TwoOps(setup, first, second)[1];
            Enabled(s, op) && Stored(s, second, op.markList, op.rowList).1 == Admitted
                && Entered(s, second, Next(s, op))
  {
    var op := TwoOps(setup, first, second)[1];
    hide Packs, Stored, Entered, Enabled, WatermarkVerdict, CheckRevision, Displayed;
    FirstTables(setup, first, s);
    SecondVerdicts(setup, first, second, s);
    StoredEnters(s, second, op.markList, op.rowList);
  }

  lemma SecondTables(setup: Fetch.Setup, first: Submission, second: Submission, s: State, t: State)
    requires Succeeds(setup, first, second) && Entered(NewDatabase(setup), first, s) && Entered(s, second, t)
    ensures t.db.rows == map[KeyOf(first.record) := RowOf(Under(first, RootOf(setup, first.data))),
                             KeyOf(second.record) := RowOf(Under(second, RootOf(setup, second.data)))]
    ensures t.db.marks == map[MarkKeyOf(first.record) := MarkOf(setup, second)]
    ensures t.history == {first.record, second.record} && t.content.setup == setup
  {
    hide Packs;
    FirstTables(setup, first, s);
    hide RootOf, Displayed;
  }

  lemma RunOfTwo(a: State, b: State, c: State, o: Op, p: Op)
    requires Enabled(a, o) && b == Next(a, o) && Enabled(b, p) && c == Next(b, p)
    ensures Run([a, b, c], [o, p])
  {
    hide Enabled, Next;
  }

  /** Both are admitted. */
  lemma TwoStored(setup: Fetch.Setup, first: Submission, second: Submission)
    requires Succeeds(setup, first, second)
    ensures var states := TwoStates(setup, first, second);
            && Run(states, TwoOps(setup, first, second)) && Inv(states[0])
            && Entered(states[0], first, states[1]) && Entered(states[1], second, states[2])
  {
    var s0 := NewDatabase(setup);
    var o, p := TwoOps(setup, first, second)[0], TwoOps(setup, first, second)[1];
    assert ValidSubmission(setup, first) && Packs(setup, first.data);
    NewHasInv(setup);
    TwoAre(setup, first, second);
    hide *;
    FirstStored(setup, first);
    SecondStored(setup, first, second, Next(s0, o));
    RunOfTwo(s0, Next(s0, o), Next(Next(s0, o), p), o, p);
  }

  lemma NewHasInv(setup: Fetch.Setup)
    ensures Inv(NewDatabase(setup))
  {
  }

  lemma TwoAre(setup: Fetch.Setup, first: Submission, second: Submission)
    ensures var s0, ops := NewDatabase(setup), TwoOps(setup, first, second);
            && |ops| == 2 && ops == [ops[0], ops[1]] && ops[0] == Store(first, [], []) && ops[1].Store?
            && ops[1].sub == second
            && TwoStates(setup, first, second) == [s0, Next(s0, ops[0]), Next(Next(s0, ops[0]), ops[1])]
  {
    hide Next;
  }

  /**
   The one case the watermark cannot tell is reached by any two stores: the first record, a duplicate to the
   complete history, is stale to the node.
   */
  lemma ForgottenReached(setup: Fetch.Setup, first: Submission, second: Submission)
    requires Succeeds(setup, first, second)
    ensures var s := TwoStates(setup, first, second)[2];
            && Run(TwoStates(setup, first, second), TwoOps(setup, first, second)) && Inv(s)
            && Forgotten(s, first.record) && SetVerdict(s.history, first.record) == Duplicate
            && forall markList :: ListsMarks(markList, s.db.marks, first.record.bulletinId) ==>
                 WatermarkVerdict(markList, s.db.rows, first.record) == Stale
  {
    var states, ops := TwoStates(setup, first, second), TwoOps(setup, first, second);
    var s, r := states[2], first.record;
    TwoStored(setup, first, second);
    SecondTables(setup, first, second, states[1], s);
    assert first.record.revision < second.record.revision;
    hide Packs, Entered, Inv, Run, Next, Succeeds, RootOf, Upserted, Coherent, WatermarkVerdict, ListsMarks;
    RunKeepsInv(states, ops, 2);
    assert KeyOf(r) == KeyOf(r) && r in s.history && MarkKeyOf(r) in s.db.marks;
    InvParts(s);
    KnownIsDuplicate(s.history, r);
    hide Forgotten, SetVerdict;
    forall markList | ListsMarks(markList, s.db.marks, r.bulletinId)
      ensures WatermarkVerdict(markList, s.db.rows, r) == Stale
    {
      WatermarkVersusHistory(s, markList, r);
    }
  }

  lemma KnownIsDuplicate(s: set<Record>, r: Record)
    requires Coherent(s) && r in s
    ensures SetVerdict(s, r) == Duplicate
  {
  }

  // ---------------------------------------------------------------- a clock set back

  lemma SetBackPrune(rows: map<RowKey, Row>, low: RowKey, high: RowKey)
    requires rows.Keys == {low, high} && low.1 < high.1 && rows[high].receivedAt < rows[low].receivedAt
    ensures KeepsNewest(rows, 1, {low})
  {
    assert |rows| == |rows.Keys| == 2;
  }

  /**
   A clock set back between two stores: both are admitted, their rows are out of order, and a prune to one row
   drops the later revision.
   */
  lemma ClockSetBack(setup: Fetch.Setup, first: Submission, second: Submission)
    requires Succeeds(setup, first, second) && second.receivedAt < first.receivedAt
    ensures var states := TwoStates(setup, first, second);
            && Run(states, TwoOps(setup, first, second)) && Inv(states[0]) && !Ordered(states[2].db.rows)
            && states[2].history == {first.record, second.record}
            && Enabled(states[2], Prune(1, {KeyOf(first.record)}))
            && Next(states[2], Prune(1, {KeyOf(first.record)})).db.rows.Keys == {KeyOf(first.record)}
  {
    hide *;
    var s := TwoStates(setup, first, second)[2];
    TwoKeys(setup, first, second);
    RowTimes(first, RootOf(setup, first.data));
    RowTimes(second, RootOf(setup, second.data));
    TwoStored(setup, first, second);
    SecondTables(setup, first, second, TwoStates(setup, first, second)[1], s);
    PruneToLower(s, KeyOf(first.record), KeyOf(second.record));
  }

  lemma TwoKeys(setup: Fetch.Setup, first: Submission, second: Submission)
    requires Succeeds(setup, first, second)
    ensures KeyOf(first.record).0 == KeyOf(second.record).0 && KeyOf(first.record).1 < KeyOf(second.record).1
  {
  }

  lemma RowTimes(sub: Submission, root: string)
    ensures RowOf(Under(sub, root)).receivedAt == sub.receivedAt
  {
  }

  lemma PruneToLower(s: State, low: RowKey, high: RowKey)
    requires s.db.rows.Keys == {low, high} && low in s.db.rows && high in s.db.rows
    requires low.0 == high.0 && low.1 < high.1 && s.db.rows[high].receivedAt < s.db.rows[low].receivedAt
    ensures !Ordered(s.db.rows) && Enabled(s, Prune(1, {low})) && Next(s, Prune(1, {low})).db.rows.Keys == {low}
  {
    SetBackPrune(s.db.rows, low, high);
    hide KeepsNewest;
    assert Restricted(s.db.rows, {low}).Keys == {low};
  }

  /**
   Display rows of an earlier version, the older of a bulletin without digest: the database opens, but a prune
   that keeps the older one leaves it so that it does not.
   */
  lemma PruneBlocksOpening(bid: string, low: Row, high: Row)
    requires low.publisher == high.publisher && high.receivedAt < low.receivedAt
    requires low.contentHash.None? && high.contentHash.Some? && high.rootHash.Some?
    ensures var rows := map[(bid, 1) := low, (bid, 2) := high];
            && Openable(rows) && KeepsNewest(rows, 1, {(bid, 1)}) && !Openable(Restricted(rows, {(bid, 1)}))
  {
    var rows := map[(bid, 1) := low, (bid, 2) := high];
    assert rows.Keys == {(bid, 1), (bid, 2)};
    SetBackPrune(rows, (bid, 1), (bid, 2));
    var left := Restricted(rows, {(bid, 1)});
    assert IsTop(left, (low.publisher, bid), (bid, 1));
  }
}
