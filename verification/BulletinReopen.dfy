/** Opening the database a run, or an earlier version, left behind: what the watermark backfill restores. */
module BulletinReopen {
  import opened Wrappers
  import opened BulletinIdentity
  import opened BulletinContent
  import opened Bulletins
  import opened BulletinSafety
  import Fetch
  import Sets

  // ---------------------------------------------------------------- the newest display row

  lemma SubsetSmaller<T>(a: set<T>, b: set<T>)
    requires a < b
    ensures |a| < |b|
  {
    var x :| x in b && x !in a;
    Sets.SubsetSize(a, b - {x});
  }

  function RowsAbove(rows: map<RowKey, Row>, k: MarkKey, t: RowKey): set<RowKey> {
    set u | u in rows && u.0 == k.1 && rows[u].publisher == k.0 && u.1 > t.1
  }

  lemma {:induction false} TopExists(rows: map<RowKey, Row>, k: MarkKey, t: RowKey) returns (top: RowKey)
    requires t in rows && t.0 == k.1 && rows[t].publisher == k.0
    ensures IsTop(rows, k, top) && t.1 <= top.1
    decreases |RowsAbove(rows, k, t)|
  {
    if u :| u in RowsAbove(rows, k, t) {
      assert RowsAbove(rows, k, u) < RowsAbove(rows, k, t);
      SubsetSmaller(RowsAbove(rows, k, u), RowsAbove(rows, k, t));
      top := TopExists(rows, k, u);
    } else {
      top := t;
      forall u | u in rows && u.0 == k.1 && rows[u].publisher == k.0 ensures u.1 <= t.1 {
        assert u.1 > t.1 ==> u in RowsAbove(rows, k, t);
      }
    }
  }

  /** What the backfill does to one watermark. */
  lemma Backfilled(db: Tables, after: map<MarkKey, Mark>, k: MarkKey) returns (t: RowKey)
    requires IsBackfill(db.rows, db.marks, after) && k in after
    ensures k in db.marks || HasRows(db.rows, k)
    ensures !HasRows(db.rows, k) ==> after[k] == db.marks[k]
    ensures HasRows(db.rows, k) ==> IsTop(db.rows, k, t) && after[k] == Joined(db.marks, k, t.1, db.rows[t])
  {
    hide IsTop, Joined;
    t := ("", 0);
    if u :| u in db.rows && u.0 == k.1 && db.rows[u].publisher == k.0 {
      t := TopExists(db.rows, k, u);
    }
  }

  // ---------------------------------------------------------------- restarting a run

  lemma RowAtMark(s: State, k: MarkKey, t: RowKey)
    requires Inv(s) && k in s.db.marks && t in s.db.rows && t.0 == k.1
    ensures t.1 <= s.db.marks[k].maxRevision
    ensures t.1 == s.db.marks[k].maxRevision ==> RowRecord(t, s.db.rows[t]) == MarkRecord(k, s.db.marks[k])
  {
    MarkMeans(s, k);
    RowMeans(s, t);
    InvParts(s);
    hide Inv, Coherent, RowsKnown, MarksNewest, AllMarked, Agrees;
    Coherence(s.history, RowRecord(t, s.db.rows[t]), MarkRecord(k, s.db.marks[k]));
  }

  lemma JoinedSame(marks: map<MarkKey, Mark>, k: MarkKey, t: RowKey, row: Row)
    requires k in marks && t.0 == k.1 && t.1 <= marks[k].maxRevision
    requires t.1 == marks[k].maxRevision ==> RowRecord(t, row) == MarkRecord(k, marks[k])
    ensures MarkRecord(k, Joined(marks, k, t.1, row)) == MarkRecord(k, marks[k])
  {
  }

  lemma ReopenedMarkRecord(s: State, after: map<MarkKey, Mark>, k: MarkKey)
    requires Inv(s) && IsBackfill(s.db.rows, s.db.marks, after) && k in s.db.marks
    ensures k in after && MarkRecord(k, after[k]) == MarkRecord(k, s.db.marks[k])
  {
    assert k in after;
    hide Inv, IsBackfill, Joined, HasRows, MarkRecord;
    var t := Backfilled(s.db, after, k);
    if HasRows(s.db.rows, k) {
      RowAtMark(s, k, t);
      JoinedSame(s.db.marks, k, t, s.db.rows[t]);
    }
  }

  lemma ReopenedKeys(s: State, after: map<MarkKey, Mark>)
    requires Inv(s) && IsBackfill(s.db.rows, s.db.marks, after)
    ensures after.Keys == s.db.marks.Keys
  {
    assert forall k :: k in s.db.marks ==> k in after;
    forall k | k in after ensures k in s.db.marks {
      var t := Backfilled(s.db, after, k);
      hide Inv, IsBackfill;
      if HasRows(s.db.rows, k) {
        RowMeans(s, t);
        HistoryMarked(s, RowRecord(t, s.db.rows[t]));
      }
    }
  }

  lemma ReopenedNewest(s: State, after: map<MarkKey, Mark>, k: MarkKey)
    requires Inv(s) && IsBackfill(s.db.rows, s.db.marks, after) && k in s.db.marks
    ensures k in after && IsNewest(s.history, MarkRecord(k, after[k]))
  {
    hide Inv, IsBackfill, IsNewest, MarkRecord, Coherent, RowsKnown, AllMarked, Agrees, MarksNewest;
    InvParts(s);
    ReopenedMarkRecord(s, after, k);
    NewestMark(s.db.marks, s.history, k);
  }

  lemma SameKeysMarked(marks: map<MarkKey, Mark>, after: map<MarkKey, Mark>, s: set<Record>)
    requires AllMarked(marks, s) && after.Keys == marks.Keys
    ensures AllMarked(after, s)
  {
    assert forall k :: k in marks <==> k in after.Keys;
  }

  lemma ReopenedFields(s: State, after: map<MarkKey, Mark>)
    ensures var t := Reopened(s, after);
            && t.db == Tables(s.db.rows, after) && t.cachedRows == map[] && t.cachedMarks == after
            && t.history == s.history && t.payloads == s.payloads && t.content == Restarted(s.content)
    ensures Agrees(map[], s.db.rows)
  {
  }

  lemma MarksNewestFrom(marks: map<MarkKey, Mark>, s: set<Record>)
    requires forall k :: k in marks ==> IsNewest(s, MarkRecord(k, marks[k]))
    ensures MarksNewest(marks, s)
  {
    hide IsNewest, MarkRecord;
  }

  /** A restart in the middle of a run loses nothing. */
  lemma ReopenKeepsInv(s: State, after: map<MarkKey, Mark>)
    requires Inv(s) && IsBackfill(s.db.rows, s.db.marks, after)
    ensures Inv(Reopened(s, after))
  {
    hide *;
    ReopenedKeys(s, after);
    InvParts(s);
    ReopenedFields(s, after);
    forall k | k in after ensures IsNewest(s.history, MarkRecord(k, after[k])) {
      assert k in after.Keys;
      ReopenedNewest(s, after, k);
    }
    MarksNewestFrom(after, s.history);
    SameKeysMarked(s.db.marks, after, s.history);
    InvFrom(Reopened(s, after));
  }

  // ---------------------------------------------------------------- opening an arbitrary database

  /** The tables after the backfill: one watermark per bulletin, and every display row under it. */
  ghost predicate Covered(rows: map<RowKey, Row>, after: map<MarkKey, Mark>) {
    && (forall j, k :: j in after && k in after && j.1 == k.1 ==> j == k)
    && forall u :: u in rows ==> Beneath(rows, after, u)
  }

  /** A row lies under the watermark of its bulletin, and is its record if it is of the same revision. */
  predicate Beneath(rows: map<RowKey, Row>, after: map<MarkKey, Mark>, u: RowKey)
    requires u in rows
  {
    var k := (rows[u].publisher, u.0);
    && k in after && u.1 <= after[k].maxRevision
    && (u.1 == after[k].maxRevision ==> RowRecord(u, rows[u]) == MarkRecord(k, after[k]))
  }

  lemma OneMark(db: Tables, after: map<MarkKey, Mark>, j: MarkKey, k: MarkKey)
    requires OnePublisher(db) && IsBackfill(db.rows, db.marks, after) && j in after && k in after && j.1 == k.1
    ensures j == k
  {
    var t := Backfilled(db, after, j);
    var u := Backfilled(db, after, k);
    hide IsBackfill, Joined;
    assert j.0 == k.0;
  }

  lemma JoinedRecord(db: Tables, k: MarkKey, t: RowKey)
    requires TopsAgree(db) && IsTop(db.rows, k, t)
    ensures var m := Joined(db.marks, k, t.1, db.rows[t]);
            t.1 <= m.maxRevision && (t.1 == m.maxRevision ==> RowRecord(t, db.rows[t]) == MarkRecord(k, m))
  {
  }

  lemma RowUnder(db: Tables, after: map<MarkKey, Mark>, u: RowKey)
    requires TopsAgree(db) && IsBackfill(db.rows, db.marks, after) && u in db.rows
    ensures Beneath(db.rows, after, u)
  {
    var k := (db.rows[u].publisher, u.0);
    assert HasRows(db.rows, k);
    var t := TopExists(db.rows, k, u);
    assert k in after && after[k] == Joined(db.marks, k, t.1, db.rows[t]);
    assert t.0 == u.0 && u.1 <= t.1;
    JoinedRecord(db, k, t);
    hide IsBackfill, TopsAgree, Joined, IsTop, RowRecord, MarkRecord;
    assert u.1 == t.1 ==> u == t;
  }

  lemma ConsistentCovers(db: Tables, after: map<MarkKey, Mark>)
    requires Consistent(db) && IsBackfill(db.rows, db.marks, after)
    ensures Covered(db.rows, after)
  {
    hide OnePublisher, TopsAgree, IsBackfill, Beneath;
    forall j, k | j in after && k in after && j.1 == k.1 ensures j == k {
      OneMark(db, after, j, k);
    }
    forall u | u in db.rows ensures Beneath(db.rows, after, u) {
      RowUnder(db, after, u);
    }
  }

  /** What is remembered of a bulletin lies under its one watermark. */
  lemma RememberedUnder(rows: map<RowKey, Row>, after: map<MarkKey, Mark>, r: Record)
    requires Covered(rows, after) && r in Remembered(Tables(rows, after))
    ensures MarkKeyOf(r) in after && r.revision <= after[MarkKeyOf(r)].maxRevision
    ensures r.revision == after[MarkKeyOf(r)].maxRevision ==> r == MarkRecord(MarkKeyOf(r), after[MarkKeyOf(r)])
    ensures r.revision != after[MarkKeyOf(r)].maxRevision ==>
              KeyOf(r) in rows && r == RowRecord(KeyOf(r), rows[KeyOf(r)])
  {
    if u :| u in rows && r == RowRecord(u, rows[u]) {
      assert Beneath(rows, after, u);
    }
  }

  lemma CoveredCoherent(rows: map<RowKey, Row>, after: map<MarkKey, Mark>)
    requires Covered(rows, after)
    ensures Coherent(Remembered(Tables(rows, after)))
  {
    var h := Remembered(Tables(rows, after));
    assert forall j, k :: j in after && k in after && j.1 == k.1 ==> j == k;
    forall a, b | a in h && b in h && a.bulletinId == b.bulletinId
      ensures a.publisher == b.publisher && (a.revision == b.revision ==> a == b)
    {
      hide *;
      RememberedUnder(rows, after, a);
      RememberedUnder(rows, after, b);
      assert MarkKeyOf(a).1 == MarkKeyOf(b).1 && KeyOf(a).0 == KeyOf(b).0;
      SameMark(rows, after, a, b);
    }
  }

  lemma SameMark(rows: map<RowKey, Row>, after: map<MarkKey, Mark>, a: Record, b: Record)
    requires Covered(rows, after) && MarkKeyOf(a) in after && MarkKeyOf(b) in after && a.bulletinId == b.bulletinId
    ensures MarkKeyOf(a) == MarkKeyOf(b) && a.publisher == b.publisher
    ensures a.revision == b.revision ==> KeyOf(a) == KeyOf(b)
  {
    hide Beneath;
  }

  lemma CoveredNewest(rows: map<RowKey, Row>, after: map<MarkKey, Mark>, k: MarkKey)
    requires Covered(rows, after) && k in after
    ensures IsNewest(Remembered(Tables(rows, after)), MarkRecord(k, after[k]))
  {
    var h, n := Remembered(Tables(rows, after)), MarkRecord(k, after[k]);
    assert n in h && MarkKeyOf(n) == k && n.revision == after[k].maxRevision;
    forall q | q in h && q.bulletinId == n.bulletinId ensures q.revision <= n.revision {
      hide *;
      RememberedUnder(rows, after, q);
      SameMark(rows, after, q, n);
    }
  }

  lemma RowsRemembered(rows: map<RowKey, Row>, after: map<MarkKey, Mark>)
    ensures RowsKnown(rows, Remembered(Tables(rows, after)))
  {
  }

  lemma CoveredHasInv(db: Tables, content: Content, after: map<MarkKey, Mark>)
    requires Covered(db.rows, after)
    ensures Inv(Opened(db, content, after, Remembered(db.(marks := after))))
  {
    var h := Remembered(Tables(db.rows, after));
    hide Covered, Coherent, Remembered, RowsKnown, Inv, IsNewest, MarkRecord, MarkKeyOf;
    forall r | r in h ensures MarkKeyOf(r) in after {
      RememberedUnder(db.rows, after, r);
    }
    forall k | k in after ensures IsNewest(h, MarkRecord(k, after[k])) {
      CoveredNewest(db.rows, after, k);
    }
    CoveredCoherent(db.rows, after);
    RowsRemembered(db.rows, after);
    InvFrom(Opened(db, content, after, h));
  }

  lemma JoinedKnows(marks: map<MarkKey, Mark>, k: MarkKey, t: RowKey, row: Row)
    requires k in marks && t.0 == k.1 && t.1 == marks[k].maxRevision
    requires RowRecord(t, row) == MarkRecord(k, Joined(marks, k, t.1, row))
    ensures marks[k].contentHash in {OrEmpty(row.contentHash), ""} && marks[k].title in {Canonical(row.title, t.0), ""}
  {
  }

  lemma OpenedOnePublisher(db: Tables, s: State)
    requires Inv(s) && s.db.rows == db.rows && db.marks.Keys <= s.db.marks.Keys
    ensures OnePublisher(db)
  {
    hide Inv;
    forall j, k | j in db.rows && k in db.rows && j.0 == k.0 ensures db.rows[j].publisher == db.rows[k].publisher {
      SamePublisher(s, j, k);
    }
    forall j, k | j in db.rows && k in db.marks && j.0 == k.1 ensures db.rows[j].publisher == k.0 {
      OpenedPublisher(s, j, k);
    }
    forall j, k | j in db.marks && k in db.marks && j.1 == k.1 ensures j == k {
      MarkUnique(s, j, k);
    }
  }

  lemma OpenedTop(db: Tables, content: Content, after: map<MarkKey, Mark>, history: set<Record>, k: MarkKey, t: RowKey)
    requires IsBackfill(db.rows, db.marks, after) && Inv(Opened(db, content, after, history))
    requires k in db.marks && IsTop(db.rows, k, t) && t.1 == db.marks[k].maxRevision
    ensures db.marks[k].contentHash in {OrEmpty(db.rows[t].contentHash), ""}
    ensures db.marks[k].title in {Canonical(db.rows[t].title, t.0), ""}
  {
    assert k in after && after[k] == Joined(db.marks, k, t.1, db.rows[t]);
    assert t in db.rows && t.0 == k.1;
    hide *;
    JoinedRevision(db.marks, k, t.1, db.rows[t]);
    OpenedIs(db, content, after, history);
    RowAtMark(Opened(db, content, after, history), k, t);
    JoinedKnows(db.marks, k, t, db.rows[t]);
  }

  lemma OpenedIs(db: Tables, content: Content, after: map<MarkKey, Mark>, history: set<Record>)
    ensures Opened(db, content, after, history).db == Tables(db.rows, after)
  {
  }

  /** Whatever the history is taken to be, the invariant can only hold after opening consistent tables. */
  lemma OpenedNeedsConsistent(db: Tables, content: Content, after: map<MarkKey, Mark>, history: set<Record>)
    requires IsBackfill(db.rows, db.marks, after) && Inv(Opened(db, content, after, history))
    ensures Consistent(db)
  {
    assert forall k :: k in db.marks ==> k in after;
    hide Inv, IsBackfill, OnePublisher, TopsAgree;
    OpenedIs(db, content, after, history);
    OpenedOnePublisher(db, Opened(db, content, after, history));
    OpenedTopsAgree(db, content, after, history);
  }

  lemma OpenedTopsAgree(db: Tables, content: Content, after: map<MarkKey, Mark>, history: set<Record>)
    requires IsBackfill(db.rows, db.marks, after) && Inv(Opened(db, content, after, history))
    ensures TopsAgree(db)
  {
    hide Inv, IsBackfill;
    forall k, t | k in db.marks && IsTop(db.rows, k, t) && t.1 == db.marks[k].maxRevision
      ensures db.marks[k].contentHash in {OrEmpty(db.rows[t].contentHash), ""}
      ensures db.marks[k].title in {Canonical(db.rows[t].title, t.0), ""}
    {
      OpenedTop(db, content, after, history, k, t);
    }
  }

  lemma JoinedRevision(marks: map<MarkKey, Mark>, k: MarkKey, revision: int, row: Row)
    ensures var m := Joined(marks, k, revision, row);
            m.maxRevision == if k in marks && marks[k].maxRevision > revision then marks[k].maxRevision else revision
  {
  }

  lemma SamePublisher(s: State, j: RowKey, k: RowKey)
    requires Inv(s) && j in s.db.rows && k in s.db.rows && j.0 == k.0
    ensures s.db.rows[j].publisher == s.db.rows[k].publisher
  {
    RowMeans(s, j);
    RowMeans(s, k);
    InvParts(s);
    hide Inv, Coherent;
    Coherence(s.history, RowRecord(j, s.db.rows[j]), RowRecord(k, s.db.rows[k]));
  }

  lemma OpenedPublisher(s: State, j: RowKey, k: MarkKey)
    requires Inv(s) && j in s.db.rows && k in s.db.marks && j.0 == k.1
    ensures s.db.rows[j].publisher == k.0
  {
    RowMeans(s, j);
    MarkMeans(s, k);
    hide Inv;
    assert RowRecord(j, s.db.rows[j]).bulletinId == k.1;
  }

  /**
   Opening any database: with all that the tables still know as the history, the invariant holds exactly
   if the tables do not contradict themselves. If they do, no history makes it hold.
   */
  lemma OpenedHasInv(db: Tables, content: Content, after: map<MarkKey, Mark>)
    requires IsBackfill(db.rows, db.marks, after)
    ensures Inv(Opened(db, content, after, Remembered(db.(marks := after)))) <==> Consistent(db)
    ensures forall h :: Inv(Opened(db, content, after, h)) ==> Consistent(db)
  {
    hide Inv, Consistent, IsBackfill, Covered, Remembered;
    forall h | Inv(Opened(db, content, after, h)) ensures Consistent(db) {
      OpenedNeedsConsistent(db, content, after, h);
    }
    if Consistent(db) {
      ConsistentCovers(db, after);
      CoveredHasInv(db, content, after);
    }
  }

  // ---------------------------------------------------------------- replays across an upgrade

  /** The tables of a known history name only its publishers and nothing newer than its newest record. */
  lemma RecalledRow(db: Tables, history: set<Record>, n: Record, t: RowKey)
    requires Recalls(db, history) && IsNewest(history, n) && t in db.rows && t.0 == n.bulletinId
    ensures db.rows[t].publisher == n.publisher && t.1 <= n.revision
    ensures t == KeyOf(n) ==> RowUpTo(db.rows[t], n)
  {
    var r :| r in history && KeyOf(r) == t && RowUpTo(db.rows[t], r);
    assert Coherent(history) && n in history && r.revision <= n.revision;
    hide Recalls, Coherent, IsNewest;
    Coherence(history, r, n);
  }

  lemma RecalledMark(db: Tables, history: set<Record>, n: Record, k: MarkKey)
    requires Recalls(db, history) && IsNewest(history, n) && k in db.marks && k.1 == n.bulletinId
    ensures k == MarkKeyOf(n) && db.marks[k].maxRevision <= n.revision
    ensures db.marks[k].maxRevision == n.revision ==> MarkUpTo(db.marks[k], n)
  {
    var r :| r in history && MarkKeyOf(r) == k && MarkUpTo(db.marks[k], r);
    assert Coherent(history) && n in history && r.revision <= n.revision;
    hide Recalls, Coherent, IsNewest;
    Coherence(history, r, n);
  }

  lemma RecalledAfter(db: Tables, history: set<Record>, after: map<MarkKey, Mark>, n: Record, k: MarkKey)
    requires Recalls(db, history) && IsNewest(history, n) && IsBackfill(db.rows, db.marks, after)
    requires k in after && k.1 == n.bulletinId
    ensures k == MarkKeyOf(n)
  {
    var t := Backfilled(db, after, k);
    hide Recalls, IsNewest, IsBackfill, Joined;
    if HasRows(db.rows, k) {
      RecalledRow(db, history, n, t);
    } else {
      RecalledMark(db, history, n, k);
    }
  }

  /** The tables still carry this record whole: its display row does, or without one the watermark does. */
  predicate Carried(db: Tables, n: Record) {
    if KeyOf(n) in db.rows then db.rows[KeyOf(n)].title == n.title || n.title == n.bulletinId
    else
      && MarkKeyOf(n) in db.marks
      && var m := db.marks[MarkKeyOf(n)];
         && m.maxRevision == n.revision && m.contentHash == n.contentHash
         && (m.title == n.title || n.title == n.bulletinId)
  }

  lemma DisplayedMark(db: Tables, n: Record)
    requires n.title != "" && KeyOf(n) in db.rows && RowUpTo(db.rows[KeyOf(n)], n)
    requires MarkKeyOf(n) in db.marks ==> db.marks[MarkKeyOf(n)].maxRevision <= n.revision
    requires MarkKeyOf(n) in db.marks && db.marks[MarkKeyOf(n)].maxRevision == n.revision ==>
              MarkUpTo(db.marks[MarkKeyOf(n)], n)
    ensures var m := Joined(db.marks, MarkKeyOf(n), n.revision, db.rows[KeyOf(n)]);
            MarkVerdict(n.publisher, m, db.rows, n) == Duplicate <==> Carried(db, n)
  {
  }

  lemma UndisplayedMark(db: Tables, n: Record, m: Mark)
    requires n.title != "" && KeyOf(n) !in db.rows
    requires MarkKeyOf(n) in db.marks && m == db.marks[MarkKeyOf(n)]
    requires m.maxRevision == n.revision ==> MarkUpTo(m, n)
    ensures MarkVerdict(n.publisher, m, db.rows, n) == Duplicate <==> Carried(db, n)
  {
  }

  lemma ReplayAtMark(db: Tables, history: set<Record>, after: map<MarkKey, Mark>, n: Record)
    requires Recalls(db, history) && IsNewest(history, n) && IsBackfill(db.rows, db.marks, after) && n.title != ""
    requires MarkKeyOf(n) in after
    ensures MarkVerdict(n.publisher, after[MarkKeyOf(n)], db.rows, n) == Duplicate <==> Carried(db, n)
  {
    var k := MarkKeyOf(n);
    var t := Backfilled(db, after, k);
    hide Recalls, IsNewest, IsBackfill, Joined, MarkVerdict, RowUpTo, MarkUpTo, Carried;
    if k in db.marks {
      RecalledMark(db, history, n, k);
    }
    if KeyOf(n) in db.rows {
      RecalledRow(db, history, n, KeyOf(n));
      RowUpToPublisher(db.rows[KeyOf(n)], n);
      assert HasRows(db.rows, k);
      RecalledRow(db, history, n, t);
      assert t == KeyOf(n);
      DisplayedMark(db, n);
    } else if HasRows(db.rows, k) {
      RecalledRow(db, history, n, t);
      assert t.1 < n.revision by { assert t == (n.bulletinId, t.1); }
      LowerTop(db, n, t);
    } else {
      UndisplayedMark(db, n, db.marks[k]);
    }
  }

  lemma RowUpToPublisher(row: Row, r: Record)
    requires RowUpTo(row, r)
    ensures row.publisher == r.publisher
  {
  }

  lemma LowerTop(db: Tables, n: Record, t: RowKey)
    requires n.title != "" && KeyOf(n) !in db.rows && t in db.rows && t.1 < n.revision
    requires MarkKeyOf(n) in db.marks ==> db.marks[MarkKeyOf(n)].maxRevision <= n.revision
    requires MarkKeyOf(n) in db.marks && db.marks[MarkKeyOf(n)].maxRevision == n.revision ==>
              MarkUpTo(db.marks[MarkKeyOf(n)], n)
    ensures MarkVerdict(n.publisher, Joined(db.marks, MarkKeyOf(n), t.1, db.rows[t]), db.rows, n) == Duplicate
         <==> Carried(db, n)
  {
  }

  /** The watermark accepts a newest record exactly if the tables still carry it. */
  lemma NewestVerdict(db: Tables, history: set<Record>, after: map<MarkKey, Mark>, markList: seq<(string, Mark)>,
                       n: Record)
    requires Recalls(db, history) && IsNewest(history, n) && IsBackfill(db.rows, db.marks, after) && n.title != ""
    requires ListsMarks(markList, after, n.bulletinId)
    ensures WatermarkVerdict(markList, db.rows, n) == Duplicate <==> Carried(db, n)
  {
    var k := MarkKeyOf(n);
    if k in after {
      assert (k.0, after[k]) in markList;
      hide Recalls, IsNewest, IsBackfill, WatermarkVerdict, Carried, MarkVerdict;
      forall i | 0 <= i < |markList| ensures markList[i] == (k.0, after[k]) {
        RecalledAfter(db, history, after, n, (markList[i].0, n.bulletinId));
      }
      WatermarkSingle(markList, db.rows, n, k.0, after[k]);
      ReplayAtMark(db, history, after, n);
    } else {
      NotDisplayed(db, history, after, n);
      if markList != [] {
        RecalledAfter(db, history, after, n, (markList[0].0, n.bulletinId));
      }
    }
  }

  lemma NotDisplayed(db: Tables, history: set<Record>, after: map<MarkKey, Mark>, n: Record)
    requires Recalls(db, history) && IsNewest(history, n) && IsBackfill(db.rows, db.marks, after)
    requires MarkKeyOf(n) !in after
    ensures KeyOf(n) !in db.rows && MarkKeyOf(n) !in db.marks
  {
    if KeyOf(n) in db.rows {
      RecalledRow(db, history, n, KeyOf(n));
      hide Recalls, IsNewest, Joined;
      assert HasRows(db.rows, MarkKeyOf(n));
      var t := TopExists(db.rows, MarkKeyOf(n), KeyOf(n));
    }
  }

  // ---------------------------------------------------------------- replays and their content

  /** The row's content can be read, and the watermark's recipe is found or the payload can be published anew. */
  predicate ContentReady(s: State, sub: Submission) {
    && Readable(s, sub.record)
    && (Known(RowRead(s, sub.record), MarkedRoot(s, sub.record)) || Packs(s.content.setup, sub.data))
  }

  /**
   A submission of the watermark's revision: what it disagrees in is reported, and what it agrees in accepted,
   only once the display row's content was read.
   */
  lemma AtWatermarkOutcome(s: State, sub: Submission, markList: seq<(string, Mark)>, rowList: seq<Record>)
    requires WatermarkVerdict(markList, s.db.rows, sub.record) in {Duplicate, RevisionConflict}
    ensures var w, out := WatermarkVerdict(markList, s.db.rows, sub.record), Stored(s, sub, markList, rowList).1;
            && (out == Raised(ContentMissing) <==> !Readable(s, sub.record))
            && (out == Refused(RevisionConflict) <==> Readable(s, sub.record) && w == RevisionConflict)
            && (out == Replayed <==> w == Duplicate && ContentReady(s, sub))
  {
    RowReadSetup(s, sub.record);
    hide WatermarkVerdict, CheckRevision, Ensured, Held, Packs, RootOf, InMemory, Persisted, Inserted, Readmitted;
  }

  lemma DuplicateIsDisplayed(rows: map<RowKey, Row>, rowList: seq<Record>, r: Record)
    requires Lists(rowList, Displayed(rows), r.bulletinId) && CheckRevision(rowList, r) == Duplicate
    ensures KeyOf(r) in rows
  {
    FirstHitWitness(rowList, r);
    hide FirstHit;
    var i :| 0 <= i < |rowList| && rowList[i] == r.(bulletinId := rowList[i].bulletinId);
    assert rowList[i] in Displayed(rows);
  }

  lemma DisplayedIsMarked(db: Tables, history: set<Record>, after: map<MarkKey, Mark>, n: Record)
    requires Recalls(db, history) && IsNewest(history, n) && IsBackfill(db.rows, db.marks, after)
    requires KeyOf(n) in db.rows
    ensures MarkKeyOf(n) in after && after[MarkKeyOf(n)].maxRevision == n.revision
  {
    var k := MarkKeyOf(n);
    RecalledAtMost(db, history, n);
    RecalledRow(db, history, n, KeyOf(n));
    hide Recalls, IsNewest, Joined;
    assert HasRows(db.rows, k);
    var t := TopExists(db.rows, k, KeyOf(n));
    RecalledRow(db, history, n, t);
    assert t == KeyOf(n);
    JoinedRevision(db.marks, k, t.1, db.rows[t]);
  }

  lemma NotFreshAtMark(list: seq<(string, Mark)>, rows: map<RowKey, Row>, r: Record, m: Mark)
    requires (r.publisher, m) in list && m.maxRevision == r.revision
    ensures WatermarkVerdict(list, rows, r) != Fresh
  {
    var i :| 0 <= i < |list| && list[i] == (r.publisher, m);
    if WatermarkVerdict(list, rows, r) == Fresh {
      FreshOwns(list, rows, r, i);
    }
  }

  /**
   A replay of the newest record of a history of which the database kept some: it is accepted exactly if its
   display row or, without one, the watermark still carries digest and title, or carries the digest and the
   title is the bulletin's name; and if the row, when there is one, has its content, and the watermark's
   recipe is there or the payload can be published anew.
   */
  lemma ReplayOfNewest(db: Tables, content: Content, history: set<Record>, after: map<MarkKey, Mark>,
                       markList: seq<(string, Mark)>, rowList: seq<Record>, sub: Submission)
    requires Recalls(db, history) && IsNewest(history, sub.record) && IsBackfill(db.rows, db.marks, after)
    requires sub.record.title != "" && ListsMarks(markList, after, sub.record.bulletinId)
    requires Lists(rowList, Displayed(db.rows), sub.record.bulletinId)
    ensures var s := Opened(db, content, after, history);
            Stored(s, sub, markList, rowList).1 == Replayed <==> Carried(db, sub.record) && ContentReady(s, sub)
  {
    var s, n := Opened(db, content, after, history), sub.record;
    OpenedIs(db, content, after, history);
    hide *;
    NewestVerdict(db, history, after, markList, n);
    StoredOutcome(s, sub, markList, rowList);
    if WatermarkVerdict(markList, db.rows, n) == Duplicate {
      AtWatermarkOutcome(s, sub, markList, rowList);
    } else if WatermarkVerdict(markList, db.rows, n) == Fresh && CheckRevision(rowList, n) == Duplicate {
      DuplicateIsDisplayed(db.rows, rowList, n);
      DisplayedIsMarked(db, history, after, n);
      ListedMark(markList, after, n);
      NotFreshAtMark(markList, db.rows, n, after[MarkKeyOf(n)]);
    }
  }

  lemma ListedMark(list: seq<(string, Mark)>, marks: map<MarkKey, Mark>, r: Record)
    requires ListsMarks(list, marks, r.bulletinId) && MarkKeyOf(r) in marks
    ensures (r.publisher, marks[MarkKeyOf(r)]) in list
  {
  }

  /** What a database keeps of one displayed bulletin whose content an earlier version never stored. */
  function Bare(pub: string, bid: string, revision: int, digest: string, root: string, title: string): Tables {
    Tables(map[(bid, revision) := Row(pub, Some(digest), Some(root), title, 0.0)], map[])
  }

  /** Nothing can be read from a node without content. */
  lemma NothingHeld(setup: Fetch.Setup, root: string)
    ensures !Held(NoContent(setup), root) && !Known(NoContent(setup), root)
    ensures Ensured(NoContent(setup), root) == NoContent(setup)
  {
  }

  lemma BareBackfill(pub: string, bid: string, revision: int, digest: string, root: string, title: string,
                     after: map<MarkKey, Mark>)
    requires var db := Bare(pub, bid, revision, digest, root, title); IsBackfill(db.rows, db.marks, after)
    ensures after == map[(pub, bid) := Mark(revision, digest, root, title)]
    ensures Openable(Bare(pub, bid, revision, digest, root, title).rows)
  {
    var db, k, t := Bare(pub, bid, revision, digest, root, title), (pub, bid), (bid, revision);
    assert IsTop(db.rows, k, t);
    assert after[k] == Mark(revision, digest, root, title);
    forall j | j in after ensures j == k {
      assert HasRows(db.rows, j);
    }
  }

  /**
   A display row whose content the node does not have, as an earlier version may leave behind: after the
   upgrade its authentic replay raises, and so does every other submission of its publisher at that revision.
   Once the row is pruned the replay is accepted, if its payload can be packed.
   */
  lemma ContentForgotten(setup: Fetch.Setup, pub: string, bid: string, revision: int, digest: string, root: string,
                         title: string, after: map<MarkKey, Mark>, markList: seq<(string, Mark)>, rowList: seq<Record>,
                         sub: Submission)
    requires title != "" && sub.record.bulletinId == bid && sub.record.publisher == pub
    requires sub.record.revision == revision
    requires var db := Bare(pub, bid, revision, digest, root, title); IsBackfill(db.rows, db.marks, after)
    requires ListsMarks(markList, after, bid)
    ensures var db := Bare(pub, bid, revision, digest, root, title);
            var n := Record(bid, revision, pub, digest, title);
            var s := Opened(db, NoContent(setup), after, {n});
            && Recalls(db, {n}) && Consistent(db) && Carried(db, n) && Openable(db.rows) && Inv(s)
            && Stored(s, sub, markList, rowList).1 == Raised(ContentMissing)
            && (sub.record == n ==>
                (Stored(Pruned(s, {}), sub, markList, []).1 == Replayed <==> Packs(setup, sub.data)))
  {
    hide *;
    BareBackfill(pub, bid, revision, digest, root, title, after);
    BareKept(setup, pub, bid, revision, digest, root, title, after);
    BareStates(setup, Bare(pub, bid, revision, digest, root, title), after,
               {Record(bid, revision, pub, digest, title)});
    var db := Bare(pub, bid, revision, digest, root, title);
    var n := Record(bid, revision, pub, digest, title);
    var s := Opened(db, NoContent(setup), after, {n});
    var p := Pruned(s, {});
    BareVerdicts(pub, bid, revision, digest, root, title, s, markList, sub.record);
    BareVerdicts(pub, bid, revision, digest, root, title, p, markList, sub.record);
    BareContent(setup, pub, bid, revision, digest, root, title, sub);
    AtWatermarkOutcome(s, sub, markList, rowList);
    if sub.record == n {
      AtWatermarkOutcome(p, sub, markList, []);
    }
  }

  lemma BareStates(setup: Fetch.Setup, db: Tables, after: map<MarkKey, Mark>, history: set<Record>)
    ensures var s := Opened(db, NoContent(setup), after, history);
            && s.db == Tables(db.rows, after) && Pruned(s, {}).db == Tables(map[], after)
  {
  }

  lemma BareVerdicts(pub: string, bid: string, revision: int, digest: string, root: string, title: string, s: State,
                     markList: seq<(string, Mark)>, r: Record)
    requires r.bulletinId == bid && r.publisher == pub && r.revision == revision && title != ""
    requires s.db.marks == map[(pub, bid) := Mark(revision, digest, root, title)]
    requires s.db.rows == Bare(pub, bid, revision, digest, root, title).rows || s.db.rows == map[]
    requires ListsMarks(markList, s.db.marks, bid)
    ensures WatermarkVerdict(markList, s.db.rows, r)
         == if r == Record(bid, revision, pub, digest, title) then Duplicate else RevisionConflict
  {
    var m, k := Mark(revision, digest, root, title), (pub, bid);
    assert k in s.db.marks && s.db.marks[k] == m;
    assert (k.0, m) in markList;
    assert forall i :: 0 <= i < |markList| ==> markList[i] == (pub, m);
    WatermarkSingle(markList, s.db.rows, r, pub, m);
    hide WatermarkVerdict;
  }

  lemma BareContent(setup: Fetch.Setup, pub: string, bid: string, revision: int, digest: string, root: string,
                    title: string, sub: Submission)
    requires sub.record.bulletinId == bid && sub.record.publisher == pub && sub.record.revision == revision
    ensures var db := Bare(pub, bid, revision, digest, root, title);
            var after := map[(pub, bid) := Mark(revision, digest, root, title)];
            var s := Opened(db, NoContent(setup), after, {Record(bid, revision, pub, digest, title)});
            !Readable(s, sub.record) && (ContentReady(Pruned(s, {}), sub) <==> Packs(setup, sub.data))
  {
    assert KeyOf(sub.record) == (bid, revision) && MarkKeyOf(sub.record) == (pub, bid);
    NothingHeld(setup, ContentKey(Row(pub, Some(digest), Some(root), title, 0.0)));
    NothingHeld(setup, root);
    assert Restarted(NoContent(setup)) == NoContent(setup);
    hide Held, Known, Ensured, Packs, NoContent, Restarted;
  }

  lemma BareKept(setup: Fetch.Setup, pub: string, bid: string, revision: int, digest: string, root: string,
                 title: string, after: map<MarkKey, Mark>)
    requires title != "" && after == map[(pub, bid) := Mark(revision, digest, root, title)]
    ensures var db := Bare(pub, bid, revision, digest, root, title);
            var n := Record(bid, revision, pub, digest, title);
            && Recalls(db, {n}) && Consistent(db) && Carried(db, n)
            && Inv(Opened(db, NoContent(setup), after, {n}))
  {
    var n := Record(bid, revision, pub, digest, title);
    assert MarkRecord((pub, bid), after[(pub, bid)]) == n && KeyOf(n) == (bid, revision);
  }

  /** Between them the tables still carry digest and title of this record, or its title is the bulletin's name. */
  predicate Repairable(db: Tables, n: Record) {
    var k, displayed := MarkKeyOf(n), KeyOf(n) in db.rows;
    var marked := k in db.marks && db.marks[k].maxRevision == n.revision;
    && (displayed || (marked && db.marks[k].contentHash == n.contentHash))
    && (|| n.title == n.bulletinId
        || (displayed && db.rows[KeyOf(n)].title == n.title)
        || (marked && db.marks[k].title == n.title))
  }

  predicate MarkAtMost(db: Tables, n: Record) {
    MarkKeyOf(n) in db.marks ==>
      var m := db.marks[MarkKeyOf(n)];
      m.maxRevision <= n.revision && (m.maxRevision == n.revision ==> MarkUpTo(m, n))
  }

  lemma DisplayedRecord(db: Tables, n: Record)
    requires n.title != "" && KeyOf(n) in db.rows && RowUpTo(db.rows[KeyOf(n)], n) && MarkAtMost(db, n)
    ensures var k := MarkKeyOf(n);
            MarkRecord(k, Joined(db.marks, k, n.revision, db.rows[KeyOf(n)])) == n <==> Repairable(db, n)
  {
  }

  lemma LowerTopRecord(db: Tables, n: Record, t: RowKey)
    requires n.title != "" && KeyOf(n) !in db.rows && t in db.rows && t.1 < n.revision && MarkAtMost(db, n)
    ensures var k := MarkKeyOf(n);
            MarkRecord(k, Joined(db.marks, k, t.1, db.rows[t])) == n <==> Repairable(db, n)
  {
  }

  lemma UndisplayedRecord(db: Tables, n: Record)
    requires n.title != "" && KeyOf(n) !in db.rows && MarkAtMost(db, n)
    ensures MarkKeyOf(n) in db.marks ==>
              (MarkRecord(MarkKeyOf(n), db.marks[MarkKeyOf(n)]) == n <==> Repairable(db, n))
    ensures MarkKeyOf(n) !in db.marks ==> !Repairable(db, n)
  {
  }

  lemma RecalledAtMost(db: Tables, history: set<Record>, n: Record)
    requires Recalls(db, history) && IsNewest(history, n)
    ensures MarkAtMost(db, n)
  {
    hide Recalls, IsNewest, MarkUpTo;
    if MarkKeyOf(n) in db.marks {
      RecalledMark(db, history, n, MarkKeyOf(n));
    }
  }

  /**
   The backfill makes the watermark of a bulletin its newest record exactly if the tables still carry that
   record's digest and title between them.
   */
  lemma BackfilledIs(db: Tables, history: set<Record>, after: map<MarkKey, Mark>, n: Record)
    requires Recalls(db, history) && IsNewest(history, n) && IsBackfill(db.rows, db.marks, after) && n.title != ""
    ensures MarkKeyOf(n) in after && MarkRecord(MarkKeyOf(n), after[MarkKeyOf(n)]) == n <==> Repairable(db, n)
  {
    var k := MarkKeyOf(n);
    RecalledAtMost(db, history, n);
    if k in after {
      var t := Backfilled(db, after, k);
      hide Recalls, IsNewest, IsBackfill, Joined, RowUpTo, MarkAtMost, Repairable, MarkRecord;
      if KeyOf(n) in db.rows {
        RecalledRow(db, history, n, KeyOf(n));
        RowUpToPublisher(db.rows[KeyOf(n)], n);
        assert HasRows(db.rows, k);
        RecalledRow(db, history, n, t);
        assert t == KeyOf(n);
        DisplayedRecord(db, n);
      } else if HasRows(db.rows, k) {
        RecalledRow(db, history, n, t);
        assert t.1 < n.revision by { assert t == (n.bulletinId, t.1); }
        LowerTopRecord(db, n, t);
      } else {
        UndisplayedRecord(db, n);
      }
    } else {
      NotDisplayed(db, history, after, n);
      UndisplayedRecord(db, n);
    }
  }

  /**
   A watermark from before titles were kept, its display row pruned: after the upgrade the record's authentic
   replay conflicts, while the same content under the bulletin's name passes as a replay.
   */
  lemma TitleForgotten(pub: string, bid: string, hash: string, root: string, title: string,
                       after: map<MarkKey, Mark>, markList: seq<(string, Mark)>)
    requires title != "" && title != bid && bid != ""
    requires IsBackfill(map[], map[(pub, bid) := Mark(1, hash, root, "")], after) && ListsMarks(markList, after, bid)
    ensures var db := Tables(map[], map[(pub, bid) := Mark(1, hash, root, "")]);
            && Recalls(db, {Record(bid, 1, pub, hash, title)}) && Consistent(db)
            && WatermarkVerdict(markList, db.rows, Record(bid, 1, pub, hash, title)) == RevisionConflict
            && WatermarkVerdict(markList, db.rows, Record(bid, 1, pub, hash, bid)) == Duplicate
  {
    var m, k := Mark(1, hash, root, ""), (pub, bid);
    var marks := map[k := m];
    var rows: map<RowKey, Row> := map[];
    var r := Record(bid, 1, pub, hash, title);
    assert !HasRows(rows, k);
    assert after[k] == m;
    assert forall j :: j in after ==> j == k by {
      forall j | j in after ensures j == k {
        assert j in marks || HasRows(rows, j);
      }
    }
    assert (k.0, after[k]) in markList;
    assert forall i :: 0 <= i < |markList| ==> markList[i] == (pub, m);
    WatermarkSingle(markList, rows, r, pub, m);
    WatermarkSingle(markList, rows, r.(title := bid), pub, m);
    assert MarkKeyOf(r) == k && MarkUpTo(m, r);
  }

  /** A bulletin with watermarks of two publishers admits nothing more. */
  lemma {:induction false} TwoPublishersFrozen(list: seq<(string, Mark)>, rows: map<RowKey, Row>, r: Record, i: nat,
                                               j: nat)
    requires i < |list| && j < |list| && list[i].0 != list[j].0
    ensures WatermarkVerdict(list, rows, r) != Fresh
  {
    if WatermarkVerdict(list, rows, r) == Fresh {
      FreshOwns(list, rows, r, i);
      FreshOwns(list, rows, r, j);
    }
  }

  lemma {:induction false} FreshOwns(list: seq<(string, Mark)>, rows: map<RowKey, Row>, r: Record, i: nat)
    requires i < |list| && WatermarkVerdict(list, rows, r) == Fresh
    ensures list[i].0 == r.publisher && list[i].1.maxRevision < r.revision
  {
    if i > 0 {
      FreshOwns(list[1..], rows, r, i - 1);
    }
  }
}
