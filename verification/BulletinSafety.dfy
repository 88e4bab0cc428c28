/** What watermarks decide compared with the full history, and what every run of the machine keeps. */
module BulletinSafety {
  import opened Wrappers
  import opened BulletinIdentity
  import opened BulletinContent
  import opened Bulletins

  // ---------------------------------------------------------------- the policy on a set of records

  /** The admission policy as a property of the records themselves, whatever order they are listed in. */
  ghost function SetVerdict(s: set<Record>, r: Record): Verdict {
    if exists q :: q in s && q.bulletinId == r.bulletinId && q.publisher != r.publisher then PublisherConflict
    else if exists q :: q in s && q.bulletinId == r.bulletinId && q.revision == r.revision then
      (if r in s then Duplicate else RevisionConflict)
    else if exists q :: q in s && q.bulletinId == r.bulletinId && q.revision > r.revision then Stale
    else Fresh
  }

  /** What the first deciding record says about the list. */
  lemma {:induction false} FirstHitWitness(list: seq<Record>, r: Record)
    ensures FirstHit(list, r) == None ==>
              forall i :: 0 <= i < |list| ==> list[i].publisher == r.publisher && list[i].revision != r.revision
    ensures FirstHit(list, r) == Some(PublisherConflict) ==>
              exists i :: 0 <= i < |list| && list[i].publisher != r.publisher
    ensures FirstHit(list, r) == Some(Duplicate) ==>
              exists i :: 0 <= i < |list| && list[i] == r.(bulletinId := list[i].bulletinId)
    ensures FirstHit(list, r) == Some(RevisionConflict) ==>
              exists i :: 0 <= i < |list| && list[i].publisher == r.publisher && list[i].revision == r.revision
                       && list[i] != r.(bulletinId := list[i].bulletinId)
    ensures FirstHit(list, r) != Some(Stale) && FirstHit(list, r) != Some(Fresh)
  {
    if list != [] {
      FirstHitWitness(list[1..], r);
      assert forall i :: 0 < i < |list| ==> list[i] == list[1..][i - 1];
      assert forall i :: 0 <= i < |list| - 1 ==> list[1..][i] == list[i + 1];
    }
  }

  /** On coherent records the loop's verdict does not depend on the order of the list. */
  lemma CheckIsSetVerdict(list: seq<Record>, s: set<Record>, r: Record)
    requires Coherent(s) && Lists(list, s, r.bulletinId)
    ensures CheckRevision(list, r) == SetVerdict(s, r)
  {
    FirstHitWitness(list, r);
    hide FirstHit;
    match FirstHit(list, r)
    case Some(v) =>
    case None =>
      forall q | q in s && q.bulletinId == r.bulletinId ensures q.publisher == r.publisher && q.revision != r.revision {
        var i :| 0 <= i < |list| && list[i] == q;
      }
      if list != [] {
        var i :| 0 <= i < |list| && list[i].revision == MaxRevision(list);
        assert list[i] in s;
        forall q | q in s && q.bulletinId == r.bulletinId ensures q.revision <= MaxRevision(list) {
          var j :| 0 <= j < |list| && list[j] == q;
        }
      }
  }

  // ---------------------------------------------------------------- reading the invariant

  lemma Coherence(s: set<Record>, a: Record, b: Record)
    requires Coherent(s) && a in s && b in s && a.bulletinId == b.bulletinId
    ensures a.publisher == b.publisher && (a.revision == b.revision ==> a == b)
  {
  }

  /** The parts of the invariant, none of them unfolded. */
  lemma InvParts(s: State)
    requires Inv(s)
    ensures Coherent(s.history)
    ensures RowsKnown(s.db.rows, s.history) && MarksNewest(s.db.marks, s.history) && AllMarked(s.db.marks, s.history)
    ensures s.cachedMarks == s.db.marks && Agrees(s.cachedRows, s.db.rows)
  {
    hide Coherent, RowsKnown, MarksNewest, AllMarked, Agrees;
  }

  lemma NewestMark(marks: map<MarkKey, Mark>, s: set<Record>, k: MarkKey)
    requires MarksNewest(marks, s) && k in marks
    ensures IsNewest(s, MarkRecord(k, marks[k]))
  {
    hide IsNewest;
  }

  lemma NewestBounds(s: set<Record>, q: Record)
    requires Coherent(s) && IsNewest(s, q)
    ensures q in s
    ensures forall r :: r in s && r.bulletinId == q.bulletinId ==>
              r.publisher == q.publisher && r.revision <= q.revision
  {
    forall r | r in s && r.bulletinId == q.bulletinId ensures r.publisher == q.publisher {
      Coherence(s, r, q);
    }
  }

  /** What a watermark says about the history. */
  lemma MarkMeans(s: State, k: MarkKey)
    requires Inv(s) && k in s.db.marks
    ensures MarkRecord(k, s.db.marks[k]) in s.history
    ensures forall r :: r in s.history && r.bulletinId == k.1 ==>
              r.publisher == k.0 && r.revision <= s.db.marks[k].maxRevision
  {
    InvParts(s);
    hide Inv, Coherent, RowsKnown, MarksNewest, AllMarked, Agrees, IsNewest;
    NewestMark(s.db.marks, s.history, k);
    NewestBounds(s.history, MarkRecord(k, s.db.marks[k]));
  }

  lemma RowMeans(s: State, k: RowKey)
    requires Inv(s) && k in s.db.rows
    ensures RowRecord(k, s.db.rows[k]) in s.history
  {
    InvParts(s);
    hide Inv, Coherent, MarksNewest, AllMarked, Agrees;
  }

  lemma HistoryMarked(s: State, r: Record)
    requires Inv(s) && r in s.history
    ensures MarkKeyOf(r) in s.db.marks
  {
    InvParts(s);
    hide Inv, Coherent, RowsKnown, MarksNewest, Agrees;
  }

  // ---------------------------------------------------------------- the watermark decides like the history

  lemma MarkUnique(s: State, j: MarkKey, k: MarkKey)
    requires Inv(s) && j in s.db.marks && k in s.db.marks && j.1 == k.1
    ensures j == k
  {
    MarkMeans(s, j);
    MarkMeans(s, k);
    hide *;
    assert j.0 == k.0;
  }

  /** All marks a query can list for a bulletin are one and the same. */
  lemma {:induction false} WatermarkSingle(list: seq<(string, Mark)>, rows: map<RowKey, Row>, r: Record, pub: string,
                                           m: Mark)
    requires list != [] && forall i :: 0 <= i < |list| ==> list[i] == (pub, m)
    ensures WatermarkVerdict(list, rows, r) == MarkVerdict(pub, m, rows, r)
  {
    hide MarkVerdict;
    if |list| > 1 {
      WatermarkSingle(list[1..], rows, r, pub, m);
    }
  }

  lemma Listed(s: State, list: seq<(string, Mark)>, bid: string, k: MarkKey)
    requires ListsMarks(list, s.db.marks, bid) && k in s.db.marks && k.1 == bid
    ensures list != []
    ensures forall i :: 0 <= i < |list| ==> (list[i].0, bid) in s.db.marks && s.db.marks[(list[i].0, bid)] == list[i].1
  {
    assert (k.0, s.db.marks[k]) in list;
  }

  lemma WatermarkIs(s: State, list: seq<(string, Mark)>, r: Record, k: MarkKey)
    requires Inv(s) && ListsMarks(list, s.db.marks, r.bulletinId)
    requires k in s.db.marks && k.1 == r.bulletinId
    ensures WatermarkVerdict(list, s.db.rows, r) == MarkVerdict(k.0, s.db.marks[k], s.db.rows, r)
  {
    Listed(s, list, r.bulletinId, k);
    hide *;
    forall i | 0 <= i < |list| ensures list[i] == (k.0, s.db.marks[k]) {
      MarkUnique(s, (list[i].0, r.bulletinId), k);
    }
    WatermarkSingle(list, s.db.rows, r, k.0, s.db.marks[k]);
  }

  lemma SomeMark(list: seq<(string, Mark)>, marks: map<MarkKey, Mark>, bid: string)
    requires ListsMarks(list, marks, bid) && list != []
    ensures exists k :: k in marks && k.1 == bid
  {
    assert (list[0].0, bid) in marks;
  }

  lemma WatermarkAbsent(s: State, list: seq<(string, Mark)>, r: Record)
    requires Inv(s) && ListsMarks(list, s.db.marks, r.bulletinId)
    requires forall k :: k in s.db.marks ==> k.1 != r.bulletinId
    ensures WatermarkVerdict(list, s.db.rows, r) == Fresh && SetVerdict(s.history, r) == Fresh
  {
    if list != [] {
      SomeMark(list, s.db.marks, r.bulletinId);
    }
    forall q | q in s.history ensures q.bulletinId != r.bulletinId {
      HistoryMarked(s, q);
    }
  }

  /** The row displayed for the watermark's revision, if any, is the watermark's record. */
  lemma ExpectedIsMarked(s: State, k: MarkKey, r: Record)
    requires Inv(s) && k in s.db.marks && k.1 == r.bulletinId && r.revision == s.db.marks[k].maxRevision
    ensures ExpectedTitle(s.db.rows, r, s.db.marks[k]) == MarkRecord(k, s.db.marks[k]).title
  {
    MarkMeans(s, k);
    InvParts(s);
    hide Inv, Coherent;
    if KeyOf(r) in s.db.rows {
      RowMeans(s, KeyOf(r));
      Coherence(s.history, RowRecord(KeyOf(r), s.db.rows[KeyOf(r)]), MarkRecord(k, s.db.marks[k]));
    }
  }

  /** A revision below the watermark that the history holds: the one case the watermark cannot tell. */
  ghost predicate Forgotten(s: State, r: Record) {
    && MarkKeyOf(r) in s.db.marks && r.revision < s.db.marks[MarkKeyOf(r)].maxRevision
    && exists q :: q in s.history && KeyOf(q) == KeyOf(r)
  }

  lemma MarkVersusHistory(s: State, k: MarkKey, r: Record)
    requires Inv(s) && k in s.db.marks && k.1 == r.bulletinId
    ensures var v := MarkVerdict(k.0, s.db.marks[k], s.db.rows, r);
            && (v != SetVerdict(s.history, r) <==> Forgotten(s, r))
            && (Forgotten(s, r) ==> v == Stale && SetVerdict(s.history, r) in {Duplicate, RevisionConflict})
  {
    var m := s.db.marks[k];
    var q := MarkRecord(k, m);
    MarkMeans(s, k);
    InvParts(s);
    if MarkKeyOf(r) in s.db.marks {
      MarkUnique(s, k, MarkKeyOf(r));
    }
    if r.revision == m.maxRevision {
      ExpectedIsMarked(s, k, r);
    }
    hide Inv, Coherent, ExpectedTitle;
    if r.revision == m.maxRevision && r in s.history {
      Coherence(s.history, q, r);
    }
  }

  /**
   Admission from watermarks and pruned rows against the policy on the complete history: the same
   requests are fresh; once the watermark lets a request pass the second check never rejects; and the
   verdicts differ only for a revision of the same publisher that lies below the watermark and is
   known to the history, which is then reported stale rather than duplicate or conflicting.
   */
  lemma AdmissionRefinesHistory(s: State, markList: seq<(string, Mark)>, rowList: seq<Record>, historyList: seq<Record>,
                                r: Record)
    requires Inv(s)
    requires ListsMarks(markList, s.db.marks, r.bulletinId) && Lists(rowList, Displayed(s.db.rows), r.bulletinId)
    requires Lists(historyList, s.history, r.bulletinId)
    ensures var got, full := Admission(markList, rowList, s.db.rows, r), CheckRevision(historyList, r);
            && (got == Fresh <==> full == Fresh)
            && (got != full <==> Forgotten(s, r))
            && (got != full ==> got == Stale && full in {Duplicate, RevisionConflict})
    ensures WatermarkVerdict(markList, s.db.rows, r) == Fresh ==> CheckRevision(rowList, r) == Fresh
  {
    InvParts(s);
    hide Inv, Coherent, CheckRevision, ListsMarks, Lists, WatermarkVerdict, Forgotten, SetVerdict, MarkVerdict;
    CheckIsSetVerdict(historyList, s.history, r);
    WatermarkVersusHistory(s, markList, r);
    if SetVerdict(s.history, r) == Fresh {
      FreshInRows(s, rowList, r);
    }
  }

  lemma WatermarkVersusHistory(s: State, markList: seq<(string, Mark)>, r: Record)
    requires Inv(s) && ListsMarks(markList, s.db.marks, r.bulletinId)
    ensures var v := WatermarkVerdict(markList, s.db.rows, r);
            && (v != SetVerdict(s.history, r) <==> Forgotten(s, r))
            && (Forgotten(s, r) ==> v == Stale && SetVerdict(s.history, r) in {Duplicate, RevisionConflict})
  {
    hide Inv, ListsMarks, WatermarkVerdict, SetVerdict, MarkVerdict;
    if k :| k in s.db.marks && k.1 == r.bulletinId {
      WatermarkIs(s, markList, r, k);
      MarkVersusHistory(s, k, r);
    } else {
      WatermarkAbsent(s, markList, r);
    }
  }

  /** Query results are coherent too, and name revisions and publishers the history knows. */
  lemma RowsCoherent(s: State)
    requires Inv(s)
    ensures Coherent(Displayed(s.db.rows))
    ensures forall q :: q in Displayed(s.db.rows) ==>
      exists r :: r in s.history && KeyOf(r) == KeyOf(q) && r.publisher == q.publisher
  {
    hide Inv;
    InvParts(s);
    forall q | q in Displayed(s.db.rows)
      ensures exists r :: r in s.history && KeyOf(r) == KeyOf(q) && r.publisher == q.publisher
    {
      var r := RowOfDisplayed(s, q);
    }
    forall a, b | a in Displayed(s.db.rows) && b in Displayed(s.db.rows) && a.bulletinId == b.bulletinId
      ensures a.publisher == b.publisher && (a.revision == b.revision ==> a == b)
    {
      DisplayedAgree(s, a, b);
    }
  }

  lemma RowOfDisplayed(s: State, q: Record) returns (r: Record)
    requires Inv(s) && q in Displayed(s.db.rows)
    ensures r in s.history && KeyOf(r) == KeyOf(q) && r.publisher == q.publisher
    ensures KeyOf(q) in s.db.rows && q == RecordOf(KeyOf(q), s.db.rows[KeyOf(q)])
  {
    hide Inv;
    var k :| k in s.db.rows && q == RecordOf(k, s.db.rows[k]);
    RowMeans(s, k);
    r := RowRecord(k, s.db.rows[k]);
  }

  lemma DisplayedAgree(s: State, a: Record, b: Record)
    requires Inv(s) && a in Displayed(s.db.rows) && b in Displayed(s.db.rows) && a.bulletinId == b.bulletinId
    ensures a.publisher == b.publisher && (a.revision == b.revision ==> a == b)
  {
    hide Inv, Displayed;
    var p := RowOfDisplayed(s, a);
    var q := RowOfDisplayed(s, b);
    InvParts(s);
    Coherence(s.history, p, q);
  }

  lemma FreshFrom(s: set<Record>, r: Record)
    requires forall q :: q in s && q.bulletinId == r.bulletinId ==>
              q.publisher == r.publisher && q.revision < r.revision
    ensures SetVerdict(s, r) == Fresh
  {
  }

  lemma FreshInRows(s: State, rowList: seq<Record>, r: Record)
    requires Inv(s) && SetVerdict(s.history, r) == Fresh && Lists(rowList, Displayed(s.db.rows), r.bulletinId)
    ensures CheckRevision(rowList, r) == Fresh
  {
    hide Inv, Lists, CheckRevision, SetVerdict, Displayed, Coherent;
    RowsCoherent(s);
    FreshMeans(s.history, r);
    CheckIsSetVerdict(rowList, Displayed(s.db.rows), r);
    FreshFrom(Displayed(s.db.rows), r);
  }

  // ---------------------------------------------------------------- one step

  lemma FreshMeans(s: set<Record>, r: Record)
    requires SetVerdict(s, r) == Fresh
    ensures forall q :: q in s && q.bulletinId == r.bulletinId ==> q.publisher == r.publisher && q.revision < r.revision
  {
  }

  lemma CoherentGrows(s: set<Record>, r: Record)
    requires Coherent(s) && SetVerdict(s, r) == Fresh
    ensures Coherent(s + {r}) && IsNewest(s + {r}, r)
  {
    FreshMeans(s, r);
    hide SetVerdict;
  }

  lemma MarksNewestGrows(marks: map<MarkKey, Mark>, s: set<Record>, req: Request)
    requires Coherent(s) && MarksNewest(marks, s) && SetVerdict(s, req.record) == Fresh && ValidRequest(req)
    ensures MarksNewest(Upserted(marks, req), s + {req.record})
  {
    var r, after := req.record, Upserted(marks, req);
    CoherentGrows(s, r);
    FreshMeans(s, r);
    forall k | k in after ensures IsNewest(s + {r}, MarkRecord(k, after[k])) {
      if k == MarkKeyOf(r) {
        if k in marks {
          NewestMark(marks, s, k);
        }
        UpsertedFresh(marks, req);
      } else {
        NewestMark(marks, s, k);
        var q := MarkRecord(k, marks[k]);
        assert q.bulletinId != r.bulletinId;
      }
    }
  }

  lemma UpsertedFresh(marks: map<MarkKey, Mark>, req: Request)
    requires ValidRequest(req)
    requires MarkKeyOf(req.record) in marks ==> marks[MarkKeyOf(req.record)].maxRevision < req.record.revision
    ensures MarkRecord(MarkKeyOf(req.record), Upserted(marks, req)[MarkKeyOf(req.record)]) == req.record
  {
  }

  /** The cache assignment computes what the SQL upsert does. */
  lemma RecachedIsUpserted(marks: map<MarkKey, Mark>, req: Request)
    requires req.record.revision >= 1
    ensures Recached(marks, req) == Upserted(marks, req)
  {
  }

  lemma RowsKnownGrows(rows: map<RowKey, Row>, s: set<Record>, k: RowKey, row: Row)
    requires RowsKnown(rows, s)
    ensures RowsKnown(rows[k := row], s + {RowRecord(k, row)})
  {
  }

  lemma AllMarkedGrows(marks: map<MarkKey, Mark>, s: set<Record>, req: Request)
    requires AllMarked(marks, s)
    ensures AllMarked(Upserted(marks, req), s + {req.record})
  {
  }

  lemma AgreesGrows(cached: map<RowKey, Row>, rows: map<RowKey, Row>, k: RowKey, row: Row)
    requires Agrees(cached, rows)
    ensures Agrees(cached[k := row], rows[k := row])
  {
  }

  lemma RowOfRequest(req: Request)
    requires ValidRequest(req)
    ensures RowRecord(KeyOf(req.record), RowOf(req)) == req.record
  {
  }

  lemma InvFrom(s: State)
    requires Coherent(s.history)
    requires RowsKnown(s.db.rows, s.history) && MarksNewest(s.db.marks, s.history) && AllMarked(s.db.marks, s.history)
    requires s.cachedMarks == s.db.marks && Agrees(s.cachedRows, s.db.rows)
    ensures Inv(s)
  {
    hide Coherent, RowsKnown, MarksNewest, AllMarked, Agrees;
  }

  lemma InsertedKeepsInv(s: State, req: Request)
    requires Inv(s) && ValidRequest(req) && SetVerdict(s.history, req.record) == Fresh
    ensures Inv(Inserted(s, req))
  {
    var k, row := KeyOf(req.record), RowOf(req);
    assert req.record.revision >= 1;
    hide SetVerdict, Coherent, MarksNewest, RowsKnown, AllMarked, Agrees, Inv, ValidRequest, Upserted, Recached;
    InvParts(s);
    CoherentGrows(s.history, req.record);
    RowOfRequest(req);
    MarksNewestGrows(s.db.marks, s.history, req);
    RecachedIsUpserted(s.db.marks, req);
    RowsKnownGrows(s.db.rows, s.history, k, row);
    AllMarkedGrows(s.db.marks, s.history, req);
    AgreesGrows(s.cachedRows, s.db.rows, k, row);
    InvFrom(Inserted(s, req));
  }

  /** An accepted replay is the record the watermark stands for. */
  lemma DuplicateIsMarked(s: State, markList: seq<(string, Mark)>, r: Record)
    requires Inv(s) && ListsMarks(markList, s.db.marks, r.bulletinId)
    requires WatermarkVerdict(markList, s.db.rows, r) == Duplicate
    ensures MarkKeyOf(r) in s.db.marks && MarkRecord(MarkKeyOf(r), s.db.marks[MarkKeyOf(r)]) == r
    ensures r in s.history
  {
    hide Inv, ListsMarks, WatermarkVerdict, ExpectedTitle;
    if k :| k in s.db.marks && k.1 == r.bulletinId {
      WatermarkIs(s, markList, r, k);
      MarkMeans(s, k);
      ExpectedIsMarked(s, k, r);
    } else {
      WatermarkAbsent(s, markList, r);
    }
  }

  lemma MarkUpdateKeeps(marks: map<MarkKey, Mark>, s: set<Record>, k: MarkKey, m: Mark)
    requires MarksNewest(marks, s) && AllMarked(marks, s) && k in marks && MarkRecord(k, m) == MarkRecord(k, marks[k])
    ensures MarksNewest(marks[k := m], s) && AllMarked(marks[k := m], s)
  {
    hide IsNewest;
  }

  lemma ReadmittedKeepsInv(s: State, req: Request)
    requires Inv(s) && req.record in s.history && req.record.title != ""
    requires var k := MarkKeyOf(req.record); k in s.db.marks && MarkRecord(k, s.db.marks[k]) == req.record
    ensures Inv(Readmitted(s, req))
  {
    var k, row, mk := KeyOf(req.record), RowOf(req), MarkKeyOf(req.record);
    hide Coherent, MarksNewest, RowsKnown, AllMarked, Agrees, Inv;
    InvParts(s);
    assert RowRecord(k, row) == req.record;
    RowsKnownGrows(s.db.rows, s.history, k, row);
    assert s.history + {req.record} == s.history;
    AgreesGrows(s.cachedRows, s.db.rows, k, row);
    var m := s.db.marks[mk].(title := req.record.title, rootHash := req.root);
    MarkUpdateKeeps(s.db.marks, s.history, mk, m);
    InvFrom(Readmitted(s, req));
  }

  lemma PrunedKeepsInv(s: State, kept: set<RowKey>)
    requires Inv(s)
    ensures Inv(Pruned(s, kept))
  {
    InvParts(s);
    hide Coherent, MarksNewest, AllMarked, Inv;
    InvFrom(Pruned(s, kept));
  }

  /** The two states differ at most in content and payloads. */
  ghost predicate SameTables(s: State, t: State) {
    t == s.(content := t.content, payloads := t.payloads)
  }

  lemma SameTablesInv(s: State, t: State)
    requires Inv(s) && SameTables(s, t)
    ensures Inv(t)
  {
    hide Coherent, RowsKnown, MarksNewest, AllMarked, Agrees;
  }

  /** An accepted replay of a pruned record, which is put back. */
  predicate PutsBack(s: State, sub: Submission, markList: seq<(string, Mark)>, rowList: seq<Record>) {
    && Stored(s, sub, markList, rowList).1 == Replayed && KeyOf(sub.record) !in s.db.rows
    && WatermarkVerdict(markList, s.db.rows, sub.record) == Duplicate
  }

  lemma ReplayTables(s: State, sub: Submission)
    ensures var t := Replay(s, sub);
            && t.1 in {Replayed, Raised(PublicationFailed)}
            && (t.1 == Replayed && KeyOf(sub.record) !in s.db.rows ==>
                  SameTables(Readmitted(s, Under(sub, ReplayRoot(s, sub))), t.0))
            && (t.1 != Replayed || KeyOf(sub.record) in s.db.rows ==> SameTables(s, t.0))
  {
    hide Ensured, Packs, RootOf, InMemory, Persisted;
  }

  lemma AtWatermarkTables(s: State, sub: Submission, w: Verdict)
    ensures var t := AtWatermark(s, sub, w);
            && t.1 != Admitted && (t.1 == Replayed ==> w == Duplicate)
            && (t.1 == Replayed && KeyOf(sub.record) !in s.db.rows ==>
                  SameTables(Readmitted(s, Under(sub, ReplayRoot(s, sub))), t.0))
            && (t.1 != Replayed || KeyOf(sub.record) in s.db.rows ==> SameTables(s, t.0))
  {
    hide Ensured, Held, Replay, ReplayRoot, Readmitted;
    ReplayTables(s.(content := RowRead(s, sub.record)), sub);
  }

  lemma AtRowTables(s: State, sub: Submission)
    ensures SameTables(s, AtRow(s, sub).0) && AtRow(s, sub).1 != Admitted
  {
    hide Ensured, Held, Packs, InMemory;
  }

  lemma AdmitTables(s: State, sub: Submission)
    ensures AdmitFresh(s, sub).1 == Admitted ==>
              SameTables(Inserted(s, Under(sub, RootOf(s.content.setup, sub.data))), AdmitFresh(s, sub).0)
    ensures AdmitFresh(s, sub).1 != Admitted ==> SameTables(s, AdmitFresh(s, sub).0) && AdmitFresh(s, sub).1 != Replayed
  {
    hide Packs, RootOf, Persisted, Inserted;
  }

  /** What a store does to the tables: it inserts a fresh record, puts a replayed one back, or leaves them alone. */
  lemma StoredTables(s: State, sub: Submission, markList: seq<(string, Mark)>, rowList: seq<Record>)
    ensures var t := Stored(s, sub, markList, rowList);
            && (t.1 == Admitted ==> SameTables(Inserted(s, Under(sub, RootOf(s.content.setup, sub.data))), t.0))
            && (PutsBack(s, sub, markList, rowList) ==>
                  SameTables(Readmitted(s, Under(sub, ReplayRoot(s, sub))), t.0))
            && (t.1 != Admitted && !PutsBack(s, sub, markList, rowList) ==> SameTables(s, t.0))
  {
    hide WatermarkVerdict, CheckRevision, AtWatermark, AtRow, AdmitFresh, ReplayRoot, RootOf, Inserted, Readmitted;
    AtWatermarkTables(s, sub, WatermarkVerdict(markList, s.db.rows, sub.record));
    AtRowTables(s, sub);
    AdmitTables(s, sub);
  }

  /** Which part of the store decides. */
  lemma StoredPath(s: State, sub: Submission, markList: seq<(string, Mark)>, rowList: seq<Record>)
    ensures var w, c := WatermarkVerdict(markList, s.db.rows, sub.record), CheckRevision(rowList, sub.record);
            var t := Stored(s, sub, markList, rowList);
            && (w == Duplicate || w == RevisionConflict ==> t == AtWatermark(s, sub, w))
            && (w != Duplicate && w != RevisionConflict && w != Fresh ==> t == (s, Refused(w)))
            && (w == Fresh && c == Fresh ==> t == AdmitFresh(s, sub) && (t.1 != Admitted ==> t.0 == s))
            && (w == Fresh && c == Duplicate ==> t == AtRow(s, sub))
            && (w == Fresh && c != Fresh && c != Duplicate ==> t == (s, Refused(c)))
  {
    hide WatermarkVerdict, CheckRevision, AtWatermark, AtRow, Packs, RootOf, Inserted, Persisted;
  }

  lemma AtWatermarkPath(s: State, sub: Submission, w: Verdict)
    ensures var t := s.(content := RowRead(s, sub.record));
            AtWatermark(s, sub, w) ==
              if !Readable(s, sub.record) then (t, Raised(ContentMissing))
              else if w == Duplicate then Replay(t, sub)
              else (t, Refused(w))
  {
    hide RowRead, Readable, Replay;
  }

  /** When a store accepts. */
  lemma StoredOutcome(s: State, sub: Submission, markList: seq<(string, Mark)>, rowList: seq<Record>)
    ensures var w, c := WatermarkVerdict(markList, s.db.rows, sub.record), CheckRevision(rowList, sub.record);
            var out := Stored(s, sub, markList, rowList).1;
            && (out == Admitted <==> w == Fresh && c == Fresh && Packs(s.content.setup, sub.data))
            && (out == Replayed ==> w == Duplicate || (w == Fresh && c == Duplicate))
            && (out.Refused? && w == Fresh ==> c != Fresh && c != Duplicate && out.why == c)
            && (out.Refused? && w != Fresh ==> out.why == w && w != Duplicate)
            && (out == Raised(PublicationFailed) ==> !Packs(s.content.setup, sub.data))
  {
    RowReadSetup(s, sub.record);
    hide WatermarkVerdict, CheckRevision, Ensured, Held, Packs, RootOf, InMemory, Persisted, Inserted, Readmitted;
  }

  lemma RowReadSetup(s: State, r: Record)
    ensures RowRead(s, r).setup == s.content.setup
  {
    hide Loaded;
    if KeyOf(r) in s.db.rows {
      EnsuredShape(s.content, ContentKey(s.db.rows[KeyOf(r)]));
    }
  }

  lemma StoredKeepsInv(s: State, sub: Submission, markList: seq<(string, Mark)>, rowList: seq<Record>)
    requires Inv(s) && Enabled(s, Store(sub, markList, rowList))
    ensures Inv(Stored(s, sub, markList, rowList).0)
    ensures Stored(s, sub, markList, rowList).1 == Admitted ==> SetVerdict(s.history, sub.record) == Fresh
    ensures Stored(s, sub, markList, rowList).1 in {Admitted, Replayed} ==>
              sub.record in Stored(s, sub, markList, rowList).0.history
  {
    var out := Stored(s, sub, markList, rowList).1;
    EnabledStore(s, sub, markList, rowList);
    hide *;
    StoredTables(s, sub, markList, rowList);
    if out == Admitted {
      StoredOutcome(s, sub, markList, rowList);
      NotForgotten(s, markList, sub.record);
      StoredInserts(s, sub, Stored(s, sub, markList, rowList).0, RootOf(s.content.setup, sub.data));
    } else if PutsBack(s, sub, markList, rowList) {
      PutBackIsDuplicate(s, sub, markList, rowList);
      DuplicateIsMarked(s, markList, sub.record);
      StoredReadmits(s, sub, Stored(s, sub, markList, rowList).0, ReplayRoot(s, sub));
    } else {
      SameTablesInv(s, Stored(s, sub, markList, rowList).0);
      SameHistory(s, Stored(s, sub, markList, rowList).0);
      if out == Replayed {
        ReplayedIsKnown(s, sub, markList, rowList);
      }
    }
  }

  lemma ReplayedIsKnown(s: State, sub: Submission, markList: seq<(string, Mark)>, rowList: seq<Record>)
    requires Inv(s) && ListsMarks(markList, s.db.marks, sub.record.bulletinId)
    requires Lists(rowList, Displayed(s.db.rows), sub.record.bulletinId)
    requires Stored(s, sub, markList, rowList).1 == Replayed
    ensures WatermarkVerdict(markList, s.db.rows, sub.record) == Duplicate && sub.record in s.history
  {
    hide *;
    StoredOutcome(s, sub, markList, rowList);
    if WatermarkVerdict(markList, s.db.rows, sub.record) == Fresh {
      NotForgotten(s, markList, sub.record);
      FreshInRows(s, rowList, sub.record);
    }
    DuplicateIsMarked(s, markList, sub.record);
  }

  lemma PutBackIsDuplicate(s: State, sub: Submission, markList: seq<(string, Mark)>, rowList: seq<Record>)
    requires PutsBack(s, sub, markList, rowList)
    ensures WatermarkVerdict(markList, s.db.rows, sub.record) == Duplicate
    ensures Stored(s, sub, markList, rowList).1 == Replayed && KeyOf(sub.record) !in s.db.rows
  {
    hide Stored, WatermarkVerdict;
  }

  lemma EnabledStore(s: State, sub: Submission, markList: seq<(string, Mark)>, rowList: seq<Record>)
    requires Enabled(s, Store(sub, markList, rowList))
    ensures ValidSubmission(s.content.setup, sub) && ValidRecord(sub.record) && sub.record.title != ""
    ensures sub.record.contentHash == s.content.setup.hashing.sha3(sub.data)
    ensures ListsMarks(markList, s.db.marks, sub.record.bulletinId)
    ensures Lists(rowList, Displayed(s.db.rows), sub.record.bulletinId)
  {
    hide ListsMarks, Lists, Displayed;
  }

  lemma SameHistory(s: State, t: State)
    requires SameTables(s, t)
    ensures t.history == s.history
  {
  }

  lemma StoredInserts(s: State, sub: Submission, t: State, root: string)
    requires Inv(s) && ValidRecord(sub.record) && SetVerdict(s.history, sub.record) == Fresh
    requires SameTables(Inserted(s, Under(sub, root)), t)
    ensures Inv(t) && sub.record in t.history
  {
    hide Inv, SetVerdict, ValidRecord, Upserted, Recached;
    assert ValidRequest(Under(sub, root));
    InsertedKeepsInv(s, Under(sub, root));
    SameTablesInv(Inserted(s, Under(sub, root)), t);
  }

  lemma StoredReadmits(s: State, sub: Submission, t: State, root: string)
    requires Inv(s) && sub.record in s.history && sub.record.title != ""
    requires var k := MarkKeyOf(sub.record); k in s.db.marks && MarkRecord(k, s.db.marks[k]) == sub.record
    requires SameTables(Readmitted(s, Under(sub, root)), t)
    ensures Inv(t) && sub.record in t.history
  {
    hide Inv;
    ReadmittedKeepsInv(s, Under(sub, root));
    SameTablesInv(Readmitted(s, Under(sub, root)), t);
  }

  lemma NotForgotten(s: State, markList: seq<(string, Mark)>, r: Record)
    requires Inv(s) && ListsMarks(markList, s.db.marks, r.bulletinId)
    requires WatermarkVerdict(markList, s.db.rows, r) == Fresh
    ensures SetVerdict(s.history, r) == Fresh
  {
    hide Inv, ListsMarks, WatermarkVerdict, SetVerdict, Forgotten;
    WatermarkVersusHistory(s, markList, r);
  }
}
