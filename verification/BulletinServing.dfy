/** What `get_bulletin` returns over the runs of a node: the admitted payload of every displayed row. */
module BulletinServing {
  import opened Wrappers
  import opened Bytes
  import opened Digests
  import opened BulletinIdentity
  import opened BulletinContent
  import opened Bulletins
  import opened BulletinSafety
  import opened BulletinReopen
  import opened BulletinRuns
  import Fetch

  // ---------------------------------------------------------------- the invariant

  /** The record's payload is known, has its digest, and is in the recipe table under this root. */
  predicate Kept(s: State, r: Record, root: string) {
    && r in s.payloads && r.contentHash == s.content.setup.hashing.sha3(s.payloads[r])
    && root == RootOf(s.content.setup, s.payloads[r]) && root in s.content.disk.recipes
  }

  predicate RowKept(s: State, k: RowKey)
    requires k in s.db.rows
  {
    var row := s.db.rows[k];
    row.contentHash.Some? && row.rootHash.Some? && Kept(s, RowRecord(k, row), row.rootHash.value)
  }

  predicate MarkKept(s: State, k: MarkKey)
    requires k in s.db.marks
  {
    Kept(s, MarkRecord(k, s.db.marks[k]), s.db.marks[k].rootHash)
  }

  /** The payloads of the history, and others whose content the node has. */
  function Pool(s: State, extra: set<Bytes>): set<Bytes> {
    extra + s.payloads.Values
  }

  /** All stored content is that of known payloads, and every row and watermark names a stored one. */
  ghost predicate Stocked(s: State, extra: set<Bytes>) {
    && GenuineContent(s.content, Pool(s, extra)) && s.payloads.Keys == s.history
    && (forall k :: k in s.db.rows ==> RowKept(s, k))
    && (forall k :: k in s.db.marks ==> MarkKept(s, k))
  }

  lemma StockedParts(s: State, extra: set<Bytes>)
    requires Stocked(s, extra)
    ensures GenuineContent(s.content, Pool(s, extra)) && s.payloads.Keys == s.history
  {
    hide RowKept, MarkKept, GenuineContent;
  }

  lemma StockedRow(s: State, k: RowKey, extra: set<Bytes>)
    requires Stocked(s, extra) && k in s.db.rows
    ensures RowKept(s, k)
  {
    hide RowKept, MarkKept, GenuineContent;
  }

  lemma StockedMark(s: State, k: MarkKey, extra: set<Bytes>)
    requires Stocked(s, extra) && k in s.db.marks
    ensures MarkKept(s, k)
  {
    hide RowKept, MarkKept, GenuineContent;
  }

  lemma StockedFrom(s: State, extra: set<Bytes>)
    requires GenuineContent(s.content, Pool(s, extra)) && s.payloads.Keys == s.history
    requires forall k :: k in s.db.rows ==> RowKept(s, k)
    requires forall k :: k in s.db.marks ==> MarkKept(s, k)
    ensures Stocked(s, extra)
  {
    hide RowKept, MarkKept, GenuineContent;
  }

  /** Content and payloads only grow. */
  ghost predicate Grows(s: State, t: State) {
    && t.content.setup == s.content.setup && s.content.disk.recipes.Keys <= t.content.disk.recipes.Keys
    && forall r :: r in s.payloads ==> r in t.payloads && t.payloads[r] == s.payloads[r]
  }

  lemma KeptLater(s: State, t: State, r: Record, root: string)
    requires Kept(s, r, root) && Grows(s, t)
    ensures Kept(t, r, root)
  {
    assert root in s.content.disk.recipes.Keys;
    hide RootOf;
  }

  lemma RowKeptFrom(s: State, k: RowKey, root: string)
    requires k in s.db.rows && s.db.rows[k].contentHash.Some? && s.db.rows[k].rootHash == Some(root)
    requires Kept(s, RowRecord(k, s.db.rows[k]), root)
    ensures RowKept(s, k)
  {
    hide Kept, RowRecord;
  }

  lemma RowKeptLater(s: State, t: State, k: RowKey)
    requires k in s.db.rows && RowKept(s, k) && Grows(s, t) && k in t.db.rows && t.db.rows[k] == s.db.rows[k]
    ensures RowKept(t, k)
  {
    var row := s.db.rows[k];
    hide Kept, RowRecord, Grows;
    KeptLater(s, t, RowRecord(k, row), row.rootHash.value);
  }

  lemma MarkKeptLater(s: State, t: State, k: MarkKey)
    requires k in s.db.marks && MarkKept(s, k) && Grows(s, t) && k in t.db.marks
    requires MarkRecord(k, t.db.marks[k]) == MarkRecord(k, s.db.marks[k])
    requires t.db.marks[k].rootHash == s.db.marks[k].rootHash
    ensures MarkKept(t, k)
  {
    hide Kept, MarkRecord, Grows;
    KeptLater(s, t, MarkRecord(k, s.db.marks[k]), s.db.marks[k].rootHash);
  }

  // ---------------------------------------------------------------- stores that admit nothing

  /** Content was at most loaded into memory. */
  ghost predicate LoadsOnly(s: State, t: State, extra: set<Bytes>) {
    && t.content.setup == s.content.setup && t.content.disk == s.content.disk && t.payloads == s.payloads
    && GenuineContent(t.content, Pool(s, extra))
  }

  lemma LookedUp(s: State, root: string, extra: set<Bytes>)
    requires GenuineContent(s.content, Pool(s, extra))
    ensures LoadsOnly(s, s.(content := Ensured(s.content, root)), extra)
  {
    hide GenuineContent, Ensured;
    EnsuredGenuine(s.content, root, Pool(s, extra));
    EnsuredShape(s.content, root);
  }

  lemma RowLookedUp(s: State, r: Record, extra: set<Bytes>)
    requires GenuineContent(s.content, Pool(s, extra))
    ensures LoadsOnly(s, s.(content := RowRead(s, r)), extra)
  {
    hide GenuineContent, Ensured;
    if KeyOf(r) in s.db.rows {
      LookedUp(s, ContentKey(s.db.rows[KeyOf(r)]), extra);
    }
  }

  lemma ReplayLoads(s: State, sub: Submission, extra: set<Bytes>)
    requires GenuineContent(s.content, Pool(s, extra)) && MarkedRoot(s, sub.record) in s.content.disk.recipes
    ensures LoadsOnly(s, Replay(s, sub).0, extra) && Replay(s, sub).1 == Replayed
    ensures ReplayRoot(s, sub) == MarkedRoot(s, sub.record)
  {
    var marked := MarkedRoot(s, sub.record);
    GenuineKnown(s.content, marked, Pool(s, extra));
    LookedUp(s, marked, extra);
    hide GenuineContent, Ensured, Known, Packs, RootOf, MarkedRoot;
  }

  lemma AtWatermarkLoads(s: State, sub: Submission, w: Verdict, extra: set<Bytes>)
    requires GenuineContent(s.content, Pool(s, extra))
    requires w == Duplicate ==> MarkedRoot(s, sub.record) in s.content.disk.recipes
    ensures LoadsOnly(s, AtWatermark(s, sub, w).0, extra)
  {
    var t := s.(content := RowRead(s, sub.record));
    RowLookedUp(s, sub.record, extra);
    assert MarkedRoot(t, sub.record) == MarkedRoot(s, sub.record);
    hide GenuineContent, RowRead, Readable, Replay, MarkedRoot, ReplayRoot;
    if w == Duplicate {
      ReplayLoads(t, sub, extra);
    }
  }

  lemma MarkedInDisk(s: State, markList: seq<(string, Mark)>, r: Record, extra: set<Bytes>)
    requires Inv(s) && Stocked(s, extra) && ListsMarks(markList, s.db.marks, r.bulletinId)
    requires WatermarkVerdict(markList, s.db.rows, r) == Duplicate
    ensures MarkKeyOf(r) in s.db.marks && MarkRecord(MarkKeyOf(r), s.db.marks[MarkKeyOf(r)]) == r
    ensures Kept(s, r, MarkedRoot(s, r)) && MarkedRoot(s, r) in s.content.disk.recipes
  {
    DuplicateIsMarked(s, markList, r);
    StockedMark(s, MarkKeyOf(r), extra);
    hide Inv, Stocked, WatermarkVerdict, ListsMarks, RootOf;
  }

  lemma StoredLoads(s: State, sub: Submission, markList: seq<(string, Mark)>, rowList: seq<Record>, extra: set<Bytes>)
    requires Inv(s) && Stocked(s, extra) && Enabled(s, Store(sub, markList, rowList))
    requires Stored(s, sub, markList, rowList).1 != Admitted
    ensures LoadsOnly(s, Stored(s, sub, markList, rowList).0, extra)
  {
    var w := WatermarkVerdict(markList, s.db.rows, sub.record);
    EnabledStore(s, sub, markList, rowList);
    StockedParts(s, extra);
    hide *;
    if w == Duplicate {
      MarkedInDisk(s, markList, sub.record, extra);
    }
    if w == Duplicate || w == RevisionConflict {
      AtWatermarkLoads(s, sub, w, extra);
    } else if w == Fresh {
      NotForgotten(s, markList, sub.record);
      FreshInRows(s, rowList, sub.record);
    }
    StoredPath(s, sub, markList, rowList);
    LoadsNothing(s, extra);
  }

  lemma LoadsNothing(s: State, extra: set<Bytes>)
    requires GenuineContent(s.content, Pool(s, extra))
    ensures LoadsOnly(s, s, extra)
  {
    hide GenuineContent;
  }

  // ---------------------------------------------------------------- one step

  lemma LoadsGrow(s: State, t: State, extra: set<Bytes>)
    requires LoadsOnly(s, t, extra)
    ensures Grows(s, t) && t.payloads == s.payloads
    ensures GenuineContent(t.content, Pool(t, extra))
  {
    hide GenuineContent;
  }

  lemma SamePool(s: State, t: State, extra: set<Bytes>)
    requires t.payloads == s.payloads
    ensures Pool(t, extra) == Pool(s, extra)
  {
  }

  lemma SameTablesFields(s: State, t: State)
    requires SameTables(s, t)
    ensures t.db == s.db && t.history == s.history
  {
  }

  lemma UnchangedStocked(s: State, t: State, extra: set<Bytes>)
    requires Stocked(s, extra) && LoadsOnly(s, t, extra) && SameTables(s, t)
    ensures Stocked(t, extra)
  {
    hide *;
    SameTablesFields(s, t);
    LoadsGrow(s, t, extra);
    StockedParts(s, extra);
    forall k | k in t.db.rows ensures RowKept(t, k) {
      StockedRow(s, k, extra);
      RowKeptLater(s, t, k);
    }
    forall k | k in t.db.marks ensures MarkKept(t, k) {
      StockedMark(s, k, extra);
      MarkKeptLater(s, t, k);
    }
    StockedFrom(t, extra);
  }

  /** What putting a record back leaves of the tables. */
  lemma ReadmittedTables(s: State, sub: Submission, root: string)
    requires var k := MarkKeyOf(sub.record);
             k in s.db.marks && MarkRecord(k, s.db.marks[k]) == sub.record && s.db.marks[k].rootHash == root
    requires sub.record.title != ""
    ensures var t, k, row := Readmitted(s, Under(sub, root)), KeyOf(sub.record), RowOf(Under(sub, root));
            && t.db.rows == s.db.rows[k := row] && RowRecord(k, row) == sub.record
            && row.contentHash.Some? && row.rootHash == Some(root) && t.history == s.history
            && t.db.marks.Keys == s.db.marks.Keys
            && forall j :: j in s.db.marks ==>
                 MarkRecord(j, t.db.marks[j]) == MarkRecord(j, s.db.marks[j])
                 && t.db.marks[j].rootHash == s.db.marks[j].rootHash
  {
  }

  lemma PutBackStocked(s: State, sub: Submission, t: State, root: string, extra: set<Bytes>)
    requires Stocked(s, extra) && LoadsOnly(s, t, extra) && SameTables(Readmitted(s, Under(sub, root)), t)
    requires MarkKeyOf(sub.record) in s.db.marks && sub.record.title != ""
    requires MarkRecord(MarkKeyOf(sub.record), s.db.marks[MarkKeyOf(sub.record)]) == sub.record
    requires s.db.marks[MarkKeyOf(sub.record)].rootHash == root && Kept(s, sub.record, root)
    ensures Stocked(t, extra)
  {
    hide *;
    ReadmittedTables(s, sub, root);
    SameTablesFields(Readmitted(s, Under(sub, root)), t);
    LoadsGrow(s, t, extra);
    StockedParts(s, extra);
    forall k | k in t.db.rows ensures RowKept(t, k) {
      if k == KeyOf(sub.record) {
        KeptLater(s, t, sub.record, root);
        RowKeptFrom(t, k, root);
      } else {
        StockedRow(s, k, extra);
        RowKeptLater(s, t, k);
      }
    }
    forall k | k in t.db.marks ensures MarkKept(t, k) {
      assert k in t.db.marks.Keys;
      StockedMark(s, k, extra);
      MarkKeptLater(s, t, k);
    }
    StockedFrom(t, extra);
  }

  /** What entering a fresh record leaves of the tables. */
  lemma InsertedTables(s: State, sub: Submission, root: string)
    requires ValidRecord(sub.record)
    requires MarkKeyOf(sub.record) in s.db.marks ==> s.db.marks[MarkKeyOf(sub.record)].maxRevision < sub.record.revision
    ensures var t, k, row := Inserted(s, Under(sub, root)), KeyOf(sub.record), RowOf(Under(sub, root));
            var mk := MarkKeyOf(sub.record);
            && t.db.rows == s.db.rows[k := row] && RowRecord(k, row) == sub.record
            && row.contentHash.Some? && row.rootHash == Some(root) && t.history == s.history + {sub.record}
            && mk in t.db.marks && t.db.marks == s.db.marks[mk := t.db.marks[mk]]
            && MarkRecord(mk, t.db.marks[mk]) == sub.record && t.db.marks[mk].rootHash == root
  {
  }

  lemma ValuesGrow(m: map<Record, Bytes>, r: Record, data: Bytes)
    requires r !in m
    ensures m[r := data].Values == m.Values + {data}
  {
    var p := m[r := data];
    forall d | d in m.Values + {data} ensures d in p.Values {
      if d in m.Values {
        var q :| q in m && m[q] == d;
        assert p[q] == d;
      } else {
        assert p[r] == d;
      }
    }
  }

  lemma PersistedShape(c: Content, data: Bytes)
    ensures var t, plain := Persisted(c, data), Fetch.Published(c.setup, c.disk, data, None);
            && t.setup == c.setup && t.memory == Fetch.Published(c.setup, c.memory, data, None)
            && t.disk.chunks == plain.chunks && t.disk.recipes == plain.recipes
  {
    hide RootOf, Fetch.Published;
  }

  lemma AdmittedContent(s: State, sub: Submission, extra: set<Bytes>)
    requires GenuineContent(s.content, Pool(s, extra)) && sub.record !in s.payloads
    ensures var c, p := Persisted(s.content, sub.data), s.payloads[sub.record := sub.data];
            && GenuineContent(c, extra + p.Values) && c.setup == s.content.setup
            && s.content.disk.recipes.Keys <= c.disk.recipes.Keys
            && RootOf(s.content.setup, sub.data) in c.disk.recipes
  {
    var c, setup, q := Persisted(s.content, sub.data), s.content.setup, Pool(s, extra);
    ValuesGrow(s.payloads, sub.record, sub.data);
    assert extra + (s.payloads.Values + {sub.data}) == q + {sub.data};
    PersistedShape(s.content, sub.data);
    hide Genuine, RootOf, Persisted, Fetch.Published, Stocks, Fetch.PublishedRecipe;
    PublishGenuine(setup, s.content.memory, q, sub.data);
    PublishGenuine(setup, s.content.disk, q, sub.data);
    PublishStocks(setup, s.content.disk, sub.data);
    GenuineOf(setup, Fetch.Published(setup, s.content.disk, sub.data, None), c.disk, q + {sub.data});
  }

  lemma AdmitIs(s: State, sub: Submission)
    requires AdmitFresh(s, sub).1 == Admitted
    ensures var t := AdmitFresh(s, sub).0;
            && t.content == Persisted(s.content, sub.data) && t.payloads == s.payloads[sub.record := sub.data]
            && t.db == Inserted(s, Under(sub, RootOf(s.content.setup, sub.data))).db
            && t.history == Inserted(s, Under(sub, RootOf(s.content.setup, sub.data))).history
  {
    hide Persisted, RootOf, Packs, Inserted;
  }

  lemma PoolIs(s: State, extra: set<Bytes>)
    ensures Pool(s, extra) == extra + s.payloads.Values
  {
  }

  lemma AdmitGrows(s: State, t: State, sub: Submission)
    requires sub.record !in s.payloads && t.payloads == s.payloads[sub.record := sub.data]
    requires t.content.setup == s.content.setup && s.content.disk.recipes.Keys <= t.content.disk.recipes.Keys
    ensures Grows(s, t)
  {
  }

  lemma AdmittedKept(s: State, t: State, sub: Submission)
    requires t.payloads == s.payloads[sub.record := sub.data] && t.content.setup == s.content.setup
    requires sub.record.contentHash == s.content.setup.hashing.sha3(sub.data)
    requires RootOf(s.content.setup, sub.data) in t.content.disk.recipes
    ensures Kept(t, sub.record, RootOf(s.content.setup, sub.data))
  {
    hide RootOf;
  }

  lemma MarkKeptFrom(s: State, k: MarkKey, root: string)
    requires k in s.db.marks && s.db.marks[k].rootHash == root && Kept(s, MarkRecord(k, s.db.marks[k]), root)
    ensures MarkKept(s, k)
  {
    hide Kept;
  }

  lemma AdmittedStocked(s: State, sub: Submission, extra: set<Bytes>)
    requires Stocked(s, extra) && AdmitFresh(s, sub).1 == Admitted && sub.record !in s.history
    requires ValidRecord(sub.record)
    requires sub.record.contentHash == s.content.setup.hashing.sha3(sub.data)
    requires MarkKeyOf(sub.record) in s.db.marks ==> s.db.marks[MarkKeyOf(sub.record)].maxRevision < sub.record.revision
    ensures Stocked(AdmitFresh(s, sub).0, extra)
  {
    hide *;
    var t, root := AdmitFresh(s, sub).0, RootOf(s.content.setup, sub.data);
    StockedParts(s, extra);
    assert sub.record !in s.payloads.Keys;
    AdmitIs(s, sub);
    InsertedTables(s, sub, root);
    AdmittedContent(s, sub, extra);
    PoolIs(t, extra);
    AdmitGrows(s, t, sub);
    AdmittedKept(s, t, sub);
    assert t.payloads.Keys == s.payloads.Keys + {sub.record};
    forall k | k in t.db.rows ensures RowKept(t, k) {
      if k == KeyOf(sub.record) {
        RowKeptFrom(t, k, root);
      } else {
        StockedRow(s, k, extra);
        RowKeptLater(s, t, k);
      }
    }
    forall k | k in t.db.marks ensures MarkKept(t, k) {
      if k == MarkKeyOf(sub.record) {
        MarkKeptFrom(t, k, root);
      } else {
        StockedMark(s, k, extra);
        MarkKeptLater(s, t, k);
      }
    }
    StockedFrom(t, extra);
  }

  lemma StoreKeepsStocked(s: State, sub: Submission, markList: seq<(string, Mark)>, rowList: seq<Record>,
                          extra: set<Bytes>)
    requires Inv(s) && Stocked(s, extra) && Enabled(s, Store(sub, markList, rowList))
    ensures Stocked(Stored(s, sub, markList, rowList).0, extra)
  {
    var t := Stored(s, sub, markList, rowList);
    EnabledStore(s, sub, markList, rowList);
    hide *;
    StoredTables(s, sub, markList, rowList);
    if t.1 == Admitted {
      StoredOutcome(s, sub, markList, rowList);
      StoredPath(s, sub, markList, rowList);
      NotForgotten(s, markList, sub.record);
      FreshNotKnown(s.history, sub.record);
      OwnMarkBelow(s, sub.record);
      AdmittedStocked(s, sub, extra);
    } else {
      StoredLoads(s, sub, markList, rowList, extra);
      if PutsBack(s, sub, markList, rowList) {
        PutBackIsDuplicate(s, sub, markList, rowList);
        PutBackRoot(s, sub, markList, rowList, extra);
        PutBackStocked(s, sub, t.0, ReplayRoot(s, sub), extra);
      } else {
        UnchangedStocked(s, t.0, extra);
      }
    }
  }

  lemma PutBackRoot(s: State, sub: Submission, markList: seq<(string, Mark)>, rowList: seq<Record>, extra: set<Bytes>)
    requires Inv(s) && Stocked(s, extra) && ListsMarks(markList, s.db.marks, sub.record.bulletinId)
    requires WatermarkVerdict(markList, s.db.rows, sub.record) == Duplicate
    ensures var k, root := MarkKeyOf(sub.record), ReplayRoot(s, sub);
            && k in s.db.marks && MarkRecord(k, s.db.marks[k]) == sub.record && s.db.marks[k].rootHash == root
            && Kept(s, sub.record, root)
  {
    MarkedInDisk(s, markList, sub.record, extra);
    StockedParts(s, extra);
    ReplayLoads(s, sub, extra);
    hide Inv, Stocked, ListsMarks, WatermarkVerdict, ReplayRoot, Kept, GenuineContent;
  }

  lemma FreshNotKnown(s: set<Record>, r: Record)
    requires SetVerdict(s, r) == Fresh
    ensures r !in s
  {
  }

  lemma OwnMarkBelow(s: State, r: Record)
    requires Inv(s) && SetVerdict(s.history, r) == Fresh
    ensures MarkKeyOf(r) in s.db.marks ==> s.db.marks[MarkKeyOf(r)].maxRevision < r.revision
  {
    hide Inv, SetVerdict;
    if MarkKeyOf(r) in s.db.marks {
      OwnMark(s, r, MarkKeyOf(r));
    }
  }

  lemma PruneKeepsStocked(s: State, kept: set<RowKey>, extra: set<Bytes>)
    requires Stocked(s, extra)
    ensures Stocked(Pruned(s, kept), extra)
  {
    var t := Pruned(s, kept);
    assert t.content == s.content && t.payloads == s.payloads && t.history == s.history && t.db.marks == s.db.marks;
    assert Pool(t, extra) == Pool(s, extra);
    assert forall k :: k in t.db.rows ==> k in s.db.rows && t.db.rows[k] == s.db.rows[k];
    GrowsSame(s, t);
    hide *;
    StockedParts(s, extra);
    forall k | k in t.db.rows ensures RowKept(t, k) {
      StockedRow(s, k, extra);
      RowKeptLater(s, t, k);
    }
    forall k | k in t.db.marks ensures MarkKept(t, k) {
      StockedMark(s, k, extra);
      MarkKeptLater(s, t, k);
    }
    StockedFrom(t, extra);
  }

  lemma GrowsSame(s: State, t: State)
    requires t.content.setup == s.content.setup && t.content.disk == s.content.disk && t.payloads == s.payloads
    ensures Grows(s, t)
  {
  }

  /** In such states a row at its watermark has the watermark's root. */
  lemma StockedRoots(s: State, extra: set<Bytes>)
    requires Inv(s) && Stocked(s, extra)
    ensures RootsAgree(s.db)
  {
    forall k | k in s.db.marks && (k.1, s.db.marks[k].maxRevision) in s.db.rows
      ensures OrEmpty(s.db.rows[(k.1, s.db.marks[k].maxRevision)].rootHash) == s.db.marks[k].rootHash
    {
      var u := (k.1, s.db.marks[k].maxRevision);
      StockedRow(s, u, extra);
      StockedMark(s, k, extra);
      RowAtMark(s, k, u);
      hide Inv, Stocked, RowRecord, MarkRecord, RootOf;
    }
  }

  lemma RestartedFields(c: Content)
    ensures Restarted(c).setup == c.setup && Restarted(c).disk == c.disk
  {
  }

  lemma RestartGenuine(c: Content, p: set<Bytes>)
    requires GenuineContent(c, p)
    ensures GenuineContent(Restarted(c), p)
  {
    hide ChunkOf, RecipeOf;
  }

  lemma ReopenKeepsStocked(s: State, after: map<MarkKey, Mark>, extra: set<Bytes>)
    requires Inv(s) && Stocked(s, extra) && IsBackfill(s.db.rows, s.db.marks, after)
    ensures Stocked(Reopened(s, after), extra)
  {
    hide *;
    var t := Reopened(s, after);
    ReopenedFields(s, after);
    RestartedFields(s.content);
    SamePool(s, t, extra);
    StockedParts(s, extra);
    RestartGenuine(s.content, Pool(s, extra));
    GrowsSame(s, t);
    ReopenedKeys(s, after);
    StockedRoots(s, extra);
    forall k | k in t.db.rows ensures RowKept(t, k) {
      StockedRow(s, k, extra);
      RowKeptLater(s, t, k);
    }
    forall k | k in t.db.marks ensures MarkKept(t, k) {
      assert k in after.Keys;
      StockedMark(s, k, extra);
      ReopenedMarkRecord(s, after, k);
      ReopenedMark(s, after, k);
      MarkKeptLater(s, t, k);
    }
    StockedFrom(t, extra);
  }

  lemma StepKeepsStocked(s: State, op: Op, extra: set<Bytes>)
    requires Inv(s) && Stocked(s, extra) && Enabled(s, op)
    ensures Stocked(Next(s, op), extra)
  {
    hide Inv, Stocked, Stored, ValidSubmission, ListsMarks, Lists, KeepsNewest, IsBackfill, Openable, Pruned, Reopened;
    match op
    case Store(sub, markList, rowList) => StoreKeepsStocked(s, sub, markList, rowList, extra);
    case Prune(limit, kept) => PruneKeepsStocked(s, kept, extra);
    case Fail =>
    case Reopen(after) => ReopenKeepsStocked(s, after, extra);
  }

  // ---------------------------------------------------------------- runs

  lemma StepKeepsSetup(s: State, op: Op, extra: set<Bytes>)
    requires Inv(s) && Stocked(s, extra) && Enabled(s, op)
    ensures Next(s, op).content.setup == s.content.setup
    ensures Next(s, op).payloads
         == if op.Store? && Stored(s, op.sub, op.markList, op.rowList).1 == Admitted
            then s.payloads[op.sub.record := op.sub.data] else s.payloads
  {
    hide Inv, Stocked, ValidSubmission, ListsMarks, Lists, KeepsNewest, IsBackfill, Openable, Stored, GenuineContent;
    match op
    case Store(sub, markList, rowList) =>
      if Stored(s, sub, markList, rowList).1 == Admitted {
        StoredOutcome(s, sub, markList, rowList);
        StoredPath(s, sub, markList, rowList);
        AdmitIs(s, sub);
        PersistedSetup(s.content, sub.data);
      } else {
        StoredLoads(s, sub, markList, rowList, extra);
      }
    case Prune(limit, kept) =>
    case Fail =>
    case Reopen(after) =>
  }

  lemma PersistedSetup(c: Content, data: Bytes)
    ensures Persisted(c, data).setup == c.setup
  {
    hide RootOf, Fetch.Published;
  }

  /** An empty database is a start. */
  lemma NewIsStocked(setup: Fetch.Setup)
    ensures Inv(NewDatabase(setup)) && Stocked(NewDatabase(setup), {})
  {
    NewHasInv(setup);
    hide Inv;
  }

  /** What a new process knows of a state's payloads. */
  function Recalled(s: State, history: set<Record>): map<Record, Bytes> {
    map r | r in history && r in s.payloads :: s.payloads[r]
  }

  /** A new process on the database of a state of an earlier run, whose payloads are recalled. */
  function Resumed(s: State, after: map<MarkKey, Mark>): State {
    var history := Remembered(Tables(s.db.rows, after));
    Opened(s.db, s.content, after, history).(payloads := Recalled(s, history))
  }

  lemma RememberedKnown(s: State, after: map<MarkKey, Mark>, r: Record)
    requires Inv(s) && IsBackfill(s.db.rows, s.db.marks, after) && r in Remembered(Tables(s.db.rows, after))
    ensures r in s.history
  {
    hide Inv, IsBackfill, RowRecord, MarkRecord;
    if k :| k in s.db.rows && r == RowRecord(k, s.db.rows[k]) {
      RowMeans(s, k);
    } else {
      var k :| k in after && r == MarkRecord(k, after[k]);
      ReopenedKeys(s, after);
      assert k in after.Keys;
      ReopenedMarkRecord(s, after, k);
      MarkMeans(s, k);
    }
  }

  lemma ResumedHasInv(s: State, after: map<MarkKey, Mark>)
    requires Inv(s) && IsBackfill(s.db.rows, s.db.marks, after)
    ensures Inv(Resumed(s, after))
  {
    var before := Opened(s.db, s.content, after, s.history);
    var t := Opened(s.db, s.content, after, Remembered(Tables(s.db.rows, after)));
    assert SameTables(Reopened(s, after), before) && SameTables(t, Resumed(s, after));
    assert s.db.(marks := after) == Tables(s.db.rows, after);
    hide *;
    ReopenKeepsInv(s, after);
    SameTablesInv(Reopened(s, after), before);
    OpenedHasInv(s.db, s.content, after);
    SameTablesInv(t, Resumed(s, after));
  }

  lemma KeptResumed(s: State, t: State, r: Record, root: string)
    requires Kept(s, r, root) && r in t.payloads && t.payloads[r] == s.payloads[r]
    requires t.content.setup == s.content.setup && t.content.disk == s.content.disk
    ensures Kept(t, r, root)
  {
    hide RootOf;
  }

  lemma ResumedFields(s: State, after: map<MarkKey, Mark>)
    ensures var t, h := Resumed(s, after), Remembered(Tables(s.db.rows, after));
            && t.db == Tables(s.db.rows, after) && t.content == Restarted(s.content) && t.history == h
            && t.payloads == Recalled(s, h)
            && t.content.setup == s.content.setup && t.content.disk == s.content.disk
    ensures forall k :: k in s.db.rows ==> RowRecord(k, s.db.rows[k]) in Remembered(Tables(s.db.rows, after))
    ensures forall k :: k in after ==> MarkRecord(k, after[k]) in Remembered(Tables(s.db.rows, after))
  {
    hide RowRecord, MarkRecord;
  }

  lemma RecalledFields(s: State, history: set<Record>)
    requires history <= s.payloads.Keys
    ensures Recalled(s, history).Keys == history
    ensures forall r :: r in history ==> r in s.payloads && Recalled(s, history)[r] == s.payloads[r]
    ensures Recalled(s, history).Values <= s.payloads.Values
  {
  }

  /** Any database that a run from a start left is a start again, with all its payloads. */
  lemma ResumedStocked(s: State, after: map<MarkKey, Mark>, extra: set<Bytes>)
    requires Inv(s) && Stocked(s, extra) && IsBackfill(s.db.rows, s.db.marks, after)
    ensures Inv(Resumed(s, after)) && Stocked(Resumed(s, after), Pool(s, extra))
  {
    hide *;
    var t, h := Resumed(s, after), Remembered(Tables(s.db.rows, after));
    ResumedHasInv(s, after);
    ResumedFields(s, after);
    StockedParts(s, extra);
    forall r | r in h ensures r in s.payloads.Keys {
      RememberedKnown(s, after, r);
    }
    RecalledFields(s, h);
    RestartGenuine(s.content, Pool(s, extra));
    PoolIs(s, extra);
    PoolIs(t, Pool(s, extra));
    assert Pool(t, Pool(s, extra)) == Pool(s, extra);
    forall k | k in t.db.rows ensures RowKept(t, k) {
      StockedRow(s, k, extra);
      RowResumed(s, t, k);
    }
    ReopenedKeys(s, after);
    StockedRoots(s, extra);
    forall k | k in t.db.marks ensures MarkKept(t, k) {
      assert k in after.Keys;
      StockedMark(s, k, extra);
      ReopenedMarkRecord(s, after, k);
      ReopenedMark(s, after, k);
      MarkResumed(s, t, k);
    }
    StockedFrom(t, Pool(s, extra));
  }

  lemma RowResumed(s: State, t: State, k: RowKey)
    requires k in s.db.rows && RowKept(s, k) && k in t.db.rows && t.db.rows[k] == s.db.rows[k]
    requires t.content.setup == s.content.setup && t.content.disk == s.content.disk
    requires var r := RowRecord(k, s.db.rows[k]);
             r in t.payloads && (r in s.payloads ==> t.payloads[r] == s.payloads[r])
    ensures RowKept(t, k)
  {
    var row := s.db.rows[k];
    hide RowRecord, RootOf;
    KeptResumed(s, t, RowRecord(k, row), row.rootHash.value);
  }

  lemma MarkResumed(s: State, t: State, k: MarkKey)
    requires k in s.db.marks && MarkKept(s, k) && k in t.db.marks
    requires MarkRecord(k, t.db.marks[k]) == MarkRecord(k, s.db.marks[k])
    requires t.db.marks[k].rootHash == s.db.marks[k].rootHash
    requires t.content.setup == s.content.setup && t.content.disk == s.content.disk
    requires var r := MarkRecord(k, s.db.marks[k]);
             r in t.payloads && (r in s.payloads ==> t.payloads[r] == s.payloads[r])
    ensures MarkKept(t, k)
  {
    hide MarkRecord, RootOf;
    KeptResumed(s, t, MarkRecord(k, s.db.marks[k]), s.db.marks[k].rootHash);
  }

  lemma {:induction false} RunKeepsStocked(states: seq<State>, ops: seq<Op>, i: nat, extra: set<Bytes>)
    requires Run(states, ops) && Inv(states[0]) && Stocked(states[0], extra) && i < |states|
    ensures Inv(states[i]) && Stocked(states[i], extra) && states[i].content.setup == states[0].content.setup
  {
    hide Inv, Enabled, Next, Stocked;
    if i > 0 {
      RunKeepsStocked(states, ops, i - 1, extra);
      RunStep(states, ops, i - 1);
      StepKeepsInv(states[i - 1], ops[i - 1]);
      StepKeepsStocked(states[i - 1], ops[i - 1], extra);
      StepKeepsSetup(states[i - 1], ops[i - 1], extra);
    }
  }

  /** The record was admitted with this payload by one of the first `n` operations. */
  ghost predicate AdmittedWith(states: seq<State>, ops: seq<Op>, n: nat, r: Record, data: Bytes)
    requires |states| == |ops| + 1 && n <= |ops|
  {
    exists i :: 0 <= i < n && Admits(states[i], ops[i], r) && ops[i].sub.data == data
  }

  /** The record had this payload at the start of the run. */
  predicate HadAtStart(states: seq<State>, r: Record, data: Bytes)
    requires |states| > 0
  {
    r in states[0].payloads && states[0].payloads[r] == data
  }

  /** The payloads of a state are those of the start and those its run admitted. */
  lemma {:induction false} PayloadIsAdmitted(states: seq<State>, ops: seq<Op>, n: nat, r: Record, extra: set<Bytes>)
    requires Run(states, ops) && Inv(states[0]) && Stocked(states[0], extra)
    requires n <= |ops| && r in states[n].payloads
    ensures HadAtStart(states, r, states[n].payloads[r]) || AdmittedWith(states, ops, n, r, states[n].payloads[r])
  {
    if n > 0 {
      var s, op := states[n - 1], ops[n - 1];
      RunKeepsStocked(states, ops, n - 1, extra);
      RunStep(states, ops, n - 1);
      StepKeepsSetup(s, op, extra);
      hide Run, Inv, Stocked, Enabled, Next, Stored;
      if op.Store? && Stored(s, op.sub, op.markList, op.rowList).1 == Admitted && op.sub.record == r {
        assert ops[n - 1].sub.data == states[n].payloads[r];
      } else {
        PayloadIsAdmitted(states, ops, n - 1, r, extra);
      }
    }
  }

  /** The root is not empty, so it is what a read asks for. */
  lemma RowKeyIsRoot(s: State, k: RowKey)
    requires k in s.db.rows && RowKept(s, k)
    ensures ContentKey(s.db.rows[k]) == RootOf(s.content.setup, s.payloads[RowRecord(k, s.db.rows[k])])
  {
    hide Fetch.PublishedRecipe;
    RootNotEmpty(s.content.setup, s.payloads[RowRecord(k, s.db.rows[k])]);
  }

  lemma RootNotEmpty(setup: Fetch.Setup, data: Bytes)
    ensures RootOf(setup, data) != ""
  {
    assert IsHexDigest(RootOf(setup, data));
  }

  /** Where payloads are apart, a read of any displayed row returns the payload of its record. */
  lemma StockedServes(s: State, k: RowKey, extra: set<Bytes>)
    requires Stocked(s, extra) && Apart(s.content.setup, Pool(s, extra)) && k in s.db.rows
    ensures var r := RowRecord(k, s.db.rows[k]);
            && r in s.payloads && Served(s, k) == Success(s.payloads[r])
            && s.db.rows[k].contentHash.Some?
            && OrEmpty(s.db.rows[k].contentHash) == s.content.setup.hashing.sha3(s.payloads[r])
  {
    var r := RowRecord(k, s.db.rows[k]);
    StockedRow(s, k, extra);
    StockedParts(s, extra);
    RowKeyIsRoot(s, k);
    assert Kept(s, r, s.db.rows[k].rootHash.value);
    assert s.payloads[r] in s.payloads.Values;
    hide Stocked, GenuineContent, Apart, RootOf, Read, ContentKey;
    GenuineRead(s.content, Pool(s, extra), s.payloads[r]);
  }

  /** The payload a served row was admitted with, in the run or before it. */
  ghost predicate ServedAsAdmitted(states: seq<State>, ops: seq<Op>, i: nat, k: RowKey, data: Bytes)
    requires |states| == |ops| + 1 && i <= |ops| && k in states[i].db.rows
  {
    var s := states[i];
    && Served(s, k) == Success(data) && s.db.rows[k].contentHash == Some(s.content.setup.hashing.sha3(data))
    && (HadAtStart(states, RowRecord(k, s.db.rows[k]), data)
        || AdmittedWith(states, ops, i, RowRecord(k, s.db.rows[k]), data))
  }

  /**
   In every state of a run, across prunes, failures and restarts, reading a displayed bulletin returns the
   payload it was admitted with, which has the row's digest; or two different strings with one digest are
   among the chunks and root inputs of the payloads known to that state.
   */
  lemma RunServes(states: seq<State>, ops: seq<Op>, i: nat, k: RowKey, extra: set<Bytes>)
    requires Run(states, ops) && Inv(states[0]) && Stocked(states[0], extra)
    requires i <= |ops| && k in states[i].db.rows
    ensures || CollisionIn(states[i].content.setup, Pool(states[i], extra))
            || exists data :: ServedAsAdmitted(states, ops, i, k, data)
  {
    var s := states[i];
    RunKeepsStocked(states, ops, i, extra);
    hide Inv, Stocked, Run, Served, RowRecord, AdmittedWith, HadAtStart, Apart, CollisionIn, Pool;
    ApartOrCollision(s.content.setup, Pool(s, extra));
    if Apart(s.content.setup, Pool(s, extra)) {
      StockedServes(s, k, extra);
      var r := RowRecord(k, s.db.rows[k]);
      PayloadIsAdmitted(states, ops, i, r, extra);
      assert ServedAsAdmitted(states, ops, i, k, s.payloads[r]);
    }
  }

  lemma StockedReadable(s: State, r: Record, extra: set<Bytes>)
    requires Stocked(s, extra) && Apart(s.content.setup, Pool(s, extra))
    ensures Readable(s, r)
  {
    hide Stocked, Apart, Read;
    if KeyOf(r) in s.db.rows {
      StockedServes(s, KeyOf(r), extra);
    }
  }

  lemma RaisedContent(s: State, sub: Submission, markList: seq<(string, Mark)>, rowList: seq<Record>)
    requires Inv(s) && Enabled(s, Store(sub, markList, rowList)) && Readable(s, sub.record)
    ensures Stored(s, sub, markList, rowList).1 != Raised(ContentMissing)
  {
    var w := WatermarkVerdict(markList, s.db.rows, sub.record);
    EnabledStore(s, sub, markList, rowList);
    hide *;
    StoredPath(s, sub, markList, rowList);
    if w == Duplicate || w == RevisionConflict {
      AtWatermarkOutcome(s, sub, markList, rowList);
    } else if w == Fresh {
      NotForgotten(s, markList, sub.record);
      FreshInRows(s, rowList, sub.record);
      AdmitOutcome(s, sub);
    }
  }

  lemma AdmitOutcome(s: State, sub: Submission)
    ensures AdmitFresh(s, sub).1 in {Admitted, Raised(PublicationFailed)}
  {
    hide Packs, Inserted, Persisted, RootOf;
  }

  /**
   In every run a store raises only for a payload that cannot be packed, never for missing content; or two
   different strings with one digest are among the chunks and root inputs of the payloads known to the state.
   */
  lemma RunRaises(states: seq<State>, ops: seq<Op>, i: nat, extra: set<Bytes>)
    requires Run(states, ops) && Inv(states[0]) && Stocked(states[0], extra) && i < |ops| && ops[i].Store?
    ensures || CollisionIn(states[i].content.setup, Pool(states[i], extra))
            || (Stored(states[i], ops[i].sub, ops[i].markList, ops[i].rowList).1.Raised? ==>
                  !Packs(states[i].content.setup, ops[i].sub.data))
  {
    RunKeepsStocked(states, ops, i, extra);
    RunStep(states, ops, i);
    hide *;
    ApartOrCollision(states[i].content.setup, Pool(states[i], extra));
    if Apart(states[i].content.setup, Pool(states[i], extra)) {
      StateRaises(states[i], ops[i].sub, ops[i].markList, ops[i].rowList, extra);
    }
  }

  lemma StateRaises(s: State, sub: Submission, markList: seq<(string, Mark)>, rowList: seq<Record>, extra: set<Bytes>)
    requires Inv(s) && Stocked(s, extra) && Apart(s.content.setup, Pool(s, extra))
    requires Enabled(s, Store(sub, markList, rowList))
    ensures Stored(s, sub, markList, rowList).1.Raised? ==> !Packs(s.content.setup, sub.data)
  {
    hide *;
    StockedReadable(s, sub.record, extra);
    RaisedContent(s, sub, markList, rowList);
    StoredOutcome(s, sub, markList, rowList);
    var out := Stored(s, sub, markList, rowList).1;
    if out.Raised? {
      match out.trouble
      case ContentMissing =>
      case PublicationFailed =>
    }
  }

  /** Every state of a run can be reopened. */
  lemma RunOpens(states: seq<State>, ops: seq<Op>, i: nat, extra: set<Bytes>)
    requires Run(states, ops) && Inv(states[0]) && Stocked(states[0], extra) && i < |states|
    ensures Openable(states[i].db.rows)
  {
    RunKeepsStocked(states, ops, i, extra);
    hide Inv, Run, Kept, RowRecord;
    forall k, t | IsTop(states[i].db.rows, k, t)
      ensures states[i].db.rows[t].contentHash.Some? && states[i].db.rows[t].rootHash.Some?
    {
      StockedRow(states[i], t, extra);
    }
  }
}
