/** The node's bulletin methods: loops over query results, and the fields they update. */
module BulletinNode {
  import opened Wrappers
  import opened Bytes
  import opened BulletinIdentity
  import opened DropletStore
  import opened BulletinContent
  import opened Bulletins
  import opened BulletinSafety
  import opened BulletinReopen
  import Fetch
  import Cdc
  import Recipes

  // ---------------------------------------------------------------- queries

  /** The watermarks of a bulletin, in whatever order the table yields them. */
  method SelectMarks(marks: map<MarkKey, Mark>, bid: string) returns (list: seq<(string, Mark)>)
    ensures ListsMarks(list, marks, bid)
  {
    list := [];
    var left := marks.Keys;
    while left != {}
      invariant left <= marks.Keys
      invariant forall i :: 0 <= i < |list| ==> (list[i].0, bid) in marks && marks[(list[i].0, bid)] == list[i].1
      invariant forall k :: k in marks && k !in left && k.1 == bid ==> (k.0, marks[k]) in list
      decreases |left|
    {
      var k :| k in left;
      left := left - {k};
      if k.1 == bid {
        list := list + [(k.0, marks[k])];
      }
    }
  }

  /** The display rows of a bulletin. */
  method SelectRows(rows: map<RowKey, Row>, bid: string) returns (list: seq<Record>)
    ensures Lists(list, Displayed(rows), bid)
  {
    list := [];
    var left := rows.Keys;
    while left != {}
      invariant left <= rows.Keys
      invariant forall i :: 0 <= i < |list| ==> list[i] in Displayed(rows) && list[i].bulletinId == bid
      invariant forall k :: k in rows && k !in left && k.0 == bid ==> RecordOf(k, rows[k]) in list
      decreases |left|
    {
      var k :| k in left;
      left := left - {k};
      if k.0 == bid {
        assert RecordOf(k, rows[k]) in Displayed(rows);
        list := list + [RecordOf(k, rows[k])];
      }
    }
  }

  /** A row that no other listed row is newer than. */
  method NewestOf(rows: map<RowKey, Row>, among: set<RowKey>) returns (top: RowKey)
    requires among <= rows.Keys && among != {}
    ensures top in among && forall a :: a in among ==> NoNewer(rows, a, top)
  {
    top :| top in among;
    var left := among - {top};
    while left != {}
      invariant left <= among && top in among
      invariant forall a :: a in among && a !in left ==> NoNewer(rows, a, top)
      decreases |left|
    {
      var a :| a in left;
      left := left - {a};
      if !NoNewer(rows, a, top) {
        top := a;
      }
    }
  }

  /** The keys of the `n` newest rows. */
  method SelectNewest(rows: map<RowKey, Row>, n: int) returns (kept: set<RowKey>)
    ensures KeepsNewest(rows, n, kept)
  {
    kept := {};
    var left := rows.Keys;
    var count := if 0 <= n < |rows| then n else |rows|;
    assert |rows.Keys| == |rows|;
    for i := 0 to count
      invariant left <= rows.Keys && kept == rows.Keys - left && |left| == |rows| - i && |kept| == i
      invariant forall a, b :: a in left && b in kept ==> NoNewer(rows, a, b)
    {
      var top := NewestOf(rows, left);
      left := left - {top};
      kept := kept + {top};
    }
  }

  predicate InGroup(rows: map<RowKey, Row>, k: MarkKey, t: RowKey) {
    t in rows && t.0 == k.1 && rows[t].publisher == k.0
  }

  /** Some row of the group, at least as new as this one, is noted. */
  predicate Noted(rows: map<RowKey, Row>, tops: map<MarkKey, RowKey>, u: RowKey)
    requires u in rows
  {
    var k := (rows[u].publisher, u.0);
    k in tops && u.1 <= tops[k].1
  }

  /** The key of the newest row of every publisher's bulletin. */
  method GroupRows(rows: map<RowKey, Row>) returns (tops: map<MarkKey, RowKey>)
    ensures forall k :: k in tops ==> tops[k] in rows && IsTop(rows, k, tops[k])
    ensures forall k :: HasRows(rows, k) ==> k in tops
  {
    tops := map[];
    var left := rows.Keys;
    while left != {}
      invariant left <= rows.Keys
      invariant forall k :: k in tops ==> InGroup(rows, k, tops[k])
      invariant forall u :: u in rows && u !in left ==> Noted(rows, tops, u)
      decreases |left|
    {
      var u :| u in left;
      left := left - {u};
      var k := (rows[u].publisher, u.0);
      if k !in tops || tops[k].1 < u.1 {
        tops := tops[k := u];
      }
    }
    assert forall u :: u in rows ==> Noted(rows, tops, u);
  }

  lemma TopUnique(rows: map<RowKey, Row>, k: MarkKey, t: RowKey, u: RowKey)
    requires IsTop(rows, k, t) && IsTop(rows, k, u)
    ensures t == u
  {
    assert t.1 == u.1 && t.0 == u.0;
  }

  /** Every noted row has digest and root. */
  method CheckTops(rows: map<RowKey, Row>, tops: map<MarkKey, RowKey>) returns (ok: bool)
    requires forall k :: k in tops ==> tops[k] in rows
    ensures ok <==> forall k :: k in tops ==> rows[tops[k]].contentHash.Some? && rows[tops[k]].rootHash.Some?
  {
    var left := tops.Keys;
    while left != {}
      invariant left <= tops.Keys
      invariant forall k :: k in tops && k !in left ==>
                  rows[tops[k]].contentHash.Some? && rows[tops[k]].rootHash.Some?
      decreases |left|
    {
      var k :| k in left;
      left := left - {k};
      if rows[tops[k]].contentHash.None? || rows[tops[k]].rootHash.None? {
        return false;
      }
    }
    return true;
  }

  lemma TopsOpenable(rows: map<RowKey, Row>, tops: map<MarkKey, RowKey>)
    requires forall k :: k in tops ==> tops[k] in rows && IsTop(rows, k, tops[k])
    requires forall k :: HasRows(rows, k) ==> k in tops
    ensures Openable(rows)
         <==> forall k :: k in tops ==> rows[tops[k]].contentHash.Some? && rows[tops[k]].rootHash.Some?
  {
    hide HasRows;
    forall k, t | IsTop(rows, k, t) ensures k in tops && tops[k] == t {
      TopInGroup(rows, k, t);
      TopUnique(rows, k, t, tops[k]);
    }
    hide IsTop;
    assert forall k :: k in tops ==> IsTop(rows, k, tops[k]);
  }

  /** The backfill: one upsert per group. None stands for the error of a newest row without digest or root. */
  method BackfillMarks(rows: map<RowKey, Row>, marks: map<MarkKey, Mark>) returns (after: Option<map<MarkKey, Mark>>)
    ensures after.Some? <==> Openable(rows)
    ensures after.Some? ==> IsBackfill(rows, marks, after.value)
  {
    var tops := GroupRows(rows);
    TopsOpenable(rows, tops);
    var ok := CheckTops(rows, tops);
    hide IsTop, Joined, HasRows, IsBackfill, Openable;
    if !ok {
      return None;
    }
    var merged := marks;
    var left := tops.Keys;
    while left != {}
      invariant left <= tops.Keys
      invariant forall k :: k in merged <==> k in marks || (k in tops && k !in left)
      invariant forall k :: k in tops && k !in left ==> merged[k] == Joined(marks, k, tops[k].1, rows[tops[k]])
      invariant forall k :: k in marks && (k !in tops || k in left) ==> merged[k] == marks[k]
      decreases |left|
    {
      var k :| k in left;
      left := left - {k};
      merged := merged[k := Joined(marks, k, tops[k].1, rows[tops[k]])];
    }
    GroupsBackfill(rows, marks, tops, merged);
    return Some(merged);
  }

  lemma GroupsBackfill(rows: map<RowKey, Row>, marks: map<MarkKey, Mark>, tops: map<MarkKey, RowKey>,
                       after: map<MarkKey, Mark>)
    requires forall k :: k in tops ==> tops[k] in rows && IsTop(rows, k, tops[k])
    requires forall k :: HasRows(rows, k) ==> k in tops
    requires forall k :: k in after <==> k in marks || k in tops
    requires forall k :: k in tops ==> after[k] == Joined(marks, k, tops[k].1, rows[tops[k]])
    requires forall k :: k in marks && k !in tops ==> after[k] == marks[k]
    ensures IsBackfill(rows, marks, after)
  {
    hide IsTop, Joined, HasRows;
    forall k, t | IsTop(rows, k, t) ensures k in tops && tops[k] == t {
      TopInGroup(rows, k, t);
      TopUnique(rows, k, t, tops[k]);
    }
    forall k | k in tops ensures HasRows(rows, k) {
      TopInGroup(rows, k, tops[k]);
    }
  }

  lemma TopInGroup(rows: map<RowKey, Row>, k: MarkKey, t: RowKey)
    requires IsTop(rows, k, t)
    ensures HasRows(rows, k)
  {
  }

  // ---------------------------------------------------------------- the node

  /** The number of rows a prune deletes. */
  function Dropped(rows: map<RowKey, Row>, n: int, kept: set<RowKey>): (deleted: nat)
    requires KeepsNewest(rows, n, kept)
    ensures deleted == if 0 <= n < |rows| then |rows| - n else 0
  {
    |rows| - |kept|
  }

  /** The key of a bulletin's row of a revision, or of its newest revision. */
  method SelectRevision(rows: map<RowKey, Row>, bid: string, revision: Option<int>) returns (k: Option<RowKey>)
    ensures k.None? ==> forall u :: u in rows && u.0 == bid ==> revision.Some? && u.1 != revision.value
    ensures k.Some? ==> k.value in rows && k.value.0 == bid
    ensures k.Some? && revision.Some? ==> k.value.1 == revision.value
    ensures k.Some? && revision.None? ==> forall u :: u in rows && u.0 == bid ==> u.1 <= k.value.1
  {
    if revision.Some? {
      return if (bid, revision.value) in rows then Some((bid, revision.value)) else None;
    }
    k := None;
    var left := rows.Keys;
    while left != {}
      invariant left <= rows.Keys
      invariant k.Some? ==> k.value in rows && k.value.0 == bid
      invariant forall u :: u in rows && u !in left && u.0 == bid ==> k.Some? && u.1 <= k.value.1
      decreases |left|
    {
      var u :| u in left;
      left := left - {u};
      if u.0 == bid && (k.None? || k.value.1 < u.1) {
        k := Some(u);
      }
    }
  }

  /** `dict.update`, store by store. */
  function Merged(x: Fetch.Store, y: Fetch.Store): Fetch.Store {
    Fetch.Store(x.chunks + y.chunks, x.recipes + y.recipes, x.droplets + y.droplets)
  }

  /** Content is carried along by what enters a record. */
  lemma InsertedWith(s: State, c: Content, req: Request)
    ensures Inserted(s.(content := c), req) == Inserted(s, req).(content := c)
  {
    hide Upserted, Recached;
  }

  lemma EnterPath(s: State, sub: Submission)
    ensures !Packs(s.content.setup, sub.data) ==> AdmitFresh(s, sub) == (s, Raised(PublicationFailed))
    ensures Packs(s.content.setup, sub.data) ==>
              AdmitFresh(s, sub)
              == (Inserted(s, Under(sub, RootOf(s.content.setup, sub.data)))
                    .(content := Persisted(s.content, sub.data), payloads := s.payloads[sub.record := sub.data]),
                        Admitted)
  {
    hide Packs, Inserted, RootOf, Persisted;
  }

  const EMPTY: Fetch.Store := Fetch.Store(map[], map[], map[])

  lemma {:induction false} MergedChunks(hs: Recipes.Hashing, store: map<string, Bytes>, parts: seq<Bytes>)
    ensures store + Fetch.WithChunks(hs, map[], parts) == Fetch.WithChunks(hs, store, parts)
  {
    if parts != [] {
      MergedChunks(hs, store, parts[..|parts| - 1]);
    }
  }

  /** Copying a staged publication into a store is publishing there. */
  lemma MergedIsPublished(setup: Fetch.Setup, x: Fetch.Store, data: Bytes)
    ensures Merged(x, Fetch.Published(setup, EMPTY, data, None)) == Fetch.Published(setup, x, data, None)
  {
    hide Fetch.WithChunks, Fetch.PublishedDroplets, Fetch.PublishedRecipe, Cdc.Chunks;
    MergedChunks(setup.hashing, x.chunks, Cdc.Chunks(setup.chunker, data));
  }

  class BulletinStore {
    const policy: Policy
    const setup: Fetch.Setup
    /** The committed tables. */
    var rows: map<RowKey, Row>
    var marks: map<MarkKey, Mark>
    var disk: Fetch.Store
    /** The caches and the content stores of the process. */
    var cachedRows: map<RowKey, Row>
    var cachedMarks: map<MarkKey, Mark>
    var memory: Fetch.Store
    ghost var history: set<Record>
    ghost var payloads: map<Record, Bytes>

    ghost function Contents(): State
      reads this
    {
      State(Tables(rows, marks), cachedRows, cachedMarks, Content(setup, memory, disk), history, payloads)
    }

    ghost predicate Valid()
      reads this
    {
      Inv(Contents())
    }

    /** A process on a database whose backfill gave `after`. The history is what the tables still know. */
    constructor (policy: Policy, setup: Fetch.Setup, rows: map<RowKey, Row>, after: map<MarkKey, Mark>,
                 disk: Fetch.Store)
      ensures this.policy == policy && this.setup == setup && this.marks == after
      ensures Contents()
           == Opened(Tables(rows, after), Content(setup, EMPTY, disk), after, Remembered(Tables(rows, after)))
    {
      this.policy, this.setup, this.rows, marks, this.disk := policy, setup, rows, after, disk;
      cachedRows, cachedMarks, memory := map[], after, EMPTY;
      history, payloads := Remembered(Tables(rows, after)), map[];
    }

    /** A restart of the process on the same database; false stands for the error of the backfill. */
    method Reopen() returns (ok: bool)
      modifies this
      ensures old(Valid()) ==> Valid()
      ensures ok <==> Openable(old(rows))
      ensures !ok ==> Contents() == old(Contents())
      ensures ok ==> IsBackfill(old(rows), old(marks), marks) && Contents() == Reopened(old(Contents()), marks)
    {
      hide Inv, IsBackfill, Openable;
      var after := BackfillMarks(rows, marks);
      if after.None? {
        return false;
      }
      if Valid() {
        ReopenKeepsInv(Contents(), after.value);
      }
      marks, cachedRows, cachedMarks, memory := after.value, map[], after.value, EMPTY;
      return true;
    }

    // ---------------------------------------------------------------- content

    /** The chunks of a recipe that the database has, one by one. */
    method CopyChunks(hashes: seq<string>) returns (chunks: map<string, Bytes>)
      ensures chunks == memory.chunks + Found(disk.chunks, hashes)
    {
      chunks := memory.chunks;
      FoundNone(memory.chunks, disk.chunks);
      hide Found;
      for i := 0 to |hashes|
        invariant chunks == memory.chunks + Found(disk.chunks, hashes[..i])
      {
        FoundNext(memory.chunks, disk.chunks, hashes[..i], hashes[i]);
        assert hashes[..i + 1] == hashes[..i] + [hashes[i]];
        if hashes[i] in disk.chunks {
          chunks := chunks[hashes[i] := disk.chunks[hashes[i]]];
        }
      }
      assert hashes[..|hashes|] == hashes;
    }

    /** Looks a root up, in memory or else in the database. */
    method LoadRecipe(root: string) returns (found: bool)
      modifies this`memory
      ensures Contents() == old(Contents()).(content := Ensured(old(Contents()).content, root))
      ensures found <==> Known(old(Contents()).content, root)
      ensures root in old(memory).recipes ==> memory == old(memory)
    {
      hide Recipes.ValidRecipe;
      if root in memory.recipes {
        return true;
      }
      if root !in disk.recipes || !Recipes.ValidRecipe(setup.hashing, disk.recipes[root], Some(root)) {
        return false;
      }
      var chunks := CopyChunks(disk.recipes[root].hashes);
      var droplets := if root in disk.droplets then disk.droplets[root] else [];
      memory := Fetch.Store(chunks, memory.recipes[root := disk.recipes[root]],
                            if droplets == [] then memory.droplets else memory.droplets[root := droplets]);
      return true;
    }

    /** Fetches what is stored under a root. */
    method ReadContent(root: string) returns (r: Result<Bytes, Fetch.FetchError>)
      modifies this`memory
      ensures r == Read(old(Contents()).content, root)
      ensures Contents() == old(Contents()).(content := Ensured(old(Contents()).content, root))
    {
      hide Ensured, Fetch.Fetched;
      var found := LoadRecipe(root);
      r := Fetch.Fetched(setup, memory, root, 0.0, NoLoss, None);
    }

    /** Record and content of a bulletin's revision, or of its newest one. */
    method GetBulletin(bid: string, revision: Option<int>)
      returns (r: Option<(RowKey, Result<Bytes, Fetch.FetchError>)>)
      modifies this`memory
      ensures r.None? ==> Contents() == old(Contents())
      ensures r.None? ==> forall k :: k in rows && k.0 == bid ==> revision.Some? && k.1 != revision.value
      ensures r.Some? ==>
                var k := r.value.0;
                && k in rows && k.0 == bid && (revision.Some? ==> k.1 == revision.value)
                && (revision.None? ==> forall u :: u in rows && u.0 == bid ==> u.1 <= k.1)
                && r.value.1 == Served(old(Contents()), k)
                && Contents() == old(Contents()).(content := Ensured(old(Contents()).content, ContentKey(rows[k])))
    {
      hide Ensured, Read;
      var row := SelectRevision(rows, bid, revision);
      if row.None? {
        return None;
      }
      var content := ReadContent(ContentKey(rows[row.value]));
      return Some((row.value, content));
    }

    /** A publication of its own, which nothing sees before it is copied. None stands for the error of packing. */
    method Stage(data: Bytes) returns (staged: Option<Fetch.Store>)
      requires data != []
      ensures staged.Some? <==> Packs(setup, data)
      ensures staged.Some? ==> staged.value == Fetch.Published(setup, EMPTY, data, None)
    {
      hide Fetch.Published, Fetch.AllSerialize;
      var node := new Fetch.TFPNode(setup);
      var published := node.Publish(data, None);
      if published.Failure? {
        return None;
      }
      return Some(node.Contents());
    }

    /** Copies a staged publication into the stores of the process. */
    method Share(ghost data: Bytes, staged: Fetch.Store)
      requires staged == Fetch.Published(setup, EMPTY, data, None)
      modifies this`memory
      ensures Contents() == old(Contents()).(content := InMemory(old(Contents()).content, data))
    {
      hide Fetch.Published;
      MergedIsPublished(setup, memory, data);
      memory := Merged(memory, staged);
    }

    /** Commits a staged publication, and copies it into the stores. */
    method Persist(data: Bytes, root: string, staged: Fetch.Store)
      requires staged == Fetch.Published(setup, EMPTY, data, None) && root == RootOf(setup, data)
      modifies this`memory, this`disk
      ensures Contents() == old(Contents()).(content := Persisted(old(Contents()).content, data))
    {
      assert root in staged.droplets && staged.droplets[root] == Fetch.PublishedDroplets(setup.codec, data, None);
      hide Fetch.Published, RootOf;
      MergedIsPublished(setup, disk, data);
      var before := if root in disk.droplets then disk.droplets[root] else [];
      disk := Merged(disk, staged).(droplets := disk.droplets[root := PutAll(before, staged.droplets[root])]);
      Share(data, staged);
    }

    /** Keeps the newest rows; watermarks stay. */
    method PruneDisplayBulletins(keepLast: int) returns (deleted: nat, ghost kept: set<RowKey>)
      modifies this`rows, this`cachedRows
      ensures old(Valid()) ==> Valid()
      ensures deleted == (if 0 <= keepLast < |old(rows)| then |old(rows)| - keepLast else 0)
      ensures KeepsNewest(old(rows), keepLast, kept) && Contents() == Pruned(old(Contents()), kept)
    {
      var remaining := SelectNewest(rows, keepLast);
      kept := remaining;
      deleted := Dropped(rows, keepLast, remaining);
      hide *;
      KeepRows(remaining);
    }

    /** Deletes all other rows, in the table and in the cache. */
    method KeepRows(kept: set<RowKey>)
      modifies this`rows, this`cachedRows
      ensures old(Valid()) ==> Valid()
      ensures Contents() == Pruned(old(Contents()), kept)
    {
      hide Inv, Restricted;
      if Valid() {
        PrunedKeepsInv(Contents(), kept);
      }
      rows, cachedRows := Restricted(rows, kept), Restricted(cachedRows, kept);
    }

    /** Puts the display row of a pruned record back. */
    method Readmit(req: Request)
      modifies this
      ensures Contents() == Readmitted(old(Contents()), req)
    {
      var k, mk, row := KeyOf(req.record), MarkKeyOf(req.record), RowOf(req);
      rows, cachedRows := rows[k := row], cachedRows[k := row];
      if mk in marks {
        marks := marks[mk := marks[mk].(title := req.record.title, rootHash := req.root)];
      }
      if mk in cachedMarks {
        var m := cachedMarks[mk].(rootHash := req.root);
        cachedMarks := cachedMarks[mk := if m.title == "" then m.(title := req.record.title) else m];
      }
    }

    /** Writes row and watermark, and then the caches. */
    method Insert(req: Request)
      modifies this
      ensures Contents() == Inserted(old(Contents()), req)
    {
      var k, row := KeyOf(req.record), RowOf(req);
      rows, cachedRows := rows[k := row], cachedRows[k := row];
      marks, cachedMarks := Upserted(marks, req), Recached(cachedMarks, req);
      history := history + {req.record};
    }

    /** The first check, against the listed watermarks. None stands for the error of a row whose content is missing. */
    method CheckWatermark(list: seq<(string, Mark)>, r: Record) returns (v: Option<Verdict>)
      modifies this`memory
      ensures var w := WatermarkVerdict(list, rows, r);
              if w == Duplicate || w == RevisionConflict then
                && Contents() == old(Contents()).(content := RowRead(old(Contents()), r))
                && v == if Readable(old(Contents()), r) then Some(w) else None
              else Contents() == old(Contents()) && v == Some(w)
    {
      hide Ensured, Read;
      for i := 0 to |list|
        invariant Contents() == old(Contents())
        invariant WatermarkVerdict(list, rows, r) == WatermarkVerdict(list[i..], rows, r)
      {
        var (pub, m) := list[i];
        assert list[i..][1..] == list[i + 1..];
        if pub != r.publisher {
          return Some(PublisherConflict);
        }
        if r.revision < m.maxRevision {
          return Some(Stale);
        }
        if r.revision == m.maxRevision {
          if KeyOf(r) in rows {
            var content := ReadContent(ContentKey(rows[KeyOf(r)]));
            if content.Failure? {
              return None;
            }
          }
          var title := if KeyOf(r) in rows then rows[KeyOf(r)].title else m.title;
          var expected := if title != "" then title else r.bulletinId;
          return Some(if r.contentHash == m.contentHash && r.title == expected then Duplicate else RevisionConflict);
        }
      }
      return Some(Fresh);
    }

    /** Accepts a replay, publishing its payload where the watermark's recipe is not found. */
    method AcceptReplay(sub: Submission) returns (out: Outcome)
      requires sub.data != []
      modifies this
      ensures (Contents(), out) == Replay(old(Contents()), sub)
    {
      hide Ensured, Readmitted, InMemory, Persisted, RootOf;
      var r := sub.record;
      var root := if MarkKeyOf(r) in marks then marks[MarkKeyOf(r)].rootHash else "";
      var displayed := KeyOf(r) in rows;
      var found := LoadRecipe(root);
      if !found {
        var staged := Stage(sub.data);
        if staged.None? {
          return Raised(PublicationFailed);
        }
        if displayed {
          Share(sub.data, staged.value);
        } else {
          root := RootOf(setup, sub.data);
          Persist(sub.data, root, staged.value);
        }
      }
      if !displayed {
        Readmit(Under(sub, root));
      }
      return Replayed;
    }

    /** Accepts a submission that a display row without a watermark agrees with. */
    method AcceptRow(sub: Submission) returns (out: Outcome)
      requires sub.data != [] && KeyOf(sub.record) in rows
      modifies this`memory
      ensures (Contents(), out) == AtRow(old(Contents()), sub)
    {
      hide Ensured, Read, InMemory;
      var row := rows[KeyOf(sub.record)];
      var root := OrEmpty(row.rootHash);
      var found := LoadRecipe(root);
      var content := ReadContent(ContentKey(row));
      if content.Failure? {
        return Raised(ContentMissing);
      }
      if root !in memory.recipes {
        var staged := Stage(sub.data);
        if staged.None? {
          return Raised(PublicationFailed);
        }
        Share(sub.data, staged.value);
      }
      return Replayed;
    }

    /** Publishes and enters a fresh submission. */
    method Enter(sub: Submission) returns (out: Outcome)
      requires sub.data != []
      modifies this
      ensures (Contents(), out) == AdmitFresh(old(Contents()), sub)
    {
      ghost var s := Contents();
      assert s.content.setup == setup && s.payloads == payloads;
      hide Inserted, Persisted, RootOf, AdmitFresh, Packs;
      EnterPath(s, sub);
      var staged := Stage(sub.data);
      if staged.None? {
        return Raised(PublicationFailed);
      }
      var root := RootOf(setup, sub.data);
      Persist(sub.data, root, staged.value);
      Insert(Under(sub, root));
      InsertedWith(s, Persisted(s.content, sub.data), Under(sub, root));
      payloads := payloads[sub.record := sub.data];
      return Admitted;
    }

    /** Both checks on the listed rows of the tables, and what they lead to. */
    method Decide(sub: Submission, listedMarks: seq<(string, Mark)>, listedRows: seq<Record>) returns (out: Outcome)
      requires sub.data != [] && Lists(listedRows, Displayed(rows), sub.record.bulletinId)
      modifies this
      ensures (Contents(), out) == Stored(old(Contents()), sub, listedMarks, listedRows)
    {
      var r := sub.record;
      ghost var s := Contents();
      assert s.db.rows == rows;
      hide *;
      StoredPath(s, sub, listedMarks, listedRows);
      AtWatermarkPath(s, sub, WatermarkVerdict(listedMarks, rows, r));
      var w := CheckWatermark(listedMarks, r);
      if w.None? {
        return Raised(ContentMissing);
      }
      if w.value == Duplicate {
        out := AcceptReplay(sub);
      } else if w.value != Fresh {
        out := Refused(w.value);
      } else {
        var c := CheckRevisionLoop(listedRows, r);
        if c == Fresh {
          out := Enter(sub);
        } else if c == Duplicate {
          DuplicateIsDisplayed(rows, listedRows, r);
          out := AcceptRow(sub);
        } else {
          out := Refused(c);
        }
      }
    }

    /** One admission transaction on a submission that passed verification. */
    method Admit(sub: Submission)
      returns (out: Outcome, ghost markList: seq<(string, Mark)>, ghost rowList: seq<Record>)
      requires ValidSubmission(setup, sub)
      modifies this
      ensures old(Valid()) ==> Valid()
      ensures Enabled(old(Contents()), Store(sub, markList, rowList))
      ensures (Contents(), out) == Stored(old(Contents()), sub, markList, rowList)
    {
      var listedMarks := SelectMarks(marks, sub.record.bulletinId);
      var listedRows := SelectRows(rows, sub.record.bulletinId);
      markList, rowList := listedMarks, listedRows;
      hide Inv, ListsMarks, Lists, Stored;
      if Valid() {
        StoredKeepsInv(Contents(), sub, markList, rowList);
      }
      out := Decide(sub, listedMarks, listedRows);
    }

    /**
     Stores a bulletin. None stands for the errors in front of admission: an empty payload, a malformed
     identity or a failed verification, which leave the node as it was.
     */
    method StoreBulletin(bulletinId: string, revision: int, data: Bytes, title: string, publisher: string,
                         signature: Option<string>, version: int, receivedAt: real)
      returns (out: Option<Outcome>)
      modifies this
      ensures old(Valid()) ==> Valid()
      ensures var r := Titled(bulletinId, revision, publisher, setup.hashing.sha3(data), title);
              out.Some? <==> data != [] && VerificationStatus(policy, r, signature, version).Some?
      ensures out.None? ==> Contents() == old(Contents())
      ensures var r := Record(bulletinId, revision, publisher, setup.hashing.sha3(data),
                              if title == "" then bulletinId else title);
              out.Some? ==>
                && 1 <= revision <= 0x1F_FFFF_FFFF_FFFF
                && ((publisher == "unsigned" && signature.None?)
                    || (signature.Some? && signature.value != "" && version == 2
                        && policy.verifies(publisher, signature.value, Envelope(r))))
      ensures var sub :=
          Submission(Record(bulletinId, revision, publisher, setup.hashing.sha3(data),
                            if title == "" then bulletinId else title), data, receivedAt);
              out.Some? ==>
                exists markList, rowList ::
                  && Enabled(old(Contents()), Store(sub, markList, rowList))
                  && (Contents(), out.value) == Stored(old(Contents()), sub, markList, rowList)
    {
      if data == [] {
        return None;
      }
      var r := Titled(bulletinId, revision, publisher, setup.hashing.sha3(data), title);
      if VerificationStatus(policy, r, signature, version).None? {
        return None;
      }
      var sub := Submission(r, data, receivedAt);
      StatusSound(policy, r, signature, version);
      hide Stored, Enabled, Inv, Envelope, VerificationStatus;
      var outcome, markList, rowList := Admit(sub);
      assert Enabled(old(Contents()), Store(sub, markList, rowList));
      return Some(outcome);
    }
  }

  /** Opens a database, whoever wrote it. None stands for the error of the backfill. */
  method Open(policy: Policy, setup: Fetch.Setup, rows: map<RowKey, Row>, marks: map<MarkKey, Mark>, disk: Fetch.Store)
    returns (node: Option<BulletinStore>)
    ensures node.Some? <==> Openable(rows)
    ensures node.Some? ==> fresh(node.value) && node.value.policy == policy && node.value.setup == setup
    ensures node.Some? ==>
              var n := node.value;
              && IsBackfill(rows, marks, n.marks)
              && n.Contents() == Opened(Tables(rows, marks), Content(setup, EMPTY, disk), n.marks,
                                        Remembered(Tables(rows, n.marks)))
              && (n.Valid() <==> Consistent(Tables(rows, marks)))
  {
    hide Inv, IsBackfill, Consistent, Remembered, Openable;
    var after := BackfillMarks(rows, marks);
    if after.None? {
      return None;
    }
    var n := new BulletinStore(policy, setup, rows, after.value, disk);
    OpenedHasInv(Tables(rows, marks), Content(setup, EMPTY, disk), after.value);
    return Some(n);
  }

  /** The record that is verified and stored: the title defaults to the bulletin's name. */
  function Titled(bulletinId: string, revision: int, publisher: string, contentHash: string, title: string): Record {
    Record(bulletinId, revision, publisher, contentHash, if title == "" then bulletinId else title)
  }
}
