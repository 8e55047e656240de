/** The sync as the code runs it: rows, findings and the result updated in place, loop by loop. */
module WorkflowStore {
  import opened Wrappers
  import opened FixMachine
  import opened WorkflowSync

  datatype Item = Item(path: string, content: string)

  ghost predicate Distinct(items: seq<Item>) {
    forall i, j | 0 <= i < j < |items| :: items[i].path != items[j].path
  }

  function Listing(items: seq<Item>): map<string, string> {
    if items == [] then map[]
    else
      var n := |items| - 1;
      Listing(items[..n])[items[n].path := items[n].content]
  }

  function Paths(items: seq<Item>): multiset<string> {
    if items == [] then multiset{} else Paths(items[..|items| - 1]) + multiset{items[|items| - 1].path}
  }

  lemma {:induction false} ListingHolds(items: seq<Item>, i: nat)
    requires Distinct(items) && i < |items|
    ensures Get(Listing(items), items[i].path) == Some(items[i].content)
  {
    if i < |items| - 1 {
      ListingHolds(items[..|items| - 1], i);
    }
  }

  lemma {:induction false} ListingHoldsOnly(items: seq<Item>, p: string)
    requires p in Listing(items)
    ensures exists i :: 0 <= i < |items| && items[i].path == p
  {
    var n := |items| - 1;
    if items[n].path != p {
      ListingHoldsOnly(items[..n], p);
    }
  }

  lemma {:induction false} EachPathOnce(items: seq<Item>, p: string)
    requires Distinct(items)
    ensures Paths(items)[p] == if p in Listing(items) then 1 else 0
  {
    if items != [] {
      var n := |items| - 1;
      EachPathOnce(items[..n], p);
      if p in Listing(items[..n]) {
        ListingHoldsOnly(items[..n], p);
      }
    }
  }

  lemma {:induction false} ListingGrows(items: seq<Item>, i: nat)
    requires i <= |items|
    ensures Listing(items[..i]).Keys <= Listing(items).Keys
  {
    if i < |items| {
      ListingGrows(items[..|items| - 1], i);
      assert items[..|items| - 1][..i] == items[..i];
    } else {
      assert items[..i] == items;
    }
  }

  lemma NextItem(items: seq<Item>, i: nat)
    requires Distinct(items) && i < |items|
    ensures Listing(items[..i]).Keys <= Listing(items).Keys
    ensures items[i].path !in Listing(items[..i]) && Get(Listing(items), items[i].path) == Some(items[i].content)
    ensures Listing(items[..i + 1]).Keys == Listing(items[..i]).Keys + {items[i].path}
    ensures Paths(items[..i + 1]) == Paths(items[..i]) + multiset{items[i].path}
  {
    ListingHolds(items, i);
    ListingGrows(items, i);
    assert items[..i + 1][..i] == items[..i];
    if items[i].path in Listing(items[..i]) {
      ListingHoldsOnly(items[..i], items[i].path);
    }
  }

  // ------------------------------------------------- what changed, path by path

  datatype Change = Added | Updated | Same | SkippedStale

  function ChangeOf(rows: map<Key, Row>, s: Sync, p: string): Change
    requires p in s.listing
  {
    var k := Key(s.ref, p);
    if k !in rows then Added
    else if StaleRow(rows[k], s.stamp) then SkippedStale
    else if rows[k].hash == Sha256(s.listing[p]) then Same
    else Updated
  }

  predicate Back(rows: map<Key, Row>, s: Sync, p: string) {
    p in s.listing && Key(s.ref, p) in rows && !StaleRow(rows[Key(s.ref, p)], s.stamp) &&
        rows[Key(s.ref, p)].deletedAt.Some?
  }

  datatype ChangeLists = ChangeLists(added: seq<string>, updated: seq<string>, same: seq<string>,
                                     skipped: seq<string>, restored: seq<string>)

  function Classify(l: ChangeLists, rows: map<Key, Row>, s: Sync, p: string): ChangeLists
    requires p in s.listing
  {
    var l' := match ChangeOf(rows, s, p)
      case Added => l.(added := l.added + [p])
      case Updated => l.(updated := l.updated + [p])
      case Same => l.(same := l.same + [p])
      case SkippedStale => l.(skipped := l.skipped + [p]);
    if Back(rows, s, p) then l'.(restored := l'.restored + [p]) else l'
  }

  predicate Changed(rows: map<Key, Row>, s: Sync, c: Change, p: string) {
    p in s.listing && ChangeOf(rows, s, p) == c
  }

  // `list` holds p as often as `all` does if p changed in way c, and not at all otherwise.
  ghost predicate Collects(list: seq<string>, all: multiset<string>, rows: map<Key, Row>, s: Sync, c: Change) {
    forall p :: multiset(list)[p] == if Changed(rows, s, c, p) then all[p] else 0
  }

  ghost predicate CollectsBack(list: seq<string>, all: multiset<string>, rows: map<Key, Row>, s: Sync) {
    forall p :: multiset(list)[p] == if Back(rows, s, p) then all[p] else 0
  }

  /** Every handled path sits in exactly one list, once, and in the one its stored row calls for. */
  ghost predicate Partitions(l: ChangeLists, rows: map<Key, Row>, s: Sync, paths: multiset<string>) {
    && (forall p <- paths :: p in s.listing)
    && Collects(l.added, paths, rows, s, Added)
    && Collects(l.updated, paths, rows, s, Updated)
    && Collects(l.same, paths, rows, s, Same)
    && Collects(l.skipped, paths, rows, s, SkippedStale)
    && CollectsBack(l.restored, paths, rows, s)
  }

  lemma CollectsOneMore(list: seq<string>, all: multiset<string>, rows: map<Key, Row>, s: Sync, c: Change, p: string)
    requires Collects(list, all, rows, s, c)
    ensures Collects(if Changed(rows, s, c, p) then list + [p] else list, all + multiset{p}, rows, s, c)
  {
  }

  lemma CollectsBackOneMore(list: seq<string>, all: multiset<string>, rows: map<Key, Row>, s: Sync, p: string)
    requires CollectsBack(list, all, rows, s)
    ensures CollectsBack(if Back(rows, s, p) then list + [p] else list, all + multiset{p}, rows, s)
  {
  }

  lemma ClassifyKeepsPartition(l: ChangeLists, rows: map<Key, Row>, s: Sync, paths: multiset<string>, p: string)
    requires Partitions(l, rows, s, paths) && p in s.listing
    ensures Partitions(Classify(l, rows, s, p), rows, s, paths + multiset{p})
  {
    CollectsOneMore(l.added, paths, rows, s, Added, p);
    CollectsOneMore(l.updated, paths, rows, s, Updated, p);
    CollectsOneMore(l.same, paths, rows, s, Same, p);
    CollectsOneMore(l.skipped, paths, rows, s, SkippedStale, p);
    CollectsBackOneMore(l.restored, paths, rows, s, p);
  }

  /** The four lists together hold each listed path exactly once. */
  lemma ListsPartitionTheListing(l: ChangeLists, rows: map<Key, Row>, s: Sync, paths: multiset<string>)
    requires Partitions(l, rows, s, paths)
    ensures multiset(l.added) + multiset(l.updated) + multiset(l.same) + multiset(l.skipped) == paths
  {
    var sum := multiset(l.added) + multiset(l.updated) + multiset(l.same) + multiset(l.skipped);
    forall p ensures sum[p] == paths[p] {
      if p in s.listing {
        var c := ChangeOf(rows, s, p);
        assert Changed(rows, s, c, p);
      } else {
        assert p !in paths;
      }
    }
  }

  lemma ClassifyIsLocal(l: ChangeLists, rows: map<Key, Row>, rows': map<Key, Row>, s: Sync, p: string)
    requires p in s.listing && Get(rows, Key(s.ref, p)) == Get(rows', Key(s.ref, p))
    ensures Classify(l, rows, s, p) == Classify(l, rows', s, p)
  {
  }

  lemma SkippedExactlyWhenStale(skipped: seq<string>, rows: map<Key, Row>, s: Sync, items: seq<Item>)
    requires Distinct(items) && s.listing == Listing(items)
    requires Collects(skipped, Paths(items), rows, s, SkippedStale)
    ensures skipped == [] <==> !AnyStale(rows, s)
  {
    if skipped != [] {
      var p := skipped[0];
      assert p in multiset(skipped);
      assert Stale(rows, s, Key(s.ref, p));
    }
    if k :| Stale(rows, s, k) {
      EachPathOnce(items, k.path);
      assert k == Key(s.ref, k.path);
      assert Changed(rows, s, SkippedStale, k.path);
      assert multiset(skipped)[k.path] == Paths(items)[k.path];
      assert k.path in multiset(skipped);
    }
  }

  /** The rows after the listed paths in `done` have been stored. */
  ghost predicate UpsertedTo(before: map<Key, Row>, after: map<Key, Row>, s: Sync, done: set<string>)
    requires done <= s.listing.Keys
  {
    && (forall k :: k in after <==> k in before || (k.ref == s.ref && k.path in done))
    && (forall k <- after :: after[k] ==
          if k.ref == s.ref && k.path in done then Upsert(Get(before, k), s.listing[k.path], s) else before[k])
  }

  lemma UpsertedOneMore(before: map<Key, Row>, mid: map<Key, Row>, s: Sync, done: set<string>, p: string)
    requires done <= s.listing.Keys && p in s.listing && p !in done
    requires UpsertedTo(before, mid, s, done)
    ensures Get(mid, Key(s.ref, p)) == Get(before, Key(s.ref, p))
    ensures UpsertedTo(before, mid[Key(s.ref, p) := Upsert(Get(mid, Key(s.ref, p)), s.listing[p], s)], s, done + {p})
  {
  }

  /** The analyser's input for each handled path is the text stored on that path's row. */
  ghost predicate Agrees(contents: map<string, string>, rows: map<string, Key>, stored: map<Key, Row>, ref: Ref,
                         done: set<string>) {
    && contents.Keys == done && rows.Keys == done
    && (forall p <- done :: rows[p] == Key(ref, p) && rows[p] in stored && contents[p] == stored[rows[p]].content)
  }

  lemma AgreesOneMore(contents: map<string, string>, keys: map<string, Key>, stored: map<Key, Row>, ref: Ref,
                      done: set<string>, path: string, row: Row)
    requires contents.Keys == done + {path} && keys.Keys == done
    requires forall p <- done :: p != path ==>
               keys[p] == Key(ref, p) && keys[p] in stored && contents[p] == stored[keys[p]].content
    ensures Agrees(contents[path := row.content], keys[path := Key(ref, path)], stored[Key(ref, path) := row], ref,
              done + {path})
  {
  }

  ghost function AfterReconcile(db: Db, ref: Ref, fetched: set<string>, now: int): Db {
    Db(map k | k in db.rows :: if Missing(db.rows, ref, fetched, k) then Remove(db.rows[k], now) else db.rows[k],
       map f | f in db.findings ::
         if Missing(db.rows, ref, fetched, db.findings[f].file) then Resolve(db.findings[f], now) else db.findings[f])
  }

  /** Upserting, and reconciling when no write was lost, is the committed transaction. */
  lemma LoopsMakeTheCommit(db: Db, mid: map<Key, Row>, s: Sync, now: int)
    requires !Unreadable(s)
    requires UpsertedTo(db.rows, mid, s, s.listing.Keys)
    ensures Commit(db, s, now) ==
            if Reconciles(db.rows, s) then AfterReconcile(Db(mid, db.findings), s.ref, s.listing.Keys, now)
            else Db(mid, db.findings)
  {
    var end := if Reconciles(db.rows, s) then AfterReconcile(Db(mid, db.findings), s.ref, s.listing.Keys, now)
        else Db(mid, db.findings);
    var commit := Commit(db, s, now);
    forall k ensures k in commit.rows <==> k in end.rows {
      if Lists(s, k) { assert k == Key(s.ref, k.path); }
    }
    assert commit.rows == end.rows;
    assert commit.findings == end.findings;
  }

  /** All that one sync promises about the tables it leaves and the result it returns. */
  ghost predicate Outcome(db: Db, after: Db, s: Sync, items: seq<Item>, now: int,
                          contents: map<string, string>, keys: map<string, Key>, lists: ChangeLists,
                              deleted: seq<string>)
  {
    && after == Commit(db, s, now)
    && Agrees(contents, keys, after.rows, s.ref, s.listing.Keys)
    && Partitions(lists, db.rows, s, Paths(items))
    && (forall p :: multiset(deleted)[p] ==
          if !Unreadable(s) && Reconciles(db.rows, s) && GoneLive(db.rows, s.ref, s.listing.Keys, p) then 1 else 0)
  }

  // One copy of p in the list when the condition holds, else none.
  ghost predicate OnceIf(list: seq<string>, p: string, c: bool) {
    multiset(list)[p] == if c then 1 else 0
  }

  /** Which list a path is in, from the rows before and after the sync alone. */
  lemma ListsSayWhatChanged(db: Db, after: Db, s: Sync, items: seq<Item>, now: int, contents: map<string, string>,
                            keys: map<string, Key>, lists: ChangeLists, deleted: seq<string>, p: string)
    requires HashesAgree(db.rows) && Distinct(items) && s.listing == Listing(items)
    requires Outcome(db, after, s, items, now, contents, keys, lists, deleted)
    ensures var k := Key(s.ref, p);
            var known, listed := k in db.rows, p in s.listing;
            var later := known && db.rows[k].fetchedAt.Some? && db.rows[k].fetchedAt.value > s.stamp;
            && OnceIf(lists.added, p, listed && !known)
            && OnceIf(lists.skipped, p, listed && later)
            && OnceIf(lists.same, p, listed && known && !later && db.rows[k].content == s.listing[p])
            && OnceIf(lists.updated, p, listed && known && !later && db.rows[k].content != s.listing[p])
            && OnceIf(lists.restored, p, listed && known && !later && db.rows[k].deletedAt.Some?)
            && OnceIf(deleted, p, known && db.rows[k].deletedAt.None? && after.rows[k].deletedAt.Some?)
  {
    EachPathOnce(items, p);
    var k := Key(s.ref, p);
    if k in db.rows {
      CommitMovesOneRow(db, s, now, k);
    }
    assert GoneLive(db.rows, s.ref, s.listing.Keys, p) <==>
        k in db.rows && p !in s.listing && db.rows[k].deletedAt.None?;
  }

  lemma ListedIsReadable(s: Sync, items: seq<Item>)
    requires Distinct(items) && s.listing == Listing(items) && (s.head.Some? || items != [])
    ensures !Unreadable(s)
  {
    if items != [] {
      ListingHolds(items, 0);
    }
  }

  /** The tables before and after the reconciliation, or the same tables when it was not to happen. */
  ghost predicate Reconciled(before: Db, after: Db, ref: Ref, listed: set<string>, wanted: bool, now: int,
                             deleted: seq<string>) {
    if wanted
    then after == AfterReconcile(before, ref, listed, now)
         && forall p :: multiset(deleted)[p] == if GoneLive(before.rows, ref, listed, p) then 1 else 0
    else after == before && deleted == []
  }

  lemma OutcomeReached(db: Db, mid: map<Key, Row>, after: Db, s: Sync, items: seq<Item>, now: int,
                       contents: map<string, string>, keys: map<string, Key>, lists: ChangeLists, deleted: seq<string>)
    requires Distinct(items) && s.listing == Listing(items) && !Unreadable(s)
    requires UpsertedTo(db.rows, mid, s, s.listing.Keys)
    requires Partitions(lists, db.rows, s, Paths(items))
    requires Agrees(contents, keys, mid, s.ref, s.listing.Keys)
    requires Reconciled(Db(mid, db.findings), after, s.ref, s.listing.Keys,
                        s.reconcile && lists.skipped == [], now, deleted)
    ensures Outcome(db, after, s, items, now, contents, keys, lists, deleted)
    ensures HashesAgree(db.rows) ==> HashesAgree(after.rows)
  {
    if HashesAgree(db.rows) {
      CommitKeepsHashes(db, s, now);
    }
    SkippedExactlyWhenStale(lists.skipped, db.rows, s, items);
    LoopsMakeTheCommit(db, mid, s, now);
    assert forall p :: GoneLive(mid, s.ref, s.listing.Keys, p) == GoneLive(db.rows, s.ref, s.listing.Keys, p);
  }

  // ------------------------------------------------- the objects

  /** What one sync saw and changed. */
  class SyncResult {
    var contents: map<string, string>
    var rows: map<string, Key>
    var lists: ChangeLists
    var deleted: seq<string>
    const refUnresolved: bool

    constructor (unresolved: bool)
      ensures contents == map[] && rows == map[] && deleted == [] && lists == ChangeLists([], [], [], [], [])
      ensures refUnresolved == unresolved
    {
      contents, rows, deleted := map[], map[], [];
      lists := ChangeLists([], [], [], [], []);
      refUnresolved := unresolved;
    }

    ghost predicate AgreesWith(stored: map<Key, Row>, ref: Ref, done: set<string>)
      reads this
    {
      Agrees(contents, rows, stored, ref, done)
    }
  }

  class Store {
    var rows: map<Key, Row>
    var findings: map<nat, Finding>

    constructor ()
      ensures Tables() == Db(map[], map[])
    {
      rows, findings := map[], map[];
    }

    function Tables(): Db
      reads this
    {
      Db(rows, findings)
    }

    /** Store one listed path and say what changed. */
    method UpsertOne(ref: Ref, stamp: int, head: Option<string>, path: string, result: SyncResult, ghost s: Sync)
      requires s.ref == ref && s.stamp == stamp && s.head == head
      requires path in s.listing && path in result.contents && result.contents[path] == s.listing[path]
      requires HashesAgree(rows)
      modifies this`rows, result`contents, result`rows, result`lists
      ensures var k := Key(s.ref, path);
              && rows == old(rows)[k := Upsert(Get(old(rows), k), s.listing[path], s)]
              && result.contents == old(result.contents)[path := rows[k].content]
              && result.rows == old(result.rows)[path := k]
      ensures result.lists == Classify(old(result.lists), old(rows), s, path)
      ensures HashesAgree(rows)
    {
      var k := Key(ref, path);
      var content := result.contents[path];
      var hash := Sha256(content);
      result.rows := result.rows[path := k];
      var lists := result.lists;
      if k !in rows {
        rows := rows[k := Row(hash, content, Some(stamp), head, None, None)];
        result.lists := lists.(added := lists.added + [path]);
        return;
      }
      var wf := rows[k];
      if wf.fetchedAt.Some? && wf.fetchedAt.value > stamp {
        result.lists := lists.(skipped := lists.skipped + [path]);
        result.contents := result.contents[path := wf.content];
        return;
      }
      if wf.hash == hash {
        lists := lists.(same := lists.same + [path]);
      } else {
        lists := lists.(updated := lists.updated + [path]);
        wf := wf.(hash := hash, content := content);
      }
      if wf.deletedAt.Some? {
        wf := wf.(deletedAt := None);
        lists := lists.(restored := lists.restored + [path]);
      }
      if wf.fix.Some? {
        wf := wf.(fix := Some(TryAdvance(wf.fix.value, Restore)));
      }
      wf := wf.(fetchedAt := Some(stamp), sha := head);
      rows := rows[k := wf];
      result.lists := lists;
    }

    /** The body of the upsert loop: one listed item read into the result and stored. */
    method StoreItem(ref: Ref, stamp: int, head: Option<string>, item: Item, result: SyncResult,
                     ghost s: Sync, ghost before: map<Key, Row>, ghost done: set<string>, ghost paths: multiset<string>)
      requires s.ref == ref && s.stamp == stamp && s.head == head
      requires done <= s.listing.Keys && item.path !in done && Get(s.listing, item.path) == Some(item.content)
      requires HashesAgree(rows)
      requires UpsertedTo(before, rows, s, done)
      requires Partitions(result.lists, before, s, paths)
      requires result.AgreesWith(rows, ref, done)
      modifies this`rows, result`contents, result`rows, result`lists
      ensures HashesAgree(rows)
      ensures UpsertedTo(before, rows, s, done + {item.path})
      ensures Partitions(result.lists, before, s, paths + multiset{item.path})
      ensures result.AgreesWith(rows, ref, done + {item.path})
    {
      var path := item.path;
      result.contents := result.contents[path := item.content];
      UpsertedOneMore(before, rows, s, done, path);
      ClassifyIsLocal(result.lists, rows, before, s, path);
      ClassifyKeepsPartition(result.lists, before, s, paths, path);
      ghost var was, contents, keys := rows, result.contents, result.rows;
      UpsertOne(ref, stamp, head, path, result, s);
      AgreesOneMore(contents, keys, was, ref, done, path, rows[Key(ref, path)]);
    }

    method UpsertAll(ref: Ref, resolvedAt: int, headSha: Option<string>, items: seq<Item>, result: SyncResult,
                     ghost reconcile: bool)
      requires HashesAgree(rows) && Distinct(items)
      requires result.contents == map[] && result.rows == map[] && result.lists == ChangeLists([], [], [], [], [])
      modifies this`rows, result`contents, result`rows, result`lists
      ensures var s := Sync(ref, resolvedAt, headSha, Listing(items), reconcile);
              && UpsertedTo(old(rows), rows, s, s.listing.Keys)
              && Partitions(result.lists, old(rows), s, Paths(items))
              && result.AgreesWith(rows, ref, s.listing.Keys)
      ensures HashesAgree(rows)
    {
      ghost var s := Sync(ref, resolvedAt, headSha, Listing(items), reconcile);
      for i := 0 to |items|
        invariant Listing(items[..i]).Keys <= s.listing.Keys
        invariant HashesAgree(rows)
        invariant UpsertedTo(old(rows), rows, s, Listing(items[..i]).Keys)
        invariant Partitions(result.lists, old(rows), s, Paths(items[..i]))
        invariant result.AgreesWith(rows, ref, Listing(items[..i]).Keys)
      {
        NextItem(items, i);
        ListingGrows(items, i + 1);
        StoreItem(ref, resolvedAt, headSha, items[i], result, s, old(rows), Listing(items[..i]).Keys,
            Paths(items[..i]));
      }
      assert items[..|items|] == items;
    }

    method ResolveIssues(k: Key, now: int)
      modifies this`findings
      ensures findings == map f | f in old(findings) ::
                if old(findings)[f].file == k then Resolve(old(findings)[f], now) else old(findings)[f]
    {
      var open := set f | f in findings && findings[f].file == k && findings[f].resolvedAt.None?;
      var todo := open;
      while todo != {}
        invariant todo <= open
        invariant findings.Keys == old(findings.Keys)
        invariant forall f <- findings :: findings[f] == if f in open - todo then Resolve(old(findings)[f], now)
                    else old(findings)[f]
      {
        var f :| f in todo;
        todo := todo - {f};
        findings := findings[f := findings[f].(resolvedAt := Some(now), reason := Some(FileRemoved))];
      }
    }

    method WithdrawRow(k: Key, now: int, result: SyncResult)
      requires k in rows
      modifies this, result`deleted
      ensures rows == old(rows)[k := Remove(old(rows)[k], now)]
      ensures findings == map f | f in old(findings) ::
                if old(findings)[f].file == k then Resolve(old(findings)[f], now) else old(findings)[f]
      ensures result.deleted == old(result.deleted) + if old(rows)[k].deletedAt.None? then [k.path] else []
    {
      var wf := rows[k];
      if wf.deletedAt.None? {
        wf := wf.(deletedAt := Some(now));
        result.deleted := result.deleted + [k.path];
      }
      ResolveIssues(k, now);
      if wf.fix.Some? {
        wf := wf.(fix := Some(TryAdvance(wf.fix.value, SupersedeDeletedFile)));
      }
      rows := rows[k := wf];
    }

    /** Withdraw every row of the branch whose path was not listed. */
    method ReconcileMissing(ref: Ref, now: int, fetched: set<string>, result: SyncResult)
      requires result.deleted == []
      modifies this, result`deleted
      ensures Tables() == AfterReconcile(old(Tables()), ref, fetched, now)
      ensures forall p :: multiset(result.deleted)[p] == if GoneLive(old(rows), ref, fetched, p) then 1 else 0
    {
      var missing := set k | k in rows && k.ref == ref && k.path !in fetched;
      var todo := missing;
      while todo != {}
        invariant todo <= missing
        invariant rows.Keys == old(rows.Keys)
        invariant forall k <- rows :: rows[k] == if k in missing - todo then Remove(old(rows)[k], now) else old(rows)[k]
        invariant findings.Keys == old(findings.Keys)
        invariant forall f <- findings :: findings[f] ==
                    if old(findings)[f].file in missing - todo then Resolve(old(findings)[f], now) else old(findings)[f]
        invariant DeletedAre(result.deleted, old(rows), ref, missing - todo)
      {
        var k :| k in todo;
        DeletedOneMore(result.deleted, old(rows), ref, missing - todo, k);
        assert missing - (todo - {k}) == missing - todo + {k};
        WithdrawRow(k, now, result);
        todo := todo - {k};
      }
    }

    /** A lost write means a newer sync owns the branch, deletions included. */
    method ReconcileUnlessStale(ref: Ref, now: int, reconcileMissing: bool, result: SyncResult)
      requires result.deleted == []
      modifies this, result`deleted
      ensures Reconciled(old(Tables()), Tables(), ref, result.contents.Keys,
                         reconcileMissing && result.lists.skipped == [], now, result.deleted)
    {
      if reconcileMissing && |result.lists.skipped| == 0 {
        ReconcileMissing(ref, now, result.contents.Keys, result);
      }
    }

    /** The transaction of a sync whose listing is not in doubt: upserts, then reconciliation unless a write was
        lost. */
    method StoreListing(ref: Ref, resolvedAt: int, headSha: Option<string>, items: seq<Item>, reconcileMissing: bool,
                        now: int)
      returns (result: SyncResult)
      requires HashesAgree(rows) && Distinct(items)
      requires headSha.Some? || items != []
      modifies this
      ensures HashesAgree(rows) && fresh(result) && !result.refUnresolved
      ensures Outcome(old(Tables()), Tables(), Sync(ref, resolvedAt, headSha, Listing(items), reconcileMissing),
                items, now,
                      result.contents, result.rows, result.lists, result.deleted)
    {
      result := new SyncResult(false);
      ghost var s := Sync(ref, resolvedAt, headSha, Listing(items), reconcileMissing);
      UpsertAll(ref, resolvedAt, headSha, items, result, reconcileMissing);
      ghost var mid := rows;
      ReconcileUnlessStale(ref, now, reconcileMissing, result);
      ListedIsReadable(s, items);
      OutcomeReached(old(Tables()), mid, Tables(), s, items, now, result.contents, result.rows, result.lists,
          result.deleted);
    }

    /** One whole sync: the tables become the committed transaction, and the result says exactly what changed. An
        unreadable listing, or an empty one whose ref did not resolve, changes nothing at all. */
    method SyncWorkflowFiles(ref: Ref, resolvedAt: int, headSha: Option<string>, fetched: Option<seq<Item>>,
                             reconcileMissing: bool, now: int)
      returns (outcome: Option<SyncResult>)
      requires HashesAgree(rows)
      requires fetched.Some? ==> Distinct(fetched.value)
      modifies this
      ensures HashesAgree(rows)
      ensures outcome.None? <==> fetched.None?
      ensures fetched.None? || (headSha.None? && fetched.value == []) ==> Tables() == old(Tables())
      ensures fetched.Some? ==>
                var s := Sync(ref, resolvedAt, headSha, Listing(fetched.value), reconcileMissing);
                var r := outcome.value;
                && fresh(r)
                && r.refUnresolved == (headSha.None? && fetched.value == [])
                && Outcome(old(Tables()), Tables(), s, fetched.value, now, r.contents, r.rows, r.lists, r.deleted)
    {
      if fetched.None? {
        return None;
      }
      var items := fetched.value;
      if headSha.None? && |items| == 0 {
        var empty := new SyncResult(true);
        return Some(empty);
      }
      var result := StoreListing(ref, resolvedAt, headSha, items, reconcileMissing, now);
      outcome := Some(result);
    }
  }

  predicate Missing(rows: map<Key, Row>, ref: Ref, fetched: set<string>, k: Key) {
    k in rows && k.ref == ref && k.path !in fetched
  }

  /** The list holds once the path of each withdrawn row that was live, and nothing else. */
  ghost predicate DeletedAre(deleted: seq<string>, rows: map<Key, Row>, ref: Ref, withdrawn: set<Key>)
    requires withdrawn <= rows.Keys
  {
    forall p :: multiset(deleted)[p] ==
      if Key(ref, p) in withdrawn && rows[Key(ref, p)].deletedAt.None? then 1 else 0
  }

  lemma DeletedOneMore(deleted: seq<string>, rows: map<Key, Row>, ref: Ref, withdrawn: set<Key>, k: Key)
    requires withdrawn <= rows.Keys && DeletedAre(deleted, rows, ref, withdrawn)
    requires k in rows && k.ref == ref && k !in withdrawn
    ensures DeletedAre(deleted + if rows[k].deletedAt.None? then [k.path] else [], rows, ref, withdrawn + {k})
  {
    assert forall p :: Key(ref, p) == k <==> p == k.path;
  }

  predicate GoneLive(rows: map<Key, Row>, ref: Ref, fetched: set<string>, p: string) {
    Key(ref, p) in rows && p !in fetched && rows[Key(ref, p)].deletedAt.None?
  }
}
