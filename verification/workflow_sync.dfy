/** Workflow-file rows of every branch, and what one committed sync does to them. */
module WorkflowSync {
  import opened Wrappers
  import opened FixMachine

  // SHA-256 is taken as a free, hence injective, function of the text.
  datatype Digest = Sha256(text: string)

  datatype Ref = Ref(repo: nat, branch: string)
  datatype Key = Key(ref: Ref, path: string)

  datatype Row = Row(
    hash: Digest,
    content: string,
    fetchedAt: Option<int>,
    sha: Option<string>,
    deletedAt: Option<int>,
    fix: Option<FixStatus>)

  datatype Reason = FileRemoved | OtherReason
  datatype Finding = Finding(file: Key, resolvedAt: Option<int>, reason: Option<Reason>)

  datatype Db = Db(rows: map<Key, Row>, findings: map<nat, Finding>)

  /** One sync as it reaches its transaction: its stamp, what it resolved, what it read. */
  datatype Sync = Sync(ref: Ref, stamp: int, head: Option<string>, listing: map<string, string>, reconcile: bool)

  // "No workflows" and "branch is gone" cannot be told apart.
  predicate Unreadable(s: Sync) {
    s.head.None? && s.listing == map[]
  }

  predicate Lists(s: Sync, k: Key) {
    k.ref == s.ref && k.path in s.listing
  }

  predicate StaleRow(row: Row, stamp: int) {
    row.fetchedAt.Some? && row.fetchedAt.value > stamp
  }

  predicate Stale(rows: map<Key, Row>, s: Sync, k: Key) {
    Lists(s, k) && k in rows && StaleRow(rows[k], s.stamp)
  }

  ghost predicate AnyStale(rows: map<Key, Row>, s: Sync) {
    exists k :: Stale(rows, s, k)
  }

  function RestoreFix(fix: Option<FixStatus>): Option<FixStatus> {
    if fix.Some? then Some(TryAdvance(fix.value, Restore)) else None
  }

  function WithdrawFix(fix: Option<FixStatus>): Option<FixStatus> {
    if fix.Some? then Some(TryAdvance(fix.value, SupersedeDeletedFile)) else None
  }

  /** The row one listed path is stored on. */
  function Upsert(stored: Option<Row>, content: string, s: Sync): Row {
    match stored
    case None => Row(Sha256(content), content, Some(s.stamp), s.head, None, None)
    case Some(row) =>
      if StaleRow(row, s.stamp) then row
      else if row.hash == Sha256(content) then
        row.(fetchedAt := Some(s.stamp), sha := s.head, deletedAt := None, fix := RestoreFix(row.fix))
      else
        Row(Sha256(content), content, Some(s.stamp), s.head, None, RestoreFix(row.fix))
  }

  /** The row of a path its branch no longer has. */
  function Remove(row: Row, now: int): Row {
    row.(deletedAt := if row.deletedAt.None? then Some(now) else row.deletedAt, fix := WithdrawFix(row.fix))
  }

  function Resolve(f: Finding, now: int): Finding {
    if f.resolvedAt.None? then f.(resolvedAt := Some(now), reason := Some(FileRemoved)) else f
  }

  ghost predicate Reconciles(rows: map<Key, Row>, s: Sync) {
    s.reconcile && !AnyStale(rows, s)
  }

  ghost function CommitRow(rows: map<Key, Row>, s: Sync, now: int, k: Key): Row
    requires k in rows || Lists(s, k)
  {
    if Lists(s, k) then Upsert(Get(rows, k), s.listing[k.path], s)
    else if k.ref == s.ref && Reconciles(rows, s) then Remove(rows[k], now)
    else rows[k]
  }

  function ListedKeys(s: Sync): set<Key> {
    set p | p in s.listing :: Key(s.ref, p)
  }

  /** The whole transaction of one sync, as a function of the tables it finds. */
  ghost function Commit(db: Db, s: Sync, now: int): Db {
    if Unreadable(s) then db
    else Db(
      map k | k in db.rows.Keys + ListedKeys(s) :: CommitRow(db.rows, s, now, k),
      map f | f in db.findings ::
        if Withdrawn(db, s, db.findings[f].file) then Resolve(db.findings[f], now) else db.findings[f])
  }

  // The rows whose path this sync found missing and was entitled to withdraw.
  ghost predicate Withdrawn(db: Db, s: Sync, k: Key) {
    k in db.rows && k.ref == s.ref && !Lists(s, k) && Reconciles(db.rows, s)
  }

  predicate HashesAgree(rows: map<Key, Row>) {
    forall k <- rows :: rows[k].hash == Sha256(rows[k].content)
  }

  /** The live rows of one branch: path to stored text. */
  function Live(rows: map<Key, Row>, ref: Ref): map<string, string> {
    map k | k in rows && k.ref == ref && rows[k].deletedAt.None? :: k.path := rows[k].content
  }

  // ---------------------------------------------------------------- one commit

  lemma CommitKeepsHashes(db: Db, s: Sync, now: int)
    requires HashesAgree(db.rows)
    ensures HashesAgree(Commit(db, s, now).rows)
  {
  }

  /** Rows are never dropped and their write cursor never moves back. */
  lemma CursorNeverDecreases(db: Db, s: Sync, now: int, k: Key)
    requires k in db.rows
    ensures k in Commit(db, s, now).rows
    ensures var was, now' := db.rows[k].fetchedAt, Commit(db, s, now).rows[k].fetchedAt;
            was.Some? ==> now'.Some? && was.value <= now'.value
  {
  }

  lemma CleanSyncRows(db: Db, s: Sync, now: int, k: Key)
    requires HashesAgree(db.rows)
    requires !Unreadable(s) && s.reconcile && !AnyStale(db.rows, s)
    requires k in Commit(db, s, now).rows && k.ref == s.ref
    ensures var row := Commit(db, s, now).rows[k];
            if k.path in s.listing then row.deletedAt.None? && row.content == s.listing[k.path] else row.deletedAt.Some?
  {
    assert !Stale(db.rows, s, k);
  }

  /** A sync that loses no write and reconciles leaves its branch exactly as it listed it. */
  lemma CleanSyncMirrorsListing(db: Db, s: Sync, now: int)
    requires HashesAgree(db.rows)
    requires (s.head.Some? || s.listing != map[]) && s.reconcile && !AnyStale(db.rows, s)
    ensures var after := Commit(db, s, now);
            && Live(after.rows, s.ref) == s.listing
            && (forall f <- after.findings :: var file := after.findings[f].file;
                file in db.rows && file.ref == s.ref && file.path !in s.listing ==> after.findings[f].resolvedAt.Some?)
            && (forall k <- db.rows | k.ref != s.ref :: after.rows[k] == db.rows[k])
            && (forall k <- after.rows | k.ref != s.ref :: k in db.rows)
            && (forall f <- db.findings | db.findings[f].file.ref != s.ref :: after.findings[f] == db.findings[f])
  {
    var after := Commit(db, s, now);
    forall p | p in s.listing ensures Key(s.ref, p) in after.rows {
      assert Lists(s, Key(s.ref, p));
    }
    forall k | k in after.rows && k.ref == s.ref
      ensures if k.path in s.listing then after.rows[k].deletedAt.None? && after.rows[k].content == s.listing[k.path]
              else after.rows[k].deletedAt.Some?
    {
      CleanSyncRows(db, s, now, k);
    }
    LiveIsListing(after.rows, s.ref, s.listing);
  }

  lemma LiveIsListing(rows: map<Key, Row>, ref: Ref, listing: map<string, string>)
    requires forall p <- listing :: Key(ref, p) in rows
    requires forall k <- rows | k.ref == ref ::
               if k.path in listing then rows[k].deletedAt.None? && rows[k].content == listing[k.path]
               else rows[k].deletedAt.Some?
    ensures Live(rows, ref) == listing
  {
    var live := Live(rows, ref);
    forall p | p in listing ensures p in live && live[p] == listing[p] {
      assert Key(ref, p) in rows;
    }
    assert live.Keys <= listing.Keys;
  }

  /** A row found missing: deleted as of now unless it was already, its text kept, its fix superseded if it was
      waiting, being worked on, ready or delivered. */
  ghost predicate WithdrawnFrom(was: Row, row: Row, now: int) {
    && row.deletedAt == (if was.deletedAt.None? then Some(now) else was.deletedAt)
    && row.fix == (
         if was.fix in {Some(Pending), Some(Generating), Some(Ready), Some(Delivering), Some(Delivered)}
         then Some(SupersededByDeletedFile) else was.fix)
    && (row.content, row.hash, row.fetchedAt, row.sha) == (was.content, was.hash, was.fetchedAt, was.sha)
  }

  /** A row listed in time: live, its fix ready again if it had been superseded. */
  ghost predicate RestoredFrom(was: Row, row: Row) {
    && row.deletedAt == None
    && row.fix == (
         if was.fix in {Some(SupersededByClosedPr), Some(SupersededByDeletedFile)} then Some(Ready) else was.fix)
  }

  /** What a commit does to the deletion time and the fix of a stored row, whatever its status. */
  lemma CommitMovesOneRow(db: Db, s: Sync, now: int, k: Key)
    requires k in db.rows
    ensures var was, row := db.rows[k], Commit(db, s, now).rows[k];
            if Lists(s, k) && !Stale(db.rows, s, k) then RestoredFrom(was, row)
            else if (s.head.Some? || s.listing != map[]) && Withdrawn(db, s, k) then WithdrawnFrom(was, row, now)
            else row == was
  {
    var was := db.rows[k];
    if Lists(s, k) && !StaleRow(was, s.stamp) {
      assert RestoredFrom(was, Upsert(Some(was), s.listing[k.path], s));
    }
    assert WithdrawnFrom(was, Remove(was, now), now);
  }

  /** A fix becomes deliverable again exactly when its path is listed without a lost write and it had been superseded,
      by a deleted file or by a closed pull request alike. */
  lemma FixRevivedExactlyWhen(db: Db, s: Sync, now: int, k: Key)
    requires k in db.rows && db.rows[k].fix != Some(Ready)
    ensures Commit(db, s, now).rows[k].fix == Some(Ready) <==>
            && Lists(s, k) && !Stale(db.rows, s, k)
            && (db.rows[k].fix == Some(SupersededByDeletedFile) || db.rows[k].fix == Some(SupersededByClosedPr))
  {
  }

  /** A fix is withdrawn exactly when its path is found missing by a sync entitled to say so, from every status that is
      neither terminal nor superseded; so no fix that could still be delivered outlives its file. */
  lemma FixWithdrawnExactlyWhen(db: Db, s: Sync, now: int, k: Key)
    requires k in db.rows && db.rows[k].fix.Some? && !db.rows[k].fix.value.SupersededByDeletedFile?
    ensures var fix, fix' := db.rows[k].fix.value, Commit(db, s, now).rows[k].fix;
            && (fix' == Some(SupersededByDeletedFile) <==>
                  && (s.head.Some? || s.listing != map[]) && Withdrawn(db, s, k)
                  && fix in {Pending, Generating, Ready, Delivering, Delivered})
            && ((s.head.Some? || s.listing != map[]) && Withdrawn(db, s, k) ==>
                  fix' !in {Some(Pending), Some(Generating), Some(Ready), Some(Delivering), Some(Delivered)})
  {
  }
}
