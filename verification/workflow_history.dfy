/** Any number of syncs, each stamping a time, reading its branch and committing, in any order. */
module WorkflowHistory {
  import opened Wrappers
  import opened FixMachine
  import opened WorkflowSync

  /** A committed sync. `version` is the branch head it read, `floor` the head when it took its stamp. */
  datatype Entry = Entry(sync: Sync, now: int, floor: nat, version: nat)

  ghost function Replay(db: Db, log: seq<Entry>): Db {
    if log == [] then db
    else Commit(Replay(db, log[..|log| - 1]), log[|log| - 1].sync, log[|log| - 1].now)
  }

  // ------------------------------------------------- what a row holds after any log

  ghost predicate Untouched(db: Db, log: seq<Entry>, k: Key) {
    forall i | 0 <= i < |log| :: Lists(log[i].sync, k) ==> k in db.rows && StaleRow(db.rows[k], log[i].sync.stamp)
  }

  /** Entry i listed k with the largest stamp of all; among equal stamps it committed last. */
  ghost predicate Wins(log: seq<Entry>, i: nat, k: Key)
    requires i < |log|
  {
    && Lists(log[i].sync, k)
    && (forall j | 0 <= j < |log| && Lists(log[j].sync, k) :: log[j].sync.stamp <= log[i].sync.stamp)
    && (forall j | i < j < |log| && Lists(log[j].sync, k) :: log[j].sync.stamp < log[i].sync.stamp)
  }

  ghost predicate HoldsReadOf(row: Row, s: Sync, path: string)
  {
    && path in s.listing
    && row.content == s.listing[path]
    && row.hash == Sha256(row.content)
    && row.fetchedAt == Some(s.stamp)
    && row.sha == s.head
  }

  lemma {:induction false} ReplayKeepsHashes(db: Db, log: seq<Entry>)
    requires HashesAgree(db.rows)
    ensures HashesAgree(Replay(db, log).rows)
  {
    if log != [] {
      ReplayKeepsHashes(db, log[..|log| - 1]);
    }
  }

  ghost predicate SameText(row: Row, was: Row) {
    row.content == was.content && row.hash == was.hash && row.fetchedAt == was.fetchedAt && row.sha == was.sha
  }

  /** The stored text of k after a log: untouched, or what the winning sync read. */
  ghost predicate IsLargestStampedRead(db: Db, log: seq<Entry>, k: Key, row: Row) {
    if Untouched(db, log, k) then k in db.rows && SameText(row, db.rows[k])
    else exists i :: 0 <= i < |log| && Wins(log, i, k) && HoldsReadOf(row, log[i].sync, k.path)
  }

  lemma CommitOneRow(db: Db, s: Sync, now: int, k: Key)
    requires HashesAgree(db.rows)
    ensures k in Commit(db, s, now).rows <==> k in db.rows || Lists(s, k)
    ensures k in Commit(db, s, now).rows ==>
              if Lists(s, k) && !Stale(db.rows, s, k) then HoldsReadOf(Commit(db, s, now).rows[k], s, k.path)
              else k in db.rows && SameText(Commit(db, s, now).rows[k], db.rows[k])
  {
  }

  lemma WinnerTakesOver(db: Db, log: seq<Entry>, e: Entry, k: Key, was: Option<Row>, row: Row)
    requires Lists(e.sync, k)
    requires was.Some? ==> IsLargestStampedRead(db, log, k, was.value) && !StaleRow(was.value, e.sync.stamp)
    requires was.None? ==> k !in db.rows && forall i | 0 <= i < |log| :: !Lists(log[i].sync, k)
    requires HoldsReadOf(row, e.sync, k.path)
    ensures IsLargestStampedRead(db, log + [e], k, row)
  {
    var all := log + [e];
    forall j | 0 <= j < |log| && Lists(log[j].sync, k) ensures log[j].sync.stamp <= e.sync.stamp {
      if !Untouched(db, log, k) {
        var i :| 0 <= i < |log| && Wins(log, i, k) && HoldsReadOf(was.value, log[i].sync, k.path);
      }
    }
    assert all[|log|] == e;
    assert Wins(all, |log|, k);
    if !Untouched(db, log, k) {
      var j :| 0 <= j < |log| && Lists(log[j].sync, k) && !(k in db.rows && StaleRow(db.rows[k], log[j].sync.stamp));
      assert all[j] == log[j];
    }
  }

  lemma WinnerStays(db: Db, log: seq<Entry>, e: Entry, k: Key, was: Row, row: Row)
    requires Lists(e.sync, k) ==> StaleRow(was, e.sync.stamp)
    requires IsLargestStampedRead(db, log, k, was)
    requires SameText(row, was)
    ensures IsLargestStampedRead(db, log + [e], k, row)
  {
    var all := log + [e];
    assert all[|log|] == e;
    if !Untouched(db, log, k) {
      var i :| 0 <= i < |log| && Wins(log, i, k) && HoldsReadOf(was, log[i].sync, k.path);
      assert all[i] == log[i];
      assert Wins(all, i, k);
      var j :| 0 <= j < |log| && Lists(log[j].sync, k) && !(k in db.rows && StaleRow(db.rows[k], log[j].sync.stamp));
      assert all[j] == log[j];
    }
  }

  /** Last write by stamp: the row of k is what the largest-stamped sync listing k read, in whatever order they
      committed. */
  lemma {:induction false} RowIsLargestStampedRead(db: Db, log: seq<Entry>, k: Key)
    requires HashesAgree(db.rows)
    ensures k in Replay(db, log).rows <==> k in db.rows || exists i :: 0 <= i < |log| && Lists(log[i].sync, k)
    ensures k in Replay(db, log).rows ==> IsLargestStampedRead(db, log, k, Replay(db, log).rows[k])
  {
    if log != [] {
      var n := |log| - 1;
      var rest, e := log[..n], log[n];
      RowIsLargestStampedRead(db, rest, k);
      ReplayKeepsHashes(db, rest);
      var mid, end := Replay(db, rest), Replay(db, log);
      CommitOneRow(mid, e.sync, e.now, k);
      assert rest + [e] == log;
      if Lists(e.sync, k) && !Stale(mid.rows, e.sync, k) {
        WinnerTakesOver(db, rest, e, k, Get(mid.rows, k), end.rows[k]);
      } else if k in mid.rows {
        WinnerStays(db, rest, e, k, mid.rows[k], end.rows[k]);
      }
    }
  }

  // ------------------------------------------------- who loses a write, who may delete

  /** Some stored write or committed sync already carries a later stamp for a path this sync lists. */
  ghost predicate Overtaken(db: Db, log: seq<Entry>, s: Sync) {
    || (exists k :: Stale(db.rows, s, k))
    || (exists i, p :: 0 <= i < |log| && p in s.listing && Lists(log[i].sync, Key(s.ref, p)) &&
         log[i].sync.stamp > s.stamp)
  }

  lemma LatestStampBounds(db: Db, log: seq<Entry>, k: Key, row: Row)
    requires IsLargestStampedRead(db, log, k, row)
    ensures forall i | 0 <= i < |log| && Lists(log[i].sync, k) :: row.fetchedAt.Some? &&
              log[i].sync.stamp <= row.fetchedAt.value
    ensures k in db.rows && db.rows[k].fetchedAt.Some? ==>
              row.fetchedAt.Some? && db.rows[k].fetchedAt.value <= row.fetchedAt.value
    ensures row.fetchedAt.Some? ==>
              || (k in db.rows && row.fetchedAt == db.rows[k].fetchedAt)
              || (exists i :: 0 <= i < |log| && Lists(log[i].sync, k) && row.fetchedAt == Some(log[i].sync.stamp))
  {
    if !Untouched(db, log, k) && k in db.rows && db.rows[k].fetchedAt.Some? {
      var j :| 0 <= j < |log| && Lists(log[j].sync, k) && !StaleRow(db.rows[k], log[j].sync.stamp);
    }
  }

  /** A sync loses a write exactly when a later stamp already reached one of its paths. */
  lemma LosesAWriteExactlyWhenOvertaken(db: Db, log: seq<Entry>, s: Sync)
    requires HashesAgree(db.rows)
    ensures AnyStale(Replay(db, log).rows, s) <==> Overtaken(db, log, s)
  {
    var rows := Replay(db, log).rows;
    forall k | Lists(s, k) ensures Stale(rows, s, k) <==>
        Stale(db.rows, s, k) || exists i :: 0 <= i < |log| && Lists(log[i].sync, k) && log[i].sync.stamp > s.stamp
    {
      RowIsLargestStampedRead(db, log, k);
      if k in rows {
        LatestStampBounds(db, log, k, rows[k]);
      }
    }
    if AnyStale(rows, s) {
      var k :| Stale(rows, s, k);
      if !Stale(db.rows, s, k) {
        var i :| 0 <= i < |log| && Lists(log[i].sync, k) && log[i].sync.stamp > s.stamp;
        assert k == Key(s.ref, k.path);
      }
    }
    if Overtaken(db, log, s) {
      if k :| Stale(db.rows, s, k) {
        assert Stale(rows, s, k);
      } else {
        var i, p :| 0 <= i < |log| && p in s.listing && Lists(log[i].sync, Key(s.ref, p)) &&
            log[i].sync.stamp > s.stamp;
        assert Stale(rows, s, Key(s.ref, p));
      }
    }
  }

  /** A live row is withdrawn by a sync exactly when its branch was read without it and nothing overtook that read. */
  lemma DeletesExactlyWhen(db: Db, log: seq<Entry>, s: Sync, now: int, k: Key)
    requires HashesAgree(db.rows)
    requires k in Replay(db, log).rows && Replay(db, log).rows[k].deletedAt.None?
    ensures Commit(Replay(db, log), s, now).rows[k].deletedAt.Some? <==>
            && k.ref == s.ref && k.path !in s.listing && s.reconcile && (s.head.Some? || s.listing != map[])
            && !Overtaken(db, log, s)
  {
    LosesAWriteExactlyWhenOvertaken(db, log, s);
  }

  /** The file is known by then, and the sync reads its branch without it, reconciles, and is not overtaken. */
  ghost predicate WithdrawsFile(db: Db, log: seq<Entry>, s: Sync, k: Key) {
    && (k in db.rows || exists i :: 0 <= i < |log| && Lists(log[i].sync, k))
    && k.ref == s.ref && k.path !in s.listing && s.reconcile && (s.head.Some? || s.listing != map[])
    && !Overtaken(db, log, s)
  }

  lemma WithdrawnExactlyWhen(db: Db, log: seq<Entry>, s: Sync, k: Key)
    requires HashesAgree(db.rows)
    ensures !Unreadable(s) && Withdrawn(Replay(db, log), s, k) <==> WithdrawsFile(db, log, s, k)
  {
    RowIsLargestStampedRead(db, log, k);
    LosesAWriteExactlyWhenOvertaken(db, log, s);
  }

  ghost predicate FirstWithdraws(db: Db, log: seq<Entry>, i: nat, k: Key)
    requires i < |log|
  {
    && WithdrawsFile(db, log[..i], log[i].sync, k)
    && forall j | 0 <= j < i :: !WithdrawsFile(db, log[..j], log[j].sync, k)
  }

  /** Over any log of commits in any order an open finding is resolved by the first sync that withdraws its file, as of
      that commit and for the file's removal, and by no other; one resolved before keeps its time and reason. */
  lemma {:induction false} FindingResolvedExactlyWhen(db: Db, log: seq<Entry>, f: nat)
    requires HashesAgree(db.rows) && f in db.findings
    ensures var was, after := db.findings[f], Replay(db, log).findings;
            && f in after
            && (was.resolvedAt.Some? ==> after[f] == was)
            && (was.resolvedAt.None? && (forall i | 0 <= i < |log| ::
                 !WithdrawsFile(db, log[..i], log[i].sync, was.file)) ==>
                  after[f] == was)
            && (forall i | 0 <= i < |log| && was.resolvedAt.None? && FirstWithdraws(db, log, i, was.file) ::
                  after[f] == Finding(was.file, Some(log[i].now), Some(FileRemoved)))
  {
    if log != [] {
      var n := |log| - 1;
      var front, e, was := log[..n], log[n], db.findings[f];
      FindingResolvedExactlyWhen(db, front, f);
      WithdrawnExactlyWhen(db, front, e.sync, was.file);
      forall i | 0 <= i < n ensures log[..i] == front[..i] && log[i] == front[i] {
      }
      forall i | 0 <= i < n && FirstWithdraws(db, log, i, was.file) ensures FirstWithdraws(db, front, i, was.file) {
        assert forall j | 0 <= j < i :: log[..j] == front[..j];
      }
      if exists i :: 0 <= i < n && WithdrawsFile(db, front[..i], front[i].sync, was.file) {
        var i := FirstOne(db, front, was.file);
        assert FirstWithdraws(db, front, i, was.file);
      }
    }
  }

  lemma FirstOne(db: Db, log: seq<Entry>, k: Key) returns (i: nat)
    requires exists j :: 0 <= j < |log| && WithdrawsFile(db, log[..j], log[j].sync, k)
    ensures i < |log| && FirstWithdraws(db, log, i, k)
  {
    i := 0;
    while !WithdrawsFile(db, log[..i], log[i].sync, k)
      invariant i < |log| && forall j | 0 <= j < i :: !WithdrawsFile(db, log[..j], log[j].sync, k)
      invariant exists j :: i <= j < |log| && WithdrawsFile(db, log[..j], log[j].sync, k)
      decreases |log| - i
    {
      i := i + 1;
    }
  }

  ghost predicate WithdrawsNothing(before: Db, after: Db) {
    && after.findings == before.findings
    && (forall k <- before.rows :: k in after.rows
          && (after.rows[k].deletedAt.Some? ==> after.rows[k].deletedAt == before.rows[k].deletedAt)
          && (after.rows[k].fix == Some(SupersededByDeletedFile) ==>
               before.rows[k].fix == Some(SupersededByDeletedFile)))
  }

  lemma LosingAWriteWithdrawsNothing(db: Db, s: Sync, now: int)
    requires AnyStale(db.rows, s)
    ensures WithdrawsNothing(db, Commit(db, s, now))
  {
    assert Commit(db, s, now).findings == db.findings;
    forall k | k in db.rows
      ensures var row := Commit(db, s, now).rows[k]; row == db.rows[k] || RestoredFrom(db.rows[k], row)
    {
      CommitMovesOneRow(db, s, now, k);
    }
  }

  /** A sync that commits after a later-stamped one sharing a path deletes, resolves and supersedes nothing. */
  lemma LateSyncWithdrawsNothing(db: Db, log: seq<Entry>, s: Sync, now: int, i: nat, p: string)
    requires HashesAgree(db.rows)
    requires i < |log| && log[i].sync.ref == s.ref && log[i].sync.stamp > s.stamp
    requires p in s.listing && p in log[i].sync.listing
    ensures WithdrawsNothing(Replay(db, log), Commit(Replay(db, log), s, now))
  {
    assert Lists(log[i].sync, Key(s.ref, p));
    LosesAWriteExactlyWhenOvertaken(db, log, s);
    LosingAWriteWithdrawsNothing(Replay(db, log), s, now);
  }

  lemma ReplayTwo(db: Db, e: Entry, f: Entry)
    ensures Replay(db, [e]) == Commit(db, e.sync, e.now)
    ensures Replay(db, [e, f]) == Commit(Commit(db, e.sync, e.now), f.sync, f.now)
  {
    assert [e][..0] == [] && [e, f][..1] == [e];
  }

  /** The guard is on shared paths only: an older read that shares none withdraws what the newer one stored. */
  lemma DisjointLateSyncStillDeletes(r: Ref)
    ensures var newer := Entry(Sync(r, 2, Some("c2"), map["b.yml" := "new"], true), 10, 0, 1);
            var older := Entry(Sync(r, 1, Some("c1"), map["a.yml" := "old"], true), 11, 0, 0);
            Live(Replay(Db(map[], map[]), [newer, older]).rows, r) == map["a.yml" := "old"]
  {
    var newer := Entry(Sync(r, 2, Some("c2"), map["b.yml" := "new"], true), 10, 0, 1);
    var older := Entry(Sync(r, 1, Some("c1"), map["a.yml" := "old"], true), 11, 0, 0);
    ReplayTwo(Db(map[], map[]), newer, older);
    var mid := Commit(Db(map[], map[]), newer.sync, 10);
    CommitKeepsHashes(Db(map[], map[]), newer.sync, 10);
    assert mid.rows.Keys == {Key(r, "b.yml")};
    CleanSyncMirrorsListing(mid, older.sync, 11);
  }

  /** A withdrawn row comes back exactly when a sync lists it that no later-stamped listing of that same path
      overtook. */
  lemma RestoresExactlyWhen(db: Db, log: seq<Entry>, s: Sync, now: int, k: Key)
    requires HashesAgree(db.rows)
    requires k in Replay(db, log).rows && Replay(db, log).rows[k].deletedAt.Some?
    ensures Commit(Replay(db, log), s, now).rows[k].deletedAt.None? <==>
            && Lists(s, k)
            && !(k in db.rows && StaleRow(db.rows[k], s.stamp))
            && forall i | 0 <= i < |log| && Lists(log[i].sync, k) :: log[i].sync.stamp <= s.stamp
  {
    RowIsLargestStampedRead(db, log, k);
    LatestStampBounds(db, log, k, Replay(db, log).rows[k]);
  }

  /** Withdrawing moves no cursor, so a sync older than the one that withdrew a path still brings it back. */
  lemma LateSyncStillRestores(db: Db, newer: Sync, older: Sync, n1: int, n2: int, k: Key)
    requires HashesAgree(db.rows)
    requires k in db.rows && db.rows[k].deletedAt.None?
    requires k.ref == newer.ref && !Lists(newer, k) && Reconciles(db.rows, newer)
    requires newer.head.Some? || newer.listing != map[]
    requires Lists(older, k) && older.stamp < newer.stamp && !StaleRow(db.rows[k], older.stamp)
    ensures Commit(db, newer, n1).rows[k].deletedAt.Some?
    ensures Commit(Commit(db, newer, n1), older, n2).rows[k].deletedAt.None?
    ensures Commit(Commit(db, newer, n1), older, n2).rows[k].content == older.listing[k.path]
  {
    CommitKeepsHashes(db, newer, n1);
    CommitOneRow(Commit(db, newer, n1), older, n2, k);
  }

  /** The sync lists k, and no later stamp had reached k before it committed. */
  ghost predicate RestoresFile(db: Db, log: seq<Entry>, s: Sync, k: Key) {
    && Lists(s, k)
    && !(k in db.rows && StaleRow(db.rows[k], s.stamp))
    && forall i | 0 <= i < |log| && Lists(log[i].sync, k) :: log[i].sync.stamp <= s.stamp
  }

  lemma FreshExactlyWhenRestores(db: Db, log: seq<Entry>, s: Sync, k: Key)
    requires HashesAgree(db.rows)
    ensures Lists(s, k) && !Stale(Replay(db, log).rows, s, k) <==> RestoresFile(db, log, s, k)
  {
    RowIsLargestStampedRead(db, log, k);
    if k in Replay(db, log).rows {
      LatestStampBounds(db, log, k, Replay(db, log).rows[k]);
    }
  }

  /** What one more commit does to the deletion time and the fix of a stored row, by what the log says of it. */
  lemma CommitMovesRowExactlyWhen(db: Db, log: seq<Entry>, e: Entry, k: Key)
    requires HashesAgree(db.rows) && k in Replay(db, log).rows
    ensures k in Commit(Replay(db, log), e.sync, e.now).rows
    ensures var was, row := Replay(db, log).rows[k], Commit(Replay(db, log), e.sync, e.now).rows[k];
            if WithdrawsFile(db, log, e.sync, k) then WithdrawnFrom(was, row, e.now)
            else if RestoresFile(db, log, e.sync, k) then RestoredFrom(was, row)
            else row == was
  {
    FreshExactlyWhenRestores(db, log, e.sync, k);
    WithdrawnExactlyWhen(db, log, e.sync, k);
    CommitMovesOneRow(Replay(db, log), e.sync, e.now, k);
  }

  lemma FrontSame(log: seq<Entry>, i: nat)
    requires i < |log|
    ensures log[..|log| - 1][..i] == log[..i]
  {
  }

  ghost predicate RestoredAfter(db: Db, log: seq<Entry>, i: int, k: Key) {
    exists j: nat :: i < j < |log| && RestoresFile(db, log[..j], log[j].sync, k)
  }

  lemma RestoredOneMore(db: Db, log: seq<Entry>, i: int, k: Key)
    requires log != [] && -1 <= i < |log| - 1
    ensures var n := |log| - 1;
            RestoredAfter(db, log, i, k) <==>
              RestoredAfter(db, log[..n], i, k) || RestoresFile(db, log[..n], log[n].sync, k)
  {
    var n := |log| - 1;
    var front := log[..n];
    forall j: nat | j < n ensures front[..j] == log[..j] && front[j] == log[j] {
    }
    if RestoresFile(db, front, log[n].sync, k) {
      assert i < n < |log|;
    } else if RestoredAfter(db, log, i, k) {
      var j: nat :| i < j < |log| && RestoresFile(db, log[..j], log[j].sync, k);
      assert RestoresFile(db, front[..j], front[j].sync, k);
    }
  }

  /** A live row withdrawn by a commit of the log carries the time of that commit, and keeps it through every later
      commit, withdrawing or not, until one restores it. */
  lemma {:induction false} DeletionTimeStays(db: Db, log: seq<Entry>, i: nat, k: Key)
    requires HashesAgree(db.rows) && i < |log|
    requires k in Replay(db, log[..i]).rows && Replay(db, log[..i]).rows[k].deletedAt.None?
    requires WithdrawsFile(db, log[..i], log[i].sync, k)
    requires !RestoredAfter(db, log, i, k)
    ensures k in Replay(db, log).rows && Replay(db, log).rows[k].deletedAt == Some(log[i].now)
  {
    var n := |log| - 1;
    if i < n {
      FrontSame(log, i);
      RestoredOneMore(db, log, i, k);
      DeletionTimeStays(db, log[..n], i, k);
    }
    CommitMovesRowExactlyWhen(db, log[..n], log[n], k);
  }

  /** A path first met gets a live row without a fix, holding what the sync read. */
  lemma NewRowIsLive(db: Db, log: seq<Entry>, e: Entry, k: Key)
    requires HashesAgree(db.rows)
    requires k !in Replay(db, log).rows && k in Commit(Replay(db, log), e.sync, e.now).rows
    ensures Lists(e.sync, k)
    ensures var text := e.sync.listing[k.path];
            Commit(Replay(db, log), e.sync, e.now).rows[k] ==
              Row(Sha256(text), text, Some(e.sync.stamp), e.sync.head, None, None)
  {
  }

  /** Each withdrawal of k in the log, and its deletion before the log, was followed by a restoring commit. */
  ghost predicate AllRestored(db: Db, log: seq<Entry>, k: Key) {
    && (k in db.rows && db.rows[k].deletedAt.Some? ==> RestoredAfter(db, log, -1, k))
    && (forall i: nat | i < |log| && WithdrawsFile(db, log[..i], log[i].sync, k) :: RestoredAfter(db, log, i, k))
  }

  lemma AllRestoredOneMore(db: Db, log: seq<Entry>, k: Key)
    requires log != []
    ensures var front, s := log[..|log| - 1], log[|log| - 1].sync;
            AllRestored(db, log, k) <==>
              !WithdrawsFile(db, front, s, k) && (RestoresFile(db, front, s, k) || AllRestored(db, front, k))
  {
    var n := |log| - 1;
    var front, s := log[..n], log[n].sync;
    RestoredOneMore(db, log, -1, k);
    forall i: nat | i < n
      ensures RestoredAfter(db, log, i, k) <==> RestoredAfter(db, front, i, k) || RestoresFile(db, front, s, k)
      ensures front[..i] == log[..i] && front[i] == log[i]
    {
      RestoredOneMore(db, log, i, k);
    }
    if WithdrawsFile(db, front, s, k) {
      assert WithdrawsFile(db, log[..n], log[n].sync, k) && !RestoredAfter(db, log, n, k);
    } else if AllRestored(db, log, k) && !RestoresFile(db, front, s, k) {
      forall i: nat | i < n && WithdrawsFile(db, front[..i], front[i].sync, k) ensures RestoredAfter(db, front, i, k) {
        assert WithdrawsFile(db, log[..i], log[i].sync, k);
      }
    }
  }

  /** After any log a stored row is live exactly when each withdrawal of it, and its deletion before the log, was
      followed by a restoring commit. */
  lemma {:induction false} LiveExactlyWhen(db: Db, log: seq<Entry>, k: Key)
    requires HashesAgree(db.rows) && k in Replay(db, log).rows
    ensures Replay(db, log).rows[k].deletedAt.None? <==> AllRestored(db, log, k)
  {
    if log != [] {
      var n := |log| - 1;
      var front, e := log[..n], log[n];
      AllRestoredOneMore(db, log, k);
      if k in Replay(db, front).rows {
        CommitMovesRowExactlyWhen(db, front, e, k);
        LiveExactlyWhen(db, front, k);
      } else {
        FreshExactlyWhenRestores(db, front, e.sync, k);
        NewRowIsLive(db, front, e, k);
      }
    }
  }

  // ------------------------------------------------- runs in stamp order

  /** The commits of one branch: in stamp order, all reconciling, all readable, none older than what was stored. */
  ghost predicate InStampOrder(db: Db, log: seq<Entry>, ref: Ref) {
    && (forall i | 0 <= i < |log| && log[i].sync.ref == ref ::
          log[i].sync.reconcile && (log[i].sync.head.Some? || log[i].sync.listing != map[]))
    && (forall i, j | 0 <= i < j < |log| && log[i].sync.ref == ref && log[j].sync.ref == ref ::
          log[i].sync.stamp <= log[j].sync.stamp)
    && (forall i, k | 0 <= i < |log| && k in db.rows && k.ref == ref && log[i].sync.ref == ref ::
          !StaleRow(db.rows[k], log[i].sync.stamp))
  }

  function LastListing(stored: map<string, string>, log: seq<Entry>, ref: Ref): map<string, string> {
    if log == [] then stored
    else if log[|log| - 1].sync.ref == ref then log[|log| - 1].sync.listing
    else LastListing(stored, log[..|log| - 1], ref)
  }

  lemma OtherBranchUntouched(db: Db, s: Sync, now: int, ref: Ref)
    requires s.ref != ref
    ensures Live(Commit(db, s, now).rows, ref) == Live(db.rows, ref)
  {
    var after := Commit(db, s, now).rows;
    forall k: Key | k.ref == ref ensures Get(after, k) == Get(db.rows, k) {
      assert !Lists(s, k);
    }
  }

  /** Commits in stamp order refine the one-line specification: a branch's live rows are its last listing. */
  lemma {:induction false} OrderedRunStoresLastListing(db: Db, log: seq<Entry>, ref: Ref)
    requires HashesAgree(db.rows)
    requires InStampOrder(db, log, ref)
    ensures Live(Replay(db, log).rows, ref) == LastListing(Live(db.rows, ref), log, ref)
  {
    if log != [] {
      var n := |log| - 1;
      var rest, e := log[..n], log[n];
      var mid := Replay(db, rest);
      if e.sync.ref == ref {
        ReplayKeepsHashes(db, rest);
        LosesAWriteExactlyWhenOvertaken(db, rest, e.sync);
        CleanSyncMirrorsListing(mid, e.sync, e.now);
      } else {
        OtherBranchUntouched(mid, e.sync, e.now, ref);
        OrderedRunStoresLastListing(db, rest, ref);
      }
    }
  }
}
