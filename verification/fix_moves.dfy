/** What one step does to one row: when it moves at all, and where to. */
module FixMoves {
  import opened Wrappers
  import opened FixMachine
  import opened FixVetting
  import opened FixPipeline
  import opened FixSafety
  import opened FixTable
  import FixOwnership

  ghost predicate DistinctFiles(a: Action) {
    a.Queue? ==> forall m, n | 0 <= m < n < |a.files| :: a.files[m] != a.files[n]
  }

  /** Row i of the table after the step, from that row, its key and the acting worker's job alone. */
  ghost function RowAfter(g: Gates, s: Pipe, a: Action, i: nat): FixRow
    requires i < |s.rows|
  {
    var row := s.rows[i];
    match a
    case Queue(target, files, force) =>
      if row.key.target == target && row.key.path in files
         && row.status !in {Pending, FixStatus.Generating, Delivering} && (force || row.status == Failed)
      then FixRow(row.key, Pending, None) else row
    case ClaimGeneration(w, key) =>
      if w !in s.jobs && row.key == key && row.status == Pending
      then FixRow(row.key, FixStatus.Generating, row.content) else row
    case EndGeneration(w, answer) =>
      if Get(s.jobs, w) == Some(Job.Generating(i)) then
        match Outcome(g, row.key.path, answer)
        case Some(content) => FixRow(row.key, Ready, Some(content))
        case None => FixRow(row.key, Failed, row.content)
      else row
    case ClaimDelivery(w) =>
      if w in s.jobs && s.jobs[w].Selected? && i in s.jobs[w].picked
      then FixRow(row.key, Delivering, row.content) else row
    case EndDelivery(w, failed) =>
      if w in s.jobs && s.jobs[w].Sending? && i in s.jobs[w].picked
      then FixRow(row.key, if failed then Failed else Delivered, row.content) else row
    case Select(_, _, _, _) => row
    case Crash(_) => row
  }

  lemma QueueMovesExactly(g: Gates, s: Pipe, a: Action, i: nat)
    requires WellFormed(s.rows) && i < |s.rows| && a.Queue? && DistinctFiles(a)
    ensures i < |Step(g, s, a).rows| && Step(g, s, a).rows[i] == RowAfter(g, s, a, i)
  {
    var row, rows' := s.rows[i], Step(g, s, a).rows;
    QueueAllKeeps(s.rows, a.target, a.files, a.force);
    FixOwnership.FindUnique(s.rows, i);
    FixOwnership.FindUnique(rows', i);
    if row.key.target == a.target {
      QueuesExactlyWhenQueueable(s.rows, a.target, a.files, a.force, row.key.path);
      assert row.key == Key(a.target, row.key.path);
    } else {
      QueueLeavesOthers(s.rows, a.target, a.files, a.force, row.key);
    }
  }

  /** In any well-formed table each step moves each row exactly as said, and adds rows only by queueing: each row it
      adds waits for a file asked for. */
  lemma RowMovesExactlyWhen(g: Gates, s: Pipe, a: Action, i: nat)
    requires WellFormed(s.rows) && DistinctFiles(a)
    ensures |s.rows| <= |Step(g, s, a).rows|
    ensures i < |s.rows| ==> Step(g, s, a).rows[i] == RowAfter(g, s, a, i)
    ensures |s.rows| <= i < |Step(g, s, a).rows| ==>
              a.Queue? && exists file <- a.files :: Step(g, s, a).rows[i] == FixRow(Key(a.target, file), Pending, None)
  {
    if a.Queue? {
      QueueAllKeeps(s.rows, a.target, a.files, a.force);
      QueueAddsWaiting(s.rows, a.target, a.files, a.force, i);
      if i < |s.rows| {
        QueueMovesExactly(g, s, a, i);
      }
    } else if a.ClaimGeneration? && i < |s.rows| {
      if s.rows[i].key == a.key {
        FixOwnership.FindUnique(s.rows, i);
      }
    }
  }

  lemma {:induction false} QueueAddsWaiting(rows: seq<FixRow>, target: nat, files: seq<string>, force: bool, i: nat)
    ensures var q := QueueAll(rows, target, files, force).rows;
            |rows| <= |q| && (|rows| <= i < |q| ==>
              exists file <- files :: q[i] == FixRow(Key(target, file), Pending, None))
  {
    if files != [] {
      var n := |files| - 1;
      var mid := QueueAll(rows, target, files[..n], force).rows;
      QueueAddsWaiting(rows, target, files[..n], force, i);
      if |rows| <= i < |mid| {
        var file :| file in files[..n] && mid[i] == FixRow(Key(target, file), Pending, None);
        assert file in files;
      }
      assert files[n] in files;
    }
  }
}
