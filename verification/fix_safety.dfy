/** What every run of the fix pipeline keeps, however late its workers act. */
module FixSafety {
  import opened Wrappers
  import opened FixMachine
  import opened FixVetting
  import opened FixPipeline

  // ------------------------------------------------- every run

  ghost predicate Unique(rows: seq<FixRow>) {
    forall i, j | 0 <= i < j < |rows| :: rows[i].key != rows[j].key
  }

  function Waiting(rows: seq<FixRow>): nat {
    if rows == [] then 0
    else Waiting(rows[..|rows| - 1]) + if rows[|rows| - 1].status == Pending then 1 else 0
  }

  /** A row that waits or is being generated holds no content. */
  predicate Shaped(row: FixRow) {
    row.status == Pending || row.status == FixStatus.Generating ==> row.content.None?
  }

  ghost predicate Placed(rows: seq<FixRow>, j: Job) {
    match j
    case Generating(i) => i < |rows|
    case Selected(picked) => forall i <- picked :: i < |rows|
    case Sending(picked) => forall i <- picked :: i < |rows|
  }

  ghost predicate WellFormed(rows: seq<FixRow>) {
    Unique(rows) && forall i | 0 <= i < |rows| :: Shaped(rows[i])
  }

  /** Kept by every run, however late a worker acts on what it read. */
  ghost predicate Safe(s: Pipe) {
    && WellFormed(s.rows)
    && (forall w <- s.jobs :: Placed(s.rows, s.jobs[w]))
    && s.starts + Waiting(s.rows) <= s.charges
  }

  // Rows keep their place and their key.
  ghost predicate Extends(rows: seq<FixRow>, rows': seq<FixRow>) {
    |rows| <= |rows'| && forall i | 0 <= i < |rows| :: rows'[i].key == rows[i].key
  }

  lemma {:induction false} WaitingUpdate(rows: seq<FixRow>, i: nat, row: FixRow)
    requires i < |rows|
    ensures Waiting(rows[i := row]) + (if rows[i].status == Pending then 1 else 0)
         == Waiting(rows) + (if row.status == Pending then 1 else 0)
  {
    var n := |rows| - 1;
    if i == n {
      assert rows[i := row][..n] == rows[..n];
    } else {
      assert rows[i := row][..n] == rows[..n][i := row];
      WaitingUpdate(rows[..n], i, row);
    }
  }

  lemma WaitingAppend(rows: seq<FixRow>, row: FixRow)
    ensures Waiting(rows + [row]) == Waiting(rows) + if row.status == Pending then 1 else 0
  {
    assert (rows + [row])[..|rows|] == rows;
  }

  lemma {:induction false} WaitingSetStatus(rows: seq<FixRow>, ids: set<nat>, status: FixStatus)
    requires status != Pending
    ensures Waiting(SetStatus(rows, ids, status)) <= Waiting(rows)
    ensures (forall i | 0 <= i < |rows| && i in ids :: rows[i].status != Pending) ==>
              Waiting(SetStatus(rows, ids, status)) == Waiting(rows)
  {
    if rows != [] {
      var n := |rows| - 1;
      assert SetStatus(rows, ids, status)[..n] == SetStatus(rows[..n], ids, status);
      WaitingSetStatus(rows[..n], ids, status);
    }
  }

  lemma PrepareUnique(rows: seq<FixRow>, key: Key, force: bool)
    requires Unique(rows)
    ensures var p := Prepare(rows, key, force);
            && Unique(p.rows) && Extends(rows, p.rows)
            && Waiting(p.rows) == Waiting(rows) + (if p.id.Some? then 1 else 0)
  {
    var p := Prepare(rows, key, force);
    if p.id.Some? {
      if p.id.value < |rows| {
        WaitingUpdate(rows, p.id.value, FixRow(key, Pending, None));
      } else {
        WaitingAppend(rows, FixRow(key, Pending, None));
      }
    }
  }

  lemma PrepareKeeps(rows: seq<FixRow>, key: Key, force: bool)
    requires WellFormed(rows)
    ensures var p := Prepare(rows, key, force);
            && WellFormed(p.rows) && Extends(rows, p.rows)
            && Waiting(p.rows) == Waiting(rows) + (if p.id.Some? then 1 else 0)
            && (forall i | 0 <= i < |rows| && rows[i].status in IN_FLIGHT :: p.rows[i] == rows[i])
  {
    PrepareUnique(rows, key, force);
    var p := Prepare(rows, key, force);
    forall i | 0 <= i < |p.rows| ensures Shaped(p.rows[i]) {
      assert i < |rows| ==> Shaped(rows[i]);
    }
  }

  lemma {:induction false} QueueAllKeeps(rows: seq<FixRow>, target: nat, files: seq<string>, force: bool)
    requires WellFormed(rows)
    ensures var q := QueueAll(rows, target, files, force);
            && WellFormed(q.rows) && Extends(rows, q.rows)
            && Waiting(q.rows) == Waiting(rows) + |q.files|
            && |q.files| <= |files|
            && (forall i | 0 <= i < |rows| && rows[i].status in IN_FLIGHT :: q.rows[i] == rows[i])
  {
    if files != [] {
      var n := |files| - 1;
      QueueAllKeeps(rows, target, files[..n], force);
      var mid := QueueAll(rows, target, files[..n], force).rows;
      PrepareKeeps(mid, Key(target, files[n]), force);
      FlightSurvives(rows, mid, Prepare(mid, Key(target, files[n]), force).rows);
    }
  }

  lemma FlightSurvives(rows: seq<FixRow>, mid: seq<FixRow>, end: seq<FixRow>)
    requires Extends(rows, mid) && Extends(mid, end)
    requires forall i | 0 <= i < |rows| && rows[i].status in IN_FLIGHT :: mid[i] == rows[i]
    requires forall i | 0 <= i < |mid| && mid[i].status in IN_FLIGHT :: end[i] == mid[i]
    ensures Extends(rows, end)
    ensures forall i | 0 <= i < |rows| && rows[i].status in IN_FLIGHT :: end[i] == rows[i]
  {
  }

  lemma PlacesSurvive(rows: seq<FixRow>, rows': seq<FixRow>, j: Job)
    requires |rows| <= |rows'| && Placed(rows, j)
    ensures Placed(rows', j)
  {
  }

  lemma SafeAfter(s: Pipe, t: Pipe)
    requires Safe(s)
    requires |s.rows| <= |t.rows| && WellFormed(t.rows)
    requires forall w <- t.jobs :: (w in s.jobs && t.jobs[w] == s.jobs[w]) || Placed(t.rows, t.jobs[w])
    requires t.starts + Waiting(t.rows) <= t.charges
    ensures Safe(t)
  {
    forall w | w in t.jobs ensures Placed(t.rows, t.jobs[w]) {
      if w in s.jobs { PlacesSurvive(s.rows, t.rows, s.jobs[w]); }
    }
  }

  lemma GenerationKeepsSafe(g: Gates, s: Pipe, a: Action)
    requires Safe(s) && (a.ClaimGeneration? || a.EndGeneration?)
    ensures Safe(Step(g, s, a)) && Extends(s.rows, Step(g, s, a).rows)
  {
    var t := Step(g, s, a);
    if t != s {
      var i := if a.ClaimGeneration? then Find(s.rows, a.key).value else s.jobs[a.w].id;
      assert t.rows == s.rows[i := t.rows[i]];
      assert Shaped(s.rows[i]) && Shaped(t.rows[i]);
      WaitingUpdate(s.rows, i, t.rows[i]);
      SafeAfter(s, t);
    }
  }

  lemma StatusKeepsShape(rows: seq<FixRow>, ids: set<nat>, status: FixStatus)
    requires WellFormed(rows)
    requires status != Pending && status != FixStatus.Generating
    ensures WellFormed(SetStatus(rows, ids, status)) && Extends(rows, SetStatus(rows, ids, status))
    ensures Waiting(SetStatus(rows, ids, status)) <= Waiting(rows)
  {
    WaitingSetStatus(rows, ids, status);
    forall i | 0 <= i < |rows| ensures Shaped(SetStatus(rows, ids, status)[i]) {
      assert Shaped(rows[i]);
    }
  }

  lemma ClaimDeliveryKeepsSafe(g: Gates, s: Pipe, w: nat)
    requires Safe(s)
    ensures Safe(Step(g, s, ClaimDelivery(w))) && Extends(s.rows, Step(g, s, ClaimDelivery(w)).rows)
  {
    var t := Step(g, s, ClaimDelivery(w));
    if t != s {
      assert Placed(s.rows, s.jobs[w]);
      StatusKeepsShape(s.rows, s.jobs[w].picked.Keys, Delivering);
      SafeAfter(s, t);
    }
  }

  lemma EndDeliveryKeepsSafe(g: Gates, s: Pipe, w: nat, failed: bool)
    requires Safe(s)
    ensures Safe(Step(g, s, EndDelivery(w, failed))) && Extends(s.rows, Step(g, s, EndDelivery(w, failed)).rows)
  {
    var t := Step(g, s, EndDelivery(w, failed));
    if t != s {
      StatusKeepsShape(s.rows, s.jobs[w].picked.Keys, if failed then Failed else Delivered);
      SafeAfter(s, t);
    }
  }

  lemma StepKeepsSafe(g: Gates, s: Pipe, a: Action)
    requires Safe(s)
    ensures Safe(Step(g, s, a)) && Extends(s.rows, Step(g, s, a).rows)
  {
    match a
    case Queue(target, files, force) =>
      QueueAllKeeps(s.rows, target, files, force);
      SafeAfter(s, Step(g, s, a));
    case ClaimGeneration(_, _) => GenerationKeepsSafe(g, s, a);
    case EndGeneration(_, _) => GenerationKeepsSafe(g, s, a);
    case Select(_, _, _, _) => SafeAfter(s, Step(g, s, a));
    case ClaimDelivery(w) => ClaimDeliveryKeepsSafe(g, s, w);
    case EndDelivery(w, failed) => EndDeliveryKeepsSafe(g, s, w, failed);
    case Crash(_) => SafeAfter(s, Step(g, s, a));
  }

  /** Over every run, forced or not and however stale its workers, no two rows share a file, rows that wait or are being
      generated hold no content, and generations claimed plus rows still waiting never exceed what was charged. */
  lemma {:induction false} RunKeepsSafe(g: Gates, actions: seq<Action>)
    ensures Safe(Run(g, EMPTY, actions))
  {
    if actions != [] {
      var n := |actions| - 1;
      RunKeepsSafe(g, actions[..n]);
      StepKeepsSafe(g, Run(g, EMPTY, actions[..n]), actions[n]);
    }
  }
}
