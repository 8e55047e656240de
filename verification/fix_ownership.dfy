/** Who owns a fix row: exactly one worker, as long as no delivery acts on a selection that has gone stale. */
module FixOwnership {
  import opened Wrappers
  import opened FixMachine
  import opened FixVetting
  import opened FixPipeline
  import opened FixSafety

  predicate Worked(status: FixStatus) {
    status == FixStatus.Generating || status == Delivering
  }

  /** The rows a worker holds are in the status it put them in, with the content it is sending. */
  ghost predicate HoldsItsRows(s: Pipe, j: Job) {
    match j
    case Generating(i) => i < |s.rows| && s.rows[i].status == FixStatus.Generating
    case Selected(_) => true
    case Sending(picked) =>
      (forall i <- picked ::
        && i < |s.rows| && s.rows[i].status == Delivering
        && s.rows[i].content == Some(picked[i]) && (s.rows[i].key, picked[i]) in s.sent)
  }

  ghost predicate Owned(s: Pipe, i: nat) {
    exists w :: w in s.jobs && i in Held(s.jobs[w])
  }

  ghost predicate DisjointHolders(s: Pipe) {
    forall v, w | v in s.jobs && w in s.jobs && v != w :: Held(s.jobs[v]) !! Held(s.jobs[w])
  }

  ghost predicate OrphansStuck(s: Pipe) {
    && (forall w <- s.jobs :: Held(s.jobs[w]) !! s.orphans)
    && (forall i <- s.orphans :: i < |s.rows| && Worked(s.rows[i].status))
  }

  ghost predicate WorkedIsHeld(s: Pipe) {
    forall i | 0 <= i < |s.rows| && Worked(s.rows[i].status) :: i in s.orphans || Owned(s, i)
  }

  ghost predicate DeliveredIsSent(s: Pipe) {
    forall i | 0 <= i < |s.rows| && s.rows[i].status == Delivered ::
      s.rows[i].content.Some? && (s.rows[i].key, s.rows[i].content.value) in s.sent
  }

  /** Each row being worked on has one holder (or one that died), each finish so far was legal,
      a delivered row holds what was pushed, and each charge is a generation started or a row still waiting. */
  ghost predicate Exclusive(s: Pipe) {
    Safe(s) && Ownership(s) && !s.clash && s.starts + Waiting(s.rows) == s.charges
  }

  ghost predicate Ownership(s: Pipe) {
    && (forall w <- s.jobs :: HoldsItsRows(s, s.jobs[w]))
    && DisjointHolders(s) && OrphansStuck(s) && WorkedIsHeld(s) && DeliveredIsSent(s)
  }

  /** No selected row is being worked on and each still holds the selected content. */
  ghost predicate Fresh(s: Pipe, picked: map<nat, string>) {
    forall i <- picked :: i < |s.rows| && !Worked(s.rows[i].status) && s.rows[i].content == Some(picked[i])
  }

  ghost predicate FreshAction(s: Pipe, a: Action) {
    a.ClaimDelivery? && a.w in s.jobs && s.jobs[a.w].Selected? ==> Fresh(s, s.jobs[a.w].picked)
  }

  // Other workers' rows did not move.
  lemma OthersKeepTheirRows(s: Pipe, t: Pipe, j: Job)
    requires HoldsItsRows(s, j) && s.sent <= t.sent && |s.rows| <= |t.rows|
    requires forall i | 0 <= i < |s.rows| && i in Held(j) :: t.rows[i] == s.rows[i]
    ensures HoldsItsRows(t, j)
  {
  }

  // Worked rows stay with their workers when nothing but new or idle rows changed.
  lemma QueueKeepsHolders(s: Pipe, t: Pipe)
    requires Ownership(s) && t.jobs == s.jobs && t.orphans == s.orphans && t.sent == s.sent
    requires |s.rows| <= |t.rows|
    requires forall i | 0 <= i < |t.rows| :: t.rows[i].status == Pending || (i < |s.rows| && t.rows[i] == s.rows[i])
    requires forall i | 0 <= i < |s.rows| && s.rows[i].status in IN_FLIGHT :: t.rows[i] == s.rows[i]
    ensures Ownership(t)
  {
    forall w | w in t.jobs ensures HoldsItsRows(t, t.jobs[w]) {
      assert HoldsItsRows(s, s.jobs[w]);
    }
    forall i | 0 <= i < |t.rows| && Worked(t.rows[i].status) ensures i in t.orphans || Owned(t, i) {
      if i !in s.orphans {
        assert Owned(s, i);
        var w :| w in s.jobs && i in Held(s.jobs[w]);
        assert w in t.jobs && i in Held(t.jobs[w]);
      }
    }
  }

  lemma QueueKeepsExclusive(g: Gates, s: Pipe, a: Action)
    requires Exclusive(s) && a.Queue?
    ensures Exclusive(Step(g, s, a))
  {
    StepKeepsSafe(g, s, a);
    QueueAllKeeps(s.rows, a.target, a.files, a.force);
    QueueAllOnlyResets(s.rows, a.target, a.files, a.force);
    QueueKeepsHolders(s, Step(g, s, a));
  }

  lemma {:induction false} QueueAllOnlyResets(rows: seq<FixRow>, target: nat, files: seq<string>, force: bool)
    ensures var q := QueueAll(rows, target, files, force).rows;
            |rows| <= |q| && forall i | 0 <= i < |q| :: q[i].status == Pending || (i < |rows| && q[i] == rows[i])
  {
    if files != [] {
      QueueAllOnlyResets(rows, target, files[..|files| - 1], force);
    }
  }

  // Rows outside `moved` kept their row and their holder; those in `moved` that are worked on are held by w.
  lemma StillHeld(s: Pipe, t: Pipe, moved: set<nat>, w: nat)
    requires WorkedIsHeld(s) && |t.rows| == |s.rows| && s.orphans <= t.orphans
    requires forall i | 0 <= i < |s.rows| && i !in moved :: t.rows[i] == s.rows[i]
    requires forall i | 0 <= i < |s.rows| && i in moved && Worked(t.rows[i].status) ::
               w in t.jobs && i in Held(t.jobs[w])
    requires forall v | v in s.jobs && v != w :: v in t.jobs && t.jobs[v] == s.jobs[v]
    requires w in s.jobs ==> Held(s.jobs[w]) <= moved
    ensures WorkedIsHeld(t)
  {
    forall i | 0 <= i < |t.rows| && Worked(t.rows[i].status) ensures i in t.orphans || Owned(t, i) {
      if i !in moved && i !in s.orphans {
        var v :| v in s.jobs && i in Held(s.jobs[v]);
        assert v in t.jobs && i in Held(t.jobs[v]);
      }
    }
  }

  // Worker w moved the rows in `moved`, which nobody else held, and changed no job but its own.
  ghost predicate MovedBy(s: Pipe, t: Pipe, moved: set<nat>, w: nat) {
    && |t.rows| == |s.rows| && s.sent <= t.sent && t.orphans == s.orphans
    && (forall i | 0 <= i < |s.rows| && i !in moved :: t.rows[i] == s.rows[i])
    && (forall v | v != w :: (v in t.jobs <==> v in s.jobs) && (v in s.jobs ==> t.jobs[v] == s.jobs[v]))
    && (forall v | v in s.jobs && v != w :: Held(s.jobs[v]) !! moved)
    && moved !! s.orphans
    && (w in s.jobs ==> Held(s.jobs[w]) <= moved)
    && (w in t.jobs ==> Held(t.jobs[w]) == moved && HoldsItsRows(t, t.jobs[w]))
    && (forall i | 0 <= i < |t.rows| && i in moved && Worked(t.rows[i].status) :: w in t.jobs)
    && (forall i | 0 <= i < |t.rows| && i in moved && t.rows[i].status == Delivered ::
          t.rows[i].content.Some? && (t.rows[i].key, t.rows[i].content.value) in t.sent)
  }

  lemma MoveKeepsOwnership(s: Pipe, t: Pipe, moved: set<nat>, w: nat)
    requires Ownership(s) && MovedBy(s, t, moved, w)
    ensures Ownership(t)
  {
    forall v | v in t.jobs ensures HoldsItsRows(t, t.jobs[v]) {
      if v != w { OthersKeepTheirRows(s, t, s.jobs[v]); }
    }
    StillHeld(s, t, moved, w);
  }

  lemma ClaimGenerationMoves(g: Gates, s: Pipe, w: nat, key: Key)
    requires Ownership(s)
    ensures Ownership(Step(g, s, ClaimGeneration(w, key)))
  {
    var t := Step(g, s, ClaimGeneration(w, key));
    if t != s {
      var i := Find(s.rows, key).value;
      forall v | v in s.jobs ensures i !in Held(s.jobs[v]) { assert HoldsItsRows(s, s.jobs[v]); }
      MoveKeepsOwnership(s, t, {i}, w);
    }
  }

  lemma ClaimGenerationKeepsCount(g: Gates, s: Pipe, w: nat, key: Key)
    ensures var t := Step(g, s, ClaimGeneration(w, key));
            t.starts + Waiting(t.rows) == s.starts + Waiting(s.rows)
  {
    var t := Step(g, s, ClaimGeneration(w, key));
    if t != s {
      var i := Find(s.rows, key).value;
      assert t.rows == s.rows[i := s.rows[i].(status := FixStatus.Generating)];
      WaitingUpdate(s.rows, i, t.rows[i]);
    }
  }

  lemma EndGenerationMoves(s: Pipe, t: Pipe, w: nat, row: FixRow)
    requires Ownership(s) && w in s.jobs && s.jobs[w].Generating? && s.jobs[w].id < |s.rows|
    requires row.status == Ready || row.status == Failed
    requires t.rows == s.rows[s.jobs[w].id := row] && t.jobs == s.jobs - {w} && t.orphans == s.orphans &&
               t.sent == s.sent
    ensures Ownership(t) && Waiting(t.rows) == Waiting(s.rows)
    ensures s.rows[s.jobs[w].id].status == FixStatus.Generating
  {
    var i := s.jobs[w].id;
    assert HoldsItsRows(s, s.jobs[w]);
    WaitingUpdate(s.rows, i, row);
    assert forall v | v in s.jobs && v != w :: Held(s.jobs[v]) !! Held(s.jobs[w]);
    EndGenerationIsMove(s, t, w, i, row);
    MoveKeepsOwnership(s, t, {i}, w);
  }

  lemma EndGenerationIsMove(s: Pipe, t: Pipe, w: nat, i: nat, row: FixRow)
    requires Get(s.jobs, w) == Some(Job.Generating(i)) && i < |s.rows| && i !in s.orphans
    requires forall v | v in s.jobs && v != w :: Held(s.jobs[v]) !! {i}
    requires row.status == Ready || row.status == Failed
    requires t.rows == s.rows[i := row] && t.jobs == s.jobs - {w} && t.orphans == s.orphans && t.sent == s.sent
    ensures MovedBy(s, t, {i}, w)
  {
  }

  lemma EndDeliveryIsMove(s: Pipe, t: Pipe, w: nat, picked: map<nat, string>, status: FixStatus)
    requires w in s.jobs && s.jobs[w] == Sending(picked) && HoldsItsRows(s, s.jobs[w])
    requires forall v | v in s.jobs && v != w :: Held(s.jobs[v]) !! picked.Keys
    requires picked.Keys !! s.orphans
    requires status == Delivered || status == Failed
    requires t.rows == SetStatus(s.rows, picked.Keys, status)
    requires t.jobs == s.jobs - {w} && t.orphans == s.orphans && t.sent == s.sent
    ensures MovedBy(s, t, picked.Keys, w)
  {
  }

  lemma EndDeliveryMoves(s: Pipe, t: Pipe, w: nat, picked: map<nat, string>, status: FixStatus)
    requires Ownership(s) && w in s.jobs && s.jobs[w] == Sending(picked)
    requires status == Delivered || status == Failed
    requires t.rows == SetStatus(s.rows, picked.Keys, status)
    requires t.jobs == s.jobs - {w} && t.orphans == s.orphans && t.sent == s.sent
    ensures Ownership(t) && Waiting(t.rows) == Waiting(s.rows)
    ensures forall i <- picked :: i < |s.rows| && s.rows[i].status == Delivering
  {
    assert HoldsItsRows(s, s.jobs[w]);
    assert Held(s.jobs[w]) == picked.Keys;
    assert forall v | v in s.jobs && v != w :: Held(s.jobs[v]) !! Held(s.jobs[w]);
    EndDeliveryIsMove(s, t, w, picked, status);
    MoveKeepsOwnership(s, t, picked.Keys, w);
    WaitingSetStatus(s.rows, picked.Keys, status);
  }

  lemma FreshIsFree(s: Pipe, picked: map<nat, string>)
    requires Ownership(s) && Fresh(s, picked)
    ensures forall v | v in s.jobs :: Held(s.jobs[v]) !! picked.Keys
    ensures picked.Keys !! s.orphans
  {
    forall v | v in s.jobs ensures Held(s.jobs[v]) !! picked.Keys { assert HoldsItsRows(s, s.jobs[v]); }
  }

  lemma FreshWaitsForNothing(s: Pipe, picked: map<nat, string>)
    requires Fresh(s, picked)
    requires forall i | 0 <= i < |s.rows| && s.rows[i].status == Pending :: s.rows[i].content.None?
    ensures Waiting(SetStatus(s.rows, picked.Keys, Delivering)) == Waiting(s.rows)
  {
    forall i | 0 <= i < |s.rows| && i in picked.Keys ensures s.rows[i].status != Pending {
      assert s.rows[i].content == Some(picked[i]);
    }
    WaitingSetStatus(s.rows, picked.Keys, Delivering);
  }

  lemma ClaimDeliveryIsMove(g: Gates, s: Pipe, w: nat, picked: map<nat, string>)
    requires w in s.jobs && s.jobs[w] == Selected(picked) && Fresh(s, picked)
    requires forall v | v in s.jobs && v != w :: Held(s.jobs[v]) !! picked.Keys
    requires picked.Keys !! s.orphans
    ensures MovedBy(s, Step(g, s, ClaimDelivery(w)), picked.Keys, w)
  {
  }

  lemma ClaimDeliveryMoves(g: Gates, s: Pipe, w: nat, picked: map<nat, string>)
    requires Ownership(s) && w in s.jobs && s.jobs[w] == Selected(picked) && Fresh(s, picked)
    ensures Ownership(Step(g, s, ClaimDelivery(w)))
  {
    FreshIsFree(s, picked);
    ClaimDeliveryIsMove(g, s, w, picked);
    MoveKeepsOwnership(s, Step(g, s, ClaimDelivery(w)), picked.Keys, w);
  }

  lemma SelectKeepsOwnership(g: Gates, s: Pipe, w: nat, target: nat, force: bool, withheld: set<nat>)
    requires Ownership(s)
    ensures Ownership(Step(g, s, Select(w, target, force, withheld)))
  {
    var t := Step(g, s, Select(w, target, force, withheld));
    forall v | v in t.jobs ensures HoldsItsRows(t, t.jobs[v]) {
      if v in s.jobs { OthersKeepTheirRows(s, t, s.jobs[v]); }
    }
    forall i | 0 <= i < |t.rows| && Worked(t.rows[i].status) ensures i in t.orphans || Owned(t, i) {
      if i !in s.orphans {
        var v :| v in s.jobs && i in Held(s.jobs[v]);
        assert v in t.jobs && i in Held(t.jobs[v]);
      }
    }
  }

  lemma CrashKeepsOwnership(g: Gates, s: Pipe, w: nat)
    requires Ownership(s)
    ensures Ownership(Step(g, s, Crash(w)))
  {
    var t := Step(g, s, Crash(w));
    if t != s {
      assert HoldsItsRows(s, s.jobs[w]);
      forall v | v in t.jobs ensures HoldsItsRows(t, t.jobs[v]) {
        OthersKeepTheirRows(s, t, s.jobs[v]);
      }
      forall i | 0 <= i < |t.rows| && Worked(t.rows[i].status) ensures i in t.orphans || Owned(t, i) {
        if i !in s.orphans {
          var v :| v in s.jobs && i in Held(s.jobs[v]);
          assert i in t.orphans || (v in t.jobs && i in Held(t.jobs[v]));
        }
      }
    }
  }

  lemma StepKeepsExclusive(g: Gates, s: Pipe, a: Action)
    requires Exclusive(s) && FreshAction(s, a)
    ensures Exclusive(Step(g, s, a))
  {
    var t := Step(g, s, a);
    StepKeepsSafe(g, s, a);
    match a
    case Queue(_, _, _) => QueueKeepsExclusive(g, s, a);
    case ClaimGeneration(w, key) =>
      ClaimGenerationMoves(g, s, w, key);
      ClaimGenerationKeepsCount(g, s, w, key);
    case EndGeneration(w, _) => if t != s { EndGenerationMoves(s, t, w, t.rows[s.jobs[w].id]); }
    case Select(w, target, force, withheld) => SelectKeepsOwnership(g, s, w, target, force, withheld);
    case ClaimDelivery(w) => if t != s { ClaimDeliveryKeepsExclusive(g, s, w); }
    case EndDelivery(w, failed) =>
      if t != s { EndDeliveryMoves(s, t, w, s.jobs[w].picked, if failed then Failed else Delivered); }
    case Crash(w) => CrashKeepsOwnership(g, s, w);
  }

  lemma ClaimDeliveryKeepsExclusive(g: Gates, s: Pipe, w: nat)
    requires Exclusive(s) && w in s.jobs && s.jobs[w].Selected? && Fresh(s, s.jobs[w].picked)
    ensures Exclusive(Step(g, s, ClaimDelivery(w)))
  {
    var picked := s.jobs[w].picked;
    StepKeepsSafe(g, s, ClaimDelivery(w));
    forall i | 0 <= i < |s.rows| && s.rows[i].status == Pending ensures s.rows[i].content.None? {
      assert Shaped(s.rows[i]);
    }
    FreshWaitsForNothing(s, picked);
    ClaimDeliveryMoves(g, s, w, picked);
    assert Step(g, s, ClaimDelivery(w)).rows == SetStatus(s.rows, picked.Keys, Delivering);
  }

  ghost predicate FreshRun(g: Gates, s: Pipe, actions: seq<Action>) {
    actions == [] ||
    (FreshRun(g, s, actions[..|actions| - 1])
     && FreshAction(Run(g, s, actions[..|actions| - 1]), actions[|actions| - 1]))
  }

  lemma {:induction false} FreshRunKeepsExclusive(g: Gates, s: Pipe, actions: seq<Action>)
    requires Exclusive(s) && FreshRun(g, s, actions)
    ensures Exclusive(Run(g, s, actions))
  {
    if actions != [] {
      var n := |actions| - 1;
      FreshRunKeepsExclusive(g, s, actions[..n]);
      StepKeepsExclusive(g, Run(g, s, actions[..n]), actions[n]);
    }
  }

  /** Every run whose delivery claims are fresh has exclusive ownership, only legal finishes, exact charges,
      and delivered rows that hold exactly what was pushed. */
  lemma FreshRunsAreExclusive(g: Gates, actions: seq<Action>)
    requires FreshRun(g, EMPTY, actions)
    ensures Exclusive(Run(g, EMPTY, actions))
  {
    FreshRunKeepsExclusive(g, EMPTY, actions);
  }

  lemma StaleClaimBreaks(g: Gates, s: Pipe, w: nat, i: nat)
    requires WorkedIsHeld(s) && OrphansStuck(s)
    requires w in s.jobs && s.jobs[w].Selected? && i in s.jobs[w].picked && i < |s.rows|
    requires Worked(s.rows[i].status) || s.rows[i].content != Some(s.jobs[w].picked[i])
    ensures !Exclusive(Step(g, s, ClaimDelivery(w)))
  {
    var t := Step(g, s, ClaimDelivery(w));
    assert i in Held(t.jobs[w]);
    if Worked(s.rows[i].status) {
      if i !in s.orphans {
        var v :| v in s.jobs && i in Held(s.jobs[v]);
        assert v in t.jobs && i in Held(t.jobs[v]) && v != w;
        assert !DisjointHolders(t);
      } else {
        assert !OrphansStuck(t);
      }
    } else {
      assert !HoldsItsRows(t, t.jobs[w]);
    }
  }

  /** A delivery claim keeps exclusive ownership exactly when its selection is still fresh. */
  lemma ClaimIsSafeExactlyWhenFresh(g: Gates, s: Pipe, w: nat)
    requires Exclusive(s) && w in s.jobs && s.jobs[w].Selected?
    ensures Exclusive(Step(g, s, ClaimDelivery(w))) <==> Fresh(s, s.jobs[w].picked)
  {
    var picked := s.jobs[w].picked;
    if Fresh(s, picked) {
      ClaimDeliveryKeepsExclusive(g, s, w);
    } else {
      assert Placed(s.rows, s.jobs[w]);
      var i :| i in picked && !(i < |s.rows| && !Worked(s.rows[i].status) && s.rows[i].content == Some(picked[i]));
      StaleClaimBreaks(g, s, w, i);
    }
  }

  /** A selection claimed before anyone else moves is fresh: atomic claims always keep ownership. */
  lemma SelectionStartsFresh(g: Gates, s: Pipe, w: nat, target: nat, force: bool, withheld: set<nat>)
    requires w !in s.jobs
    ensures var t := Step(g, s, Select(w, target, force, withheld));
            w in t.jobs && t.jobs[w].Selected? && Fresh(t, t.jobs[w].picked)
  {
  }

  lemma {:induction false} FindUnique(rows: seq<FixRow>, i: nat)
    requires Unique(rows) && i < |rows|
    ensures Find(rows, rows[i].key) == Some(i)
  {
  }

  lemma QueueOneResets(rows: seq<FixRow>, i: nat)
    requires Unique(rows) && i < |rows| && rows[i].status !in IN_FLIGHT
    ensures var key := rows[i].key;
            QueueAll(rows, key.target, [key.path], true) == Queued(rows[i := FixRow(key, Pending, None)], [key.path])
  {
    var key := rows[i].key;
    FindUnique(rows, i);
    assert [key.path][..0] == [] && key == Key(key.target, key.path);
    assert QueueAll(rows, key.target, [], true) == Queued(rows, []);
  }

  lemma ClaimAndDeliver(g: Gates, s: Pipe, w: nat, i: nat)
    requires w in s.jobs && s.jobs[w].Selected? && i in s.jobs[w].picked && i < |s.rows|
    ensures var t := Step(g, Step(g, s, ClaimDelivery(w)), EndDelivery(w, false));
            |t.rows| == |s.rows| && t.rows[i] == s.rows[i].(status := Delivered) &&
                (s.rows[i].key, s.jobs[w].picked[i]) in t.sent
  {
    var t := Step(g, s, ClaimDelivery(w));
    assert t.rows[i] == s.rows[i].(status := Delivering) && t.jobs[w] == Sending(s.jobs[w].picked);
  }

  /** A row selected as ready, then reset by a forced request, then claimed and delivered from the stale selection,
      ends delivered with no content, although its old content was pushed. */
  lemma StaleClaimDeliversNothing(g: Gates, s: Pipe, w: nat, i: nat)
    requires Unique(s.rows) && w !in s.jobs && i < |s.rows|
    requires s.rows[i].status == Ready && s.rows[i].content.Some? && s.rows[i].content.value != ""
    ensures var key := s.rows[i].key;
            var s2 := Step(g, Step(g, s, Select(w, key.target, false, {})), Queue(key.target, [key.path], true));
            var s4 := Step(g, Step(g, s2, ClaimDelivery(w)), EndDelivery(w, false));
            |s4.rows| == |s.rows| && s4.rows[i] == FixRow(key, Delivered, None) &&
                (key, s.rows[i].content.value) in s4.sent
  {
    var key := s.rows[i].key;
    var picked := Pick(s.rows, key.target, false, {});
    assert i in picked && picked[i] == s.rows[i].content.value;
    QueueOneResets(s.rows, i);
    var s2 := Step(g, Step(g, s, Select(w, key.target, false, {})), Queue(key.target, [key.path], true));
    assert s2.rows == s.rows[i := FixRow(key, Pending, None)] && w in s2.jobs && s2.jobs[w] == Selected(picked);
    ClaimAndDeliver(g, s2, w, i);
  }

  lemma OrphanStays(g: Gates, s: Pipe, a: Action, i: nat)
    requires Exclusive(s) && FreshAction(s, a) && i in s.orphans
    ensures i in Step(g, s, a).orphans
    ensures i < |s.rows| <= |Step(g, s, a).rows| && Step(g, s, a).rows[i] == s.rows[i]
  {
    StepKeepsSafe(g, s, a);
    if a.Queue? {
      QueueAllKeeps(s.rows, a.target, a.files, a.force);
    } else if !a.Select? && a.w in s.jobs {
      assert HoldsItsRows(s, s.jobs[a.w]);
    }
  }

  /** Nothing revives a row whose worker died holding it: every fresh run, forced or not, leaves it as it is. */
  lemma {:induction false} OrphanIsStuckForever(g: Gates, s: Pipe, actions: seq<Action>, i: nat)
    requires Exclusive(s) && FreshRun(g, s, actions) && i in s.orphans
    ensures i < |s.rows| <= |Run(g, s, actions).rows| && Run(g, s, actions).rows[i] == s.rows[i]
    ensures i in Run(g, s, actions).orphans
  {
    if actions != [] {
      var n := |actions| - 1;
      OrphanIsStuckForever(g, s, actions[..n], i);
      FreshRunKeepsExclusive(g, s, actions[..n]);
      OrphanStays(g, Run(g, s, actions[..n]), actions[n], i);
    }
  }

  lemma {:induction false} Above(ids: set<nat>) returns (bound: nat)
    ensures forall w <- ids :: w < bound
  {
    if ids == {} {
      bound := 0;
    } else {
      var w :| w in ids;
      var b := Above(ids - {w});
      bound := if b <= w then w + 1 else b;
      forall x | x in ids ensures x < bound {
        assert x == w || x in ids - {w};
      }
    }
  }

  /** The action is fresh and leaves row i other than it was. */
  ghost predicate Moves(g: Gates, s: Pipe, a: Action, i: nat)
    requires i < |s.rows|
  {
    FreshAction(s, a) && |s.rows| <= |Step(g, s, a).rows| && Step(g, s, a).rows[i] != s.rows[i]
  }

  lemma WaitingRowMoves(g: Gates, s: Pipe, i: nat)
    requires Unique(s.rows) && i < |s.rows| && s.rows[i].status == Pending
    ensures exists a :: Moves(g, s, a, i)
  {
    var w := Above(s.jobs.Keys);
    FindUnique(s.rows, i);
    assert Moves(g, s, ClaimGeneration(w, s.rows[i].key), i);
  }

  lemma WorkedRowMoves(g: Gates, s: Pipe, i: nat)
    requires Ownership(s) && i < |s.rows| && Worked(s.rows[i].status) && i !in s.orphans
    ensures exists a :: Moves(g, s, a, i)
  {
    assert Owned(s, i);
    var w :| w in s.jobs && i in Held(s.jobs[w]);
    assert HoldsItsRows(s, s.jobs[w]);
    if s.jobs[w].Generating? {
      assert Moves(g, s, EndGeneration(w, Raised), i);
    } else {
      assert Moves(g, s, EndDelivery(w, false), i);
    }
  }

  lemma IdleRowMoves(g: Gates, s: Pipe, i: nat)
    requires Unique(s.rows) && i < |s.rows| && s.rows[i].status !in IN_FLIGHT
    ensures exists a :: Moves(g, s, a, i)
  {
    var key := s.rows[i].key;
    QueueOneResets(s.rows, i);
    assert Moves(g, s, Queue(key.target, [key.path], true), i);
  }

  /** The exact condition: a row can still move, by some fresh action, exactly when no worker died holding it. A waiting
      row can be claimed, a worked one ended by its holder, and any other reset by a forced request. */
  lemma RowCanMoveExactlyWhenNotOrphaned(g: Gates, s: Pipe, i: nat)
    requires Exclusive(s) && i < |s.rows|
    ensures (exists a :: Moves(g, s, a, i)) <==> i !in s.orphans
  {
    if i in s.orphans {
      forall a | FreshAction(s, a) ensures !Moves(g, s, a, i) {
        OrphanStays(g, s, a, i);
      }
    } else if Worked(s.rows[i].status) {
      WorkedRowMoves(g, s, i);
    } else if s.rows[i].status == Pending {
      WaitingRowMoves(g, s, i);
    } else {
      IdleRowMoves(g, s, i);
    }
  }

  lemma RunSplits(g: Gates, s: Pipe, actions: seq<Action>, a: Action)
    ensures Run(g, s, actions + [a]) == Step(g, Run(g, s, actions), a)
    ensures FreshRun(g, s, actions + [a]) <==> FreshRun(g, s, actions) && FreshAction(Run(g, s, actions), a)
  {
    assert (actions + [a])[..|actions|] == actions;
  }

  lemma RunOfThree(g: Gates, s: Pipe, a: Action, b: Action, c: Action)
    ensures Run(g, s, [a, b, c]) == Step(g, Step(g, Step(g, s, a), b), c)
    ensures FreshRun(g, s, [a, b, c]) <==>
            FreshAction(s, a) && FreshAction(Step(g, s, a), b) && FreshAction(Step(g, Step(g, s, a), b), c)
  {
    assert [a] == [] + [a] && [a, b] == [a] + [b] && [a, b, c] == [a, b] + [c];
    RunSplits(g, s, [], a);
    RunSplits(g, s, [a], b);
    RunSplits(g, s, [a, b], c);
  }

  lemma QueueFirst(g: Gates, target: nat, path: string)
    ensures var s := Step(g, EMPTY, Queue(target, [path], false));
            s.rows == [FixRow(Key(target, path), Pending, None)] && s.jobs == map[] && s.orphans == {}
  {
    assert [path][..0] == [] && QueueAll([], target, [], false) == Queued([], []);
  }

  lemma ClaimThenCrash(g: Gates, s: Pipe, key: Key, w: nat)
    requires s.rows == [FixRow(key, Pending, None)] && s.jobs == map[] && s.orphans == {}
    ensures var t := Step(g, Step(g, s, ClaimGeneration(w, key)), Crash(w));
            t.orphans == {0} && t.rows == [FixRow(key, FixStatus.Generating, None)]
  {
    FindUnique(s.rows, 0);
    var claimed := Step(g, s, ClaimGeneration(w, key));
    assert claimed.jobs == map[w := Job.Generating(0)] && claimed.orphans == {};
    assert claimed.rows == [FixRow(key, FixStatus.Generating, None)];
  }

  /** Such a row arises from the empty pipeline in three steps, all of them fresh: one file queued, its generation
      claimed by a worker, and that worker gone. The row stays in `generating`. */
  lemma OrphanArises(g: Gates, target: nat, path: string, w: nat)
    ensures var actions := [Queue(target, [path], false), ClaimGeneration(w, Key(target, path)), Crash(w)];
            var s := Run(g, EMPTY, actions);
            && FreshRun(g, EMPTY, actions) && s.orphans == {0}
            && s.rows == [FixRow(Key(target, path), FixStatus.Generating, None)]
  {
    var key := Key(target, path);
    RunOfThree(g, EMPTY, Queue(target, [path], false), ClaimGeneration(w, key), Crash(w));
    QueueFirst(g, target, path);
    ClaimThenCrash(g, Step(g, EMPTY, Queue(target, [path], false)), key, w);
  }

  lemma ClaimThenEnd(g: Gates, s: Pipe, key: Key, w: nat, answer: Answer, content: string)
    requires s.rows == [FixRow(key, Pending, None)] && s.jobs == map[]
    requires Outcome(g, key.path, answer) == Some(content)
    ensures var t := Step(g, Step(g, s, ClaimGeneration(w, key)), EndGeneration(w, answer));
            t.rows == [FixRow(key, Ready, Some(content))] && t.jobs == map[]
  {
    FindUnique(s.rows, 0);
    var claimed := Step(g, s, ClaimGeneration(w, key));
    assert claimed.jobs == map[w := Job.Generating(0)];
    assert claimed.rows == [FixRow(key, FixStatus.Generating, None)];
  }

  lemma {:induction false} RunConcat(g: Gates, s: Pipe, a: seq<Action>, b: seq<Action>)
    ensures Run(g, s, a + b) == Run(g, Run(g, s, a), b)
  {
    if b == [] {
      assert a + b == a;
    } else {
      assert (a + b)[..|a + b| - 1] == a + b[..|b| - 1];
      RunConcat(g, s, a, b[..|b| - 1]);
    }
  }

  lemma RunOfFour(g: Gates, s: Pipe, a: Action, b: Action, c: Action, d: Action)
    ensures Run(g, s, [a, b, c, d]) == Step(g, Step(g, Step(g, Step(g, s, a), b), c), d)
  {
    assert [a, b, c, d] == [a, b, c] + [d];
    RunOfThree(g, s, a, b, c);
    RunSplits(g, s, [a, b, c], d);
  }

  /** The whole run from the empty pipeline, for any answer the gates accept: one file queued and generated; a delivery
      selects it, a forced request resets it, and the delivery goes on. */
  lemma StaleClaimArises(g: Gates, key: Key, w: nat, answer: Answer, content: string)
    requires Outcome(g, key.path, answer) == Some(content) && content != ""
    ensures var generated := [Queue(key.target, [key.path], false), ClaimGeneration(w, key), EndGeneration(w, answer)];
            var delivered := [Select(w, key.target, false, {}), Queue(key.target, [key.path], true), ClaimDelivery(w),
                              EndDelivery(w, false)];
            var s := Run(g, EMPTY, generated + delivered);
            s.rows == [FixRow(key, Delivered, None)] && (key, content) in s.sent
  {
    var generated := [Queue(key.target, [key.path], false), ClaimGeneration(w, key), EndGeneration(w, answer)];
    var delivered := [Select(w, key.target, false, {}), Queue(key.target, [key.path], true), ClaimDelivery(w),
                      EndDelivery(w, false)];
    RunConcat(g, EMPTY, generated, delivered);
    RunOfThree(g, EMPTY, generated[0], generated[1], generated[2]);
    QueueFirst(g, key.target, key.path);
    ClaimThenEnd(g, Step(g, EMPTY, generated[0]), key, w, answer, content);
    var ready := Run(g, EMPTY, generated);
    RunOfFour(g, ready, delivered[0], delivered[1], delivered[2], delivered[3]);
    StaleClaimDeliversNothing(g, ready, w, 0);
  }

  // ------------------------------------------------- legal transitions

  /** An unforced delivery selects exactly the target's rows from which delivery may start, that hold content and are
      not withheld; those are the ready ones. */
  lemma UnforcedSelectionIsLegal(rows: seq<FixRow>, target: nat, withheld: set<nat>, i: nat)
    requires i < |rows|
    ensures i in Pick(rows, target, false, withheld) <==>
              && rows[i].key.target == target && i !in withheld
              && Fire(rows[i].status, StartDelivery) == Some(Delivering)
              && rows[i].content.Some? && rows[i].content.value != ""
    ensures i in Pick(rows, target, false, withheld) ==>
              rows[i].status == Ready && rows[i].content == Some(Pick(rows, target, false, withheld)[i])
  {
  }

  /** A forced one selects those, what was delivered before and what failed; no row that was rejected, superseded or
      landed, and none that waits or is being worked on. */
  lemma ForcedSelectionExactlyWhen(rows: seq<FixRow>, target: nat, withheld: set<nat>, i: nat)
    requires i < |rows|
    ensures i in Pick(rows, target, true, withheld) <==>
              && rows[i].key.target == target && i !in withheld
              && rows[i].status in {Ready, Delivered, Failed}
              && rows[i].content.Some? && rows[i].content.value != ""
    ensures i in Pick(rows, target, true, withheld) ==> rows[i].content == Some(Pick(rows, target, true, withheld)[i])
  {
  }

  lemma EndedIsForcible(rows: seq<FixRow>, ids: set<nat>, failed: bool, withheld: set<nat>, i: nat)
    requires i in ids && i < |rows| && i !in withheld
    requires rows[i].content.Some? && rows[i].content.value != ""
    ensures Get(Pick(SetStatus(rows, ids, if failed then Failed else Delivered), rows[i].key.target, true, withheld), i)
              == rows[i].content
  {
    var rows' := SetStatus(rows, ids, if failed then Failed else Delivered);
    assert rows'[i] == rows[i].(status := if failed then Failed else Delivered);
    ForcedSelectionExactlyWhen(rows', rows[i].key.target, withheld, i);
  }

  /** However a delivery ends, the next forced one of its target takes up again every row it sent that is not withheld,
      with the content the row holds; that is the content it sent, as long as ownership held. */
  lemma ForcedDeliveryResends(g: Gates, s: Pipe, w: nat, failed: bool, v: nat, target: nat, withheld: set<nat>, i: nat)
    requires w in s.jobs && s.jobs[w].Sending? && (v == w || v !in s.jobs)
    requires i in s.jobs[w].picked && i < |s.rows| && s.rows[i].key.target == target && i !in withheld
    requires s.rows[i].content.Some? && s.rows[i].content.value != ""
    ensures var t := Step(g, Step(g, s, EndDelivery(w, failed)), Select(v, target, true, withheld));
            && v in t.jobs && t.jobs[v].Selected? && Get(t.jobs[v].picked, i) == s.rows[i].content
            && (HoldsItsRows(s, s.jobs[w]) ==> Get(t.jobs[v].picked, i) == Some(s.jobs[w].picked[i]))
  {
    EndedIsForcible(s.rows, s.jobs[w].picked.Keys, failed, withheld, i);
  }

  /** A push takes what was selected and nothing else: only a claim adds to what was ever sent, and it adds each
      selected content under its row's key. */
  lemma OnlySelectionsAreSent(g: Gates, s: Pipe, a: Action, key: Key, content: string)
    ensures (key, content) in Step(g, s, a).sent <==>
              || (key, content) in s.sent
              || (a.ClaimDelivery? && a.w in s.jobs && s.jobs[a.w].Selected? &&
                   exists i: nat :: i < |s.rows| && s.rows[i].key == key && Get(s.jobs[a.w].picked, i) == Some(content))
  {
    if a.ClaimDelivery? && a.w in s.jobs && s.jobs[a.w].Selected? {
      var picked := s.jobs[a.w].picked;
      if i: nat :| i < |s.rows| && s.rows[i].key == key && Get(picked, i) == Some(content) {
        assert (s.rows[i].key, picked[i]) in Step(g, s, a).sent;
      }
    }
  }

  /** Only the rows a worker holds move, and each move is an edge of the state machine. */
  ghost predicate FinishesLegally(s: Pipe, t: Pipe, ids: set<nat>, event: FixEvent) {
    |t.rows| == |s.rows| &&
    forall i | 0 <= i < |s.rows| ::
      if i in ids then Fire(s.rows[i].status, event) == Some(t.rows[i].status) else t.rows[i] == s.rows[i]
  }

  /** Under exclusive ownership a generation ends legally on the row as stored: ready, with the rewrite, when there is a
      vetted one; otherwise failed, with whatever content it had; and no other row is touched. */
  lemma GenerationsEndLegally(g: Gates, s: Pipe, w: nat, answer: Answer)
    requires Exclusive(s) && w in s.jobs && s.jobs[w].Generating?
    ensures s.jobs[w].id < |s.rows|
    ensures FinishesLegally(s, Step(g, s, EndGeneration(w, answer)), {s.jobs[w].id},
              if Outcome(g, s.rows[s.jobs[w].id].key.path, answer).Some? then GenerationSucceeded else GenerationFailed)
    ensures var was, row := s.rows[s.jobs[w].id], Step(g, s, EndGeneration(w, answer)).rows[s.jobs[w].id];
            var outcome := Outcome(g, was.key.path, answer);
            row == FixRow(was.key, if outcome.Some? then Ready else Failed,
                     if outcome.Some? then outcome else was.content)
  {
    assert HoldsItsRows(s, s.jobs[w]);
    GenerationMovesOneRow(g, s, w, s.jobs[w].id, answer);
  }

  lemma GenerationMovesOneRow(g: Gates, s: Pipe, w: nat, i: nat, answer: Answer)
    requires Get(s.jobs, w) == Some(Job.Generating(i)) && i < |s.rows| && s.rows[i].status == FixStatus.Generating
    ensures FinishesLegally(s, Step(g, s, EndGeneration(w, answer)), {i},
              if Outcome(g, s.rows[i].key.path, answer).Some? then GenerationSucceeded else GenerationFailed)
  {
    assert Step(g, s, EndGeneration(w, answer)).rows ==
           s.rows[i := FinishGeneration(s.rows[i], Outcome(g, s.rows[i].key.path, answer))];
  }

  /** The same for a delivery and all the rows it sends. */
  lemma DeliveriesEndLegally(g: Gates, s: Pipe, w: nat, failed: bool)
    requires Exclusive(s) && w in s.jobs && s.jobs[w].Sending?
    ensures FinishesLegally(s, Step(g, s, EndDelivery(w, failed)), s.jobs[w].picked.Keys,
              if failed then DeliveryFailed else DeliverySucceeded)
    ensures forall i <- s.jobs[w].picked :: i < |s.rows|
              && Step(g, s, EndDelivery(w, failed)).rows[i] ==
                   FixRow(s.rows[i].key, if failed then Failed else Delivered, s.rows[i].content)
  {
    assert HoldsItsRows(s, s.jobs[w]);
    DeliveryMovesItsRows(g, s, w, s.jobs[w].picked, failed);
  }

  lemma DeliveryMovesItsRows(g: Gates, s: Pipe, w: nat, picked: map<nat, string>, failed: bool)
    requires Get(s.jobs, w) == Some(Sending(picked))
    requires forall i <- picked :: i < |s.rows| && s.rows[i].status == Delivering
    ensures FinishesLegally(s, Step(g, s, EndDelivery(w, failed)), picked.Keys,
              if failed then DeliveryFailed else DeliverySucceeded)
  {
    assert Step(g, s, EndDelivery(w, failed)).rows ==
           SetStatus(s.rows, picked.Keys, if failed then Failed else Delivered);
  }
}
