/** Syncs interleaved step by step with pushes: stamp, then read, then commit. */
module WorkflowProtocol {
  import opened Wrappers
  import opened WorkflowSync
  import opened WorkflowHistory

  // What each branch holds at each of its versions; versions only grow, one per push.
  type Upstream = (Ref, nat) -> map<string, string>

  datatype Flight =
    | Stamped(ref: Ref, stamp: int, reconcile: bool, floor: nat)
    | Read(sync: Sync, floor: nat, version: nat)

  datatype State = State(
    clock: int,
    heads: map<Ref, nat>,
    flights: map<nat, Flight>,
    db: Db,
    log: seq<Entry>)

  datatype Event =
    | Push(ref: Ref)
    | Begin(id: nat, ref: Ref, at: int, reconcile: bool)
    | Fetch(id: nat, head: Option<string>)
    | Finish(id: nat, now: int)

  function Head(s: State, ref: Ref): nat {
    if ref in s.heads then s.heads[ref] else 0
  }

  /** One step. A step that is not enabled changes nothing. The server clock may stand still but never turns back. */
  ghost function Step(up: Upstream, s: State, e: Event): State {
    match e
    case Push(ref) => s.(heads := s.heads[ref := Head(s, ref) + 1])
    case Begin(id, ref, at, reconcile) =>
      if id in s.flights || at < s.clock then s
      else s.(clock := at, flights := s.flights[id := Stamped(ref, at, reconcile, Head(s, ref))])
    case Fetch(id, head) =>
      if id !in s.flights || !s.flights[id].Stamped? then s
      else
        var f := s.flights[id];
        var v := Head(s, f.ref);
        s.(flights := s.flights[id := Read(Sync(f.ref, f.stamp, head, up(f.ref, v), f.reconcile), f.floor, v)])
    case Finish(id, now) =>
      if id !in s.flights || !s.flights[id].Read? then s
      else
        var f := s.flights[id];
        State(s.clock, s.heads, s.flights - {id}, Commit(s.db, f.sync, now),
              s.log + [Entry(f.sync, now, f.floor, f.version)])
  }

  ghost function Run(up: Upstream, s: State, events: seq<Event>): State {
    if events == [] then s
    else Step(up, Run(up, s, events[..|events| - 1]), events[|events| - 1])
  }

  function Initial(db: Db): State {
    State(0, map[], map[], db, [])
  }

  // ------------------------------------------------- what every interleaving keeps

  function FlightRef(f: Flight): Ref { if f.Stamped? then f.ref else f.sync.ref }
  function FlightStamp(f: Flight): int { if f.Stamped? then f.stamp else f.sync.stamp }

  /** The read was made at some version between the head at stamping time and the head now. */
  ghost predicate Honest(up: Upstream, s: State, sync: Sync, floor: nat, version: nat) {
    floor <= version <= Head(s, sync.ref) && sync.listing == up(sync.ref, version)
  }

  ghost predicate FlightOk(up: Upstream, s: State, f: Flight) {
    && FlightStamp(f) <= s.clock
    && f.floor <= Head(s, FlightRef(f))
    && (f.Read? ==> Honest(up, s, f.sync, f.floor, f.version))
  }

  ghost predicate EntryOk(up: Upstream, s: State, e: Entry) {
    e.sync.stamp <= s.clock && Honest(up, s, e.sync, e.floor, e.version)
  }

  ghost predicate Inv(up: Upstream, db: Db, s: State) {
    && s.db == Replay(db, s.log)
    && (forall i <- s.flights :: FlightOk(up, s, s.flights[i]))
    && (forall i | 0 <= i < |s.log| :: EntryOk(up, s, s.log[i]))
  }

  lemma StepKeepsInv(up: Upstream, db: Db, s: State, e: Event)
    requires Inv(up, db, s)
    ensures Inv(up, db, Step(up, s, e))
  {
    var t := Step(up, s, e);
    forall i | i in t.flights ensures FlightOk(up, t, t.flights[i]) {
      if i in s.flights { assert FlightOk(up, s, s.flights[i]); }
    }
    if e.Finish? && t != s {
      assert t.log[..|s.log|] == s.log;
      assert FlightOk(up, s, s.flights[e.id]);
    }
    forall i | 0 <= i < |t.log| ensures EntryOk(up, t, t.log[i]) {
      if i < |s.log| { assert EntryOk(up, s, s.log[i]); }
    }
  }

  lemma {:induction false} RunKeepsInv(up: Upstream, db: Db, events: seq<Event>)
    ensures Inv(up, db, Run(up, Initial(db), events))
  {
    if events != [] {
      var n := |events| - 1;
      RunKeepsInv(up, db, events[..n]);
      StepKeepsInv(up, db, Run(up, Initial(db), events[..n]), events[n]);
    }
  }

  // ------------------------------------------------- where stamps, floors and versions come from

  /** Step n took the stamp, and the floor is the head of the branch then. */
  ghost predicate StampedAt(up: Upstream, db: Db, events: seq<Event>, n: nat, ref: Ref, stamp: int, reconcile: bool,
                            floor: nat) {
    && n < |events| && events[n].Begin?
    && events[n].ref == ref && events[n].at == stamp && events[n].reconcile == reconcile
    && floor == Head(Run(up, Initial(db), events[..n]), ref)
  }

  /** Step n read the branch, at the version that was its head then. */
  ghost predicate ReadAt(up: Upstream, db: Db, events: seq<Event>, n: nat, sync: Sync, version: nat) {
    && n < |events| && events[n].Fetch? && events[n].head == sync.head
    && version == Head(Run(up, Initial(db), events[..n]), sync.ref) && sync.listing == up(sync.ref, version)
  }

  ghost predicate FlightTraced(up: Upstream, db: Db, events: seq<Event>, f: Flight) {
    match f
    case Stamped(ref, stamp, reconcile, floor) =>
      exists n: nat :: StampedAt(up, db, events, n, ref, stamp, reconcile, floor)
    case Read(sync, floor, version) => SyncTraced(up, db, events, sync, floor, version)
  }

  ghost predicate SyncTraced(up: Upstream, db: Db, events: seq<Event>, sync: Sync, floor: nat, version: nat) {
    exists n: nat, m: nat ::
      n < m && StampedAt(up, db, events, n, sync.ref, sync.stamp, sync.reconcile, floor)
      && ReadAt(up, db, events, m, sync, version)
  }

  lemma StillStamped(up: Upstream, db: Db, events: seq<Event>, e: Event, n: nat, ref: Ref, stamp: int, reconcile: bool,
                     floor: nat)
    requires StampedAt(up, db, events, n, ref, stamp, reconcile, floor)
    ensures StampedAt(up, db, events + [e], n, ref, stamp, reconcile, floor)
  {
    assert (events + [e])[..n] == events[..n];
  }

  lemma StillSyncTraced(up: Upstream, db: Db, events: seq<Event>, e: Event, sync: Sync, floor: nat, version: nat)
    requires SyncTraced(up, db, events, sync, floor, version)
    ensures SyncTraced(up, db, events + [e], sync, floor, version)
  {
    var n: nat, m: nat :| n < m && StampedAt(up, db, events, n, sync.ref, sync.stamp, sync.reconcile, floor)
      && ReadAt(up, db, events, m, sync, version);
    StillStamped(up, db, events, e, n, sync.ref, sync.stamp, sync.reconcile, floor);
    assert (events + [e])[..m] == events[..m];
    assert ReadAt(up, db, events + [e], m, sync, version);
  }

  lemma FlightStillTraced(up: Upstream, db: Db, events: seq<Event>, e: Event, f: Flight)
    requires FlightTraced(up, db, events, f)
    ensures FlightTraced(up, db, events + [e], f)
  {
    match f
    case Stamped(ref, stamp, reconcile, floor) =>
      var n: nat :| StampedAt(up, db, events, n, ref, stamp, reconcile, floor);
      StillStamped(up, db, events, e, n, ref, stamp, reconcile, floor);
    case Read(sync, floor, version) => StillSyncTraced(up, db, events, e, sync, floor, version);
  }

  ghost predicate AllTraced(up: Upstream, db: Db, events: seq<Event>, s: State) {
    && (forall id <- s.flights :: FlightTraced(up, db, events, s.flights[id]))
    && (forall i | 0 <= i < |s.log| ::
          SyncTraced(up, db, events, s.log[i].sync, s.log[i].floor, s.log[i].version))
  }

  lemma BeginTraced(up: Upstream, db: Db, events: seq<Event>, e: Event)
    requires e.Begin?
    ensures FlightTraced(up, db, events + [e],
              Stamped(e.ref, e.at, e.reconcile, Head(Run(up, Initial(db), events), e.ref)))
  {
    assert (events + [e])[..|events|] == events;
    assert StampedAt(up, db, events + [e], |events|, e.ref, e.at, e.reconcile,
                     Head(Run(up, Initial(db), events), e.ref));
  }

  lemma FetchTraced(up: Upstream, db: Db, events: seq<Event>, e: Event, f: Flight)
    requires e.Fetch? && f.Stamped? && FlightTraced(up, db, events, f)
    ensures var v := Head(Run(up, Initial(db), events), f.ref);
            FlightTraced(up, db, events + [e],
              Read(Sync(f.ref, f.stamp, e.head, up(f.ref, v), f.reconcile), f.floor, v))
  {
    var v := Head(Run(up, Initial(db), events), f.ref);
    var n: nat :| StampedAt(up, db, events, n, f.ref, f.stamp, f.reconcile, f.floor);
    StillStamped(up, db, events, e, n, f.ref, f.stamp, f.reconcile, f.floor);
    assert (events + [e])[..|events|] == events;
    assert ReadAt(up, db, events + [e], |events|, Sync(f.ref, f.stamp, e.head, up(f.ref, v), f.reconcile), v);
  }

  /** In every interleaving each sync, on its way or committed, took its stamp in one step, with the head of its branch
      then as its floor, and read the branch in a later one, at the version that was the head at that moment. */
  lemma {:induction false} StampsAndReadsAreTraced(up: Upstream, db: Db, events: seq<Event>)
    ensures AllTraced(up, db, events, Run(up, Initial(db), events))
  {
    if events != [] {
      var front, e := events[..|events| - 1], events[|events| - 1];
      var s, t := Run(up, Initial(db), front), Run(up, Initial(db), events);
      StampsAndReadsAreTraced(up, db, front);
      assert events == front + [e];
      forall id | id in t.flights ensures FlightTraced(up, db, events, t.flights[id]) {
        if id in s.flights && t.flights[id] == s.flights[id] {
          FlightStillTraced(up, db, front, e, s.flights[id]);
        } else if e.Begin? {
          BeginTraced(up, db, front, e);
        } else {
          FetchTraced(up, db, front, e, s.flights[id]);
        }
      }
      forall i | 0 <= i < |t.log| ensures SyncTraced(up, db, events, t.log[i].sync, t.log[i].floor, t.log[i].version) {
        if i < |s.log| {
          StillSyncTraced(up, db, front, e, s.log[i].sync, s.log[i].floor, s.log[i].version);
        } else {
          FlightStillTraced(up, db, front, e, s.flights[e.id]);
        }
      }
    }
  }

  /** In every interleaving, each row some sync has written holds its path as it stood at one version of its branch,
      no older than the head when the row's own stamp was taken. */
  lemma StoredTextIsNoOlderThanItsStamp(up: Upstream, db: Db, events: seq<Event>, k: Key)
    requires HashesAgree(db.rows)
    requires var s := Run(up, Initial(db), events); k in s.db.rows && !Untouched(db, s.log, k)
    ensures var s := Run(up, Initial(db), events);
            exists i :: 0 <= i < |s.log| && Wins(s.log, i, k) && HoldsReadOf(s.db.rows[k], s.log[i].sync, k.path)
              && s.log[i].floor <= s.log[i].version <= Head(s, k.ref)
              && up(k.ref, s.log[i].version) == s.log[i].sync.listing
  {
    var s := Run(up, Initial(db), events);
    RunKeepsInv(up, db, events);
    RowIsLargestStampedRead(db, s.log, k);
    var i :| 0 <= i < |s.log| && Wins(s.log, i, k) && HoldsReadOf(s.db.rows[k], s.log[i].sync, k.path);
    assert EntryOk(up, s, s.log[i]);
  }

  // ------------------------------------------------- which version a row holds

  /** The version at which the text of k was read by the last commit that wrote it; None when no commit did. */
  ghost function WrittenVersion(db: Db, log: seq<Entry>, k: Key): Option<nat> {
    if log == [] then None
    else
      var front, e := log[..|log| - 1], log[|log| - 1];
      if Lists(e.sync, k) && !Stale(Replay(db, front).rows, e.sync, k) then Some(e.version)
      else WrittenVersion(db, front, k)
  }

  /** The row of k holds the text of version v of its branch. */
  ghost predicate HoldsVersion(up: Upstream, rows: map<Key, Row>, k: Key, v: nat) {
    k in rows && k.path in up(k.ref, v) && rows[k].content == up(k.ref, v)[k.path]
  }

  lemma {:induction false} RowHoldsWrittenVersion(up: Upstream, db: Db, log: seq<Entry>, k: Key)
    requires HashesAgree(db.rows)
    requires forall i | 0 <= i < |log| :: log[i].sync.listing == up(log[i].sync.ref, log[i].version)
    requires WrittenVersion(db, log, k).Some?
    ensures HoldsVersion(up, Replay(db, log).rows, k, WrittenVersion(db, log, k).value)
    ensures exists i :: 0 <= i < |log| && Lists(log[i].sync, k) && log[i].version == WrittenVersion(db, log, k).value
              && HoldsReadOf(Replay(db, log).rows[k], log[i].sync, k.path)
  {
    var n := |log| - 1;
    var front, e := log[..n], log[n];
    ReplayKeepsHashes(db, front);
    CommitOneRow(Replay(db, front), e.sync, e.now, k);
    if Lists(e.sync, k) && !Stale(Replay(db, front).rows, e.sync, k) {
      assert k.ref == e.sync.ref;
    } else {
      RowHoldsWrittenVersion(up, db, front, k);
      var i :| 0 <= i < |front| && Lists(front[i].sync, k) && front[i].version == WrittenVersion(db, front, k).value
        && HoldsReadOf(Replay(db, front).rows[k], front[i].sync, k.path);
      assert log[i] == front[i];
    }
  }

  lemma ReachableRowHoldsItsVersion(up: Upstream, db: Db, events: seq<Event>, k: Key)
    requires HashesAgree(db.rows)
    requires WrittenVersion(db, Run(up, Initial(db), events).log, k).Some?
    ensures var s := Run(up, Initial(db), events);
            var v := WrittenVersion(db, s.log, k).value;
            && HoldsVersion(up, s.db.rows, k, v) && v <= Head(s, k.ref)
            && exists i :: 0 <= i < |s.log| && Lists(s.log[i].sync, k) && s.log[i].version == v
                 && HoldsReadOf(s.db.rows[k], s.log[i].sync, k.path)
  {
    var s := Run(up, Initial(db), events);
    RunKeepsInv(up, db, events);
    forall i | 0 <= i < |s.log| ensures s.log[i].sync.listing == up(s.log[i].sync.ref, s.log[i].version) {
      assert EntryOk(up, s, s.log[i]);
    }
    RowHoldsWrittenVersion(up, db, s.log, k);
    var i :| 0 <= i < |s.log| && Lists(s.log[i].sync, k) && s.log[i].version == WrittenVersion(db, s.log, k).value
      && HoldsReadOf(s.db.rows[k], s.log[i].sync, k.path);
    assert EntryOk(up, s, s.log[i]);
  }

  // ------------------------------------------------- can a write go backwards?

  ghost predicate ReadyToCommit(s: State, id: nat, k: Key) {
    id in s.flights && s.flights[id].Read? && Lists(s.flights[id].sync, k)
  }

  lemma FinishAppends(up: Upstream, db: Db, events: seq<Event>, id: nat, now: int, k: Key)
    requires HashesAgree(db.rows) && ReadyToCommit(Run(up, Initial(db), events), id, k)
    ensures var s, t := Run(up, Initial(db), events), Run(up, Initial(db), events + [Finish(id, now)]);
            var f := s.flights[id];
            && t.log == s.log + [Entry(f.sync, now, f.floor, f.version)]
            && WrittenVersion(db, t.log, k) ==
                 (if Stale(s.db.rows, f.sync, k) then WrittenVersion(db, s.log, k) else Some(f.version))
  {
    var s, t := Run(up, Initial(db), events), Run(up, Initial(db), events + [Finish(id, now)]);
    RunKeepsInv(up, db, events);
    RunSplits(up, Initial(db), events, Finish(id, now));
    assert t.log[..|s.log|] == s.log;
  }

  /** The text a commit leaves on a row it was to write: its own read unless the guard on the stored stamp stops it. So
      in every interleaving the stored text goes from version v to an older one exactly when the read was older and the
      stored stamp is not later than the sync's own; and then v was pushed after that sync took its stamp. */
  lemma WriteGoesBackExactlyWhen(up: Upstream, db: Db, events: seq<Event>, id: nat, now: int, k: Key)
    requires HashesAgree(db.rows) && ReadyToCommit(Run(up, Initial(db), events), id, k)
    requires WrittenVersion(db, Run(up, Initial(db), events).log, k).Some?
    ensures var s, t := Run(up, Initial(db), events), Run(up, Initial(db), events + [Finish(id, now)]);
            var f, v := s.flights[id], WrittenVersion(db, s.log, k).value;
            && HoldsVersion(up, s.db.rows, k, v)
            && HoldsVersion(up, t.db.rows, k, if StaleRow(s.db.rows[k], f.sync.stamp) then v else f.version)
            && WrittenVersion(db, t.log, k).Some?
            && (WrittenVersion(db, t.log, k).value < v <==> f.version < v && !StaleRow(s.db.rows[k], f.sync.stamp))
            && (WrittenVersion(db, t.log, k).value < v ==> f.floor < v <= Head(s, k.ref))
  {
    var s := Run(up, Initial(db), events);
    RunKeepsInv(up, db, events);
    assert FlightOk(up, s, s.flights[id]);
    FinishAppends(up, db, events, id, now, k);
    ReachableRowHoldsItsVersion(up, db, events, k);
    ReachableRowHoldsItsVersion(up, db, events + [Finish(id, now)], k);
  }

  /** What such a commit can lose: a version pushed after its sync took its stamp, read and stored by a sync of the
      branch that stamped no later than it did. */
  lemma OnlyVersionsPushedMeanwhileAreLost(up: Upstream, db: Db, events: seq<Event>, id: nat, now: int, k: Key)
    requires HashesAgree(db.rows) && ReadyToCommit(Run(up, Initial(db), events), id, k)
    requires WrittenVersion(db, Run(up, Initial(db), events).log, k).Some?
    requires var s, t := Run(up, Initial(db), events), Run(up, Initial(db), events + [Finish(id, now)]);
             && WrittenVersion(db, t.log, k).Some?
             && WrittenVersion(db, t.log, k).value < WrittenVersion(db, s.log, k).value
    ensures var s := Run(up, Initial(db), events);
            var f, v := s.flights[id], WrittenVersion(db, s.log, k).value;
            && f.floor < v <= Head(s, k.ref) && k in s.db.rows
            && exists i :: 0 <= i < |s.log| && s.log[i].version == v && s.log[i].sync.ref == f.sync.ref
                 && s.log[i].sync.stamp <= f.sync.stamp && HoldsReadOf(s.db.rows[k], s.log[i].sync, k.path)
  {
    WriteGoesBackExactlyWhen(up, db, events, id, now, k);
    ReachableRowHoldsItsVersion(up, db, events, k);
  }

  // ------------------------------------------------- schedules that keep the newest read

  /** Reads of k follow stamps: a later stamp (or an equal one, committed later) never read an older version. */
  ghost predicate ReadsFollowStamps(log: seq<Entry>, k: Key) {
    forall i, j | 0 <= i < |log| && 0 <= j < |log| && Lists(log[i].sync, k) && Lists(log[j].sync, k) ::
      log[i].sync.stamp < log[j].sync.stamp || (log[i].sync.stamp == log[j].sync.stamp && i < j) ==>
        log[i].version <= log[j].version
  }

  lemma WinnerIsNewest(log: seq<Entry>, i: nat, k: Key)
    requires ReadsFollowStamps(log, k)
    requires i < |log| && Wins(log, i, k)
    ensures forall j | 0 <= j < |log| && Lists(log[j].sync, k) :: log[j].version <= log[i].version
  {
  }

  /** No sync of the branch with this stamp or a later one has read yet. A sync can check this before it fetches. */
  ghost predicate ReadsNext(s: State, ref: Ref, stamp: int) {
    && (forall x <- s.flights | s.flights[x].Read? && s.flights[x].sync.ref == ref :: s.flights[x].sync.stamp < stamp)
    && (forall i | 0 <= i < |s.log| && s.log[i].sync.ref == ref :: s.log[i].sync.stamp < stamp)
  }

  ghost predicate FetchesInOrder(s: State, e: Event) {
    e.Fetch? && e.id in s.flights && s.flights[e.id].Stamped? ==>
      ReadsNext(s, s.flights[e.id].ref, s.flights[e.id].stamp)
  }

  ghost predicate OrderedRun(up: Upstream, s: State, events: seq<Event>) {
    events == [] ||
    (OrderedRun(up, s, events[..|events| - 1])
     && FetchesInOrder(Run(up, s, events[..|events| - 1]), events[|events| - 1]))
  }

  predicate InOrder(a: Sync, v: nat, b: Sync, w: nat) {
    a.ref == b.ref ==> a.stamp != b.stamp && (a.stamp < b.stamp ==> v <= w) && (b.stamp < a.stamp ==> w <= v)
  }

  /** All reads made so far, committed or not, are in the order of their stamps. */
  ghost predicate ReadsInOrder(s: State) {
    && (forall i, j | 0 <= i < j < |s.log| ::
          InOrder(s.log[i].sync, s.log[i].version, s.log[j].sync, s.log[j].version))
    && (forall i, x | 0 <= i < |s.log| && x in s.flights && s.flights[x].Read? ::
          InOrder(s.log[i].sync, s.log[i].version, s.flights[x].sync, s.flights[x].version))
    && (forall x, y | x in s.flights && y in s.flights && x != y && s.flights[x].Read? && s.flights[y].Read? ::
          InOrder(s.flights[x].sync, s.flights[x].version, s.flights[y].sync, s.flights[y].version))
  }

  lemma FetchKeepsReadsInOrder(up: Upstream, db: Db, s: State, id: nat, head: Option<string>)
    requires Inv(up, db, s) && ReadsInOrder(s) && FetchesInOrder(s, Fetch(id, head))
    ensures ReadsInOrder(Step(up, s, Fetch(id, head)))
  {
    var t := Step(up, s, Fetch(id, head));
    if t != s {
      forall x | x in s.flights && s.flights[x].Read? ensures s.flights[x].version <= Head(s, s.flights[x].sync.ref) {
        assert FlightOk(up, s, s.flights[x]);
      }
      forall i | 0 <= i < |s.log| ensures s.log[i].version <= Head(s, s.log[i].sync.ref) {
        assert EntryOk(up, s, s.log[i]);
      }
    }
  }

  lemma FinishKeepsReadsInOrder(up: Upstream, s: State, id: nat, now: int)
    requires ReadsInOrder(s)
    ensures ReadsInOrder(Step(up, s, Finish(id, now)))
  {
    var t := Step(up, s, Finish(id, now));
    if t != s {
      assert t.log[|s.log|].sync == s.flights[id].sync && t.log[|s.log|].version == s.flights[id].version;
    }
  }

  lemma {:induction false} OrderedRunReadsInOrder(up: Upstream, db: Db, events: seq<Event>)
    requires OrderedRun(up, Initial(db), events)
    ensures ReadsInOrder(Run(up, Initial(db), events))
  {
    if events != [] {
      var n := |events| - 1;
      var s := Run(up, Initial(db), events[..n]);
      OrderedRunReadsInOrder(up, db, events[..n]);
      RunKeepsInv(up, db, events[..n]);
      match events[n]
      case Fetch(id, head) => FetchKeepsReadsInOrder(up, db, s, id, head);
      case Finish(id, now) => FinishKeepsReadsInOrder(up, s, id, now);
      case _ =>
    }
  }

  lemma OrderMakesReadsFollow(s: State, k: Key)
    requires ReadsInOrder(s)
    ensures ReadsFollowStamps(s.log, k)
  {
  }

  lemma WinnerHoldsNewest(up: Upstream, s: State, k: Key, i: nat)
    requires ReadsInOrder(s) && k in s.db.rows && i < |s.log| && Wins(s.log, i, k)
    requires HoldsReadOf(s.db.rows[k], s.log[i].sync, k.path) && up(k.ref, s.log[i].version) == s.log[i].sync.listing
    ensures HoldsVersion(up, s.db.rows, k, s.log[i].version)
    ensures forall j | 0 <= j < |s.log| && Lists(s.log[j].sync, k) :: s.log[j].version <= s.log[i].version
  {
    OrderMakesReadsFollow(s, k);
    WinnerIsNewest(s.log, i, k);
  }

  /** Over every run whose fetches go in stamp order, in whatever order the syncs then commit, a row some sync has
      written holds the newest version any committed sync read. */
  lemma NewestReadIsStored(up: Upstream, db: Db, events: seq<Event>, k: Key)
    requires HashesAgree(db.rows) && OrderedRun(up, Initial(db), events)
    requires var s := Run(up, Initial(db), events); k in s.db.rows && !Untouched(db, s.log, k)
    ensures var s := Run(up, Initial(db), events);
            exists i :: 0 <= i < |s.log| && HoldsReadOf(s.db.rows[k], s.log[i].sync, k.path)
              && HoldsVersion(up, s.db.rows, k, s.log[i].version)
              && forall j | 0 <= j < |s.log| && Lists(s.log[j].sync, k) :: s.log[j].version <= s.log[i].version
  {
    var s := Run(up, Initial(db), events);
    OrderedRunReadsInOrder(up, db, events);
    StoredTextIsNoOlderThanItsStamp(up, db, events, k);
    var i :| 0 <= i < |s.log| && Wins(s.log, i, k) && HoldsReadOf(s.db.rows[k], s.log[i].sync, k.path)
      && s.log[i].floor <= s.log[i].version <= Head(s, k.ref) && up(k.ref, s.log[i].version) == s.log[i].sync.listing;
    WinnerHoldsNewest(up, s, k, i);
  }

  /** In such a run no commit ever puts an older version on a row. */
  lemma OrderedRunsNeverGoBack(up: Upstream, db: Db, events: seq<Event>, id: nat, now: int, k: Key)
    requires HashesAgree(db.rows) && OrderedRun(up, Initial(db), events)
    requires ReadyToCommit(Run(up, Initial(db), events), id, k)
    requires WrittenVersion(db, Run(up, Initial(db), events).log, k).Some?
    ensures var s, t := Run(up, Initial(db), events), Run(up, Initial(db), events + [Finish(id, now)]);
            && WrittenVersion(db, t.log, k).Some?
            && WrittenVersion(db, s.log, k).value <= WrittenVersion(db, t.log, k).value
  {
    var s := Run(up, Initial(db), events);
    OrderedRunReadsInOrder(up, db, events);
    ReachableRowHoldsItsVersion(up, db, events, k);
    FinishAppends(up, db, events, id, now, k);
  }

  lemma TwoCommits(db: Db, a: Sync, b: Sync, m: int, n: int, k: Key)
    requires HashesAgree(db.rows) && Lists(a, k) && Lists(b, k)
    ensures var end := Commit(Commit(db, a, m), b, n).rows;
            && k in end
            && (a.stamp > b.stamp && !Stale(db.rows, a, k) ==> HoldsReadOf(end[k], a, k.path))
            && (a.stamp <= b.stamp && !Stale(db.rows, b, k) ==> HoldsReadOf(end[k], b, k.path))
            && (Stale(db.rows, b, k) ==> end[k].fetchedAt.Some? && end[k].fetchedAt.value > b.stamp)
            && (Stale(db.rows, a, k) ==> end[k].fetchedAt.Some? && end[k].fetchedAt.value > a.stamp)
  {
    CommitKeepsHashes(db, a, m);
    CommitOneRow(db, a, m, k);
    CommitOneRow(Commit(db, a, m), b, n, k);
  }

  /** A sync about to fetch, and another that read the branch before a push changed k: once this one has read too, the
      row ends with the newer text in both commit orders exactly when the other's stamp is the earlier one, and no
      later stamp is stored. */
  lemma BothOrdersKeepTheNewerReadExactlyWhen(db: Db, older: Sync, newer: Sync, m: int, n: int, k: Key)
    requires HashesAgree(db.rows) && Lists(older, k) && Lists(newer, k) &&
               older.listing[k.path] != newer.listing[k.path]
    ensures var first, last := Commit(Commit(db, newer, m), older, n).rows, Commit(Commit(db, older, m), newer, n).rows;
            && k in first && k in last
            && (HoldsReadOf(first[k], newer, k.path) && HoldsReadOf(last[k], newer, k.path) <==>
                  older.stamp < newer.stamp && !Stale(db.rows, newer, k))
  {
    TwoCommits(db, newer, older, m, n, k);
    TwoCommits(db, older, newer, m, n, k);
  }

  /** The flights of a sync that has only stamped and of one that has read an older text of k. */
  ghost predicate Racing(up: Upstream, s: State, id: nat, other: nat, k: Key) {
    && id in s.flights && s.flights[id].Stamped? && s.flights[id].ref == k.ref
    && other in s.flights && s.flights[other].Read? && Lists(s.flights[other].sync, k)
    && k.path in up(k.ref, Head(s, k.ref))
    && up(k.ref, Head(s, k.ref))[k.path] != s.flights[other].sync.listing[k.path]
  }

  lemma FetchThenCommitTwo(up: Upstream, s: State, id: nat, head: Option<string>, x: nat, m: int, y: nat, n: int)
    requires id in s.flights && s.flights[id].Stamped? && x != y
    requires var t := Step(up, s, Fetch(id, head));
             x in t.flights && t.flights[x].Read? && y in t.flights && t.flights[y].Read?
    ensures var t := Step(up, s, Fetch(id, head));
            Run(up, s, [Fetch(id, head), Finish(x, m), Finish(y, n)]).db ==
              Commit(Commit(s.db, t.flights[x].sync, m), t.flights[y].sync, n)
  {
    var t := Step(up, s, Fetch(id, head));
    RunSplits(up, s, [], Fetch(id, head));
    RunSplits(up, s, [Fetch(id, head)], Finish(x, m));
    RunSplits(up, s, [Fetch(id, head), Finish(x, m)], Finish(y, n));
    assert [] + [Fetch(id, head)] == [Fetch(id, head)];
    assert [Fetch(id, head)] + [Finish(x, m)] == [Fetch(id, head), Finish(x, m)];
    assert [Fetch(id, head), Finish(x, m)] + [Finish(y, n)] == [Fetch(id, head), Finish(x, m), Finish(y, n)];
    assert Run(up, s, [Fetch(id, head)]) == t;
    var u := Step(up, t, Finish(x, m));
    assert u.db == Commit(s.db, t.flights[x].sync, m) && u.flights == t.flights - {x};
  }

  /** The exact condition on a fetch, at any state: another sync of the branch has read an older text of k and is still
      to commit. Both commit orders end with the text this fetch reads exactly when the other's stamp is earlier than
      this one's and no later stamp is stored on the row; otherwise one of the orders goes back to the older text or
      never stores the newer. */
  lemma FetchIsSafeExactlyWhen(up: Upstream, s: State, id: nat, head: Option<string>, other: nat, m: int, n: int,
                               k: Key)
    requires HashesAgree(s.db.rows) && Racing(up, s, id, other, k)
    ensures var read := Sync(k.ref, s.flights[id].stamp, head, up(k.ref, Head(s, k.ref)), s.flights[id].reconcile);
            var first := Run(up, s, [Fetch(id, head), Finish(id, m), Finish(other, n)]).db.rows;
            var last := Run(up, s, [Fetch(id, head), Finish(other, m), Finish(id, n)]).db.rows;
            && k in first && k in last
            && (HoldsReadOf(first[k], read, k.path) && HoldsReadOf(last[k], read, k.path) <==>
                  s.flights[other].sync.stamp < s.flights[id].stamp
                  && !(k in s.db.rows && StaleRow(s.db.rows[k], s.flights[id].stamp)))
  {
    var read := Sync(k.ref, s.flights[id].stamp, head, up(k.ref, Head(s, k.ref)), s.flights[id].reconcile);
    FetchThenCommitTwo(up, s, id, head, id, m, other, n);
    FetchThenCommitTwo(up, s, id, head, other, m, id, n);
    BothOrdersKeepTheNewerReadExactlyWhen(s.db, s.flights[other].sync, read, m, n, k);
  }

  /** The converse over runs: wherever a fetch breaks stamp order after a push that changed k, and no later stamp is
      stored, the run goes on to overwrite the newer text with the older. */
  lemma FetchOutOfOrderCanGoBack(up: Upstream, s: State, id: nat, head: Option<string>, other: nat, m: int, n: int,
                                 k: Key)
    requires HashesAgree(s.db.rows) && Racing(up, s, id, other, k)
    requires s.flights[id].stamp <= s.flights[other].sync.stamp && !Stale(s.db.rows, s.flights[other].sync, k)
    requires !(k in s.db.rows && StaleRow(s.db.rows[k], s.flights[id].stamp))
    ensures var mid := Run(up, s, [Fetch(id, head), Finish(id, m)]).db.rows;
            var end := Run(up, s, [Fetch(id, head), Finish(id, m), Finish(other, n)]).db.rows;
            && k in mid && mid[k].content == up(k.ref, Head(s, k.ref))[k.path]
            && k in end && end[k].content == s.flights[other].sync.listing[k.path] != mid[k].content
  {
    var read := Sync(k.ref, s.flights[id].stamp, head, up(k.ref, Head(s, k.ref)), s.flights[id].reconcile);
    FetchThenCommitTwo(up, s, id, head, id, m, other, n);
    RunSplits(up, s, [], Fetch(id, head));
    RunSplits(up, s, [Fetch(id, head)], Finish(id, m));
    assert [] + [Fetch(id, head)] == [Fetch(id, head)];
    assert [Fetch(id, head)] + [Finish(id, m)] == [Fetch(id, head), Finish(id, m)];
    assert Run(up, s, [Fetch(id, head)]) == Step(up, s, Fetch(id, head));
    assert Run(up, s, [Fetch(id, head), Finish(id, m)]).db == Commit(s.db, read, m);
    CommitOneRow(s.db, read, m, k);
    TwoCommits(s.db, read, s.flights[other].sync, m, n, k);
  }

  lemma RunSplits(up: Upstream, s: State, events: seq<Event>, e: Event)
    ensures Run(up, s, events + [e]) == Step(up, Run(up, s, events), e)
  {
    assert (events + [e])[..|events|] == events;
  }

  lemma RunOfSix(up: Upstream, s: State, a: Event, b: Event, c: Event, d: Event, e: Event, f: Event)
    ensures Run(up, s, [a, b, c, d, e, f]) ==
              Step(up, Step(up, Step(up, Step(up, Step(up, Step(up, s, a), b), c), d), e), f)
  {
    assert [a] == [] + [a] && [a, b] == [a] + [b] && [a, b, c] == [a, b] + [c] && [a, b, c, d] == [a, b, c] + [d];
    assert [a, b, c, d, e] == [a, b, c, d] + [e] && [a, b, c, d, e, f] == [a, b, c, d, e] + [f];
    RunSplits(up, s, [], a);
    RunSplits(up, s, [a], b);
    RunSplits(up, s, [a, b], c);
    RunSplits(up, s, [a, b, c], d);
    RunSplits(up, s, [a, b, c, d], e);
    RunSplits(up, s, [a, b, c, d, e], f);
  }

  // Sync 1 stamps first but reads last, after a push; it commits before sync 2 does.
  function InvertedReads(r: Ref): seq<Event> {
    [Begin(1, r, 1, true), Begin(2, r, 2, true), Fetch(2, Some("c0")), Push(r), Fetch(1, Some("c1")), Finish(1, 10)]
  }

  lemma InvertedReadsReach(up: Upstream, r: Ref, p: string)
    requires up(r, 0) == map[p := "v0"] && up(r, 1) == map[p := "v1"]
    ensures var s := Run(up, Initial(Db(map[], map[])), InvertedReads(r));
            && s.db == Commit(Db(map[], map[]), Sync(r, 1, Some("c1"), map[p := "v1"], true), 10)
            && Get(s.flights, 2) == Some(Read(Sync(r, 2, Some("c0"), map[p := "v0"], true), 0, 0))
  {
    var s0 := Initial(Db(map[], map[]));
    var es := InvertedReads(r);
    RunOfSix(up, s0, es[0], es[1], es[2], es[3], es[4], es[5]);
    var s2 := Step(up, Step(up, s0, es[0]), es[1]);
    assert s2 == State(2, map[], map[1 := Stamped(r, 1, true, 0), 2 := Stamped(r, 2, true, 0)], s0.db, []);
    var s4 := Step(up, Step(up, s2, es[2]), es[3]);
    assert Get(s4.flights, 1) == Some(Stamped(r, 1, true, 0)) && Head(s4, r) == 1;
    assert Get(s4.flights, 2) == Some(Read(Sync(r, 2, Some("c0"), map[p := "v0"], true), 0, 0));
    var s5 := Step(up, s4, es[4]);
    assert s5.db == s0.db && Get(s5.flights, 1) == Some(Read(Sync(r, 1, Some("c1"), map[p := "v1"], true), 0, 1));
  }

  lemma TwoCommitsGoBack(r: Ref, p: string, one: Sync, two: Sync)
    requires one == Sync(r, 1, Some("c1"), map[p := "v1"], true) && two == Sync(r, 2, Some("c0"), map[p := "v0"], true)
    ensures var mid := Commit(Db(map[], map[]), one, 10);
            Live(mid.rows, r) == map[p := "v1"] && Live(Commit(mid, two, 11).rows, r) == map[p := "v0"]
  {
    var db := Db(map[], map[]);
    CommitKeepsHashes(db, one, 10);
    CleanSyncMirrorsListing(db, one, 10);
    var mid := Commit(db, one, 10);
    assert mid.rows.Keys == {Key(r, p)};
    assert !AnyStale(mid.rows, two);
    CleanSyncMirrorsListing(mid, two, 11);
  }

  lemma FinishCommits(up: Upstream, s: State, events: seq<Event>, id: nat, now: int, sync: Sync, floor: nat,
                      version: nat)
    requires Get(Run(up, s, events).flights, id) == Some(Read(sync, floor, version))
    ensures Run(up, s, events + [Finish(id, now)]).db == Commit(Run(up, s, events).db, sync, now)
  {
    RunSplits(up, s, events, Finish(id, now));
  }

  /** A commit that overwrites version 1 with version 0, by the sync that resolved its ref earlier. */
  lemma ContentCanGoBack(up: Upstream, r: Ref, p: string)
    requires up(r, 0) == map[p := "v0"] && up(r, 1) == map[p := "v1"]
    ensures Live(Run(up, Initial(Db(map[], map[])), InvertedReads(r)).db.rows, r) == map[p := "v1"]
    ensures Live(Run(up, Initial(Db(map[], map[])), InvertedReads(r) + [Finish(2, 11)]).db.rows, r) == map[p := "v0"]
  {
    var one, two := Sync(r, 1, Some("c1"), map[p := "v1"], true), Sync(r, 2, Some("c0"), map[p := "v0"], true);
    InvertedReadsReach(up, r, p);
    FinishCommits(up, Initial(Db(map[], map[])), InvertedReads(r), 2, 11, two, 0, 0);
    TwoCommitsGoBack(r, p, one, two);
  }
}
