/** Double-checked fetching of one cache key: check, lock, recheck, fetch, by any number of callers. */
module RefCache {
  import opened Wrappers

  datatype Caller =
    | Started                       // about to read the cache
    | Waiting                       // missed, waiting for the lock
    | Holding                       // has the lock, about to read again
    | Fetching(locked: bool)
    | Storing(value: string, locked: bool)
    | Done(result: Option<string>)
    | Raised

  datatype State = State(
    slot: Option<string>,
    lock: Option<nat>,
    callers: map<nat, Caller>,
    results: set<Option<string>>,   // what fetches ever returned
    hits: nat)                      // fetches that returned a non-empty value

  /** `ok` is false when Redis fails at that point. */
  datatype Event =
    | Begin(c: nat)
    | FirstRead(c: nat, ok: bool)
    | Acquire(c: nat)
    | LockFails(c: nat)
    | Recheck(c: nat, ok: bool)
    | FetchReturns(c: nat, value: Option<string>)
    | FetchRaises(c: nat)
    | Store(c: nat, ok: bool)
    | ValueExpires
    | LockExpires

  // The code tests `if value`: an empty string is no value.
  predicate Truthy(v: Option<string>) {
    v.Some? && v.value != ""
  }

  function At(s: State, c: nat, caller: Caller): State {
    s.(callers := s.callers[c := caller])
  }

  /** Leave the locked block returning r: a lock that is no longer ours makes the release raise, and the caller fetches
      anew. */
  function LeaveLocked(s: State, c: nat, r: Option<string>): State {
    if s.lock == Some(c) then At(s.(lock := None), c, Done(r)) else At(s, c, Fetching(false))
  }

  function Step(s: State, e: Event): State {
    match e
    case Begin(c) => if c in s.callers then s else At(s, c, Started)
    case FirstRead(c, ok) =>
      if Get(s.callers, c) != Some(Started) then s
      else At(s, c, if ok && Truthy(s.slot) then Done(s.slot) else Waiting)
    case Acquire(c) =>
      if Get(s.callers, c) != Some(Waiting) || s.lock.Some? then s
      else At(s.(lock := Some(c)), c, Holding)
    case LockFails(c) => if Get(s.callers, c) != Some(Waiting) then s else At(s, c, Fetching(false))
    case Recheck(c, ok) =>
      if Get(s.callers, c) != Some(Holding) then s
      else if ok && Truthy(s.slot) then LeaveLocked(s, c, s.slot)
      else At(s, c, Fetching(true))
    case FetchReturns(c, v) =>
      if c !in s.callers || !s.callers[c].Fetching? then s
      else
        var t := s.(results := s.results + {v}, hits := if Truthy(v) then s.hits + 1 else s.hits);
        if Truthy(v) then At(t, c, Storing(v.value, s.callers[c].locked))
        else if s.callers[c].locked then LeaveLocked(t, c, v)
        else At(t, c, Done(v))
    case FetchRaises(c) =>
      if c !in s.callers || !s.callers[c].Fetching? then s
      else if s.callers[c].locked then At(s.(lock := if s.lock == Some(c) then None else s.lock), c, Fetching(false))
      else At(s, c, Raised)
    case Store(c, ok) =>
      if c !in s.callers || !s.callers[c].Storing? then s
      else
        var v := Some(s.callers[c].value);
        var t := if ok then s.(slot := v) else s;
        if s.callers[c].locked then LeaveLocked(t, c, v) else At(t, c, Done(v))
    case ValueExpires => s.(slot := None)
    case LockExpires => s.(lock := None)
  }

  function Run(s: State, events: seq<Event>): State {
    if events == [] then s else Step(Run(s, events[..|events| - 1]), events[|events| - 1])
  }

  const EMPTY: State := State(None, None, map[], {}, 0)

  // ------------------------------------------------- with failures

  /** Whatever is returned, being stored or cached came out of some fetch. */
  ghost predicate FromFetches(s: State) {
    && (s.slot.Some? ==> s.slot in s.results)
    && (forall c <- s.callers ::
          && (s.callers[c].Done? ==> s.callers[c].result in s.results)
          && (s.callers[c].Storing? ==> Some(s.callers[c].value) in s.results))
  }

  /** In every run, whatever fails or expires, a returned value always comes from some fetch. */
  lemma {:induction false} ReturnsComeFromFetches(events: seq<Event>)
    ensures FromFetches(Run(EMPTY, events))
  {
    if events != [] {
      ReturnsComeFromFetches(events[..|events| - 1]);
    }
  }

  // ------------------------------------------------- without failures

  predicate Faultless(e: Event) {
    match e
    case FirstRead(_, ok) => ok
    case Recheck(_, ok) => ok
    case Store(_, ok) => ok
    case LockFails(_) => false
    case FetchRaises(_) => false
    case ValueExpires => false
    case LockExpires => false
    case _ => true
  }

  predicate InLock(caller: Caller) {
    caller.Holding? || caller.Fetching? || caller.Storing?
  }

  predicate Busy(caller: Caller) {
    caller.Fetching? || caller.Storing?
  }

  /** One caller inside the lock, one value ever fetched and stored, and everyone who got a value got that one. */
  ghost predicate Healthy(s: State) {
    && (forall c <- s.callers :: InLock(s.callers[c]) ==> s.lock == Some(c))
    && (forall c <- s.callers :: (s.callers[c].Fetching? || s.callers[c].Storing? ==> s.callers[c].locked) &&
         !s.callers[c].Raised?)
    && (s.slot.Some? ==> Truthy(s.slot) && s.hits == 1 && forall c <- s.callers :: !Busy(s.callers[c]))
    && (forall c <- s.callers :: s.callers[c].Storing? ==> s.callers[c].value != "" && s.hits == 1)
    && (s.slot.None? && (forall c <- s.callers :: !s.callers[c].Storing?) ==> s.hits == 0)
    && (forall c <- s.callers :: s.callers[c].Done? && Truthy(s.callers[c].result) ==> s.callers[c].result == s.slot)
  }

  lemma StepKeepsHealthy(s: State, e: Event)
    requires Healthy(s) && Faultless(e)
    ensures Healthy(Step(s, e))
  {
  }

  lemma {:induction false} RunKeepsHealthy(events: seq<Event>)
    requires forall e <- events :: Faultless(e)
    ensures Healthy(Run(EMPTY, events))
  {
    if events != [] {
      var n := |events| - 1;
      RunKeepsHealthy(events[..n]);
      StepKeepsHealthy(Run(EMPTY, events[..n]), events[n]);
    }
  }

  /** At most one fetch of a key ever brings back a value. */
  lemma OneFetchBringsTheValue(events: seq<Event>)
    requires forall e <- events :: Faultless(e)
    ensures Run(EMPTY, events).hits <= 1
  {
    RunKeepsHealthy(events);
  }

  lemma StoredStays(s: State, e: Event, c: nat)
    requires Healthy(s) && Faultless(e) && s.slot.Some?
    ensures var t := Step(s, e);
            && t.slot == s.slot && t.hits == s.hits && (c in t.callers ==> !Busy(t.callers[c]))
            && (c in s.callers && s.callers[c].Done? ==> Get(t.callers, c) == Get(s.callers, c))
            && (c in t.callers && t.callers[c].Done? && !(c in s.callers && s.callers[c].Done?) ==>
                 t.callers[c].result == s.slot)
  {
  }

  /** Once a value is stored it stays, nobody starts another fetch, and every caller still to finish returns it. */
  lemma {:induction false} AfterStoreEveryoneGetsTheValue(events: seq<Event>, more: seq<Event>, c: nat)
    requires forall e <- events + more :: Faultless(e)
    requires Run(EMPTY, events).slot.Some?
    ensures var s, t := Run(EMPTY, events), Run(EMPTY, events + more);
            && t.slot == s.slot && t.hits == s.hits
            && (c in t.callers ==> !Busy(t.callers[c]))
            && (c in t.callers && t.callers[c].Done? && !(c in s.callers && s.callers[c].Done?) ==>
                 t.callers[c].result == s.slot)
  {
    if more == [] {
      assert events + more == events;
      RunKeepsHealthy(events);
    } else {
      var n := |more| - 1;
      assert (events + more)[..|events| + n] == events + more[..n];
      assert forall e <- events + more[..n] :: e in events + more;
      AfterStoreEveryoneGetsTheValue(events, more[..n], c);
      RunKeepsHealthy(events + more[..n]);
      assert more[n] in events + more;
      StoredStays(Run(EMPTY, events + more[..n]), more[n], c);
    }
  }

  // ------------------------------------------------- when fetches overlap

  /** The three faults that let a caller fetch beside the lock. Failing reads, failing stores and an expiring value are
      not among them. */
  predicate Faulty(e: Event) {
    e.LockFails? || e.FetchRaises? || e.LockExpires?
  }

  ghost predicate Overlap(s: State) {
    exists c, d :: c in s.callers && d in s.callers && c != d && Busy(s.callers[c]) && Busy(s.callers[d])
  }

  /** The lock is held by exactly the caller inside it, and nobody fetches outside. */
  ghost predicate Guarded(s: State) {
    && (s.lock.Some? ==> s.lock.value in s.callers && InLock(s.callers[s.lock.value]))
    && (forall c <- s.callers :: InLock(s.callers[c]) ==> s.lock == Some(c))
    && (forall c <- s.callers :: Busy(s.callers[c]) ==> s.callers[c].locked)
  }

  /** The fault takes effect: the caller waits, or fetches, or somebody is inside the lock that expires. */
  predicate Breaks(s: State, e: Event) {
    match e
    case LockFails(c) => Get(s.callers, c) == Some(Waiting)
    case FetchRaises(c) => c in s.callers && s.callers[c].Fetching?
    case LockExpires => s.lock.Some?
    case _ => false
  }

  lemma StepKeepsGuarded(s: State, e: Event)
    requires Guarded(s) && !Breaks(s, e)
    ensures Guarded(Step(s, e))
  {
  }

  lemma {:induction false} RunKeepsGuarded(s: State, events: seq<Event>)
    requires Guarded(s) && forall e <- events :: !Faulty(e)
    ensures Guarded(Run(s, events)) && !Overlap(Run(s, events))
  {
    if events != [] {
      var n := |events| - 1;
      RunKeepsGuarded(s, events[..n]);
      assert events[n] in events;
      StepKeepsGuarded(Run(s, events[..n]), events[n]);
    }
  }

  /** Fetches of a key never overlap in any run whose lock neither fails nor expires and whose fetches do not raise,
      whatever reads and stores fail and whenever the value expires. */
  lemma FetchesNeverOverlap(events: seq<Event>, c: nat, d: nat)
    requires forall e <- events :: !Faulty(e)
    requires var s := Run(EMPTY, events); c in s.callers && d in s.callers && Busy(s.callers[c]) && Busy(s.callers[d])
    ensures c == d
  {
    RunKeepsGuarded(EMPTY, events);
  }

  /** Some events other than the three faults lead from one state to the other. */
  ghost predicate QuietlyReaches(s: State, t: State) {
    exists events :: (forall e <- events :: !Faulty(e)) && Run(s, events) == t
  }

  ghost predicate CanOverlap(s: State) {
    exists t :: QuietlyReaches(s, t) && Overlap(t)
  }

  lemma QuietStart(s: State)
    ensures QuietlyReaches(s, s)
  {
    assert Run(s, []) == s;
  }

  lemma QuietNext(s: State, t: State, e: Event)
    requires QuietlyReaches(s, t) && !Faulty(e)
    ensures QuietlyReaches(s, Step(t, e))
  {
    var events :| (forall x <- events :: !Faulty(x)) && Run(s, events) == t;
    assert (events + [e])[..|events|] == events;
    assert Run(s, events + [e]) == Step(t, e);
  }

  lemma {:induction false} Above(ids: set<nat>) returns (bound: nat)
    ensures forall c <- ids :: c < bound
  {
    if ids == {} {
      bound := 0;
    } else {
      var c :| c in ids;
      var b := Above(ids - {c});
      bound := if b <= c then c + 1 else b;
      forall x | x in ids ensures x < bound {
        assert x == c || x in ids - {c};
      }
    }
  }

  /** With the lock free, a newcomer whose reads fail gets to fetch and disturbs nobody. */
  lemma NewcomerFetches(s: State, d: nat) returns (t: State)
    requires s.lock.None? && d !in s.callers
    ensures QuietlyReaches(s, t) && Get(t.callers, d) == Some(Fetching(true))
    ensures forall c <- s.callers :: Get(t.callers, c) == Some(s.callers[c])
  {
    var s1 := Step(s, Begin(d));
    var s2 := Step(s1, FirstRead(d, false));
    var s3 := Step(s2, Acquire(d));
    t := Step(s3, Recheck(d, false));
    QuietStart(s);
    QuietNext(s, s, Begin(d));
    QuietNext(s, s1, FirstRead(d, false));
    QuietNext(s, s2, Acquire(d));
    QuietNext(s, s3, Recheck(d, false));
  }

  lemma HolderStartsToFetch(s: State, origin: State, x: nat) returns (t: State)
    requires QuietlyReaches(origin, s) && x in s.callers && InLock(s.callers[x])
    ensures QuietlyReaches(origin, t) && x in t.callers && Busy(t.callers[x])
    ensures forall c <- s.callers :: c != x ==> Get(t.callers, c) == Some(s.callers[c])
  {
    t := Step(s, Recheck(x, false));
    QuietNext(origin, s, Recheck(x, false));
  }

  lemma StrayFetchOverlaps(s: State, c: nat)
    requires c in s.callers && Busy(s.callers[c])
    requires s.lock.Some? ==> s.lock.value in s.callers && s.lock.value != c && InLock(s.callers[s.lock.value])
    ensures CanOverlap(s)
  {
    if s.lock.Some? {
      QuietStart(s);
      var t := HolderStartsToFetch(s, s, s.lock.value);
      assert Get(t.callers, c) == Some(s.callers[c]);
      assert Overlap(t);
    } else {
      var d := Above(s.callers.Keys);
      var t := NewcomerFetches(s, d);
      assert Get(t.callers, c) == Some(s.callers[c]);
      assert Overlap(t);
    }
  }

  lemma ExpiredLockOverlaps(s: State, x: nat)
    requires s.lock.None? && x in s.callers && InLock(s.callers[x])
    ensures CanOverlap(s)
  {
    var d := Above(s.callers.Keys);
    var mid := NewcomerFetches(s, d);
    assert Get(mid.callers, x) == Some(s.callers[x]);
    var t := HolderStartsToFetch(mid, s, x);
    assert Get(t.callers, d) == Some(Fetching(true));
    assert Overlap(t);
  }

  /** The exact condition, event by event: from a guarded state overlapping fetches become possible exactly with a lock
      failure of a waiting caller, a fetch that raises, or the expiry of a lock somebody is inside. */
  lemma OverlapPossibleExactlyAfterAFault(s: State, e: Event)
    requires Guarded(s)
    ensures CanOverlap(Step(s, e)) <==> Breaks(s, e)
  {
    var t := Step(s, e);
    if Breaks(s, e) {
      match e
      case LockFails(c) => StrayFetchOverlaps(t, c);
      case FetchRaises(c) => StrayFetchOverlaps(t, c);
      case LockExpires => ExpiredLockOverlaps(t, s.lock.value);
    } else {
      StepKeepsGuarded(s, e);
      forall u | QuietlyReaches(t, u) ensures !Overlap(u) {
        var events :| (forall x <- events :: !Faulty(x)) && Run(t, events) == u;
        RunKeepsGuarded(t, events);
      }
    }
  }

  lemma RunSplits(s: State, events: seq<Event>, e: Event)
    ensures Run(s, events + [e]) == Step(Run(s, events), e)
  {
    assert (events + [e])[..|events|] == events;
  }

  // Caller 0 misses, locks and starts to fetch; caller 1 misses too.
  const STARTED: seq<Event> :=
    [Begin(0), FirstRead(0, true), Acquire(0), Recheck(0, true), Begin(1), FirstRead(1, true)]

  lemma StartedReaches()
    ensures Run(EMPTY, STARTED) == State(None, Some(0), map[0 := Fetching(true), 1 := Waiting], {}, 0)
  {
    var e := STARTED;
    RunSplits(EMPTY, [], e[0]);
    RunSplits(EMPTY, [e[0]], e[1]);
    RunSplits(EMPTY, [e[0], e[1]], e[2]);
    RunSplits(EMPTY, [e[0], e[1], e[2]], e[3]);
    RunSplits(EMPTY, [e[0], e[1], e[2], e[3]], e[4]);
    RunSplits(EMPTY, [e[0], e[1], e[2], e[3], e[4]], e[5]);
    assert [] + [e[0]] == [e[0]] && [e[0]] + [e[1]] == [e[0], e[1]];
    assert [e[0], e[1]] + [e[2]] == [e[0], e[1], e[2]] && [e[0], e[1], e[2]] + [e[3]] == [e[0], e[1], e[2], e[3]];
    assert [e[0], e[1], e[2], e[3]] + [e[4]] == [e[0], e[1], e[2], e[3], e[4]];
    assert [e[0], e[1], e[2], e[3], e[4]] + [e[5]] == e;
    var s := Step(Step(EMPTY, Begin(0)), FirstRead(0, true));
    assert s == State(None, None, map[0 := Waiting], {}, 0);
    var t := Step(Step(s, Acquire(0)), Recheck(0, true));
    assert t == State(None, Some(0), map[0 := Fetching(true)], {}, 0);
  }

  lemma RunSplitsTwice(s: State, events: seq<Event>, e: Event, f: Event)
    ensures Run(s, events + [e, f]) == Step(Step(Run(s, events), e), f)
  {
    assert events + [e, f] == events + [e] + [f];
    RunSplits(s, events, e);
    RunSplits(s, events + [e], f);
  }

  /** A run from the start in which the lock expires before its holder's fetch comes back: a second caller fetches
      beside it, and the first, finding its lock gone on the way out, fetches again although it stored its value. */
  lemma ExpiredLockAllowsOverlap(v: string)
    requires v != ""
    ensures var overlap := STARTED + [LockExpires, Acquire(1)] + [Recheck(1, true)];
            Run(EMPTY, overlap) == State(None, Some(1), map[0 := Fetching(true), 1 := Fetching(true)], {}, 0)
    ensures var overlap := STARTED + [LockExpires, Acquire(1)] + [Recheck(1, true)];
            var again := Run(EMPTY, overlap + [FetchReturns(0, Some(v)), Store(0, true)]);
            again.slot == Some(v) && Get(again.callers, 0) == Some(Fetching(false))
  {
    StartedReaches();
    RunSplitsTwice(EMPTY, STARTED, LockExpires, Acquire(1));
    RunSplits(EMPTY, STARTED + [LockExpires, Acquire(1)], Recheck(1, true));
    var overlap := STARTED + [LockExpires, Acquire(1)] + [Recheck(1, true)];
    RunSplitsTwice(EMPTY, overlap, FetchReturns(0, Some(v)), Store(0, true));
  }

  /** The same from the start for the other two faults: a caller that cannot lock, and a fetch that raises, each end up
      fetching beside the caller inside the lock. */
  lemma FailedLockAndRaisingFetchAllowOverlap()
    ensures Run(EMPTY, STARTED + [LockFails(1)]) ==
              State(None, Some(0), map[0 := Fetching(true), 1 := Fetching(false)], {}, 0)
    ensures Run(EMPTY, STARTED + [FetchRaises(0), Acquire(1)] + [Recheck(1, true)]) ==
              State(None, Some(1), map[0 := Fetching(false), 1 := Fetching(true)], {}, 0)
  {
    StartedReaches();
    RunSplits(EMPTY, STARTED, LockFails(1));
    RunSplitsTwice(EMPTY, STARTED, FetchRaises(0), Acquire(1));
    RunSplits(EMPTY, STARTED + [FetchRaises(0), Acquire(1)], Recheck(1, true));
  }

  // ------------------------------------------------- one caller's code

  datatype Answer = Raises | Returns(value: Option<string>)

  /** Some events of the protocol lead from one state to the other. */
  ghost predicate Reaches(s: State, t: State) {
    exists events :: Run(s, events) == t
  }

  lemma ReachesStart(s: State)
    ensures Reaches(s, s)
  {
    assert Run(s, []) == s;
  }

  lemma ReachesNext(s: State, t: State, e: Event)
    requires Reaches(s, t)
    ensures Reaches(s, Step(t, e))
  {
    var events :| Run(s, events) == t;
    assert (events + [e])[..|events|] == events;
    assert Run(s, events + [e]) == Step(t, e);
  }

  ghost predicate Ends(s: State, slot: Option<string>, result: Option<string>, raised: bool) {
    s.slot == slot && Get(s.callers, 0) == Some(if raised then Caller.Raised else Done(result))
  }

  /** One caller of one key, undisturbed except by failures around it. */
  class Cache {
    var slot: Option<string>

    constructor ()
      ensures slot == None
    {
      slot := None;
    }

    /** The last resort: fetch without the lock. */
    method FetchOutside(writeOk: bool, answer: Answer, ghost origin: State, ghost s: State)
      returns (result: Option<string>, raised: bool, ghost t: State)
      requires Reaches(origin, s) && s.slot == slot && Get(s.callers, 0) == Some(Fetching(false))
      modifies this
      ensures Reaches(origin, t) && Ends(t, slot, result, raised)
      ensures raised <==> answer.Raises?
      ensures raised ==> slot == old(slot)
      ensures !raised ==> result == answer.value && slot == if Truthy(result) && writeOk then result else old(slot)
    {
      if answer.Raises? {
        ReachesNext(origin, s, FetchRaises(0));
        t := Step(s, FetchRaises(0));
        return None, true, t;
      }
      result, raised := answer.value, false;
      ReachesNext(origin, s, FetchReturns(0, result));
      t := Step(s, FetchReturns(0, result));
      if Truthy(result) {
        if writeOk {
          slot := result;
        }
        ReachesNext(origin, t, Store(0, writeOk));
        t := Step(t, Store(0, writeOk));
      }
    }

    /** Inside the lock: read again, fetch only on a second miss, store, release. `left` tells whether the block
        returned. */
    method FetchInside(recheckOk: bool, writeOk: bool, expired: bool, answer: Answer, ghost origin: State,
                       ghost s: State)
      returns (result: Option<string>, left: bool, ghost t: State)
      requires Reaches(origin, s) && s.slot == slot
      requires Get(s.callers, 0) == Some(Holding) && s.lock == if expired then None else Some(0)
      modifies this
      ensures Reaches(origin, t) && t.slot == slot
      ensures if left then Ends(t, slot, result, false) else Get(t.callers, 0) == Some(Fetching(false))
      ensures Truthy(old(slot)) && recheckOk ==> slot == old(slot) && (left ==> result == old(slot))
      ensures left && !(Truthy(old(slot)) && recheckOk) ==> answer == Returns(result)
      ensures left <==> !expired && ((Truthy(old(slot)) && recheckOk) || answer.Returns?)
      ensures slot == if !(Truthy(old(slot)) && recheckOk) && answer.Returns? && Truthy(answer.value) && writeOk
                      then answer.value else old(slot)
    {
      result := if recheckOk then slot else None;
      ReachesNext(origin, s, Recheck(0, recheckOk));
      t := Step(s, Recheck(0, recheckOk));
      if Truthy(result) {
        return result, !expired, t;
      }
      if answer.Raises? {
        ReachesNext(origin, t, FetchRaises(0));
        t := Step(t, FetchRaises(0));
        return None, false, t;
      }
      result := answer.value;
      ReachesNext(origin, t, FetchReturns(0, result));
      t := Step(t, FetchReturns(0, result));
      if Truthy(result) {
        if writeOk {
          slot := result;
        }
        ReachesNext(origin, t, Store(0, writeOk));
        t := Step(t, Store(0, writeOk));
      }
      left := !expired;
    }

    /** The caller's code takes a path of the protocol and ends where the protocol says, whether Redis is absent (`up`),
        a read, the lock, a write or the release fails, or a fetch raises. It answers with the cached value when a
        first read, or one inside a lock it then releases, finds it; else with the fetch made inside such a lock; else
        with the fetch made without one. Only a fetched value is ever written, and one that is returned is, unless the
        write fails. */
    method CachedFetch(up: bool, firstOk: bool, lockOk: bool, recheckOk: bool, writeOk: bool, expired: bool,
                       inside: Answer, outside: Answer)
      returns (result: Option<string>, raised: bool)
      modifies this
      ensures exists t :: Reaches(State(old(slot), None, map[], {}, 0), t) && Ends(t, slot, result, raised)
      ensures Truthy(old(slot)) && up && firstOk ==> result == old(slot) && slot == old(slot) && !raised
      ensures var locked := up && lockOk && !expired;
              if Truthy(old(slot)) && ((up && firstOk) || (locked && recheckOk)) then !raised && result == old(slot)
              else if locked && inside.Returns? then !raised && result == inside.value
              else if outside.Returns? then !raised && result == outside.value
              else raised
      ensures slot == old(slot) ||
                (up && writeOk && Truthy(slot) && (inside == Returns(slot) || outside == Returns(slot)))
      ensures !raised && Truthy(result) && up && writeOk ==> slot == result
      ensures raised ==> outside.Raises?
      ensures !raised ==>
                (Truthy(result) && result == old(slot)) || inside == Returns(result) || outside == Returns(result)
    {
      ghost var origin := State(slot, None, map[], {}, 0);
      ReachesStart(origin);
      ReachesNext(origin, origin, Begin(0));
      ghost var s := Step(origin, Begin(0));
      result := if up && firstOk then slot else None;
      ReachesNext(origin, s, FirstRead(0, up && firstOk));
      s := Step(s, FirstRead(0, up && firstOk));
      if Truthy(result) {
        return result, false;
      }
      if up && lockOk {
        ReachesNext(origin, s, Acquire(0));
        s := Step(s, Acquire(0));
        if expired {
          ReachesNext(origin, s, LockExpires);
          s := Step(s, LockExpires);
        }
        var left;
        result, left, s := FetchInside(recheckOk, writeOk, expired, inside, origin, s);
        if left {
          return result, false;
        }
      } else {
        ReachesNext(origin, s, LockFails(0));
        s := Step(s, LockFails(0));
      }
      result, raised, s := FetchOutside(up && writeOk, outside, origin, s);
    }
  }
}
