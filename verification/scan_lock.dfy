/** The timed Redis lock around a scan: `SET key 1 NX EX ttl` on entry, a plain `DEL key` on exit. The value stored is
    the same for everybody, so Redis cannot tell whose key it deletes; `owner` below is what an observer knows. */
module ScanLock {
  type Client = nat

  datatype Lease = Lease(owner: Client, expires: int)
  datatype Visit = Visit(key: string, entered: int, ttl: nat)

  /** `inside` holds the blocks whose lock was acquired and that have not left yet. */
  datatype Locks = Locks(now: int, leases: map<string, Lease>, inside: map<Client, Visit>)

  datatype Event =
    | Tick(elapsed: nat)
    | Acquire(client: Client, key: string, ttl: nat)
    | Release(client: Client)
    | Crash(client: Client)

  function Start(now: int): Locks {
    Locks(now, map[], map[])
  }

  /** The key is there and has not expired. */
  predicate Held(s: Locks, key: string) {
    key in s.leases && s.now < s.leases[key].expires
  }

  /** Redis refuses an expiry of zero, so such an entry acquires nothing. */
  predicate Acquires(s: Locks, c: Client, key: string, ttl: nat) {
    c !in s.inside && 0 < ttl && !Held(s, key)
  }

  function Step(s: Locks, e: Event): Locks {
    match e
    case Tick(d) => s.(now := s.now + d)
    case Acquire(c, key, ttl) =>
      if Acquires(s, c, key, ttl) then
        s.(leases := s.leases[key := Lease(c, s.now + ttl)], inside := s.inside[c := Visit(key, s.now, ttl)])
      else
        s
    case Release(c) =>
      if c in s.inside then
        s.(leases := s.leases - {s.inside[c].key}, inside := s.inside - {c})
      else
        s
    case Crash(c) => s.(inside := s.inside - {c})
  }

  function Run(s: Locks, events: seq<Event>): Locks
    decreases |events|
  {
    if events == [] then s else Run(Step(s, events[0]), events[1..])
  }

  function Deadline(v: Visit): int {
    v.entered + v.ttl
  }

  /** Nobody inside has used up the time it asked for. */
  predicate Timely(s: Locks) {
    forall c :: c in s.inside ==> s.now < Deadline(s.inside[c])
  }

  predicate TimelyRun(s: Locks, events: seq<Event>)
    decreases |events|
  {
    Timely(s) && (events == [] || TimelyRun(Step(s, events[0]), events[1..]))
  }

  /** At most one block is inside the lock of any key. */
  predicate Exclusive(s: Locks) {
    forall c, d :: c in s.inside && d in s.inside && s.inside[c].key == s.inside[d].key ==> c == d
  }

  /** The key each block would delete on leaving is the one it set itself. */
  predicate OwnsItsKey(s: Locks, c: Client)
    requires c in s.inside
  {
    var v := s.inside[c];
    v.key in s.leases && s.leases[v.key] == Lease(c, Deadline(v))
  }

  predicate AllOwn(s: Locks) {
    forall c :: c in s.inside ==> OwnsItsKey(s, c)
  }

  lemma OwnersAreExclusive(s: Locks)
    requires AllOwn(s)
    ensures Exclusive(s)
  {
    forall c, d | c in s.inside && d in s.inside && s.inside[c].key == s.inside[d].key
      ensures c == d
    {
      assert OwnsItsKey(s, c) && OwnsItsKey(s, d);
    }
  }

  lemma StepKeepsOwners(s: Locks, e: Event)
    requires AllOwn(s) && Timely(s)
    ensures AllOwn(Step(s, e))
  {
    OwnersAreExclusive(s);
    var t := Step(s, e);
    forall c | c in t.inside
      ensures OwnsItsKey(t, c)
    {
      if c in s.inside {
        assert OwnsItsKey(s, c);
      }
    }
  }

  /** Timed mutual exclusion, for every run of any number of clients on any number of keys: as long as nobody stays
      past its time, at most one block is inside each lock, and leaving deletes only the leaver's own key. Every prefix
      of a timely run is one, so this speaks of every state on the way. */
  lemma {:induction false} TimelyRunsAreExclusive(s: Locks, events: seq<Event>)
    requires AllOwn(s) && TimelyRun(s, events)
    ensures AllOwn(Run(s, events)) && Exclusive(Run(s, events))
    decreases |events|
  {
    if events == [] {
      OwnersAreExclusive(s);
    } else {
      StepKeepsOwners(s, events[0]);
      TimelyRunsAreExclusive(Step(s, events[0]), events[1..]);
    }
  }

  lemma TimelyRunsFromTheStartAreExclusive(now: int, events: seq<Event>)
    requires TimelyRun(Start(now), events)
    ensures Exclusive(Run(Start(now), events))
    ensures forall c :: c in Run(Start(now), events).inside ==> OwnsItsKey(Run(Start(now), events), c)
  {
    TimelyRunsAreExclusive(Start(now), events);
  }

  /** The condition is exact: a second block gets in beside the first exactly when the first has overstayed. */
  lemma SecondGetsInExactlyAfterOverstay(s: Locks, c: Client, other: Client, elapsed: nat, ttl: nat)
    requires AllOwn(s) && c in s.inside && other !in s.inside && 0 < ttl
    ensures var late := Step(s, Tick(elapsed));
            Exclusive(Step(late, Acquire(other, s.inside[c].key, ttl))) <==> s.now + elapsed < Deadline(s.inside[c])
  {
    var key := s.inside[c].key;
    var late := Step(s, Tick(elapsed));
    var next := Step(late, Acquire(other, key, ttl));
    OwnersAreExclusive(s);
    assert OwnsItsKey(s, c);
    if Deadline(s.inside[c]) <= s.now + elapsed {
      assert next.inside[other].key == next.inside[c].key;
    } else {
      assert next == late;
    }
  }

  /** Leaving is not checked against ownership, so one overstay lets two blocks in that are both on time: the late
      leaver deletes its successor's key, and a third block walks in beside the successor. */
  lemma LateLeaverDeletesAnothersKey(now: int, key: string, ttl: nat)
    requires 0 < ttl
    ensures var events := [Acquire(1, key, ttl), Tick(ttl), Acquire(2, key, ttl), Release(1), Acquire(3, key, ttl)];
            var end := Run(Start(now), events);
            var deleted := Run(Start(now), events[..4]);
            !Exclusive(end) && Timely(end) && 2 in deleted.inside && key !in deleted.leases
  {
    var s1 := Step(Start(now), Acquire(1, key, ttl));
    var s2 := Step(s1, Tick(ttl));
    var s3 := Step(s2, Acquire(2, key, ttl));
    var s4 := Step(s3, Release(1));
    var s5 := Step(s4, Acquire(3, key, ttl));
    var events := [Acquire(1, key, ttl), Tick(ttl), Acquire(2, key, ttl), Release(1), Acquire(3, key, ttl)];
    RunOfFour(Start(now), events[0], events[1], events[2], events[3]);
    assert events[..4] == [events[0], events[1], events[2], events[3]];
    RunOfFour(s1, events[1], events[2], events[3], events[4]);
    assert events[1..] == [events[1], events[2], events[3], events[4]];
    assert Run(Start(now), events) == s5;
    assert s5.inside[2].key == s5.inside[3].key;
  }

  lemma RunOfFour(s: Locks, a: Event, b: Event, c: Event, d: Event)
    ensures Run(s, [a, b, c, d]) == Step(Step(Step(Step(s, a), b), c), d)
  {
    var t := Step(Step(s, a), b);
    assert [a, b, c, d][1..] == [b, c, d] && [b, c, d][1..] == [c, d] && [c, d][1..] == [d];
    assert Run(t, [c, d]) == Run(Step(t, c), [d]);
    assert Run(Step(t, c), [d]) == Run(Step(Step(t, c), d), []);
  }

  /** A worker that dies inside blocks its key until exactly the time it asked for, and no longer. */
  lemma DeadHolderBlocksUntilItsDeadline(s: Locks, c: Client, other: Client, elapsed: nat, ttl: nat)
    requires AllOwn(s) && c in s.inside && other !in s.inside && 0 < ttl
    ensures var later := Step(Step(s, Crash(c)), Tick(elapsed));
            Acquires(later, other, s.inside[c].key, ttl) <==> Deadline(s.inside[c]) <= s.now + elapsed
  {
    assert OwnsItsKey(s, c);
  }

  /** The Redis server and the blocks that hold a lock on it. */
  class LockService {
    var now: int
    var leases: map<string, Lease>
    var inside: map<Client, Visit>

    function State(): Locks
      reads this
    {
      Locks(now, leases, inside)
    }

    constructor (clock: int)
      ensures State() == Start(clock)
    {
      now, leases, inside := clock, map[], map[];
    }

    /** Entering the block; the caller decides what to do when the lock was not acquired. */
    method Enter(c: Client, key: string, ttl: nat) returns (acquired: bool)
      requires c !in inside
      modifies this
      ensures State() == Step(old(State()), Acquire(c, key, ttl))
      ensures acquired <==> c in inside
      ensures acquired <==> 0 < ttl && (key !in old(leases) || old(leases)[key].expires <= now)
      ensures acquired ==> now == old(now) && leases == old(leases)[key := Lease(c, now + ttl)]
      ensures !acquired ==> State() == old(State())
    {
      acquired := false;
      if 0 < ttl {
        if key !in leases || leases[key].expires <= now {
          leases := leases[key := Lease(c, now + ttl)];
          inside := inside[c := Visit(key, now, ttl)];
          acquired := true;
        }
      }
    }

    /** Leaving the block, on every path: the key is deleted only when the entry had acquired it. */
    method Leave(c: Client, key: string, acquired: bool)
      requires acquired <==> c in inside
      requires acquired ==> inside[c].key == key
      modifies this
      ensures State() == Step(old(State()), Release(c))
      ensures !acquired ==> State() == old(State())
      ensures acquired ==> key !in leases
      ensures forall k :: k != key ==> (k in leases <==> k in old(leases))
      ensures forall k <- leases :: leases[k] == old(leases)[k]
    {
      if acquired {
        leases := leases - {key};
        inside := inside - {c};
      }
    }
  }
}
