/** Side effects that wait for the commit: queued on the session, dropped when the outermost transaction rolls back, and
    started in queue order by the commit wrapper. */
module Effects {
  import opened Wrappers

  /** An effect may raise when it is called, and may itself queue effects on the session. */
  datatype Effect = Effect(raises: bool, queues: seq<Effect>)

  /** `ticket` numbers the queueings of a session, so that two queueings of one effect are told apart. */
  datatype Queued = Queued(ticket: nat, effect: Effect)

  datatype Session = Session(next: nat, pending: seq<Queued>, ran: seq<nat>)

  datatype Event =
    | AfterCommit(effect: Effect)
    | SavepointRollback
    | Rollback
    | Commit(ok: bool)
    | BareCommit(ok: bool)

  const EMPTY := Session(0, [], [])

  function Enqueue(s: Session, effect: Effect): Session {
    s.(next := s.next + 1, pending := s.pending + [Queued(s.next, effect)])
  }

  function EnqueueAll(s: Session, effects: seq<Effect>): Session
    decreases |effects|
  {
    if effects == [] then s else EnqueueAll(Enqueue(s, effects[0]), effects[1..])
  }

  /** The effect is called; what it queues waits for another commit. */
  function Call(s: Session, q: Queued): Session {
    EnqueueAll(s.(ran := s.ran + [q.ticket]), q.effect.queues)
  }

  /** The loop over a popped batch; an effect that raises ends it. */
  function Fire(s: Session, batch: seq<Queued>): Session
    decreases |batch|
  {
    if batch == [] then s
    else if batch[0].effect.raises then Call(s, batch[0])
    else Fire(Call(s, batch[0]), batch[1..])
  }

  /** A commit that fails rolls the outermost transaction back. A commit that does not go through the wrapper leaves the
      queue alone. */
  function Step(s: Session, e: Event): Session {
    match e
    case AfterCommit(effect) => Enqueue(s, effect)
    case SavepointRollback => s
    case Rollback => s.(pending := [])
    case Commit(ok) => if ok then Fire(s.(pending := []), s.pending) else s.(pending := [])
    case BareCommit(ok) => if ok then s else s.(pending := [])
  }

  function Run(s: Session, events: seq<Event>): Session
    decreases |events|
  {
    if events == [] then s else Run(Step(s, events[0]), events[1..])
  }

  // ---- what waits after a commit ------------------------------------------------------------------------------------

  /** Everything queued by the effects of a batch that are called: all up to the first that raises, which is called
      too. */
  function QueuedBy(batch: seq<Queued>): seq<Effect> {
    if batch == [] then []
    else batch[0].effect.queues + if batch[0].effect.raises then [] else QueuedBy(batch[1..])
  }

  function Numbered(first: nat, effects: seq<Effect>): seq<Queued> {
    seq(|effects|, i requires 0 <= i < |effects| => Queued(first + i, effects[i]))
  }

  lemma NumberedOn(first: nat, a: seq<Effect>, b: seq<Effect>)
    ensures Numbered(first, a + b) == Numbered(first, a) + Numbered(first + |a|, b)
  {
  }

  lemma {:induction false} EnqueueAllIs(s: Session, effects: seq<Effect>)
    ensures EnqueueAll(s, effects) ==
              Session(s.next + |effects|, s.pending + Numbered(s.next, effects), s.ran)
    decreases |effects|
  {
    if effects == [] {
      assert s.pending + Numbered(s.next, effects) == s.pending;
    } else {
      EnqueueAllIs(Enqueue(s, effects[0]), effects[1..]);
      NumberedOn(s.next, [effects[0]], effects[1..]);
      assert effects == [effects[0]] + effects[1..];
      assert Numbered(s.next, [effects[0]]) == [Queued(s.next, effects[0])];
    }
  }

  lemma CallQueues(s: Session, q: Queued)
    ensures Call(s, q) ==
              Session(s.next + |q.effect.queues|, s.pending + Numbered(s.next, q.effect.queues), s.ran + [q.ticket])
  {
    EnqueueAllIs(s.(ran := s.ran + [q.ticket]), q.effect.queues);
  }

  lemma NumberedAfter(pending: seq<Queued>, first: nat, a: seq<Effect>, b: seq<Effect>)
    ensures pending + Numbered(first, a) + Numbered(first + |a|, b) == pending + Numbered(first, a + b)
  {
    NumberedOn(first, a, b);
  }

  lemma {:induction false} FireQueues(s: Session, batch: seq<Queued>)
    ensures Fire(s, batch).pending == s.pending + Numbered(s.next, QueuedBy(batch))
    decreases |batch|
  {
    if batch != [] {
      CallQueues(s, batch[0]);
      var queues, rest := batch[0].effect.queues, if batch[0].effect.raises then [] else QueuedBy(batch[1..]);
      assert QueuedBy(batch) == queues + rest;
      NumberedAfter(s.pending, s.next, queues, rest);
      if !batch[0].effect.raises {
        FireQueues(Call(s, batch[0]), batch[1..]);
      }
    }
  }

  /** After a commit through the wrapper nothing that was waiting waits on: what waits is what the called effects queued
      in turn, in order, and nothing at all when the commit failed. */
  lemma WaitingAfterCommit(s: Session, ok: bool)
    ensures var t := Step(s, Commit(ok));
            && t.pending == (if ok then Numbered(s.next, QueuedBy(s.pending)) else [])
            && (!ok ==> t.ran == s.ran)
  {
    FireQueues(s.(pending := []), s.pending);
  }

  // ---- order and uniqueness -----------------------------------------------------------------------------------------

  predicate Increasing(tickets: seq<nat>) {
    forall i, j :: 0 <= i < j < |tickets| ==> tickets[i] < tickets[j]
  }

  function Tickets(queue: seq<Queued>): (r: seq<nat>)
    ensures |r| == |queue| && forall i :: 0 <= i < |r| ==> r[i] == queue[i].ticket
  {
    seq(|queue|, i requires 0 <= i < |queue| => queue[i].ticket)
  }

  /** What has run, then what is still to run of a batch, then what waits: all in the order of queueing, none twice. */
  predicate Ordered(s: Session, batch: seq<Queued>) {
    Increasing(s.ran + Tickets(batch) + Tickets(s.pending) + [s.next])
  }

  lemma EnqueueKeepsOrder(s: Session, batch: seq<Queued>, effect: Effect)
    requires Ordered(s, batch)
    ensures Ordered(Enqueue(s, effect), batch)
  {
    var before := s.ran + Tickets(batch) + Tickets(s.pending) + [s.next];
    var t := Enqueue(s, effect);
    var after := t.ran + Tickets(batch) + Tickets(t.pending) + [t.next];
    assert after == before + [t.next];
    assert before[|before| - 1] == s.next;
  }

  lemma {:induction false} EnqueueAllKeepsOrder(s: Session, batch: seq<Queued>, effects: seq<Effect>)
    requires Ordered(s, batch)
    ensures Ordered(EnqueueAll(s, effects), batch)
    decreases |effects|
  {
    if effects != [] {
      EnqueueKeepsOrder(s, batch, effects[0]);
      EnqueueAllKeepsOrder(Enqueue(s, effects[0]), batch, effects[1..]);
    }
  }

  lemma CallKeepsOrder(s: Session, batch: seq<Queued>)
    requires Ordered(s, batch) && batch != []
    ensures Ordered(Call(s, batch[0]), batch[1..])
  {
    var t := s.(ran := s.ran + [batch[0].ticket]);
    assert t.ran + Tickets(batch[1..]) == s.ran + Tickets(batch);
    EnqueueAllKeepsOrder(t, batch[1..], batch[0].effect.queues);
  }

  lemma LeavingOutKeepsOrder(a: seq<nat>, b: seq<nat>, c: seq<nat>)
    requires Increasing(a + b + c)
    ensures Increasing(a + c)
  {
    var all := a + b + c;
    forall i, j | 0 <= i < j < |a + c|
      ensures (a + c)[i] < (a + c)[j]
    {
      var k, l := if i < |a| then i else i + |b|, if j < |a| then j else j + |b|;
      assert all[k] == (a + c)[i] && all[l] == (a + c)[j];
    }
  }

  lemma DropKeepsOrder(s: Session, batch: seq<Queued>)
    requires Ordered(s, batch)
    ensures Ordered(s, []) && Ordered(s.(pending := []), batch)
  {
    var b, p := Tickets(batch), Tickets(s.pending);
    assert s.ran + b + p + [s.next] == s.ran + b + (p + [s.next]);
    LeavingOutKeepsOrder(s.ran, b, p + [s.next]);
    assert s.ran + Tickets([]) + p + [s.next] == s.ran + (p + [s.next]);
    LeavingOutKeepsOrder(s.ran + b, p, [s.next]);
    assert s.ran + b + Tickets([]) + [s.next] == s.ran + b + [s.next];
  }

  lemma {:induction false} FireKeepsOrder(s: Session, batch: seq<Queued>)
    requires Ordered(s, batch)
    ensures Ordered(Fire(s, batch), [])
    decreases |batch|
  {
    if batch != [] {
      CallKeepsOrder(s, batch);
      if batch[0].effect.raises {
        DropKeepsOrder(Call(s, batch[0]), batch[1..]);
      } else {
        FireKeepsOrder(Call(s, batch[0]), batch[1..]);
      }
    }
  }

  lemma StepKeepsOrder(s: Session, e: Event)
    requires Ordered(s, [])
    ensures Ordered(Step(s, e), [])
  {
    DropKeepsOrder(s, []);
    match e {
      case AfterCommit(effect) => EnqueueKeepsOrder(s, [], effect);
      case Commit(ok) =>
        if ok {
          assert s.ran + Tickets(s.pending) + Tickets([]) == s.ran + Tickets([]) + Tickets(s.pending);
          FireKeepsOrder(s.(pending := []), s.pending);
        }
      case _ =>
    }
  }

  /** Every run of queueings, rollbacks and commits starts each queued effect at most once, and in queue order. */
  lemma {:induction false} EffectsRunOnceInQueueOrder(s: Session, events: seq<Event>)
    requires Ordered(s, [])
    ensures Ordered(Run(s, events), []) && Increasing(Run(s, events).ran)
    decreases |events|
  {
    if events == [] {
      var all := s.ran + Tickets([]) + Tickets(s.pending) + [s.next];
      assert all[..|s.ran|] == s.ran;
    } else {
      StepKeepsOrder(s, events[0]);
      EffectsRunOnceInQueueOrder(Step(s, events[0]), events[1..]);
    }
  }

  lemma RunsFromTheStartKeepOrder(events: seq<Event>)
    ensures Increasing(Run(EMPTY, events).ran)
  {
    EffectsRunOnceInQueueOrder(EMPTY, events);
  }

  // ---- the fate of one queued effect --------------------------------------------------------------------------------

  /** The event empties the queue, by running it or by dropping it. */
  predicate Ends(e: Event) {
    e.Rollback? || e.Commit? || (e.BareCommit? && !e.ok)
  }

  function FirstEnd(events: seq<Event>): Option<Event>
    decreases |events|
  {
    if events == [] then None
    else if Ends(events[0]) then Some(events[0])
    else FirstEnd(events[1..])
  }

  /** No effect queued before the one at `k` raises. */
  predicate Reached(queue: seq<Queued>, k: nat)
    requires k < |queue|
  {
    forall j :: 0 <= j < k ==> !queue[j].effect.raises
  }

  /** Neither run nor waiting, and its ticket is used up. */
  predicate Gone(s: Session, ticket: nat) {
    ticket < s.next && ticket !in s.ran && forall q :: q in s.pending ==> q.ticket != ticket
  }

  lemma {:induction false} EnqueueAllExtends(s: Session, effects: seq<Effect>)
    ensures var t := EnqueueAll(s, effects);
            && t.ran == s.ran && s.next <= t.next && s.pending <= t.pending
            && forall i :: |s.pending| <= i < |t.pending| ==> s.next <= t.pending[i].ticket
    decreases |effects|
  {
    if effects != [] {
      EnqueueAllExtends(Enqueue(s, effects[0]), effects[1..]);
    }
  }

  /** Firing adds to what has run exactly the tickets of the batch up to the first effect that raises. */
  lemma {:induction false} FireRuns(s: Session, batch: seq<Queued>)
    ensures var t := Fire(s, batch);
            && s.next <= t.next && s.pending <= t.pending
            && (forall i :: |s.pending| <= i < |t.pending| ==> s.next <= t.pending[i].ticket)
            && (forall x :: x in t.ran <==>
                  x in s.ran || exists k :: 0 <= k < |batch| && batch[k].ticket == x && Reached(batch, k))
    decreases |batch|
  {
    if batch != [] {
      var u := Call(s, batch[0]);
      EnqueueAllExtends(s.(ran := s.ran + [batch[0].ticket]), batch[0].effect.queues);
      assert Reached(batch, 0);
      if !batch[0].effect.raises {
        FireRuns(u, batch[1..]);
        var t := Fire(s, batch);
        forall x
          ensures x in t.ran <==>
                  x in s.ran || exists k :: 0 <= k < |batch| && batch[k].ticket == x && Reached(batch, k)
        {
          TailReached(batch, x);
        }
      }
    }
  }

  lemma TailReached(batch: seq<Queued>, x: nat)
    requires batch != [] && !batch[0].effect.raises
    ensures (exists k :: 0 <= k < |batch| && batch[k].ticket == x && Reached(batch, k))
            <==>
            (|| batch[0].ticket == x
             || exists k :: 0 <= k < |batch[1..]| && batch[1..][k].ticket == x && Reached(batch[1..], k))
  {
    assert Reached(batch, 0);
    var rest := batch[1..];
    forall k | 0 <= k < |rest|
      ensures rest[k] == batch[k + 1] && (Reached(rest, k) <==> Reached(batch, k + 1))
    {
      if Reached(rest, k) {
        forall j | 0 <= j < k + 1
          ensures !batch[j].effect.raises
        {
          if j > 0 {
            assert rest[j - 1] == batch[j];
          }
        }
      }
    }
    if k :| 0 < k < |batch| && batch[k].ticket == x && Reached(batch, k) {
      assert rest[k - 1].ticket == x && Reached(rest, k - 1);
    }
    if k :| 0 <= k < |rest| && rest[k].ticket == x && Reached(rest, k) {
      assert batch[k + 1].ticket == x && Reached(batch, k + 1);
    }
  }

  lemma GoneAfterStep(s: Session, e: Event, ticket: nat)
    requires Gone(s, ticket)
    ensures Gone(Step(s, e), ticket)
  {
    if e.Commit? && e.ok {
      FireRuns(s.(pending := []), s.pending);
    }
  }

  lemma RanAfterStep(s: Session, e: Event, ticket: nat)
    requires ticket in s.ran
    ensures ticket in Step(s, e).ran
  {
    if e.Commit? && e.ok {
      FireRuns(s.(pending := []), s.pending);
    }
  }

  lemma {:induction false} FateIsFinal(s: Session, events: seq<Event>, ticket: nat)
    requires Gone(s, ticket) || ticket in s.ran
    ensures ticket in Run(s, events).ran <==> ticket in s.ran
    decreases |events|
  {
    if events != [] {
      if ticket in s.ran {
        RanAfterStep(s, events[0], ticket);
      } else {
        GoneAfterStep(s, events[0], ticket);
      }
      FateIsFinal(Step(s, events[0]), events[1..], ticket);
    }
  }

  /** In an ordered session a waiting ticket has not run and belongs to one queueing only. */
  lemma WaitingOnce(s: Session, k: nat)
    requires Ordered(s, []) && k < |s.pending|
    ensures s.pending[k].ticket !in s.ran && s.pending[k].ticket < s.next
    ensures forall j :: 0 <= j < |s.pending| && s.pending[j].ticket == s.pending[k].ticket ==> j == k
  {
    var all := s.ran + Tickets([]) + Tickets(s.pending) + [s.next];
    var n := |s.ran|;
    assert all[n + k] == s.pending[k].ticket && all[|all| - 1] == s.next;
    forall j | 0 <= j < |s.pending| && j != k
      ensures s.pending[j].ticket != s.pending[k].ticket
    {
      assert all[n + j] == s.pending[j].ticket;
    }
    forall i | 0 <= i < n
      ensures s.ran[i] != s.pending[k].ticket
    {
      assert all[i] == s.ran[i];
    }
  }

  /** The event that empties the queue settles the fate of everything in it. */
  lemma EndSettles(s: Session, e: Event, k: nat)
    requires Ordered(s, []) && k < |s.pending| && Ends(e)
    ensures var t := Step(s, e);
            var ticket := s.pending[k].ticket;
            && (ticket in t.ran <==> e == Commit(true) && Reached(s.pending, k))
            && (ticket in t.ran || Gone(t, ticket))
  {
    WaitingOnce(s, k);
    if e == Commit(true) {
      FireRuns(s.(pending := []), s.pending);
    }
  }

  /** The exact fate of a queued effect, over every continuation: it runs exactly when the first event to empty the
      queue is a wrapped commit that succeeds and no effect queued before it raises. So it runs neither before such a
      commit nor after an outermost rollback, and neither a savepoint that rolls back nor a commit past the wrapper
      decides anything. */
  lemma {:induction false} RunsExactlyWhen(s: Session, events: seq<Event>, k: nat)
    requires Ordered(s, []) && k < |s.pending|
    ensures s.pending[k].ticket in Run(s, events).ran <==>
            FirstEnd(events) == Some(Commit(true)) && Reached(s.pending, k)
    decreases |events|
  {
    WaitingOnce(s, k);
    if events != [] {
      var t := Step(s, events[0]);
      StepKeepsOrder(s, events[0]);
      if Ends(events[0]) {
        EndSettles(s, events[0], k);
        FateIsFinal(t, events[1..], s.pending[k].ticket);
      } else {
        assert t.pending[..|s.pending|] == s.pending;
        RunsExactlyWhen(t, events[1..], k);
        assert Reached(t.pending, k) <==> Reached(s.pending, k);
      }
    }
  }

  /** The same for an effect as it is queued. */
  lemma QueuedEffectRunsExactlyWhen(s: Session, effect: Effect, events: seq<Event>)
    requires Ordered(s, [])
    ensures s.next in Run(Step(s, AfterCommit(effect)), events).ran <==>
            FirstEnd(events) == Some(Commit(true)) && forall q :: q in s.pending ==> !q.effect.raises
  {
    var t := Step(s, AfterCommit(effect));
    StepKeepsOrder(s, AfterCommit(effect));
    RunsExactlyWhen(t, events, |s.pending|);
    assert forall j :: 0 <= j < |s.pending| ==> t.pending[j] == s.pending[j];
  }

  /** "Dropped if the transaction rolls back instead" is not the whole story: after a commit past the wrapper, the
      rollback of the next transaction drops the effects of the committed one. */
  lemma RollbackDropsEffectsOfACommittedTransaction(effect: Effect)
    ensures 0 !in Run(EMPTY, [AfterCommit(effect), BareCommit(true), Rollback, Commit(true)]).ran
  {
    var rest := [BareCommit(true), Rollback, Commit(true)];
    assert EMPTY.ran + Tickets([]) + Tickets(EMPTY.pending) + [EMPTY.next] == [0];
    QueuedEffectRunsExactlyWhen(EMPTY, effect, rest);
    assert [AfterCommit(effect), BareCommit(true), Rollback, Commit(true)][1..] == rest;
    assert rest[1..] == [Rollback, Commit(true)];
  }

  // ---- the program --------------------------------------------------------------------------------------------------

  class DbSession {
    var next: nat
    var pending: seq<Queued>
    var ran: seq<nat>

    function State(): Session
      reads this
    {
      Session(next, pending, ran)
    }

    constructor ()
      ensures State() == EMPTY
    {
      next, pending, ran := 0, [], [];
    }

    method Queue(effect: Effect)
      modifies this
      ensures State() == Step(old(State()), AfterCommit(effect))
    {
      pending := pending + [Queued(next, effect)];
      next := next + 1;
    }

    /** The listener on rollbacks: a savepoint has a parent transaction. */
    method OnSoftRollback(hasParent: bool)
      modifies this
      ensures State() == Step(old(State()), if hasParent then SavepointRollback else Rollback)
    {
      if !hasParent {
        pending := [];
      }
    }

    method CallEffect(q: Queued)
      modifies this
      ensures State() == Call(old(State()), q)
    {
      ran := ran + [q.ticket];
      ghost var start := State();
      for i := 0 to |q.effect.queues|
        invariant EnqueueAll(start, q.effect.queues) == EnqueueAll(State(), q.effect.queues[i..])
      {
        assert q.effect.queues[i..][1..] == q.effect.queues[i + 1..];
        Queue(q.effect.queues[i]);
      }
    }

    /** The wrapper: the queue is popped before the commit, so a commit that fails has already lost it. `failed` stands
        for the exception that reaches the caller. */
    method CommitSession(ok: bool) returns (failed: bool)
      modifies this
      ensures State() == Step(old(State()), Commit(ok))
      ensures failed <==> !ok || exists i :: 0 <= i < |old(pending)| && old(pending)[i].effect.raises
    {
      var effects := pending;
      pending := [];
      if !ok {
        return true;
      }
      ghost var start := State();
      for i := 0 to |effects|
        invariant Fire(start, effects) == Fire(State(), effects[i..])
        invariant forall j :: 0 <= j < i ==> !effects[j].effect.raises
      {
        assert effects[i..][0] == effects[i] && effects[i..][1..] == effects[i + 1..];
        CallEffect(effects[i]);
        if effects[i].effect.raises {
          return true;
        }
      }
      return false;
    }
  }
}
