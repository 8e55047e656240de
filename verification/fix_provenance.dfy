/** Where content comes from: every text the pipeline stores, selects or pushes is what one earlier generation of that
    very file ended with, vetted against the files that generation fetched. */
module FixProvenance {
  import opened Wrappers
  import opened FixVetting
  import opened FixPipeline
  import opened FixSafety

  /** A generation ends with content exactly when the model answered with a rewrite, the file was among those fetched,
      and the restored rewrite passes every gate against them. */
  lemma OutcomeIsWhatPasses(g: Gates, path: string, answer: Answer, content: string)
    ensures Outcome(g, path, answer) == Some(content) <==>
              && answer.Response? && g.parse(answer.text) != ""
              && Source(answer.fetched, path).Some?
              && content == g.restore(Source(answer.fetched, path).value, g.parse(answer.text))
              && Passes(g, path, content, answer.fetched)
  {
    if answer.Response? && Source(answer.fetched, path).Some? {
      KeepsExactlyWhatPasses(g, answer.text, path, answer.fetched);
    }
  }

  /** Action n ends a generation by a worker that holds the row of `key`, and its outcome is `content`. */
  ghost predicate Produced(g: Gates, actions: seq<Action>, n: nat, key: Key, content: string) {
    && n < |actions| && actions[n].EndGeneration?
    && var s, w := Run(g, EMPTY, actions[..n]), actions[n].w;
       && w in s.jobs && s.jobs[w].Generating? && s.jobs[w].id < |s.rows|
       && s.rows[s.jobs[w].id].key == key
       && Outcome(g, key.path, actions[n].answer) == Some(content)
  }

  ghost predicate Traced(g: Gates, actions: seq<Action>, key: Key, content: string) {
    exists n: nat :: Produced(g, actions, n, key, content)
  }

  ghost predicate RowsTraced(g: Gates, actions: seq<Action>, rows: seq<FixRow>) {
    forall i | 0 <= i < |rows| && rows[i].content.Some? :: Traced(g, actions, rows[i].key, rows[i].content.value)
  }

  ghost predicate PickedTraced(g: Gates, actions: seq<Action>, rows: seq<FixRow>, picked: map<nat, string>) {
    forall i <- picked :: i < |rows| && Traced(g, actions, rows[i].key, picked[i])
  }

  ghost predicate JobTraced(g: Gates, actions: seq<Action>, rows: seq<FixRow>, j: Job) {
    j.Generating? || PickedTraced(g, actions, rows, j.picked)
  }

  /** Every stored, picked and pushed content has its generation. */
  ghost predicate AllTraced(g: Gates, actions: seq<Action>, s: Pipe) {
    && RowsTraced(g, actions, s.rows)
    && (forall w <- s.jobs :: JobTraced(g, actions, s.rows, s.jobs[w]))
    && (forall x <- s.sent :: Traced(g, actions, x.0, x.1))
  }

  lemma StillTraced(g: Gates, actions: seq<Action>, a: Action, key: Key, content: string)
    requires Traced(g, actions, key, content)
    ensures Traced(g, actions + [a], key, content)
  {
    var n: nat :| Produced(g, actions, n, key, content);
    assert (actions + [a])[..n] == actions[..n];
    assert Produced(g, actions + [a], n, key, content);
  }

  lemma AllStillTraced(g: Gates, actions: seq<Action>, a: Action, s: Pipe)
    requires AllTraced(g, actions, s)
    ensures AllTraced(g, actions + [a], s)
  {
    forall key, content | Traced(g, actions, key, content) ensures Traced(g, actions + [a], key, content) {
      StillTraced(g, actions, a, key, content);
    }
  }

  lemma {:induction false} QueueingOnlyClears(rows: seq<FixRow>, target: nat, files: seq<string>, force: bool)
    ensures var q := QueueAll(rows, target, files, force).rows;
            forall i | 0 <= i < |q| && q[i].content.Some? :: i < |rows| && q[i] == rows[i]
  {
    if files != [] {
      QueueingOnlyClears(rows, target, files[..|files| - 1], force);
    }
  }

  lemma JobsStillTraced(g: Gates, actions: seq<Action>, rows: seq<FixRow>, rows': seq<FixRow>, j: Job)
    requires JobTraced(g, actions, rows, j) && Extends(rows, rows')
    ensures JobTraced(g, actions, rows', j)
  {
  }

  lemma GenerationEndTraced(g: Gates, actions: seq<Action>, w: nat, answer: Answer)
    requires var s := Run(g, EMPTY, actions);
             w in s.jobs && s.jobs[w].Generating? && s.jobs[w].id < |s.rows|
             && RowsTraced(g, actions + [EndGeneration(w, answer)], s.rows)
    ensures var all := actions + [EndGeneration(w, answer)];
            RowsTraced(g, all, Step(g, Run(g, EMPTY, actions), EndGeneration(w, answer)).rows)
  {
    var s, all := Run(g, EMPTY, actions), actions + [EndGeneration(w, answer)];
    var i := s.jobs[w].id;
    var outcome := Outcome(g, s.rows[i].key.path, answer);
    if outcome.Some? {
      assert all[..|actions|] == actions && all[|actions|] == EndGeneration(w, answer);
      assert Produced(g, all, |actions|, s.rows[i].key, outcome.value);
    }
  }

  lemma RowsStayTraced(g: Gates, actions: seq<Action>, a: Action)
    requires Safe(Run(g, EMPTY, actions)) && RowsTraced(g, actions + [a], Run(g, EMPTY, actions).rows)
    ensures RowsTraced(g, actions + [a], Step(g, Run(g, EMPTY, actions), a).rows)
  {
    var s := Run(g, EMPTY, actions);
    match a
    case Queue(target, files, force) => QueueingOnlyClears(s.rows, target, files, force);
    case EndGeneration(w, answer) =>
      if w in s.jobs && s.jobs[w].Generating? && s.jobs[w].id < |s.rows| {
        GenerationEndTraced(g, actions, w, answer);
      }
    case _ =>
  }

  lemma SentStaysTraced(g: Gates, actions: seq<Action>, s: Pipe, w: nat)
    requires AllTraced(g, actions, s)
    ensures forall x <- Step(g, s, ClaimDelivery(w)).sent :: Traced(g, actions, x.0, x.1)
  {
    if w in s.jobs && s.jobs[w].Selected? {
      assert JobTraced(g, actions, s.rows, s.jobs[w]);
    }
  }

  lemma StepStaysTraced(g: Gates, actions: seq<Action>, a: Action)
    requires Safe(Run(g, EMPTY, actions)) && AllTraced(g, actions, Run(g, EMPTY, actions))
    ensures AllTraced(g, actions + [a], Step(g, Run(g, EMPTY, actions), a))
  {
    var s, all := Run(g, EMPTY, actions), actions + [a];
    var t := Step(g, s, a);
    AllStillTraced(g, actions, a, s);
    StepKeepsSafe(g, s, a);
    RowsStayTraced(g, actions, a);
    if a.ClaimDelivery? {
      SentStaysTraced(g, all, s, a.w);
    }
    forall w | w in t.jobs ensures JobTraced(g, all, t.rows, t.jobs[w]) {
      if w in s.jobs {
        JobsStillTraced(g, all, s.rows, t.rows, s.jobs[w]);
      }
    }
  }

  lemma {:induction false} RunStaysTraced(g: Gates, actions: seq<Action>)
    ensures AllTraced(g, actions, Run(g, EMPTY, actions))
  {
    if actions != [] {
      var n := |actions| - 1;
      RunStaysTraced(g, actions[..n]);
      RunKeepsSafe(g, actions[..n]);
      StepStaysTraced(g, actions[..n], actions[n]);
      assert actions[..n] + [actions[n]] == actions;
    }
  }

  /** Over every run, forced or not and however stale its workers: whatever is stored, selected or was ever pushed for a
      file is the rewrite with which one earlier generation, by a worker holding that file's row, ended; and it passed
      every gate against the files that generation had fetched. */
  lemma OnlyVettedContentIsPushed(g: Gates, actions: seq<Action>)
    ensures AllTraced(g, actions, Run(g, EMPTY, actions))
    ensures forall x <- Run(g, EMPTY, actions).sent ::
              exists n: nat :: Produced(g, actions, n, x.0, x.1) && Passes(g, x.0.path, x.1, actions[n].answer.fetched)
  {
    RunStaysTraced(g, actions);
    forall x | x in Run(g, EMPTY, actions).sent
      ensures exists n: nat :: Produced(g, actions, n, x.0, x.1) && Passes(g, x.0.path, x.1, actions[n].answer.fetched)
    {
      assert Traced(g, actions, x.0, x.1);
      var n: nat :| Produced(g, actions, n, x.0, x.1);
      OutcomeIsWhatPasses(g, x.0.path, actions[n].answer, x.1);
    }
  }
}
