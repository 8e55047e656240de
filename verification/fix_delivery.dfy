/** One delivery from selection to the recorded result: which rows it sends, and what it says about them. */
module FixDelivery {
  import opened Wrappers
  import opened FixMachine
  import opened FixPipeline
  import opened FixSafety
  import opened FixTable
  import PrBody

  type FindingsOf = nat -> seq<PrBody.Finding>

  datatype Report = NoInstallation | NoReadyFixes | PreviouslyClosed | FetchFailed | Pushed(failed: bool)

  /** What is handed to GitHub; a commit message is told by the count it claims. The counts come from the findings as
      they were when the rows were claimed, the body from the findings as they were read again after that commit. */
  datatype Push = Push(files: seq<(string, string)>, counts: map<string, nat>, body: seq<PrBody.Line>)

  function FixOf(rows: seq<FixRow>, findings: FindingsOf, i: nat): PrBody.Fix
    requires i < |rows|
  {
    PrBody.Fix(rows[i].key.path, findings(i))
  }

  /** The rewrites that would leave open every finding they were made for. */
  function Withheld(rows: seq<FixRow>, findings: FindingsOf): set<nat> {
    set i: nat | i < |rows| && !PrBody.ResolvesSomething(FixOf(rows, findings, i))
  }

  predicate InTable(rows: seq<FixRow>, ids: seq<nat>) {
    forall n | 0 <= n < |ids| :: ids[n] < |rows|
  }

  function Fixes(rows: seq<FixRow>, findings: FindingsOf, ids: seq<nat>): seq<PrBody.Fix>
    requires InTable(rows, ids)
  {
    seq(|ids|, n requires 0 <= n < |ids| => FixOf(rows, findings, ids[n]))
  }

  ghost predicate Ascending(ids: seq<nat>) {
    forall m, n | 0 <= m < n < |ids| :: ids[m] < ids[n]
  }

  lemma SelectedPathsDiffer(rows: seq<FixRow>, findings: FindingsOf, ids: seq<nat>, target: nat)
    requires Unique(rows) && Ascending(ids) && InTable(rows, ids)
    requires forall n | 0 <= n < |ids| :: rows[ids[n]].key.target == target
    ensures PrBody.DistinctPaths(Fixes(rows, findings, ids))
  {
    forall m, n | 0 <= m < n < |ids| ensures rows[ids[m]].key.path != rows[ids[n]].key.path {
      assert rows[ids[m]].key != rows[ids[n]].key;
    }
  }

  /** The push carries the selected rows and nothing else, each with the content it was selected with; each commit
      counts the findings its rewrite was found to fix when it was claimed, which are some, or none was open; and the
      body, written from the findings as `later` reads them, names every finding then open exactly once, each fixed one
      under its file. */
  ghost predicate Faithful(push: Push, rows: seq<FixRow>, findings: FindingsOf, later: FindingsOf,
                           picked: map<nat, string>, fixes: seq<PrBody.Fix>)
  {
    && |push.files| == |fixes| == |picked|
    && (forall i <- picked :: i < |rows| && (rows[i].key.path, picked[i]) in push.files &&
         FixOf(rows, later, i) in fixes)
    && (forall path :: path in push.counts <==> exists i :: i in picked && i < |rows| && rows[i].key.path == path)
    && (forall i <- picked :: i < |rows| && CountedAndListed(push, FixOf(rows, findings, i), FixOf(rows, later, i)))
    && push.body == PrBody.Body(fixes) && PrBody.Account("", push.body) == PrBody.AllOpen(fixes)
  }

  /** The commit message speaks of the findings as claimed, the section of the body of the findings as read later. */
  ghost predicate CountedAndListed(push: Push, claimed: PrBody.Fix, later: PrBody.Fix) {
    && claimed.path in push.counts
    && push.counts[claimed.path] == PrBody.CommitCount(claimed)
    && (push.counts[claimed.path] >= 1 || PrBody.Open(claimed.findings) == [])
    && PrBody.ListedUnder("", push.body, claimed.path) == PrBody.Fixed(later.findings)
  }

  // ------------------------------------------------- one read or two

  /** What a scan may do to a fix's findings in between: resolve them or open them again. */
  predicate Rescanned(was: seq<PrBody.Finding>, later: seq<PrBody.Finding>) {
    |was| == |later| && forall n | 0 <= n < |was| :: was[n].id == later[n].id && was[n].manual == later[n].manual
  }

  function Closed(was: seq<PrBody.Finding>, later: seq<PrBody.Finding>): nat
    requires |was| == |later|
  {
    if was == [] then 0
    else
      var n := |was| - 1;
      Closed(was[..n], later[..n]) + if !was[n].manual && !was[n].resolved && later[n].resolved then 1 else 0
  }

  function Reopened(was: seq<PrBody.Finding>, later: seq<PrBody.Finding>): nat
    requires |was| == |later|
  {
    if was == [] then 0
    else
      var n := |was| - 1;
      Reopened(was[..n], later[..n]) + if !was[n].manual && was[n].resolved && !later[n].resolved then 1 else 0
  }

  lemma {:induction false} RescanMovesTheCount(was: seq<PrBody.Finding>, later: seq<PrBody.Finding>)
    requires Rescanned(was, later)
    ensures |PrBody.Fixed(was)| + Reopened(was, later) == |PrBody.Fixed(later)| + Closed(was, later)
  {
    if was != [] {
      RescanMovesTheCount(was[..|was| - 1], later[..|later| - 1]);
    }
  }

  /** A commit message counts exactly the findings its file's section lists if and only if the scans that committed in
      between resolved as many of the findings it claims as they reopened; with no such scan it always does. */
  lemma CountIsSectionLengthExactlyWhen(push: Push, path: string, was: seq<PrBody.Finding>, later: seq<PrBody.Finding>)
    requires CountedAndListed(push, PrBody.Fix(path, was), PrBody.Fix(path, later)) && Rescanned(was, later)
    ensures push.counts[path] == |PrBody.ListedUnder("", push.body, path)| <==>
              Closed(was, later) == Reopened(was, later)
    ensures was == later ==> push.counts[path] == |PrBody.ListedUnder("", push.body, path)|
  {
    RescanMovesTheCount(was, later);
  }

  lemma {:induction false} AsManyAsPicked(ids: seq<nat>, picked: set<nat>)
    requires Ascending(ids) && forall i :: i in ids <==> i in picked
    ensures |ids| == |picked|
  {
    if ids == [] {
      assert picked == {};
    } else {
      var n := |ids| - 1;
      forall i ensures i in ids[..n] <==> i in picked - {ids[n]} {
        assert ids == ids[..n] + [ids[n]];
      }
      AsManyAsPicked(ids[..n], picked - {ids[n]});
      assert ids[n] in picked;
    }
  }

  /** Files and counts, row by row. */
  method Describe(rows: seq<FixRow>, findings: FindingsOf, ids: seq<nat>, picked: map<nat, string>)
    returns (files: seq<(string, string)>, counts: map<string, nat>)
    requires InTable(rows, ids) && forall n | 0 <= n < |ids| :: ids[n] in picked
    requires PrBody.DistinctPaths(Fixes(rows, findings, ids))
    ensures |files| == |ids| && forall n | 0 <= n < |ids| :: files[n] == (rows[ids[n]].key.path, picked[ids[n]])
    ensures forall path :: path in counts <==> exists n :: 0 <= n < |ids| && rows[ids[n]].key.path == path
    ensures forall n | 0 <= n < |ids| ::
              rows[ids[n]].key.path in counts
              && counts[rows[ids[n]].key.path] == PrBody.CommitCount(FixOf(rows, findings, ids[n]))
  {
    files, counts := [], map[];
    for n := 0 to |ids|
      invariant |files| == n && forall k | 0 <= k < n :: files[k] == (rows[ids[k]].key.path, picked[ids[k]])
      invariant forall path :: path in counts <==> exists k :: 0 <= k < n && rows[ids[k]].key.path == path
      invariant forall k | 0 <= k < n ::
                  rows[ids[k]].key.path in counts
                  && counts[rows[ids[k]].key.path] == PrBody.CommitCount(FixOf(rows, findings, ids[k]))
    {
      forall k | 0 <= k < n ensures rows[ids[k]].key.path != rows[ids[n]].key.path {
        assert Fixes(rows, findings, ids)[k].path != Fixes(rows, findings, ids)[n].path;
      }
      files := files + [(rows[ids[n]].key.path, picked[ids[n]])];
      counts := counts[rows[ids[n]].key.path := |PrBody.Fixed(findings(ids[n]))|];
    }
  }

  /** Files and counts are those of the rows, in their order. */
  ghost predicate Described(push: Push, rows: seq<FixRow>, findings: FindingsOf, later: FindingsOf, ids: seq<nat>,
                            picked: map<nat, string>)
    requires InTable(rows, ids) && forall n | 0 <= n < |ids| :: ids[n] in picked
  {
    && |push.files| == |ids|
    && (forall n | 0 <= n < |ids| :: push.files[n] == (rows[ids[n]].key.path, picked[ids[n]]))
    && (forall path :: path in push.counts <==> exists n :: 0 <= n < |ids| && rows[ids[n]].key.path == path)
    && (forall n | 0 <= n < |ids| ::
          rows[ids[n]].key.path in push.counts
          && push.counts[rows[ids[n]].key.path] == PrBody.CommitCount(FixOf(rows, findings, ids[n])))
    && PrBody.DistinctPaths(Fixes(rows, later, ids)) && push.body == PrBody.Body(Fixes(rows, later, ids))
  }

  lemma DescribedRow(push: Push, rows: seq<FixRow>, findings: FindingsOf, later: FindingsOf, ids: seq<nat>,
                     picked: map<nat, string>, n: nat)
    requires InTable(rows, ids) && (forall m | 0 <= m < |ids| :: ids[m] in picked) && n < |ids|
    requires Described(push, rows, findings, later, ids, picked) &&
               PrBody.ResolvesSomething(FixOf(rows, findings, ids[n]))
    ensures (rows[ids[n]].key.path, picked[ids[n]]) in push.files
    ensures FixOf(rows, later, ids[n]) in Fixes(rows, later, ids)
    ensures CountedAndListed(push, FixOf(rows, findings, ids[n]), FixOf(rows, later, ids[n]))
  {
    var fixes := Fixes(rows, later, ids);
    assert push.files[n] == (rows[ids[n]].key.path, picked[ids[n]]) && fixes[n] == FixOf(rows, later, ids[n]);
    PrBody.CommitCountIsSectionLength(fixes, n);
    PrBody.DeliveredExactlyWhenItFixes(rows[ids[n]].key.path, findings(ids[n]));
  }

  lemma DescribedFaithfully(push: Push, rows: seq<FixRow>, findings: FindingsOf, later: FindingsOf, ids: seq<nat>,
                            picked: map<nat, string>)
    requires Ascending(ids) && (forall i :: i in ids <==> i in picked)
    requires InTable(rows, ids) && forall n | 0 <= n < |ids| :: ids[n] in picked
    requires forall n | 0 <= n < |ids| :: PrBody.ResolvesSomething(FixOf(rows, findings, ids[n]))
    requires Described(push, rows, findings, later, ids, picked)
    ensures Faithful(push, rows, findings, later, picked, Fixes(rows, later, ids))
  {
    AsManyAsPicked(ids, picked.Keys);
    PrBody.BodyAccountsForEveryFinding(Fixes(rows, later, ids));
    forall i | i in picked
      ensures i < |rows| && (rows[i].key.path, picked[i]) in push.files
      ensures FixOf(rows, later, i) in Fixes(rows, later, ids)
      ensures CountedAndListed(push, FixOf(rows, findings, i), FixOf(rows, later, i))
    {
      var n :| 0 <= n < |ids| && ids[n] == i;
      DescribedRow(push, rows, findings, later, ids, picked, n);
    }
    forall path | path in push.counts ensures exists i :: i in picked && i < |rows| && rows[i].key.path == path {
      var n :| 0 <= n < |ids| && rows[ids[n]].key.path == path;
      assert ids[n] in picked;
    }
  }

  lemma SelectionIsDescribable(rows: seq<FixRow>, findings: FindingsOf, ids: seq<nat>, target: nat, force: bool)
    requires Unique(rows) && Ascending(ids)
    requires forall i :: i in ids <==> i in Pick(rows, target, force, Withheld(rows, findings))
    ensures InTable(rows, ids)
    ensures forall any: FindingsOf :: PrBody.DistinctPaths(Fixes(rows, any, ids))
    ensures forall n | 0 <= n < |ids| :: ids[n] in Pick(rows, target, force, Withheld(rows, findings))
    ensures forall n | 0 <= n < |ids| :: PrBody.ResolvesSomething(FixOf(rows, findings, ids[n]))
  {
    forall n | 0 <= n < |ids|
      ensures ids[n] in Pick(rows, target, force, Withheld(rows, findings))
    {
      assert ids[n] in ids;
    }
    forall any: FindingsOf ensures PrBody.DistinctPaths(Fixes(rows, any, ids)) {
      SelectedPathsDiffer(rows, any, ids, target);
    }
  }

  /** What a delivery sends for the rows it selected. */
  method Compose(rows: seq<FixRow>, findings: FindingsOf, later: FindingsOf, ids: seq<nat>, picked: map<nat, string>,
                 ghost target: nat, ghost force: bool)
    returns (push: Push)
    requires Unique(rows) && Ascending(ids)
    requires picked == Pick(rows, target, force, Withheld(rows, findings)) && forall i :: i in ids <==> i in picked
    ensures InTable(rows, ids) && Faithful(push, rows, findings, later, picked, Fixes(rows, later, ids))
  {
    SelectionIsDescribable(rows, findings, ids, target, force);
    assert PrBody.DistinctPaths(Fixes(rows, findings, ids)) && PrBody.DistinctPaths(Fixes(rows, later, ids));
    var files, counts := Describe(rows, findings, ids, picked);
    var body := PrBody.BuildPrBody(Fixes(rows, later, ids));
    push := Push(files, counts, body);
    DescribedFaithfully(push, rows, findings, later, ids, picked);
  }

  lemma ClaimedThenEnded(rows: seq<FixRow>, ids: set<nat>, end: FixStatus)
    ensures SetStatus(SetStatus(rows, ids, Delivering), ids, end) == SetStatus(rows, ids, end)
  {}

  /** The claim and the end of a delivery; each row goes through `delivering`. */
  method SendSelected(table: Table, ids: seq<nat>, ghost picked: map<nat, string>, pushFails: bool)
    requires InTable(table.rows, ids) && forall i :: i in ids <==> i in picked
    modifies table`rows
    ensures table.rows == SetStatus(old(table.rows), picked.Keys, if pushFails then Failed else Delivered)
  {
    assert (set i | i in ids) == picked.Keys;
    table.AdvanceAll(ids, Delivering);
    table.AdvanceAll(ids, if pushFails then Failed else Delivered);
    ClaimedThenEnded(old(table.rows), picked.Keys, if pushFails then Failed else Delivered);
  }

  /** Some row of the target may be sent, holds content, and either has nothing open or fixes something open. */
  ghost predicate AnythingToSend(rows: seq<FixRow>, findings: FindingsOf, target: nat, force: bool) {
    exists i: nat :: i < |rows| && Sendable(rows[i], target, force) && Worthwhile(findings(i))
  }

  ghost predicate Sendable(row: FixRow, target: nat, force: bool) {
    && row.key.target == target
    && row.status in (if force then {Ready, Delivered, Failed} else {Ready})
    && row.content.Some? && row.content.value != ""
  }

  ghost predicate Worthwhile(findings: seq<PrBody.Finding>) {
    (forall f <- findings :: f.resolved) || exists f <- findings :: !f.resolved && !f.manual
  }

  lemma PickedExactlyWhen(rows: seq<FixRow>, findings: FindingsOf, target: nat, force: bool, i: nat)
    requires i < |rows|
    ensures i in Pick(rows, target, force, Withheld(rows, findings)) <==>
              Sendable(rows[i], target, force) && Worthwhile(findings(i))
  {
    PrBody.WithheldExactlyWhen(FixOf(rows, findings, i));
  }

  lemma NothingPickedExactlyWhen(rows: seq<FixRow>, findings: FindingsOf, target: nat, force: bool)
    ensures Pick(rows, target, force, Withheld(rows, findings)) == map[] <==>
              !AnythingToSend(rows, findings, target, force)
  {
    var picked := Pick(rows, target, force, Withheld(rows, findings));
    forall i: nat | i < |rows|
      ensures i in picked <==> Sendable(rows[i], target, force) && Worthwhile(findings(i))
    {
      PickedExactlyWhen(rows, findings, target, force, i);
    }
    if picked != map[] {
      var i :| i in picked;
      assert i < |rows|;
    }
  }

  /** One delivery. The first thing amiss is answered, and such an end leaves every row alone; otherwise exactly the
      selected rows are pushed and end delivered or failed. `findings` are the findings when the rows are selected and
      claimed, `later` when the body is written. */
  method DeliverFileFixes(table: Table, findings: FindingsOf, later: FindingsOf, target: nat, force: bool,
                          installed: bool, closed: bool, fetched: bool, pushFails: bool)
    returns (report: Report, push: Option<Push>, ghost fixes: seq<PrBody.Fix>)
    requires Unique(table.rows)
    modifies table`rows
    ensures var any := AnythingToSend(old(table.rows), findings, target, force);
            && (report.NoInstallation? <==> !installed)
            && (report.NoReadyFixes? <==> installed && !any)
            && (report.PreviouslyClosed? <==> installed && any && closed && !force)
            && (report.FetchFailed? <==> installed && any && !(closed && !force) && !fetched)
            && (report.Pushed? <==> installed && any && !(closed && !force) && fetched)
    ensures !report.Pushed? ==> table.rows == old(table.rows) && push.None?
    ensures report.Pushed? ==>
              var picked := Pick(old(table.rows), target, force, Withheld(old(table.rows), findings));
              && push.Some? && Faithful(push.value, old(table.rows), findings, later, picked, fixes)
              && report.failed == pushFails
              && table.rows == SetStatus(old(table.rows), picked.Keys, if pushFails then Failed else Delivered)
  {
    push, fixes := None, [];
    if !installed {
      return NoInstallation, None, [];
    }
    var ids, picked := table.SelectFixes(target, force, Withheld(table.rows, findings));
    NothingPickedExactlyWhen(table.rows, findings, target, force);
    if |ids| == 0 {
      return NoReadyFixes, None, [];
    }
    assert ids[0] in picked;
    if !force && closed {
      return PreviouslyClosed, None, [];
    }
    if !fetched {
      return FetchFailed, None, [];
    }
    var composed := Compose(table.rows, findings, later, ids, picked, target, force);
    push, fixes := Some(composed), Fixes(table.rows, later, ids);
    SendSelected(table, ids, picked, pushFails);
    report := Pushed(pushFails);
  }

  /** A scan that resolves one of three findings between the claim and the body: the commit says three, the section
      lists two. */
  lemma ScanInBetweenMakesThemDiffer(path: string, content: string)
    ensures var was := [PrBody.Finding(0, false, false), PrBody.Finding(1, false, false),
              PrBody.Finding(2, false, false)];
            var later := was[0 := PrBody.Finding(0, true, false)];
            var claimed, reread := PrBody.Fix(path, was), PrBody.Fix(path, later);
            var push := Push([(path, content)], map[path := PrBody.CommitCount(claimed)], PrBody.Body([reread]));
            && Rescanned(was, later) && CountedAndListed(push, claimed, reread)
            && push.counts[path] == 3 && |PrBody.ListedUnder("", push.body, path)| == 2
  {
    var was := [PrBody.Finding(0, false, false), PrBody.Finding(1, false, false), PrBody.Finding(2, false, false)];
    var later := was[0 := PrBody.Finding(0, true, false)];
    FixedOfThree(was[0], was[1], was[2]);
    FixedOfThree(later[0], later[1], later[2]);
    assert later == [later[0], later[1], later[2]];
    PrBody.CommitCountIsSectionLength([PrBody.Fix(path, later)], 0);
  }

  lemma FixedAppend(findings: seq<PrBody.Finding>, f: PrBody.Finding)
    ensures PrBody.Fixed(findings + [f]) == PrBody.Fixed(findings) + if f.resolved || f.manual then [] else [f]
  {
    assert (findings + [f])[..|findings|] == findings;
  }

  lemma FixedOfThree(a: PrBody.Finding, b: PrBody.Finding, c: PrBody.Finding)
    requires !a.manual && !b.resolved && !b.manual && !c.resolved && !c.manual
    ensures |PrBody.Fixed([a, b, c])| == if a.resolved then 2 else 3
  {
    FixedAppend([], a);
    FixedAppend([a], b);
    FixedAppend([a, b], c);
    assert [] + [a] == [a] && [a] + [b] == [a, b] && [a, b] + [c] == [a, b, c];
  }
}
