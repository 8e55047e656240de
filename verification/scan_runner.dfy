/** The scan flow as the code runs it, over tables updated in place. */
module ScanRunner {
  import opened Wrappers
  import opened Scoring
  import opened FindingStore

  lemma Prefix<T>(xs: seq<T>, i: nat)
    requires i < |xs|
    ensures xs[..i + 1][..i] == xs[..i] && xs[..i + 1][i] == xs[i]
  {
  }

  datatype Answer =
    | QuotaExceeded
    | FetchFailed
    | NoFiles
    | ScanFailed
    | Scanned(score: real, grade: string, findings: nat)

  // Which way a scan goes, from what its surroundings answer.
  function AttemptOf(exhausted: bool, billable: bool, fetched: Option<seq<string>>,
                     analysis: Option<seq<Report>>): Attempt {
    if billable && exhausted then Refused
    else if fetched.None? then Unfetchable
    else if fetched.value == [] then Empty(billable)
    else if analysis.None? then AnalysisRaised(billable)
    else Done(billable, analysis.value, fetched.value, false)
  }

  /** The reports whose rule the scan has loaded. */
  ghost function Known(e: Engine, vs: seq<Report>): set<nat> {
    set i: nat | i < |vs| && vs[i].slug in e.rules
  }

  lemma KnownOneMore(e: Engine, vs: seq<Report>, i: nat)
    requires i < |vs|
    ensures |Known(e, vs[..i + 1])| == |Known(e, vs[..i])| + if vs[i].slug in e.rules then 1 else 0
  {
    assert Known(e, vs[..i + 1]) == Known(e, vs[..i]) + if vs[i].slug in e.rules then {i} else {};
  }

  /** The findings named in `done` are resolved, the others are as they were. */
  function ResolvedIn(rows: Rows, done: set<string>, now: int): Rows {
    map fp | fp in rows :: if fp in done then Resolve(rows[fp], now) else rows[fp]
  }

  lemma NoneResolvedYet(rows: Rows, now: int)
    ensures ResolvedIn(rows, {}, now) == rows
  {}

  lemma ResolveOneMore(rows: Rows, done: set<string>, fp: string, now: int)
    requires fp in rows && fp !in done
    ensures ResolvedIn(rows, done, now)[fp := Resolve(rows[fp], now)] == ResolvedIn(rows, done + {fp}, now)
    ensures ResolvedIn(rows, done, now)[fp] == rows[fp]
  {}

  lemma AllStaleResolved(rows: Rows, seen: set<string>, now: int)
    ensures ResolvedIn(rows, Open(rows) - seen, now) == ResolveStale(rows, seen, now)
  {}

  class Tables {
    var rows: Rows
    var scans: seq<Scan>
    var charges: seq<nat>
    var nextId: nat
    var lastScannedAt: Option<int>

    constructor ()
      ensures State() == Store(map[], [], [], 0)
    {
      rows, scans, charges, nextId := map[], [], [], 0;
      lastScannedAt := None;
    }

    function State(): Store
      reads this
    {
      Store(rows, scans, charges, nextId)
    }

    /** Upsert one finding per known violation; report what was seen, per file and in all. */
    method PersistFindings(engine: Engine, vs: seq<Report>, scan: nat, now: int)
      returns (seen: set<string>, perFile: seq<Group>, count: nat)
      modifies this`rows, this`nextId
      ensures rows == Persist(engine, old(rows), vs, scan, old(nextId), now)
      ensures nextId == old(nextId) + |vs|
      ensures seen == Seen(engine, vs) && perFile == PerFile(engine, vs)
      ensures count == |Known(engine, vs)|
      ensures Open(rows) == Open(old(rows)) + seen
    {
      seen, perFile, count := {}, [], 0;
      for i := 0 to |vs|
        invariant rows == Persist(engine, old(rows), vs[..i], scan, old(nextId), now)
        invariant nextId == old(nextId) + i
        invariant seen == Seen(engine, vs[..i]) && perFile == PerFile(engine, vs[..i])
        invariant count == |Known(engine, vs[..i])|
      {
        Prefix(vs, i);
        KnownOneMore(engine, vs, i);
        var v := vs[i];
        var id := nextId;
        nextId := nextId + 1;
        if v.slug !in engine.rules {
          continue;
        }
        var rule := engine.rules[v.slug];
        var fp := engine.fingerprint(rule.id, v.locator, v.discriminator);
        seen := seen + {fp};
        count := count + 1;
        if fp in rows {
          rows := rows[fp := rows[fp].(scan := scan, severity := v.severity, file := v.file, message := v.message,
                                       resolvedAt := None)];
        } else {
          rows := rows[fp := Row(id, scan, rule.id, now, None, StatusOpen, v.severity, v.file, v.message, None)];
        }
        perFile := AddTo(perFile, v.file, Violation(v.severity, rule.weight));
      }
      assert vs[..|vs|] == vs;
      PersistOpens(engine, old(rows), vs, scan, old(nextId), now);
    }

    /** Resolve the open findings the latest scan did not report. */
    method ResolveStaleFindings(seen: set<string>, now: int) returns (resolved: nat)
      modifies this`rows
      ensures rows == ResolveStale(old(rows), seen, now)
      ensures resolved == |Open(old(rows)) - seen|
    {
      var stale := set fp | fp in rows && rows[fp].resolvedAt.None? && fp !in seen;
      assert stale == Open(rows) - seen;
      resolved := |stale|;
      var todo := stale;
      ghost var was, done := rows, {};
      NoneResolvedYet(was, now);
      while todo != {}
        invariant done !! todo && done + todo == stale
        invariant rows == ResolvedIn(was, done, now)
      {
        var fp :| fp in todo;
        ResolveOneMore(was, done, fp, now);
        todo, done := todo - {fp}, done + {fp};
        rows := rows[fp := Resolve(rows[fp], now)];
      }
      AllStaleResolved(was, seen, now);
    }

    /** A scan whose analysis answered: findings upserted, graded and recorded, then the stale ones resolved. */
    method CompleteScan(engine: Engine, vs: seq<Report>, files: seq<string>, billable: bool, now: int)
      returns (answer: Answer)
      modifies this`rows, this`scans, this`nextId, this`lastScannedAt
      ensures rows == ResolveStale(Persist(engine, old(rows), vs, |old(scans)|, old(nextId), now),
                                   Seen(engine, vs), now)
      ensures scans == old(scans) +
                [Scan(Completed, billable, Some(TargetScore(engine.scoresPerFile, PerFile(engine, vs), files)))]
      ensures nextId == old(nextId) + |vs|
      ensures Reports(answer, engine, vs, files) && lastScannedAt == Some(now)
    {
      var scan := |scans|;
      var seen, perFile, count := PersistFindings(engine, vs, scan, now);
      var score := TargetScore(engine.scoresPerFile, perFile, files);
      var grade := ScoreToGrade(score);
      scans := scans + [Scan(Completed, billable, Some(score))];
      var _ := ResolveStaleFindings(seen, now);
      lastScannedAt := Some(now);
      answer := Scanned(score, grade, count);
    }

    /** A scan with files to look at is charged first, if it is billable, and then fails or completes. */
    method AnalyseFiles(engine: Engine, analysis: Option<seq<Report>>, files: seq<string>, billable: bool, now: int)
      returns (answer: Answer)
      modifies this
      ensures State() == Attempted(engine, old(State()),
                           if analysis.None? then AnalysisRaised(billable)
                           else Done(billable, analysis.value, files, false), now)
      ensures analysis.None? ==> answer.ScanFailed? && lastScannedAt == old(lastScannedAt)
      ensures analysis.Some? ==> Reports(answer, engine, analysis.value, files) && lastScannedAt == Some(now)
    {
      var scan := |scans|;
      if billable {
        charges := charges + [scan];
      }
      if analysis.None? {
        scans := scans + [Scan(Failed, billable, None)];
        return ScanFailed;
      }
      answer := CompleteScan(engine, analysis.value, files, billable, now);
    }

    /** One scan end to end: the first thing amiss is answered; a refused, unfetchable or empty scan charges nothing,
        each other charges its own record if it is billable, and only a successful one moves findings. */
    method RunFileScan(engine: Engine, exhausted: bool, billable: bool, fetched: Option<seq<string>>,
                       analysis: Option<seq<Report>>, now: int)
      returns (answer: Answer)
      modifies this
      ensures State() == Attempted(engine, old(State()), AttemptOf(exhausted, billable, fetched, analysis), now)
      ensures answer.Scanned? <==> AttemptOf(exhausted, billable, fetched, analysis).Done?
      ensures answer.QuotaExceeded? <==> billable && exhausted
      ensures answer.FetchFailed? <==> !(billable && exhausted) && fetched.None?
      ensures answer.NoFiles? <==> !(billable && exhausted) && fetched == Some([])
      ensures answer.ScanFailed? <==>
                !(billable && exhausted) && fetched.Some? && fetched.value != [] && analysis.None?
      ensures answer.Scanned? ==>
                Reports(answer, engine, analysis.value, fetched.value) && Open(rows) == Seen(engine, analysis.value)
      ensures !answer.Scanned? ==> rows == old(rows)
      ensures answer.QuotaExceeded? || answer.FetchFailed? ==> State() == old(State())
      ensures !answer.Scanned? && !answer.ScanFailed? ==> charges == old(charges)
      ensures lastScannedAt == if answer.Scanned? then Some(now) else old(lastScannedAt)
    {
      if billable && exhausted {
        return QuotaExceeded;
      }
      if fetched.None? {
        return FetchFailed;
      }
      if |fetched.value| == 0 {
        scans := scans + [Scan(NoTargets, billable, None)];
        return NoFiles;
      }
      answer := AnalyseFiles(engine, analysis, fetched.value, billable, now);
      if analysis.Some? {
        GoodScanOpens(engine, old(State()), billable, analysis.value, fetched.value, now);
      }
    }
  }

  /** The answer of a finished scan: its score and grade, and how many known violations it was told of. */
  ghost predicate Reports(answer: Answer, e: Engine, vs: seq<Report>, files: seq<string>) {
    && answer.Scanned? && answer.score == TargetScore(e.scoresPerFile, PerFile(e, vs), files)
    && answer.grade == LADDER[Rung(answer.score)] && answer.findings == |Known(e, vs)|
  }
}
