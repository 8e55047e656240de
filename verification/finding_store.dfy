/** One target's findings over any number of scans: what each scan upserts, resolves and charges. */
module FindingStore {
  import opened Wrappers
  import opened Scoring

  datatype FindingStatus = StatusOpen | FixInProgress | StatusResolved | Ignored

  datatype Row = Row(
    id: nat,
    scan: nat,
    rule: nat,
    createdAt: int,
    ignoredAt: Option<int>,
    status: FindingStatus,
    severity: string,
    file: string,
    message: string,
    resolvedAt: Option<int>)

  // What the analyser reports; the identity is the rule plus a locator and a discriminator.
  datatype Report = Report(slug: string, locator: string, discriminator: string, severity: string, file: string,
                           message: string)
  datatype Rule = Rule(id: nat, weight: real)
  type Catalog = map<string, Rule>

  // The fingerprint of a violation within this target.
  type Printer = (nat, string, string) -> string

  datatype Engine = Engine(fingerprint: Printer, rules: Catalog, scoresPerFile: bool)

  type Rows = map<string, Row>

  function PrintOf(e: Engine, v: Report): string
    requires v.slug in e.rules
  {
    e.fingerprint(e.rules[v.slug].id, v.locator, v.discriminator)
  }

  /** Insert a finding, or refresh the one with its fingerprint: a recurring violation reopens it. */
  function Upsert(e: Engine, rows: Rows, v: Report, scan: nat, id: nat, now: int): Rows {
    if v.slug !in e.rules then rows
    else
      var fp := PrintOf(e, v);
      if fp in rows then
        rows[fp := rows[fp].(scan := scan, severity := v.severity, file := v.file, message := v.message,
                             resolvedAt := None)]
      else
        rows[fp := Row(id, scan, e.rules[v.slug].id, now, None, StatusOpen, v.severity, v.file, v.message, None)]
  }

  function Persist(e: Engine, rows: Rows, vs: seq<Report>, scan: nat, id: nat, now: int): Rows {
    if vs == [] then rows
    else
      var n := |vs| - 1;
      Upsert(e, Persist(e, rows, vs[..n], scan, id, now), vs[n], scan, id + n, now)
  }

  function Seen(e: Engine, vs: seq<Report>): set<string> {
    if vs == [] then {}
    else
      var n := |vs| - 1;
      Seen(e, vs[..n]) + if vs[n].slug in e.rules then {PrintOf(e, vs[n])} else {}
  }

  function Resolve(row: Row, now: int): Row {
    row.(resolvedAt := Some(now),
         status := if row.status == StatusOpen || row.status == FixInProgress then StatusResolved else row.status)
  }

  function ResolveStale(rows: Rows, seen: set<string>, now: int): Rows {
    map fp | fp in rows :: if rows[fp].resolvedAt.None? && fp !in seen then Resolve(rows[fp], now) else rows[fp]
  }

  function Open(rows: Rows): set<string> {
    set fp | fp in rows && rows[fp].resolvedAt.None?
  }

  // ------------------------------------------------- one scan

  datatype ScanStatus = Completed | Failed | NoTargets
  datatype Scan = Scan(status: ScanStatus, billable: bool, score: Option<real>)

  /** How one scan attempt goes. A crash after the first commit leaves stale findings unresolved. */
  datatype Attempt =
    | Refused
    | Unfetchable
    | Empty(billable: bool)
    | AnalysisRaised(billable: bool)
    | RolledBack(billable: bool)
    | Done(billable: bool, vs: seq<Report>, files: seq<string>, crashed: bool)

  datatype Store = Store(rows: Rows, scans: seq<Scan>, charges: seq<nat>, nextId: nat)

  function PerFile(e: Engine, vs: seq<Report>): seq<Group> {
    if vs == [] then []
    else
      var n := |vs| - 1;
      var rest := PerFile(e, vs[..n]);
      if vs[n].slug in e.rules then AddTo(rest, vs[n].file, Violation(vs[n].severity, e.rules[vs[n].slug].weight))
      else rest
  }

  function AddTo(groups: seq<Group>, file: string, v: Violation): seq<Group> {
    if groups == [] then [Group(file, [v])]
    else if groups[0].name == file then [Group(file, groups[0].violations + [v])] + groups[1..]
    else [groups[0]] + AddTo(groups[1..], file, v)
  }

  function Attempted(e: Engine, s: Store, a: Attempt, now: int): Store {
    var scan := |s.scans|;
    match a
    case Refused => s
    case Unfetchable => s
    case RolledBack(_) => s
    case Empty(billable) => s.(scans := s.scans + [Scan(NoTargets, billable, None)])
    case AnalysisRaised(billable) =>
      s.(scans := s.scans + [Scan(Failed, billable, None)], charges := if billable then s.charges + [scan]
          else s.charges)
    case Done(billable, vs, files, crashed) =>
      var rows := Persist(e, s.rows, vs, scan, s.nextId, now);
      Store(if crashed then rows else ResolveStale(rows, Seen(e, vs), now),
            s.scans + [Scan(Completed, billable, Some(TargetScore(e.scoresPerFile, PerFile(e, vs), files)))],
            if billable then s.charges + [scan] else s.charges,
            s.nextId + |vs|)
  }

  // A run is a sequence of attempts, each with the rules it loaded and the time it wrote.
  datatype Timed = Timed(e: Engine, attempt: Attempt, now: int)

  function Run(s: Store, run: seq<Timed>): Store {
    if run == [] then s
    else
      var n := |run| - 1;
      Attempted(run[n].e, Run(s, run[..n]), run[n].attempt, run[n].now)
  }

  // ------------------------------------------------- which findings are open

  lemma {:induction false} PersistOpens(e: Engine, rows: Rows, vs: seq<Report>, scan: nat, id: nat, now: int)
    ensures Open(Persist(e, rows, vs, scan, id, now)) == Open(rows) + Seen(e, vs)
    ensures Persist(e, rows, vs, scan, id, now).Keys == rows.Keys + Seen(e, vs)
  {
    if vs != [] {
      var n := |vs| - 1;
      PersistOpens(e, rows, vs[..n], scan, id, now);
      var rest := Persist(e, rows, vs[..n], scan, id, now);
      if vs[n].slug in e.rules {
        assert Open(Upsert(e, rest, vs[n], scan, id + n, now)) == Open(rest) + {PrintOf(e, vs[n])};
      }
    }
  }

  lemma ResolveStaleLeavesSeen(rows: Rows, seen: set<string>, now: int)
    ensures Open(ResolveStale(rows, seen, now)) == Open(rows) * seen
  {
  }

  /** A scan that runs to its end leaves open exactly what it saw. */
  lemma GoodScanOpens(e: Engine, s: Store, billable: bool, vs: seq<Report>, files: seq<string>, now: int)
    ensures Open(Attempted(e, s, Done(billable, vs, files, false), now).rows) == Seen(e, vs)
  {
    PersistOpens(e, s.rows, vs, |s.scans|, s.nextId, now);
    ResolveStaleLeavesSeen(Persist(e, s.rows, vs, |s.scans|, s.nextId, now), Seen(e, vs), now);
  }

  /** What should be open: what the last scan that ran to its end saw, plus what scans that crashed after it saw. Each
      scan sees with the rules enabled when it ran. */
  function ExpectedOpen(start: set<string>, run: seq<Timed>): set<string> {
    if run == [] then start
    else
      var n := |run| - 1;
      var rest := ExpectedOpen(start, run[..n]);
      match run[n].attempt
      case Done(_, vs, _, crashed) => if crashed then rest + Seen(run[n].e, vs) else Seen(run[n].e, vs)
      case _ => rest
  }

  /** Over any run, the findings with no resolution time are exactly the expected ones. */
  lemma {:induction false} OpenIsWhatGoodScansSaw(s: Store, run: seq<Timed>)
    ensures Open(Run(s, run).rows) == ExpectedOpen(Open(s.rows), run)
  {
    if run != [] {
      var n := |run| - 1;
      OpenIsWhatGoodScansSaw(s, run[..n]);
      var mid := Run(s, run[..n]);
      match run[n].attempt
      case Done(_, vs, _, crashed) =>
        PersistOpens(run[n].e, mid.rows, vs, |mid.scans|, mid.nextId, run[n].now);
        var rows := Persist(run[n].e, mid.rows, vs, |mid.scans|, mid.nextId, run[n].now);
        ResolveStaleLeavesSeen(rows, Seen(run[n].e, vs), run[n].now);
      case _ =>
    }
  }

  /** After a successful scan and anything but another success, the open findings are exactly those it saw,
      if and only if it resolved its stale ones or there were none. */
  lemma OpenIsLastScanExactlyWhen(s: Store, run: seq<Timed>, last: Timed, after: seq<Timed>)
    requires last.attempt.Done? && forall t <- after :: !t.attempt.Done?
    ensures Open(Run(s, run + [last] + after).rows) == Seen(last.e, last.attempt.vs) <==>
            !last.attempt.crashed || Open(Run(s, run).rows) <= Seen(last.e, last.attempt.vs)
  {
    OpenIsWhatGoodScansSaw(s, run);
    OpenIsWhatGoodScansSaw(s, run + [last] + after);
    ExpectedAfter(Open(s.rows), run + [last], after);
    assert (run + [last])[..|run|] == run;
  }

  lemma {:induction false} ExpectedAfter(start: set<string>, run: seq<Timed>, after: seq<Timed>)
    requires forall t <- after :: !t.attempt.Done?
    ensures ExpectedOpen(start, run + after) == ExpectedOpen(start, run)
  {
    if after == [] {
      assert run + after == run;
    } else {
      var n := |after| - 1;
      ExpectedAfter(start, run, after[..n]);
      assert (run + after)[..|run| + n] == run + after[..n];
      assert after[n] in after;
    }
  }

  // ------------------------------------------------- rules that are removed or disabled

  /** Each finding is stored under a fingerprint of its own rule. */
  ghost predicate PrintsOwnRule(printer: Printer, rows: Rows) {
    forall fp <- rows :: exists locator, discriminator :: fp == printer(rows[fp].rule, locator, discriminator)
  }

  ghost predicate TellsRulesApart(printer: Printer) {
    forall r: nat, l, d, r': nat, l', d' :: printer(r, l, d) == printer(r', l', d') ==> r == r'
  }

  lemma {:induction false} PersistPrintsOwnRule(e: Engine, rows: Rows, vs: seq<Report>, scan: nat, id: nat, now: int)
    requires PrintsOwnRule(e.fingerprint, rows)
    ensures PrintsOwnRule(e.fingerprint, Persist(e, rows, vs, scan, id, now))
  {
    if vs != [] {
      PersistPrintsOwnRule(e, rows, vs[..|vs| - 1], scan, id, now);
    }
  }

  lemma AttemptPrintsOwnRule(e: Engine, s: Store, a: Attempt, now: int)
    requires PrintsOwnRule(e.fingerprint, s.rows)
    ensures PrintsOwnRule(e.fingerprint, Attempted(e, s, a, now).rows)
  {
    if a.Done? {
      PersistPrintsOwnRule(e, s.rows, a.vs, |s.scans|, s.nextId, now);
    }
  }

  lemma {:induction false} RunPrintsOwnRule(printer: Printer, s: Store, run: seq<Timed>)
    requires PrintsOwnRule(printer, s.rows) && forall t <- run :: t.e.fingerprint == printer
    ensures PrintsOwnRule(printer, Run(s, run).rows)
  {
    if run != [] {
      var n := |run| - 1;
      RunPrintsOwnRule(printer, s, run[..n]);
      AttemptPrintsOwnRule(run[n].e, Run(s, run[..n]), run[n].attempt, run[n].now);
    }
  }

  lemma {:induction false} SeenIsPrinted(e: Engine, vs: seq<Report>, fp: string)
    requires fp in Seen(e, vs)
    ensures exists v :: v in vs && v.slug in e.rules && fp == PrintOf(e, v)
  {
    var n := |vs| - 1;
    if fp in Seen(e, vs[..n]) {
      SeenIsPrinted(e, vs[..n], fp);
    } else {
      assert vs[n] in vs;
    }
  }

  /** After any run that ends with a good scan, every open finding's rule is one that scan had loaded: a finding whose
      rule was removed or disabled since is resolved, as one the user fixed is. */
  lemma OpenFindingsHaveEnabledRules(printer: Printer, s: Store, run: seq<Timed>, last: Timed)
    requires TellsRulesApart(printer) && PrintsOwnRule(printer, s.rows)
    requires forall t <- run + [last] :: t.e.fingerprint == printer
    requires last.attempt.Done? && !last.attempt.crashed
    ensures var rows := Run(s, run + [last]).rows;
            forall fp <- Open(rows) :: exists slug :: slug in last.e.rules && last.e.rules[slug].id == rows[fp].rule
  {
    var rows := Run(s, run + [last]).rows;
    RunPrintsOwnRule(printer, s, run + [last]);
    OpenIsLastScanExactlyWhen(s, run, last, []);
    assert run + [last] + [] == run + [last];
    forall fp | fp in Open(rows)
      ensures exists slug :: slug in last.e.rules && last.e.rules[slug].id == rows[fp].rule
    {
      SeenIsPrinted(last.e, last.attempt.vs, fp);
      var v :| v in last.attempt.vs && v.slug in last.e.rules && fp == PrintOf(last.e, v);
      assert last in run + [last];
    }
  }

  // ------------------------------------------------- what a finding keeps

  ghost predicate SameFinding(was: Row, row: Row) {
    row.id == was.id && row.createdAt == was.createdAt && row.ignoredAt == was.ignoredAt && row.rule == was.rule
  }

  ghost predicate KeepsHistory(rows: Rows, rows': Rows) {
    forall fp <- rows :: fp in rows' && SameFinding(rows[fp], rows'[fp])
  }

  lemma {:induction false} PersistKeepsHistory(e: Engine, rows: Rows, vs: seq<Report>, scan: nat, id: nat, now: int)
    ensures KeepsHistory(rows, Persist(e, rows, vs, scan, id, now))
  {
    if vs != [] {
      PersistKeepsHistory(e, rows, vs[..|vs| - 1], scan, id, now);
    }
  }

  lemma AttemptKeepsHistory(s: Store, t: Timed)
    ensures KeepsHistory(s.rows, Attempted(t.e, s, t.attempt, t.now).rows)
  {
    if t.attempt.Done? {
      PersistKeepsHistory(t.e, s.rows, t.attempt.vs, |s.scans|, s.nextId, t.now);
    }
  }

  /** No run removes a finding or changes its id, rule, creation time or ignore mark. */
  lemma {:induction false} RunKeepsHistory(s: Store, run: seq<Timed>)
    ensures KeepsHistory(s.rows, Run(s, run).rows)
  {
    if run != [] {
      var n := |run| - 1;
      var mid := Run(s, run[..n]);
      RunKeepsHistory(s, run[..n]);
      AttemptKeepsHistory(mid, run[n]);
    }
  }

  // ------------------------------------------------- what a finding says

  /** The report is of a known rule and carries this fingerprint. */
  ghost predicate Carries(e: Engine, v: Report, fp: string) {
    v.slug in e.rules && e.fingerprint(e.rules[v.slug].id, v.locator, v.discriminator) == fp
  }

  ghost predicate LastReport(e: Engine, vs: seq<Report>, i: nat, fp: string) {
    i < |vs| && Carries(e, vs[i], fp) && forall j | i < j < |vs| :: !Carries(e, vs[j], fp)
  }

  ghost predicate FirstReport(e: Engine, vs: seq<Report>, i: nat, fp: string) {
    i < |vs| && Carries(e, vs[i], fp) && forall j | 0 <= j < i :: !Carries(e, vs[j], fp)
  }

  /** A scan has seen a fingerprint exactly when one of its reports carries it. */
  lemma {:induction false} SeenExactlyWhenCarried(e: Engine, vs: seq<Report>, fp: string)
    ensures fp in Seen(e, vs) <==> exists i :: 0 <= i < |vs| && Carries(e, vs[i], fp)
  {
    if vs != [] {
      var n := |vs| - 1;
      SeenExactlyWhenCarried(e, vs[..n], fp);
      if i :| 0 <= i < n && Carries(e, vs[..n][i], fp) {
        assert Carries(e, vs[i], fp);
      }
      if i :| 0 <= i < |vs| && Carries(e, vs[i], fp) {
        assert i < n ==> Carries(e, vs[..n][i], fp);
      }
    }
  }

  /** The row says what the report says, and names the scan. */
  ghost predicate Says(row: Row, v: Report, scan: nat) {
    row.severity == v.severity && row.file == v.file && row.message == v.message && row.scan == scan
  }

  ghost predicate SaysTheSame(row: Row, was: Row) {
    row.severity == was.severity && row.file == was.file && row.message == was.message && row.scan == was.scan
  }

  lemma {:induction false} UnreportedStays(e: Engine, rows: Rows, vs: seq<Report>, scan: nat, id: nat, now: int,
                                           fp: string)
    requires forall j | 0 <= j < |vs| :: !Carries(e, vs[j], fp)
    ensures Get(Persist(e, rows, vs, scan, id, now), fp) == Get(rows, fp)
  {
    if vs != [] {
      UnreportedStays(e, rows, vs[..|vs| - 1], scan, id, now, fp);
    }
  }

  /** A finding reported by a scan ends with what the last report of it says, open, whatever was stored before. */
  lemma {:induction false} LastReportIsStored(e: Engine, rows: Rows, vs: seq<Report>, scan: nat, id: nat, now: int,
                                              i: nat, fp: string)
    requires LastReport(e, vs, i, fp)
    ensures var after := Persist(e, rows, vs, scan, id, now);
            fp in after && Says(after[fp], vs[i], scan) && after[fp].resolvedAt == None
  {
    var n := |vs| - 1;
    if i < n {
      LastReportIsStored(e, rows, vs[..n], scan, id, now, i, fp);
    }
  }

  /** The first sighting stores the rule, the time and a new id, open and not ignored. */
  lemma {:induction false} FirstReportIsInserted(e: Engine, rows: Rows, vs: seq<Report>, scan: nat, id: nat, now: int,
                                                 i: nat, fp: string)
    requires FirstReport(e, vs, i, fp) && fp !in rows
    ensures var after := Persist(e, rows, vs, scan, id, now);
            && fp in after && after[fp].rule == e.rules[vs[i].slug].id && after[fp].id == id + i
            && after[fp].createdAt == now && after[fp].ignoredAt == None && after[fp].status == StatusOpen
  {
    var n := |vs| - 1;
    if i < n {
      FirstReportIsInserted(e, rows, vs[..n], scan, id, now, i, fp);
    } else {
      UnreportedStays(e, rows, vs[..n], scan, id, now, fp);
    }
  }

  ghost predicate Sees(t: Timed, fp: string) {
    t.attempt.Done? && exists i :: 0 <= i < |t.attempt.vs| && Carries(t.e, t.attempt.vs[i], fp)
  }

  /** Attempt n saw the finding and no later one did. */
  ghost predicate LastSighting(run: seq<Timed>, n: nat, fp: string) {
    n < |run| && Sees(run[n], fp) && forall m | n < m < |run| :: !Sees(run[m], fp)
  }

  lemma UnseenSaysTheSame(s: Store, t: Timed, fp: string)
    requires !Sees(t, fp) && fp in s.rows
    ensures var after := Attempted(t.e, s, t.attempt, t.now).rows;
            fp in after && SaysTheSame(after[fp], s.rows[fp])
  {
    if t.attempt.Done? {
      UnreportedStays(t.e, s.rows, t.attempt.vs, |s.scans|, s.nextId, t.now, fp);
    }
  }

  /** Over any run each finding says what the last report in the last scan that saw it says, under that scan. */
  lemma {:induction false} RowIsLastReport(s: Store, run: seq<Timed>, n: nat, i: nat, fp: string)
    requires LastSighting(run, n, fp) && LastReport(run[n].e, run[n].attempt.vs, i, fp)
    ensures fp in Run(s, run).rows
    ensures Says(Run(s, run).rows[fp], run[n].attempt.vs[i], |Run(s, run[..n]).scans|)
  {
    var last := |run| - 1;
    var mid, t := Run(s, run[..last]), run[last];
    if n < last {
      assert run[..last][..n] == run[..n];
      RowIsLastReport(s, run[..last], n, i, fp);
      UnseenSaysTheSame(mid, t, fp);
    } else {
      LastReportIsStored(t.e, mid.rows, t.attempt.vs, |mid.scans|, mid.nextId, t.now, i, fp);
    }
  }

  /** One that no scan of the run saw says what it said before. */
  lemma {:induction false} UnseenRunSaysTheSame(s: Store, run: seq<Timed>, fp: string)
    requires fp in s.rows && forall n | 0 <= n < |run| :: !Sees(run[n], fp)
    ensures fp in Run(s, run).rows && SaysTheSame(Run(s, run).rows[fp], s.rows[fp])
  {
    if run != [] {
      UnseenRunSaysTheSame(s, run[..|run| - 1], fp);
      UnseenSaysTheSame(Run(s, run[..|run| - 1]), run[|run| - 1], fp);
    }
  }

  lemma {:induction false} UnseenRunStoresNothing(s: Store, run: seq<Timed>, fp: string)
    requires fp !in s.rows && forall n | 0 <= n < |run| :: !Sees(run[n], fp)
    ensures fp !in Run(s, run).rows
  {
    if run != [] {
      var mid, t := Run(s, run[..|run| - 1]), run[|run| - 1];
      UnseenRunStoresNothing(s, run[..|run| - 1], fp);
      if t.attempt.Done? {
        UnreportedStays(t.e, mid.rows, t.attempt.vs, |mid.scans|, mid.nextId, t.now, fp);
      }
    }
  }

  /** A finding new to a run has the rule of its first report ever and the time of the scan that made it, and is not
      marked ignored, however long the run goes on. */
  lemma {:induction false} RowRemembersFirstReport(s: Store, run: seq<Timed>, n: nat, i: nat, fp: string)
    requires fp !in s.rows && n < |run| && Sees(run[n], fp) && forall m | 0 <= m < n :: !Sees(run[m], fp)
    requires FirstReport(run[n].e, run[n].attempt.vs, i, fp)
    ensures fp in Run(s, run).rows
    ensures var row := Run(s, run).rows[fp];
            && row.rule == run[n].e.rules[run[n].attempt.vs[i].slug].id
            && row.createdAt == run[n].now && row.ignoredAt == None
  {
    var last := |run| - 1;
    var mid, t := Run(s, run[..last]), run[last];
    if n < last {
      RowRemembersFirstReport(s, run[..last], n, i, fp);
      AttemptKeepsHistory(mid, t);
    } else {
      UnseenRunStoresNothing(s, run[..last], fp);
      FirstReportIsInserted(t.e, mid.rows, t.attempt.vs, |mid.scans|, mid.nextId, t.now, i, fp);
    }
  }

  // ------------------------------------------------- status against resolution time

  /** The two columns tell the same story. A finding marked ignored keeps that status whatever its resolution time. */
  predicate Agrees(row: Row) {
    row.status == Ignored || (row.status == StatusResolved <==> row.resolvedAt.Some?)
  }

  predicate AllAgree(rows: Rows) {
    forall fp <- rows :: Agrees(rows[fp])
  }

  /** The scan reports a finding that is resolved when the report comes. */
  predicate Reopens(e: Engine, rows: Rows, vs: seq<Report>) {
    exists fp :: fp in Seen(e, vs) && fp in rows && rows[fp].resolvedAt.Some? && rows[fp].status != Ignored
  }

  lemma {:induction false} PersistOneRow(e: Engine, rows: Rows, vs: seq<Report>, scan: nat, id: nat, now: int,
                                         fp: string)
    ensures var after := Persist(e, rows, vs, scan, id, now);
            && (fp in after <==> fp in rows || fp in Seen(e, vs))
            && (fp in after ==> after[fp].status == if fp in rows then rows[fp].status else StatusOpen)
            && (fp in after ==> after[fp].resolvedAt == if fp in Seen(e, vs) then None else rows[fp].resolvedAt)
  {
    if vs != [] {
      PersistOneRow(e, rows, vs[..|vs| - 1], scan, id, now, fp);
    }
  }

  /** What one attempt does to the two columns of one finding. */
  lemma AttemptOneRow(e: Engine, s: Store, a: Attempt, now: int, fp: string)
    ensures var after := Attempted(e, s, a, now).rows;
            && (fp in s.rows ==> fp in after)
            && (fp in after && fp !in s.rows ==>
                  a.Done? && after[fp].status == StatusOpen && after[fp].resolvedAt.None?)
            && (fp in s.rows && !a.Done? ==> after[fp] == s.rows[fp])
            && (fp in s.rows && a.Done? && fp in Seen(e, a.vs) ==>
                  after[fp].status == s.rows[fp].status && after[fp].resolvedAt.None?)
            && (fp in s.rows && a.Done? && fp !in Seen(e, a.vs) ==>
                  if a.crashed || s.rows[fp].resolvedAt.Some?
                  then after[fp].status == s.rows[fp].status && after[fp].resolvedAt == s.rows[fp].resolvedAt
                  else
                    && after[fp].resolvedAt == Some(now)
                    && after[fp].status == (
                         if s.rows[fp].status in {StatusOpen, FixInProgress} then StatusResolved
                         else s.rows[fp].status))
  {
    if a.Done? {
      PersistOneRow(e, s.rows, a.vs, |s.scans|, s.nextId, now, fp);
    }
  }

  /** The exact condition, scan by scan: status and resolution time still agree after a scan exactly when it reported no
      finding that was resolved. */
  lemma StatusAgreesExactlyWhenNothingReopens(e: Engine, s: Store, a: Attempt, now: int)
    requires AllAgree(s.rows)
    ensures AllAgree(Attempted(e, s, a, now).rows) <==> !(a.Done? && Reopens(e, s.rows, a.vs))
  {
    var after := Attempted(e, s, a, now).rows;
    forall fp | fp in after
      ensures Agrees(after[fp]) <==>
              !(a.Done? && fp in Seen(e, a.vs) && fp in s.rows && s.rows[fp].resolvedAt.Some? &&
                  s.rows[fp].status != Ignored)
    {
      AttemptOneRow(e, s, a, now, fp);
    }
    if a.Done? && Reopens(e, s.rows, a.vs) {
      var fp :| fp in Seen(e, a.vs) && fp in s.rows && s.rows[fp].resolvedAt.Some? && s.rows[fp].status != Ignored;
      AttemptOneRow(e, s, a, now, fp);
      assert !Agrees(after[fp]);
    }
  }

  ghost predicate EverResolved(s: Store, run: seq<Timed>, fp: string) {
    exists n: nat :: n <= |run| && ResolvedAt(s, run, n, fp)
  }

  ghost predicate ResolvedAt(s: Store, run: seq<Timed>, n: nat, fp: string)
    requires n <= |run|
  {
    fp in Run(s, run[..n]).rows && Run(s, run[..n]).rows[fp].resolvedAt.Some?
  }

  lemma EverResolvedOneMore(s: Store, run: seq<Timed>, fp: string)
    requires run != []
    ensures EverResolved(s, run, fp) <==>
            || EverResolved(s, run[..|run| - 1], fp)
            || (fp in Run(s, run).rows && Run(s, run).rows[fp].resolvedAt.Some?)
  {
    var front := run[..|run| - 1];
    forall n: nat | n < |run| ensures ResolvedAt(s, run, n, fp) <==> ResolvedAt(s, front, n, fp) {
      assert run[..n] == front[..n];
    }
    assert run[..|run|] == run;
    if EverResolved(s, run, fp) {
      var n: nat :| n <= |run| && ResolvedAt(s, run, n, fp);
      assert n < |run| ==> ResolvedAt(s, front, n, fp);
    }
    if EverResolved(s, front, fp) {
      var n: nat :| n <= |front| && ResolvedAt(s, front, n, fp);
      assert ResolvedAt(s, run, n, fp);
    }
    if fp in Run(s, run).rows && Run(s, run).rows[fp].resolvedAt.Some? {
      assert ResolvedAt(s, run, |run|, fp);
    }
  }

  lemma {:induction false} NeverStoredNeverResolved(s: Store, run: seq<Timed>, fp: string)
    requires fp !in Run(s, run).rows
    ensures !EverResolved(s, run, fp)
  {
    if run == [] {
      assert run[..0] == run;
    } else {
      AttemptOneRow(run[|run| - 1].e, Run(s, run[..|run| - 1]), run[|run| - 1].attempt, run[|run| - 1].now, fp);
      NeverStoredNeverResolved(s, run[..|run| - 1], fp);
      EverResolvedOneMore(s, run, fp);
    }
  }

  /** The status column remembers: over any run a finding says resolved exactly when some scan ever resolved it. */
  lemma {:induction false} StatusSaysEverResolved(s: Store, run: seq<Timed>, fp: string)
    requires AllAgree(s.rows) && fp in Run(s, run).rows && Run(s, run).rows[fp].status != Ignored
    ensures Run(s, run).rows[fp].status == StatusResolved <==> EverResolved(s, run, fp)
  {
    if run == [] {
      assert run[..0] == run;
      assert EverResolved(s, run, fp) <==> ResolvedAt(s, run, 0, fp);
    } else {
      var n := |run| - 1;
      var front, last := run[..n], run[n];
      AttemptOneRow(last.e, Run(s, front), last.attempt, last.now, fp);
      EverResolvedOneMore(s, run, fp);
      if fp in Run(s, front).rows {
        StatusSaysEverResolved(s, front, fp);
        assert front[..|front|] == front;
        assert ResolvedAt(s, front, |front|, fp) <==> Run(s, front).rows[fp].resolvedAt.Some?;
      } else {
        NeverStoredNeverResolved(s, front, fp);
      }
    }
  }

  /** The same for whole runs: after any run status and resolution time agree exactly when no finding that is open, and
      not ignored, was ever resolved on the way. */
  lemma RunAgreesExactlyWhenNothingOpenWasResolved(s: Store, run: seq<Timed>)
    requires AllAgree(s.rows)
    ensures AllAgree(Run(s, run).rows) <==>
            forall fp <- Open(Run(s, run).rows) :: Run(s, run).rows[fp].status == Ignored || !EverResolved(s, run, fp)
  {
    var rows := Run(s, run).rows;
    forall fp | fp in rows
      ensures Agrees(rows[fp]) <==> rows[fp].resolvedAt.Some? || rows[fp].status == Ignored || !EverResolved(s, run, fp)
    {
      if rows[fp].status != Ignored {
        StatusSaysEverResolved(s, run, fp);
        if rows[fp].resolvedAt.Some? {
          assert run[..|run|] == run;
          assert ResolvedAt(s, run, |run|, fp);
        }
      }
    }
  }

  /** A scan that ran to its end without seeing the finding. */
  ghost predicate Misses(t: Timed, fp: string) {
    t.attempt.Done? && !t.attempt.crashed && !Sees(t, fp)
  }

  ghost predicate UnseenUnmissed(run: seq<Timed>, lo: int, hi: int, fp: string) {
    forall m | 0 <= m < |run| && lo < m < hi :: !Sees(run[m], fp) && !Misses(run[m], fp)
  }

  lemma OneScanResolves(s: Store, t: Timed, fp: string)
    requires fp in s.rows
    ensures var was, after := s.rows[fp].resolvedAt, Attempted(t.e, s, t.attempt, t.now).rows;
            && fp in after
            && after[fp].resolvedAt == (if Sees(t, fp) then None
                 else if Misses(t, fp) && was.None? then Some(t.now) else was)
  {
    AttemptOneRow(t.e, s, t.attempt, t.now, fp);
    if t.attempt.Done? {
      SeenExactlyWhenCarried(t.e, t.attempt.vs, fp);
    }
  }

  /** Over any run a finding last seen by attempt n stays open until the first later scan that runs to its end, and
      then carries the time of that scan for good. */
  lemma {:induction false} ResolvedByFirstScanMissingIt(s: Store, run: seq<Timed>, n: nat, m: nat, fp: string)
    requires LastSighting(run, n, fp) && n < m <= |run| && UnseenUnmissed(run, n, m, fp)
    requires m < |run| ==> Misses(run[m], fp)
    ensures fp in Run(s, run).rows
    ensures Run(s, run).rows[fp].resolvedAt == if m < |run| then Some(run[m].now) else None
  {
    var last := |run| - 1;
    var mid, t := Run(s, run[..last]), run[last];
    if n < last {
      ResolvedByFirstScanMissingIt(s, run[..last], n, if m < last then m else last, fp);
      OneScanResolves(mid, t, fp);
    } else {
      var i := LastOne(t.e, t.attempt.vs, fp);
      RowIsLastReport(s, run, n, i, fp);
      SeenExactlyWhenCarried(t.e, t.attempt.vs, fp);
      AttemptOneRow(t.e, mid, t.attempt, t.now, fp);
    }
  }

  lemma LastOne(e: Engine, vs: seq<Report>, fp: string) returns (i: nat)
    requires exists j :: 0 <= j < |vs| && Carries(e, vs[j], fp)
    ensures LastReport(e, vs, i, fp)
  {
    i := |vs| - 1;
    while !Carries(e, vs[i], fp)
      invariant i < |vs| && forall j | i < j < |vs| :: !Carries(e, vs[j], fp)
      invariant exists j :: 0 <= j <= i && Carries(e, vs[j], fp)
      decreases i
    {
      i := i - 1;
    }
  }

  lemma RunSplits(s: Store, run: seq<Timed>, t: Timed)
    ensures Run(s, run + [t]) == Attempted(t.e, Run(s, run), t.attempt, t.now)
  {
    assert (run + [t])[..|run|] == run;
  }

  // A scan of these files that ran to its end and saw these violations.
  function Finished(e: Engine, vs: seq<Report>, files: seq<string>, now: int): Timed {
    Timed(e, Done(true, vs, files, false), now)
  }

  /** The status column is not what reopening writes. Three scans of a new target over the same files, the first and the
      last reporting one finding that the second does not: at the end it is open by its resolution time and still says
      resolved. */
  lemma ReopenedStillSaysResolved(e: Engine, v: Report, files: seq<string>, t: int, u: int, w: int)
    requires v.slug in e.rules && v.file in files
    ensures var fp, start := PrintOf(e, v), Store(map[], [], [], 0);
            var first, second := Finished(e, [v], files, t), Finished(e, [], files, u);
            var third := Finished(e, [v], files, w);
            var gone, back := Run(start, [first, second]).rows, Run(start, [first, second, third]).rows;
            && fp in gone && gone[fp].resolvedAt == Some(u) && gone[fp].status == StatusResolved
            && fp in back && back[fp].resolvedAt == None && back[fp].status == StatusResolved
  {
    var fp, start := PrintOf(e, v), Store(map[], [], [], 0);
    var first, second, third := Finished(e, [v], files, t), Finished(e, [], files, u), Finished(e, [v], files, w);
    assert [first] == [] + [first] && [first, second] == [first] + [second];
    assert [first, second, third] == [first, second] + [third];
    RunSplits(start, [], first);
    RunSplits(start, [first], second);
    RunSplits(start, [first, second], third);
    assert [v][..0] == [] && Seen(e, []) == {} && Seen(e, [v]) == {fp};
    AttemptOneRow(e, start, first.attempt, t, fp);
    PersistOpens(e, start.rows, [v], 0, 0, t);
    AttemptOneRow(e, Run(start, [first]), second.attempt, u, fp);
    AttemptOneRow(e, Run(start, [first, second]), third.attempt, w, fp);
  }

  // ------------------------------------------------- what a scan is graded on

  /** What the known reports of one file cost, in the order they came. */
  function FileReports(e: Engine, vs: seq<Report>, file: string): seq<Violation> {
    if vs == [] then []
    else
      var n := |vs| - 1;
      FileReports(e, vs[..n], file) +
      if vs[n].file == file && vs[n].slug in e.rules then [Violation(vs[n].severity, e.rules[vs[n].slug].weight)]
      else []
  }

  function KnownReports(e: Engine, vs: seq<Report>): seq<Violation> {
    if vs == [] then []
    else
      var n := |vs| - 1;
      KnownReports(e, vs[..n]) +
      if vs[n].slug in e.rules then [Violation(vs[n].severity, e.rules[vs[n].slug].weight)] else []
  }

  lemma {:induction false} AddToLooksUp(groups: seq<Group>, file: string, v: Violation, other: string)
    ensures Lookup(AddTo(groups, file, v), other) == Lookup(groups, other) + if other == file then [v] else []
  {
    if groups != [] && groups[0].name != file {
      AddToLooksUp(groups[1..], file, v, other);
    }
  }

  lemma {:induction false} AddToCosts(groups: seq<Group>, file: string, v: Violation)
    ensures Penalty(Pool(AddTo(groups, file, v))) == Penalty(Pool(groups)) + Penalty([v])
  {
    if groups == [] {
      assert Pool(AddTo(groups, file, v)) == [v];
    } else {
      PenaltyOfConcat(groups[0].violations, Pool(groups[1..]));
      if groups[0].name == file {
        PenaltyOfConcat(groups[0].violations, [v]);
        PenaltyOfConcat(groups[0].violations + [v], Pool(groups[1..]));
      } else {
        AddToCosts(groups[1..], file, v);
        PenaltyOfConcat(groups[0].violations, Pool(AddTo(groups[1..], file, v)));
      }
    }
  }

  lemma {:induction false} PerFileHoldsReports(e: Engine, vs: seq<Report>, file: string)
    ensures Lookup(PerFile(e, vs), file) == FileReports(e, vs, file)
    ensures Penalty(Pool(PerFile(e, vs))) == Penalty(KnownReports(e, vs))
  {
    if vs != [] {
      var n := |vs| - 1;
      PerFileHoldsReports(e, vs[..n], file);
      if vs[n].slug in e.rules {
        var v := Violation(vs[n].severity, e.rules[vs[n].slug].weight);
        AddToLooksUp(PerFile(e, vs[..n]), vs[n].file, v, file);
        AddToCosts(PerFile(e, vs[..n]), vs[n].file, v);
        PenaltyOfConcat(KnownReports(e, vs[..n]), [v]);
        assert KnownReports(e, vs) == KnownReports(e, vs[..n]) + [v];
      } else {
        assert KnownReports(e, vs) == KnownReports(e, vs[..n]);
      }
    }
  }

  /** The sum over the fetched files of the score each would have alone. */
  function FileScores(e: Engine, vs: seq<Report>, files: seq<string>): real {
    if files == [] then 0.0
    else
      FileScores(e, vs, files[..|files| - 1]) + ComputeScore(FileReports(e, vs, files[|files| - 1]), [])
  }

  lemma {:induction false} FileScoresAre(e: Engine, vs: seq<Report>, files: seq<string>)
    ensures OwnScores(FileGroups(PerFile(e, vs), files)) == FileScores(e, vs, files)
  {
    if files != [] {
      var n := |files| - 1;
      FileScoresAre(e, vs, files[..n]);
      PerFileHoldsReports(e, vs, files[n]);
      assert FileGroups(PerFile(e, vs), files)[..n] == FileGroups(PerFile(e, vs), files[..n]);
    }
  }

  /** The score of a scan: the mean over all fetched files of the score each has for its own known reports alone, or the
      score of all known reports together. */
  lemma ScanScoreIs(e: Engine, vs: seq<Report>, files: seq<string>)
    requires files != []
    ensures TargetScore(true, PerFile(e, vs), files) == FileScores(e, vs, files) / |files| as real
    ensures TargetScore(false, PerFile(e, vs), files) == ComputeScore(KnownReports(e, vs), [])
  {
    PooledScoreIs(e, vs, files);
    FileMeanIs(e, vs, files);
  }

  lemma PooledScoreIs(e: Engine, vs: seq<Report>, files: seq<string>)
    ensures TargetScore(false, PerFile(e, vs), files) == ComputeScore(KnownReports(e, vs), [])
  {
    PerFileHoldsReports(e, vs, "");
  }

  lemma FileMeanIs(e: Engine, vs: seq<Report>, files: seq<string>)
    requires files != []
    ensures TargetScore(true, PerFile(e, vs), files) == FileScores(e, vs, files) / |files| as real
  {
    FileScoresAre(e, vs, files);
    GroupMeanIsMean(FileGroups(PerFile(e, vs), files));
  }

  // ------------------------------------------------- charges

  predicate Chargeable(scan: Scan) {
    scan.billable && scan.status != NoTargets
  }

  function CountChargeable(scans: seq<Scan>): nat {
    if scans == [] then 0
    else CountChargeable(scans[..|scans| - 1]) + if Chargeable(scans[|scans| - 1]) then 1 else 0
  }

  /** What an attempt records: nothing unless it got as far as its record and kept it, else one scan with its outcome,
      its billability and, if it completed, its score; and one charge, naming that scan, if it is billable and was
      analysed. */
  lemma AttemptRecords(e: Engine, s: Store, a: Attempt, now: int)
    ensures var t := Attempted(e, s, a, now);
            && (a.Refused? || a.Unfetchable? || a.RolledBack? ==> t == s)
            && (a.Empty? ==> t == Store(s.rows, s.scans + [Scan(NoTargets, a.billable, None)], s.charges, s.nextId))
            && (a.AnalysisRaised? ==>
                  t.rows == s.rows && t.scans == s.scans + [Scan(Failed, a.billable, None)] && t.nextId == s.nextId)
            && (a.Done? ==>
                  && t.scans == s.scans + [Scan(Completed, a.billable,
                                                Some(TargetScore(e.scoresPerFile, PerFile(e, a.vs), a.files)))]
                  && t.nextId == s.nextId + |a.vs|)
            && (a.AnalysisRaised? || a.Done? ==>
                  t.charges == s.charges + if a.billable then [|s.scans|] else [])
  {
  }

  /** Each charge names its own finished scan. */
  ghost predicate ChargesMatch(s: Store) {
    && |s.charges| == CountChargeable(s.scans)
    && (forall i | 0 <= i < |s.charges| :: s.charges[i] < |s.scans| && Chargeable(s.scans[s.charges[i]]))
    && (forall i, j | 0 <= i < j < |s.charges| :: s.charges[i] < s.charges[j])
  }

  lemma AttemptKeepsCharges(e: Engine, s: Store, a: Attempt, now: int)
    requires ChargesMatch(s)
    ensures ChargesMatch(Attempted(e, s, a, now))
  {
    var t := Attempted(e, s, a, now);
    if |t.scans| > |s.scans| {
      assert t.scans[..|s.scans|] == s.scans;
    }
  }

  /** Over any run of scans, charges and committed billable scans that completed or failed are in one-to-one order. */
  lemma {:induction false} ChargesAreFinishedScans(run: seq<Timed>)
    ensures ChargesMatch(Run(Store(map[], [], [], 0), run))
  {
    if run != [] {
      var n := |run| - 1;
      ChargesAreFinishedScans(run[..n]);
      AttemptKeepsCharges(run[n].e, Run(Store(map[], [], [], 0), run[..n]), run[n].attempt, run[n].now);
    }
  }
}
