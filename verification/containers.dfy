/** The container usage accumulator: readings and Docker events folded in, sweep after sweep, into one entry per
    container name. */
module Containers {
  import opened Wrappers

  datatype Usage = Usage(
    id: string,
    peakRss: Option<real>,
    peakPids: Option<real>,
    throttled: Option<real>,
    oomKilled: bool,
    exitCode: Option<int>,
    samples: nat)

  type UsageMap = map<string, Usage>

  /** A `docker stats` line with what the kernel's own counters say about the container at that moment. */
  datatype Sample = Sample(
    name: string,
    id: string,
    statRss: Option<real>,
    statPids: Option<real>,
    kernelRss: Option<real>,
    kernelPids: Option<real>,
    kernelThrottling: Option<real>)

  datatype Event = Event(name: string, action: string, exitCode: Option<int>)

  function Blank(id: string): Usage {
    Usage(id, None, None, None, false, None, 0)
  }

  function Either(first: Option<real>, second: Option<real>): Option<real> {
    if first.Some? then first else second
  }

  function Highest(current: Option<real>, candidate: Option<real>): Option<real> {
    if candidate.None? then current
    else if current.None? then candidate
    else if current.value < candidate.value then candidate else current
  }

  function Entry(u: UsageMap, name: string, id: string): Usage {
    if name in u then u[name] else Blank(id)
  }

  function WithSample(u: UsageMap, s: Sample): UsageMap {
    var entry := Entry(u, s.name, s.id);
    u[s.name := entry.(
      id := s.id,
      peakRss := Highest(entry.peakRss, Reading(s, Rss)),
      peakPids := Highest(entry.peakPids, Reading(s, Pids)),
      throttled := Highest(entry.throttled, Reading(s, Throttling)),
      samples := entry.samples + 1)]
  }

  function WithEvent(u: UsageMap, e: Event): UsageMap {
    var entry := Entry(u, e.name, "");
    u[e.name := entry.(
      oomKilled := entry.oomKilled || e.action == "oom",
      exitCode := if Exits(e) then e.exitCode else entry.exitCode)]
  }

  predicate Exits(e: Event) {
    e.action == "die" && e.exitCode.Some?
  }

  function WithSamples(u: UsageMap, samples: seq<Sample>): UsageMap {
    if samples == [] then u
    else WithSample(WithSamples(u, samples[..|samples| - 1]), samples[|samples| - 1])
  }

  function WithEvents(u: UsageMap, events: seq<Event>): UsageMap {
    if events == [] then u
    else WithEvent(WithEvents(u, events[..|events| - 1]), events[|events| - 1])
  }

  function Accumulated(u: UsageMap, samples: seq<Sample>, events: seq<Event>): UsageMap {
    WithEvents(WithSamples(u, samples), events)
  }

  // ---- reading an entry --------------------------------------------------------------------------------------------

  datatype Metric = Rss | Pids | Throttling

  /** The kernel's own mark is preferred to the momentary reading. */
  function Reading(s: Sample, metric: Metric): Option<real> {
    match metric
    case Rss => Either(s.kernelRss, s.statRss)
    case Pids => Either(s.kernelPids, s.statPids)
    case Throttling => s.kernelThrottling
  }

  function Peak(u: UsageMap, name: string, metric: Metric): Option<real> {
    var entry := Entry(u, name, "");
    match metric
    case Rss => entry.peakRss
    case Pids => entry.peakPids
    case Throttling => entry.throttled
  }

  predicate OomKilled(u: UsageMap, name: string) {
    Entry(u, name, "").oomKilled
  }

  function ExitCode(u: UsageMap, name: string): Option<int> {
    Entry(u, name, "").exitCode
  }

  // ---- what a log of events says -----------------------------------------------------------------------------------

  predicate OomIn(events: seq<Event>, name: string) {
    exists e :: e in events && e.name == name && e.action == "oom"
  }

  /** The exit code of the last death of `name` that carries one. */
  function LastExit(events: seq<Event>, name: string): Option<int> {
    if events == [] then None
    else
      var e := events[|events| - 1];
      if e.name == name && e.action == "die" && e.exitCode.Some? then e.exitCode
      else LastExit(events[..|events| - 1], name)
  }

  lemma {:induction false} SomeExitExactlyWhen(events: seq<Event>, name: string)
    ensures LastExit(events, name).Some? <==>
              exists e :: e in events && e.name == name && e.action == "die" && e.exitCode.Some?
  {
    if events != [] {
      var front, e := events[..|events| - 1], events[|events| - 1];
      assert events == front + [e];
      SomeExitExactlyWhen(front, name);
    }
  }

  // ---- one fold -----------------------------------------------------------------------------------------------------

  lemma {:induction false} EventsSetFlags(u: UsageMap, events: seq<Event>, name: string)
    ensures var after := WithEvents(u, events);
            && (OomKilled(after, name) <==> OomKilled(u, name) || OomIn(events, name))
            && ExitCode(after, name) ==
                 (if LastExit(events, name).Some? then LastExit(events, name) else ExitCode(u, name))
  {
    if events != [] {
      var front, e := events[..|events| - 1], events[|events| - 1];
      assert events == front + [e];
      EventsSetFlags(u, front, name);
    }
  }

  lemma {:induction false} EventsKeepPeaks(u: UsageMap, events: seq<Event>, name: string)
    ensures forall m :: Peak(WithEvents(u, events), name, m) == Peak(u, name, m)
    ensures Entry(WithEvents(u, events), name, "").samples == Entry(u, name, "").samples
  {
    if events != [] {
      EventsKeepPeaks(u, events[..|events| - 1], name);
    }
  }

  lemma {:induction false} SamplesKeepFlags(u: UsageMap, samples: seq<Sample>, name: string)
    ensures OomKilled(WithSamples(u, samples), name) == OomKilled(u, name)
    ensures ExitCode(WithSamples(u, samples), name) == ExitCode(u, name)
  {
    if samples != [] {
      SamplesKeepFlags(u, samples[..|samples| - 1], name);
    }
  }

  /** Folding a window in changes no terminal flag of a container exactly when it tells nothing that is not recorded:
      an out-of-memory kill only if there already is one, and a last exit code only if it is the recorded one. */
  lemma ReplayIsHarmlessExactlyWhen(u: UsageMap, samples: seq<Sample>, events: seq<Event>, name: string)
    ensures var after := Accumulated(u, samples, events);
            OomKilled(after, name) == OomKilled(u, name) && ExitCode(after, name) == ExitCode(u, name)
            <==>
            && (OomIn(events, name) ==> OomKilled(u, name))
            && (LastExit(events, name).Some? ==> LastExit(events, name) == ExitCode(u, name))
  {
    SamplesKeepFlags(u, samples, name);
    EventsSetFlags(WithSamples(u, samples), events, name);
  }

  // ---- any run of sweeps --------------------------------------------------------------------------------------------

  /** One tick of the collector: a sweep folded into the file, or the file lost and the next sweep starting over. */
  datatype Tick = Swept(samples: seq<Sample>, events: seq<Event>) | Lost

  function After(ticks: seq<Tick>): UsageMap {
    if ticks == [] then map[]
    else
      match ticks[|ticks| - 1]
      case Swept(samples, events) => Accumulated(After(ticks[..|ticks| - 1]), samples, events)
      case Lost => map[]
  }

  /** The windows of the run show only events of the log: any of them, in any order, any number of times. */
  predicate WindowsOf(ticks: seq<Tick>, log: seq<Event>) {
    forall t, e :: t in ticks && t.Swept? && e in t.events ==> e in log
  }

  /** Before the final sweep, every flag is one that some event of the log sets. */
  lemma {:induction false} FlagsComeFromTheLog(ticks: seq<Tick>, log: seq<Event>, name: string)
    requires WindowsOf(ticks, log)
    ensures OomKilled(After(ticks), name) ==> OomIn(log, name)
    ensures ExitCode(After(ticks), name).Some? ==> LastExit(log, name).Some?
  {
    if ticks != [] {
      var front, t := ticks[..|ticks| - 1], ticks[|ticks| - 1];
      assert t in ticks && forall f :: f in front ==> f in ticks;
      FlagsComeFromTheLog(front, log, name);
      if t.Swept? {
        SamplesKeepFlags(After(front), t.samples, name);
        EventsSetFlags(WithSamples(After(front), t.samples), t.events, name);
        SomeExitExactlyWhen(t.events, name);
        SomeExitExactlyWhen(log, name);
      }
    }
  }

  /** The final sweep over the whole log repairs everything: whatever windows were lost, repeated, overlapping or out of
      order before it, and however often the file was lost, every container ends up with the out-of-memory flag and the
      exit code that one in-order fold of the log gives. */
  lemma FinalSweepIsOneFoldOfTheLog(ticks: seq<Tick>, log: seq<Event>, samples: seq<Sample>, name: string)
    requires WindowsOf(ticks, log)
    ensures var end := After(ticks + [Swept(samples, log)]);
            var fold := WithEvents(map[], log);
            && OomKilled(end, name) == OomKilled(fold, name) == OomIn(log, name)
            && ExitCode(end, name) == ExitCode(fold, name) == LastExit(log, name)
  {
    var all := ticks + [Swept(samples, log)];
    assert all[..|all| - 1] == ticks;
    FlagsComeFromTheLog(ticks, log, name);
    SamplesKeepFlags(After(ticks), samples, name);
    EventsSetFlags(WithSamples(After(ticks), samples), log, name);
    EventsSetFlags(map[], log, name);
  }

  /** A window that does change a flag back: one holding only the first of two deaths. None of the callers folds such a
      window after the later one, since the windows of the collector only advance and the final sweep starts over. */
  lemma ReplayOfAPartGoesBack(name: string, first: int, second: int)
    requires first != second
    ensures var deaths := [Event(name, "die", Some(first)), Event(name, "die", Some(second))];
            && WindowsOf([Swept([], deaths), Swept([], deaths[..1])], deaths)
            && ExitCode(After([Swept([], deaths)]), name) == LastExit(deaths, name) == Some(second)
            && ExitCode(After([Swept([], deaths), Swept([], deaths[..1])]), name) == Some(first)
  {
    var deaths := [Event(name, "die", Some(first)), Event(name, "die", Some(second))];
    var once := [Swept([], deaths)];
    var twice := [Swept([], deaths), Swept([], deaths[..1])];
    assert once[..0] == [] && twice[..1] == once;
    EventsSetFlags(After([]), deaths, name);
    EventsSetFlags(After(once), deaths[..1], name);
    assert deaths[..1] == [deaths[0]] && deaths[0] in deaths;
  }

  // ---- peaks --------------------------------------------------------------------------------------------------------

  function ReadingsIn(samples: seq<Sample>, name: string, metric: Metric): seq<Option<real>> {
    if samples == [] then []
    else
      var front := ReadingsIn(samples[..|samples| - 1], name, metric);
      var s := samples[|samples| - 1];
      if s.name == name then front + [Reading(s, metric)] else front
  }

  /** A reading is the kernel's mark when there is one, and the momentary one otherwise; throttling has only the
      kernel's. */
  lemma ReadingIsKernelsFirst(s: Sample)
    ensures Reading(s, Rss) == if s.kernelRss.Some? then s.kernelRss else s.statRss
    ensures Reading(s, Pids) == if s.kernelPids.Some? then s.kernelPids else s.statPids
    ensures Reading(s, Throttling) == s.kernelThrottling
  {
  }

  /** Every reading of a container since the file was last lost, null ones included. */
  function Readings(ticks: seq<Tick>, name: string, metric: Metric): seq<Option<real>> {
    if ticks == [] then []
    else
      match ticks[|ticks| - 1]
      case Swept(samples, _) => Readings(ticks[..|ticks| - 1], name, metric) + ReadingsIn(samples, name, metric)
      case Lost => []
  }

  /** `peak` is the greatest of the readings that are not null, and null exactly when all are. */
  predicate IsHighest(peak: Option<real>, readings: seq<Option<real>>) {
    match peak
    case None => forall r :: r in readings ==> r.None?
    case Some(x) => peak in readings && forall r :: r in readings && r.Some? ==> r.value <= x
  }

  lemma {:induction false} SamplesRaisePeaks(u: UsageMap, samples: seq<Sample>, name: string, metric: Metric,
                                             seen: seq<Option<real>>)
    requires IsHighest(Peak(u, name, metric), seen) && Entry(u, name, "").samples == |seen|
    ensures var after := WithSamples(u, samples);
            var all := seen + ReadingsIn(samples, name, metric);
            IsHighest(Peak(after, name, metric), all) && Entry(after, name, "").samples == |all|
  {
    if samples == [] {
      assert seen + [] == seen;
    } else {
      var front, s := samples[..|samples| - 1], samples[|samples| - 1];
      SamplesRaisePeaks(u, front, name, metric, seen);
      var before := WithSamples(u, front);
      var all := seen + ReadingsIn(front, name, metric);
      if s.name == name {
        assert seen + ReadingsIn(samples, name, metric) == all + [Reading(s, metric)];
        HighestOfOneMore(Peak(before, name, metric), all, Reading(s, metric));
      }
    }
  }

  lemma HighestOfOneMore(peak: Option<real>, readings: seq<Option<real>>, r: Option<real>)
    requires IsHighest(peak, readings)
    ensures IsHighest(Highest(peak, r), readings + [r])
  {
    assert r in readings + [r];
  }

  /** High-water marks: after any run of sweeps each peak is the maximum of all readings of the container that are not
      null, and null exactly when there were none, and every sample of it was counted once. */
  lemma {:induction false} PeaksAreHighWaterMarks(ticks: seq<Tick>, name: string, metric: Metric)
    ensures IsHighest(Peak(After(ticks), name, metric), Readings(ticks, name, metric))
    ensures Entry(After(ticks), name, "").samples == |Readings(ticks, name, metric)|
  {
    if ticks != [] {
      var front, t := ticks[..|ticks| - 1], ticks[|ticks| - 1];
      PeaksAreHighWaterMarks(front, name, metric);
      if t.Swept? {
        SamplesRaisePeaks(After(front), t.samples, name, metric, Readings(front, name, metric));
        EventsKeepPeaks(WithSamples(After(front), t.samples), t.events, name);
      }
    }
  }

  /** The order and the number of times readings arrive do not matter to a peak. */
  lemma PeaksIgnoreOrder(ticks: seq<Tick>, others: seq<Tick>, name: string, metric: Metric)
    requires forall r :: r in Readings(ticks, name, metric) <==> r in Readings(others, name, metric)
    ensures Peak(After(ticks), name, metric) == Peak(After(others), name, metric)
  {
    PeaksAreHighWaterMarks(ticks, name, metric);
    PeaksAreHighWaterMarks(others, name, metric);
  }

  // ---- which containers there are, and their ids --------------------------------------------------------------------

  function IdsIn(samples: seq<Sample>, name: string): seq<string> {
    if samples == [] then []
    else
      var s := samples[|samples| - 1];
      IdsIn(samples[..|samples| - 1], name) + if s.name == name then [s.id] else []
  }

  /** The id of every sample of a container since the file was last lost. */
  function Ids(ticks: seq<Tick>, name: string): seq<string> {
    if ticks == [] then []
    else
      match ticks[|ticks| - 1]
      case Swept(samples, _) => Ids(ticks[..|ticks| - 1], name) + IdsIn(samples, name)
      case Lost => []
  }

  /** Some event since then names the container. */
  predicate Mentioned(ticks: seq<Tick>, name: string) {
    if ticks == [] then false
    else
      match ticks[|ticks| - 1]
      case Swept(_, events) => Mentioned(ticks[..|ticks| - 1], name) || exists e :: e in events && e.name == name
      case Lost => false
  }

  function LastId(ids: seq<string>): string {
    if ids == [] then "" else ids[|ids| - 1]
  }

  lemma {:induction false} SamplesName(u: UsageMap, samples: seq<Sample>, name: string, ids: seq<string>)
    requires Entry(u, name, "").id == LastId(ids)
    ensures var after, all := WithSamples(u, samples), ids + IdsIn(samples, name);
            && Entry(after, name, "").id == LastId(all)
            && (name in after <==> name in u || IdsIn(samples, name) != [])
  {
    if samples == [] {
      assert ids + [] == ids;
    } else {
      var front, s := samples[..|samples| - 1], samples[|samples| - 1];
      SamplesName(u, front, name, ids);
      assert ids + IdsIn(samples, name) == ids + IdsIn(front, name) + if s.name == name then [s.id] else [];
    }
  }

  lemma {:induction false} EventsName(u: UsageMap, events: seq<Event>, name: string)
    ensures var after := WithEvents(u, events);
            && Entry(after, name, "").id == Entry(u, name, "").id
            && (name in after <==> name in u || exists e :: e in events && e.name == name)
  {
    if events != [] {
      var front, e := events[..|events| - 1], events[|events| - 1];
      assert events == front + [e];
      EventsName(u, front, name);
    }
  }

  /** After any run of sweeps there is an entry for exactly the containers sampled or named by an event since the file
      was last lost, and its id is that of the last sample, or empty when there was none. */
  lemma {:induction false} EntriesAndIds(ticks: seq<Tick>, name: string)
    ensures name in After(ticks) <==> Ids(ticks, name) != [] || Mentioned(ticks, name)
    ensures Entry(After(ticks), name, "").id == LastId(Ids(ticks, name))
  {
    if ticks != [] {
      var front, t := ticks[..|ticks| - 1], ticks[|ticks| - 1];
      EntriesAndIds(front, name);
      if t.Swept? {
        SamplesName(After(front), t.samples, name, Ids(front, name));
        EventsName(WithSamples(After(front), t.samples), t.events, name);
      }
    }
  }

  // ---- the program --------------------------------------------------------------------------------------------------

  method FoldSamples(previous: UsageMap, samples: seq<Sample>) returns (usage: UsageMap)
    ensures usage == WithSamples(previous, samples)
  {
    usage := previous;
    for i := 0 to |samples|
      invariant usage == WithSamples(previous, samples[..i])
    {
      assert samples[..i + 1][..i] == samples[..i];
      var sample := samples[i];
      var entry := if sample.name in usage then usage[sample.name] else Blank(sample.id);
      entry := entry.(id := sample.id);
      entry := entry.(peakRss := Highest(entry.peakRss, Either(sample.kernelRss, sample.statRss)));
      entry := entry.(peakPids := Highest(entry.peakPids, Either(sample.kernelPids, sample.statPids)));
      entry := entry.(throttled := Highest(entry.throttled, sample.kernelThrottling));
      entry := entry.(samples := entry.samples + 1);
      usage := usage[sample.name := entry];
    }
    assert samples[..|samples|] == samples;
  }

  method FoldEvents(previous: UsageMap, events: seq<Event>) returns (usage: UsageMap)
    ensures usage == WithEvents(previous, events)
  {
    usage := previous;
    for i := 0 to |events|
      invariant usage == WithEvents(previous, events[..i])
    {
      assert events[..i + 1][..i] == events[..i];
      var event := events[i];
      var entry := if event.name in usage then usage[event.name] else Blank("");
      if event.action == "oom" {
        entry := entry.(oomKilled := true);
      }
      if event.action == "die" && event.exitCode.Some? {
        entry := entry.(exitCode := event.exitCode);
      }
      usage := usage[event.name := entry];
    }
    assert events[..|events|] == events;
  }

  /** One sweep folded into the running accumulator. */
  method Accumulate(previous: UsageMap, samples: seq<Sample>, events: seq<Event>) returns (usage: UsageMap)
    ensures usage == Accumulated(previous, samples, events)
    ensures forall name ::
              && (OomKilled(usage, name) <==> OomKilled(previous, name) || OomIn(events, name))
              && ExitCode(usage, name) ==
                   (if LastExit(events, name).Some? then LastExit(events, name) else ExitCode(previous, name))
  {
    usage := FoldSamples(previous, samples);
    ghost var sampled := usage;
    usage := FoldEvents(usage, events);
    forall name
      ensures OomKilled(usage, name) <==> OomKilled(previous, name) || OomIn(events, name)
      ensures ExitCode(usage, name) ==
                (if LastExit(events, name).Some? then LastExit(events, name) else ExitCode(previous, name))
    {
      SamplesKeepFlags(previous, samples, name);
      EventsSetFlags(sampled, events, name);
    }
  }
}
