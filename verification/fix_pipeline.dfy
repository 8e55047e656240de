/** Fix rows of every (target, file), and the workers that queue, generate and deliver them. */
module FixPipeline {
  import opened Wrappers
  import opened FixMachine
  import opened FixVetting

  datatype Key = Key(target: nat, path: string)

  // A row is named by its position: rows are reused, never deleted.
  datatype FixRow = FixRow(key: Key, status: FixStatus, content: Option<string>)

  function Find(rows: seq<FixRow>, key: Key): (r: Option<nat>)
    ensures r.Some? ==> r.value < |rows| && rows[r.value].key == key
    ensures r.None? ==> forall i | 0 <= i < |rows| :: rows[i].key != key
  {
    if rows == [] then None
    else
      var n := |rows| - 1;
      var r := Find(rows[..n], key);
      if r.Some? then r else if rows[n].key == key then Some(n) else None
  }

  // ------------------------------------------------- queueing

  datatype Prepared = Prepared(rows: seq<FixRow>, id: Option<nat>)

  /** Create or reset the row of one file; no id when there is nothing to queue. */
  function Prepare(rows: seq<FixRow>, key: Key, force: bool): Prepared {
    match Find(rows, key)
    case None => Prepared(rows + [FixRow(key, Pending, None)], Some(|rows|))
    case Some(i) =>
      if rows[i].status in IN_FLIGHT || (!force && rows[i].status != Failed) then Prepared(rows, None)
      else Prepared(rows[i := FixRow(key, Pending, None)], Some(i))
  }

  datatype Queued = Queued(rows: seq<FixRow>, files: seq<string>)

  function QueueAll(rows: seq<FixRow>, target: nat, files: seq<string>, force: bool): Queued {
    if files == [] then Queued(rows, [])
    else
      var n := |files| - 1;
      var q := QueueAll(rows, target, files[..n], force);
      var p := Prepare(q.rows, Key(target, files[n]), force);
      Queued(p.rows, if p.id.Some? then q.files + [files[n]] else q.files)
  }

  // ------------------------------------------------- the workers

  datatype Job =
    | Generating(id: nat)
    | Selected(picked: map<nat, string>)
    | Sending(picked: map<nat, string>)

  /** How a generation ends: something raised, or the model answered over these fetched files. */
  datatype Answer = Raised | Response(text: string, fetched: seq<File>)

  datatype Action =
    | Queue(target: nat, files: seq<string>, force: bool)
    | ClaimGeneration(w: nat, key: Key)
    | EndGeneration(w: nat, answer: Answer)
    | Select(w: nat, target: nat, force: bool, withheld: set<nat>)
    | ClaimDelivery(w: nat)
    | EndDelivery(w: nat, failed: bool)
    | Crash(w: nat)

  datatype Pipe = Pipe(
    rows: seq<FixRow>,
    jobs: map<nat, Job>,
    orphans: set<nat>,          // rows whose worker died holding them
    charges: nat,
    starts: nat,                // generations ever claimed
    sent: set<(Key, string)>,   // what was ever handed to a push
    clash: bool)                // a finishing worker met a row that had moved under it

  const EMPTY: Pipe := Pipe([], map[], {}, 0, 0, {}, false)

  function Deliverable(row: FixRow, target: nat, force: bool): bool {
    && row.key.target == target
    && (row.status == Ready || (force && (row.status == Delivered || row.status == Failed)))
    && row.content.Some? && row.content.value != ""
  }

  function Pick(rows: seq<FixRow>, target: nat, force: bool, withheld: set<nat>): map<nat, string> {
    map i: nat | i < |rows| && Deliverable(rows[i], target, force) && i !in withheld :: rows[i].content.value
  }

  function SetStatus(rows: seq<FixRow>, ids: set<nat>, status: FixStatus): (r: seq<FixRow>)
    ensures |r| == |rows|
  {
    seq(|rows|, i requires 0 <= i < |rows| => if i in ids then rows[i].(status := status) else rows[i])
  }

  function Outcome(g: Gates, path: string, answer: Answer): Option<string> {
    if answer.Raised? then None
    else
      var source := Source(answer.fetched, path);
      if source.None? then None
      else
        var v := Vet(g, answer.text, source.value, path, answer.fetched);
        if v.Keep? then Some(v.content) else None
  }

  function FinishGeneration(row: FixRow, content: Option<string>): FixRow {
    if content.Some? then row.(status := Ready, content := content) else row.(status := Failed)
  }

  /** One atomic step. A worker writes what its own copy of the row allows, whatever the stored row has become. */
  function Step(g: Gates, s: Pipe, a: Action): Pipe {
    match a
    case Queue(target, files, force) =>
      var q := QueueAll(s.rows, target, files, force);
      s.(rows := q.rows, charges := s.charges + |q.files|)
    case ClaimGeneration(w, key) =>
      var i := Find(s.rows, key);
      if w in s.jobs || i.None? || s.rows[i.value].status != Pending then s
      else s.(rows := SetStatus(s.rows, {i.value}, FixStatus.Generating),
              jobs := s.jobs[w := Job.Generating(i.value)],
              starts := s.starts + 1)
    case EndGeneration(w, answer) =>
      if w !in s.jobs || !s.jobs[w].Generating? || s.jobs[w].id >= |s.rows| then s
      else
        var i := s.jobs[w].id;
        s.(rows := s.rows[i := FinishGeneration(s.rows[i], Outcome(g, s.rows[i].key.path, answer))],
           jobs := s.jobs - {w},
           clash := s.clash || s.rows[i].status != FixStatus.Generating)
    case Select(w, target, force, withheld) =>
      if w in s.jobs then s else s.(jobs := s.jobs[w := Selected(Pick(s.rows, target, force, withheld))])
    case ClaimDelivery(w) =>
      if w !in s.jobs || !s.jobs[w].Selected? then s
      else
        var picked := s.jobs[w].picked;
        s.(rows := SetStatus(s.rows, picked.Keys, Delivering),
           jobs := s.jobs[w := Sending(picked)],
           sent := s.sent + set i | i in picked && i < |s.rows| :: (s.rows[i].key, picked[i]))
    case EndDelivery(w, failed) =>
      if w !in s.jobs || !s.jobs[w].Sending? then s
      else
        var ids := s.jobs[w].picked.Keys;
        s.(rows := SetStatus(s.rows, ids, if failed then Failed else Delivered),
           jobs := s.jobs - {w},
           clash := s.clash || exists i :: i in ids && i < |s.rows| && s.rows[i].status != Delivering)
    case Crash(w) =>
      if w !in s.jobs then s
      else s.(jobs := s.jobs - {w}, orphans := s.orphans + Held(s.jobs[w]))
  }

  function Held(j: Job): set<nat> {
    match j
    case Generating(i) => {i}
    case Selected(_) => {}
    case Sending(picked) => picked.Keys
  }

  function Run(g: Gates, s: Pipe, actions: seq<Action>): Pipe {
    if actions == [] then s
    else Step(g, Run(g, s, actions[..|actions| - 1]), actions[|actions| - 1])
  }
}
