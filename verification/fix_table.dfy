/** The fix rows, findings and usage ledger of one engine, updated in place by the route and the workers. */
module FixTable {
  import opened Wrappers
  import opened FixMachine
  import opened FixVetting
  import opened FixPipeline
  import opened FixSafety

  /** Every finding of a file is linked to that file's row. */
  ghost predicate Linked(fixOf: map<nat, nat>, rows: seq<FixRow>, target: nat, file: string, findings: seq<nat>) {
    forall f <- findings :: f in fixOf && fixOf[f] < |rows| && rows[fixOf[f]].key == Key(target, file)
  }

  ghost predicate Grouped(files: seq<string>, byFile: map<string, seq<nat>>) {
    && (forall file <- files :: file in byFile)
    && (forall a, b, f | a in byFile && b in byFile && f in byFile[a] && f in byFile[b] :: a == b)
  }

  /** A finding of no queued file has the link it had. */
  ghost predicate OthersKeepTheirLink(was: map<nat, nat>, fixOf: map<nat, nat>, queued: seq<string>,
                                      byFile: map<string, seq<nat>>) {
    forall f | (forall file <- queued :: file in byFile ==> f !in byFile[file]) :: Get(fixOf, f) == Get(was, f)
  }

  /** The findings are linked to the row, if there is one; every other link is as it was. */
  ghost predicate Relinked(was: map<nat, nat>, fixOf: map<nat, nat>, findings: seq<nat>, id: Option<nat>) {
    forall f :: Get(fixOf, f) == if id.Some? && f in findings then id else Get(was, f)
  }

  /** The charges name the rows of the files, one each and in order. */
  ghost predicate ChargedFor(charged: seq<nat>, rows: seq<FixRow>, target: nat, files: seq<string>) {
    |charged| == |files| &&
    forall n | 0 <= n < |files| :: charged[n] < |rows| && rows[charged[n]].key == Key(target, files[n])
  }

  class Table {
    var rows: seq<FixRow>
    var ledger: seq<nat>
    var fixOf: map<nat, nat>

    constructor ()
      ensures rows == [] && ledger == [] && fixOf == map[]
    {
      rows, ledger, fixOf := [], [], map[];
    }

    /** Create or reset one file's row and charge for it, or leave everything alone. */
    method PreparePendingFix(target: nat, path: string, force: bool) returns (id: Option<nat>)
      modifies this`rows, this`ledger
      ensures Prepared(rows, id) == Prepare(old(rows), Key(target, path), force)
      ensures ledger == old(ledger) + if id.Some? then [id.value] else []
      ensures id.Some? ==> id.value < |rows| && rows[id.value].key == Key(target, path)
    {
      var existing := Find(rows, Key(target, path));
      if existing.Some? {
        var i := existing.value;
        if rows[i].status in IN_FLIGHT {
          return None;
        }
        if !force && rows[i].status != Failed {
          return None;
        }
        rows := rows[i := rows[i].(status := Pending, content := None)];
        ledger := ledger + [i];
        return Some(i);
      }
      rows := rows + [FixRow(Key(target, path), Pending, None)];
      ledger := ledger + [|rows| - 1];
      return Some(|rows| - 1);
    }

    method LinkFindings(findings: seq<nat>, id: nat)
      modifies this`fixOf
      ensures forall f :: f in fixOf <==> f in old(fixOf) || f in findings
      ensures forall f <- fixOf :: fixOf[f] == if f in findings then id else old(fixOf)[f]
    {
      for i := 0 to |findings|
        invariant forall f :: f in fixOf <==> f in old(fixOf) || f in findings[..i]
        invariant forall f <- fixOf :: fixOf[f] == if f in findings[..i] then id else old(fixOf)[f]
      {
        fixOf := fixOf[findings[i] := id];
        assert findings[..i + 1] == findings[..i] + [findings[i]];
      }
      assert findings[..|findings|] == findings;
    }

    /** One file of a request: its row prepared and, when there is one to queue, its findings linked to it. */
    method QueueOne(target: nat, file: string, findings: seq<nat>, force: bool) returns (id: Option<nat>)
      modifies this
      ensures Prepared(rows, id) == Prepare(old(rows), Key(target, file), force)
      ensures ledger == old(ledger) + if id.Some? then [id.value] else []
      ensures id.Some? ==> id.value < |rows| && rows[id.value].key == Key(target, file)
      ensures Relinked(old(fixOf), fixOf, findings, id)
    {
      id := PreparePendingFix(target, file, force);
      if id.Some? {
        LinkFindings(findings, id.value);
      }
    }

    /** One request: refused whole, or one charge, one waiting row and one dispatch for each file reported queued. */
    method QueueFileFixes(target: nat, files: seq<string>, byFile: map<string, seq<nat>>, force: bool,
                          withinQuota: bool)
      returns (dispatched: Option<seq<string>>)
      requires Unique(rows) && Grouped(files, byFile)
      requires forall i, j | 0 <= i < j < |files| :: files[i] != files[j]
      modifies this
      ensures Unique(rows)
      ensures !withinQuota ==> dispatched.None? && rows == old(rows) && ledger == old(ledger) && fixOf == old(fixOf)
      ensures old(ledger) <= ledger
      ensures withinQuota ==>
                && dispatched.Some?
                && Queued(rows, dispatched.value) == QueueAll(old(rows), target, files, force)
                && Waiting(rows) == Waiting(old(rows)) + |dispatched.value|
                && |dispatched.value| <= |files|
                && ChargedFor(ledger[|old(ledger)|..], rows, target, dispatched.value)
                && (forall file <- dispatched.value :: file in files && Linked(fixOf, rows, target, file, byFile[file]))
                && OthersKeepTheirLink(old(fixOf), fixOf, dispatched.value, byFile)
    {
      if !withinQuota {
        return None;
      }
      var queued: seq<string> := [];
      for i := 0 to |files|
        invariant old(ledger) <= ledger
        invariant Requested(old(rows), rows, target, files[..i], force, queued)
        invariant Booked(old(fixOf), fixOf, rows, target, queued, byFile, ledger[|old(ledger)|..])
      {
        ghost var was, links, charged, done := rows, fixOf, ledger[|old(ledger)|..], queued;
        var id := QueueOne(target, files[i], byFile[files[i]], force);
        queued := queued + if id.Some? then [files[i]] else [];
        RequestedOneMore(old(rows), was, rows, target, files, i, force, done, id);
        BookedOneMore(old(fixOf), links, fixOf, was, rows, target, done, byFile, charged, files, i, id);
        assert ledger[|old(ledger)|..] == charged + if id.Some? then [id.value] else [];
      }
      assert files[..|files|] == files;
      dispatched := Some(queued);
    }

    /** Claim the waiting row of one file for generation. */
    method StartGeneration(key: Key) returns (id: Option<nat>)
      modifies this`rows
      ensures id.None? ==> rows == old(rows)
      ensures id.Some? <==> Find(old(rows), key).Some? && old(rows)[Find(old(rows), key).value].status == Pending
      ensures id.Some? ==> id == Find(old(rows), key) && rows == SetStatus(old(rows), {id.value}, FixStatus.Generating)
    {
      var found := Find(rows, key);
      if found.None? || rows[found.value].status != Pending {
        return None;
      }
      var i := found.value;
      rows := rows[i := rows[i].(status := FixStatus.Generating)];
      assert rows == SetStatus(old(rows), {i}, FixStatus.Generating);
      id := found;
    }

    /** Store what one generation produced: vetted content and `ready`, or `failed` with the old content. */
    method EndGeneration(g: Gates, id: nat, answer: Answer)
      requires id < |rows|
      modifies this`rows
      ensures rows == old(rows)[id := FinishGeneration(old(rows)[id], Outcome(g, old(rows)[id].key.path, answer))]
      ensures rows[id].status == Ready ==>
                answer.Response? && rows[id].content.Some?
                && Passes(g, rows[id].key.path, rows[id].content.value, answer.fetched)
    {
      var row := rows[id];
      if answer.Raised? {
        rows := rows[id := row.(status := Failed)];
        return;
      }
      var source := Source(answer.fetched, row.key.path);
      if source.None? {
        rows := rows[id := row.(status := Failed)];
        return;
      }
      KeepsExactlyWhatPasses(g, answer.text, row.key.path, answer.fetched);
      var v := Vet(g, answer.text, source.value, row.key.path, answer.fetched);
      if v.Reject? {
        rows := rows[id := row.(status := Failed)];
      } else {
        rows := rows[id := row.(content := Some(v.content), status := Ready)];
      }
    }

    /** One generation from claim to end: skipped and nothing touched when no row of the file waits. */
    method GenerateFileFix(g: Gates, key: Key, answer: Answer) returns (status: Option<FixStatus>)
      modifies this`rows
      ensures status.Some? <==> Find(old(rows), key).Some? && old(rows)[Find(old(rows), key).value].status == Pending
      ensures status.None? ==> rows == old(rows)
      ensures status.Some? ==>
                var i := Find(old(rows), key).value;
                && i < |rows| && rows == old(rows)[i := rows[i]] && status == Some(rows[i].status)
                && rows[i] == FinishGeneration(old(rows)[i].(status := FixStatus.Generating),
                     Outcome(g, key.path, answer))
                && (rows[i].status == Ready ==>
                      answer.Response? && rows[i].content.Some?
                      && Passes(g, key.path, rows[i].content.value, answer.fetched))
    {
      var id := StartGeneration(key);
      if id.None? {
        return None;
      }
      assert rows == old(rows)[id.value := rows[id.value]];
      EndGeneration(g, id.value, answer);
      status := Some(rows[id.value].status);
    }

    /** The rows one delivery will send, in table order, with the content each held when it was read. */
    method SelectFixes(target: nat, force: bool, withheld: set<nat>) returns (ids: seq<nat>, picked: map<nat, string>)
      ensures picked == Pick(rows, target, force, withheld)
      ensures forall i: nat | i < |rows| :: i in ids <==>
                && rows[i].key.target == target && i !in withheld
                && (rows[i].status == Ready || (force && rows[i].status in {Delivered, Failed}))
                && rows[i].content.Some? && rows[i].content.value != ""
      ensures forall i <- picked :: i < |rows| && rows[i].content == Some(picked[i])
      ensures forall i :: i in ids <==> i in picked
      ensures forall m, n | 0 <= m < n < |ids| :: ids[m] < ids[n]
    {
      ids, picked := [], map[];
      for i := 0 to |rows|
        invariant picked == Pick(rows[..i], target, force, withheld)
        invariant forall k :: k in ids <==> k in picked
        invariant forall n | 0 <= n < |ids| :: ids[n] < i
        invariant forall m, n | 0 <= m < n < |ids| :: ids[m] < ids[n]
      {
        if Deliverable(rows[i], target, force) && i !in withheld {
          ids := ids + [i];
          picked := picked[i := rows[i].content.value];
        }
      }
      assert rows[..|rows|] == rows;
    }

    method AdvanceAll(ids: seq<nat>, status: FixStatus)
      requires forall i <- ids :: i < |rows|
      modifies this`rows
      ensures rows == SetStatus(old(rows), (set i | i in ids), status)
    {
      for n := 0 to |ids|
        invariant |rows| == |old(rows)|
        invariant forall i | 0 <= i < |rows| :: rows[i] == if i in ids[..n] then old(rows)[i].(status := status)
                    else old(rows)[i]
      {
        assert ids[n] in ids;
        rows := rows[ids[n] := rows[ids[n]].(status := status)];
        assert ids[..n + 1] == ids[..n] + [ids[n]];
      }
      assert ids[..|ids|] == ids;
    }
  }

  /** Charges and links of the files queued so far. */
  ghost predicate Booked(before: map<nat, nat>, fixOf: map<nat, nat>, rows: seq<FixRow>, target: nat,
                         queued: seq<string>, byFile: map<string, seq<nat>>, charged: seq<nat>) {
    && ChargedFor(charged, rows, target, queued)
    && (forall file <- queued :: file in byFile && Linked(fixOf, rows, target, file, byFile[file]))
    && OthersKeepTheirLink(before, fixOf, queued, byFile)
  }

  /** The rows and the queued files after a part of the request. */
  ghost predicate Requested(before: seq<FixRow>, rows: seq<FixRow>, target: nat, files: seq<string>, force: bool,
                            queued: seq<string>) {
    && Unique(rows)
    && Queued(rows, queued) == QueueAll(before, target, files, force)
    && Waiting(rows) == Waiting(before) + |queued|
    && |queued| <= |files| && forall file <- queued :: file in files
  }

  lemma RequestedOneMore(before: seq<FixRow>, rows: seq<FixRow>, rows': seq<FixRow>, target: nat, files: seq<string>,
                         i: nat, force: bool, queued: seq<string>, id: Option<nat>)
    requires i < |files| && forall m, n | 0 <= m < n < |files| :: files[m] != files[n]
    requires Requested(before, rows, target, files[..i], force, queued)
    requires Prepared(rows', id) == Prepare(rows, Key(target, files[i]), force)
    ensures Requested(before, rows', target, files[..i + 1], force, queued + if id.Some? then [files[i]] else [])
    ensures Extends(rows, rows') && files[i] !in queued
  {
    PrepareUnique(rows, Key(target, files[i]), force);
    assert files[..i + 1][..i] == files[..i];
    assert files[..i + 1] == files[..i] + [files[i]];
  }

  lemma BookedOneMore(before: map<nat, nat>, was: map<nat, nat>, fixOf: map<nat, nat>, rows: seq<FixRow>,
                      rows': seq<FixRow>, target: nat, queued: seq<string>, byFile: map<string, seq<nat>>,
                      charged: seq<nat>, files: seq<string>, i: nat, id: Option<nat>)
    requires Extends(rows, rows') && i < |files| && files[i] !in queued && Grouped(files, byFile)
    requires id.Some? ==> id.value < |rows'| && rows'[id.value].key == Key(target, files[i])
    requires Booked(before, was, rows, target, queued, byFile, charged)
    requires Relinked(was, fixOf, byFile[files[i]], id)
    ensures Booked(before, fixOf, rows', target, queued + if id.Some? then [files[i]] else [], byFile,
              charged + if id.Some? then [id.value] else [])
  {
    var file, queued' := files[i], queued + if id.Some? then [files[i]] else [];
    forall x | x in queued' ensures x in byFile && Linked(fixOf, rows', target, x, byFile[x]) {
      if id.Some? && x == file {
        LinkedOwn(fixOf, rows', target, file, byFile[file], id.value);
      } else {
        LinkedStill(was, fixOf, rows, rows', target, x, byFile[x]);
      }
    }
    forall f | forall x <- queued' :: x in byFile ==> f !in byFile[x] ensures Get(fixOf, f) == Get(before, f) {
      assert id.Some? ==> file in queued';
      assert forall x <- queued :: x in queued';
    }
  }

  lemma LinkedOwn(fixOf: map<nat, nat>, rows: seq<FixRow>, target: nat, file: string, findings: seq<nat>, id: nat)
    requires id < |rows| && rows[id].key == Key(target, file)
    requires forall f <- findings :: Get(fixOf, f) == Some(id)
    ensures Linked(fixOf, rows, target, file, findings)
  {
  }

  lemma LinkedStill(was: map<nat, nat>, fixOf: map<nat, nat>, rows: seq<FixRow>, rows': seq<FixRow>, target: nat,
                    file: string, findings: seq<nat>)
    requires Extends(rows, rows') && Linked(was, rows, target, file, findings)
    requires forall f <- findings :: Get(fixOf, f) == Get(was, f)
    ensures Linked(fixOf, rows', target, file, findings)
  {
  }

  // ------------------------------------------------- what a request queues

  lemma {:induction false} FindAfterUpdate(rows: seq<FixRow>, i: nat, row: FixRow, key: Key)
    requires i < |rows| && row.key == rows[i].key
    ensures Find(rows[i := row], key) == Find(rows, key)
  {
    var n := |rows| - 1;
    if i == n {
      assert rows[i := row][..n] == rows[..n];
    } else {
      assert rows[i := row][..n] == rows[..n][i := row];
      FindAfterUpdate(rows[..n], i, row, key);
    }
  }

  lemma PrepareLeavesOthers(rows: seq<FixRow>, key: Key, force: bool, other: Key)
    requires other != key
    ensures var p := Prepare(rows, key, force).rows;
            && |rows| <= |p| && Find(p, other) == Find(rows, other)
            && (forall i | 0 <= i < |rows| && rows[i].key == other :: p[i] == rows[i])
  {
    var found := Find(rows, key);
    if found.Some? {
      FindAfterUpdate(rows, found.value, FixRow(key, Pending, None), other);
    } else {
      assert (rows + [FixRow(key, Pending, None)])[..|rows|] == rows;
    }
  }

  lemma {:induction false} QueueLeavesOthers(rows: seq<FixRow>, target: nat, files: seq<string>, force: bool,
                                             other: Key)
    requires forall f <- files :: Key(target, f) != other
    ensures var q := QueueAll(rows, target, files, force).rows;
            && |rows| <= |q| && Find(q, other) == Find(rows, other)
            && (forall i | 0 <= i < |rows| && rows[i].key == other :: q[i] == rows[i])
  {
    if files != [] {
      var n := |files| - 1;
      QueueLeavesOthers(rows, target, files[..n], force, other);
      assert files[n] in files;
      PrepareLeavesOthers(QueueAll(rows, target, files[..n], force).rows, Key(target, files[n]), force, other);
    }
  }

  /** There is something to queue for a file: it has no row, or an idle one that failed or is forced. */
  predicate Queueable(rows: seq<FixRow>, key: Key, force: bool) {
    match Find(rows, key)
    case None => true
    case Some(i) =>
      rows[i].status !in {Pending, FixStatus.Generating, Delivering} && (force || rows[i].status == Failed)
  }

  /** A request queues exactly the files asked for that were queueable when it came, whatever else it asks for; each of
      them then waits with no content, and every other row is as it was. */
  lemma {:induction false} QueuesExactlyWhenQueueable(rows: seq<FixRow>, target: nat, files: seq<string>,
                                                      force: bool, file: string)
    requires forall i, j | 0 <= i < j < |files| :: files[i] != files[j]
    ensures var q := QueueAll(rows, target, files, force);
            var key := Key(target, file);
            && (file in q.files <==> file in files && Queueable(rows, key, force))
            && (file in q.files ==>
                  Find(q.rows, key).Some? && q.rows[Find(q.rows, key).value] == FixRow(key, Pending, None))
            && (file !in q.files ==> Find(q.rows, key) == Find(rows, key))
            && (file !in q.files && Find(rows, key).Some? ==>
                 q.rows[Find(rows, key).value] == rows[Find(rows, key).value])
  {
    if files != [] {
      var n := |files| - 1;
      var rest, last := files[..n], files[n];
      assert files == rest + [last];
      var mid := QueueAll(rows, target, rest, force).rows;
      if file == last {
        forall f | f in rest ensures f != last {
          var i :| 0 <= i < n && files[i] == f;
        }
        QueueLeavesOthers(rows, target, rest, force, Key(target, file));
        QueuesExactlyWhenQueueable(rows, target, rest, force, file);
        PrepareOwn(mid, Key(target, file), force);
      } else {
        QueuesExactlyWhenQueueable(rows, target, rest, force, file);
        PrepareLeavesOthers(mid, Key(target, last), force, Key(target, file));
      }
    }
  }

  lemma PrepareOwn(rows: seq<FixRow>, key: Key, force: bool)
    ensures var p := Prepare(rows, key, force);
            && (p.id.Some? <==> Queueable(rows, key, force))
            && (p.id.None? ==> p.rows == rows)
            && (p.id.Some? ==> Find(p.rows, key) == p.id && p.rows[p.id.value] == FixRow(key, Pending, None))
  {
    var found := Find(rows, key);
    if found.Some? {
      FindAfterUpdate(rows, found.value, FixRow(key, Pending, None), key);
    } else {
      assert (rows + [FixRow(key, Pending, None)])[..|rows|] == rows;
    }
  }
}
