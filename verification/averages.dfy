/** A repository's grade: the mean over its files of the newest scan's score. */
module Averages {
  import opened Wrappers
  import opened Scoring

  datatype Scan = Scan(file: nat, repo: nat, created: int, score: Option<real>)

  /** By file, newest first, as the query orders them. */
  ghost predicate Ordered(rows: seq<Scan>) {
    forall i, j | 0 <= i < j < |rows| ::
      rows[i].file < rows[j].file || (rows[i].file == rows[j].file && rows[i].created >= rows[j].created)
  }

  function Files(rows: seq<Scan>): set<nat> {
    if rows == [] then {} else Files(rows[..|rows| - 1]) + {rows[|rows| - 1].file}
  }

  /** The first row of each file, in order. */
  function Latest(rows: seq<Scan>): seq<Scan> {
    if rows == [] then []
    else
      var n := |rows| - 1;
      if rows[n].file in Files(rows[..n]) then Latest(rows[..n]) else Latest(rows[..n]) + [rows[n]]
  }

  function Scores(rows: seq<Scan>): seq<real> {
    if rows == [] then []
    else
      var n := |rows| - 1;
      if rows[n].score.Some? then Scores(rows[..n]) + [rows[n].score.value] else Scores(rows[..n])
  }

  function OfRepo(rows: seq<Scan>, repo: nat): seq<Scan> {
    if rows == [] then []
    else
      var n := |rows| - 1;
      if rows[n].repo == repo then OfRepo(rows[..n], repo) + [rows[n]] else OfRepo(rows[..n], repo)
  }

  function Average(scores: seq<real>): Option<real> {
    if scores == [] then None else Some(Mean(scores))
  }

  lemma LatestAppend(rows: seq<Scan>, row: Scan)
    ensures Files(rows + [row]) == Files(rows) + {row.file}
    ensures Latest(rows + [row]) == if row.file in Files(rows) then Latest(rows) else Latest(rows) + [row]
  {
    assert (rows + [row])[..|rows|] == rows;
  }

  lemma {:induction false} FilesMembers(rows: seq<Scan>, file: nat)
    ensures file in Files(rows) <==> exists i :: 0 <= i < |rows| && rows[i].file == file
  {
    if rows != [] {
      FilesMembers(rows[..|rows| - 1], file);
    }
  }

  lemma ScoresAppend(rows: seq<Scan>, row: Scan)
    ensures Scores(rows + [row]) == if row.score.Some? then Scores(rows) + [row.score.value] else Scores(rows)
  {
    assert (rows + [row])[..|rows|] == rows;
  }

  lemma OfRepoAppend(rows: seq<Scan>, row: Scan, repo: nat)
    ensures OfRepo(rows + [row], repo) == if row.repo == repo then OfRepo(rows, repo) + [row] else OfRepo(rows, repo)
  {
    assert (rows + [row])[..|rows|] == rows;
  }

  /** The indices of the rows with a score, and their sum. */
  function Scored(rows: seq<Scan>): set<nat> {
    set i: nat | i < |rows| && rows[i].score.Some?
  }

  function ScoreSum(rows: seq<Scan>): real {
    if rows == [] then 0.0
    else
      var row := rows[|rows| - 1];
      ScoreSum(rows[..|rows| - 1]) + if row.score.Some? then row.score.value else 0.0
  }

  lemma {:induction false} ScoresAdd(rows: seq<Scan>)
    ensures Sum(Scores(rows)) == ScoreSum(rows) && |Scores(rows)| == |Scored(rows)|
  {
    if rows != [] {
      var n := |rows| - 1;
      ScoresAdd(rows[..n]);
      assert Scored(rows) == Scored(rows[..n]) + if rows[n].score.Some? then {n} else {};
    }
  }

  /** An average is there exactly when some row has a score, and is their sum over their number. */
  lemma AverageIsSumOverCount(rows: seq<Scan>)
    ensures var average, count := Average(Scores(rows)), |Scored(rows)|;
            && |Scores(rows)| == count && (average.Some? <==> count > 0)
            && (count > 0 ==> average.value == ScoreSum(rows) / count as real)
  {
    ScoresAdd(rows);
  }

  method AverageLatestScores(analyses: seq<Scan>) returns (average: Option<real>, count: nat)
    ensures average == Average(Scores(Latest(analyses)))
    ensures count == |Scores(Latest(analyses))|
  {
    var seen: set<nat> := {};
    var scores: seq<real> := [];
    for i := 0 to |analyses|
      invariant seen == Files(analyses[..i])
      invariant scores == Scores(Latest(analyses[..i]))
    {
      var a := analyses[i];
      assert analyses[..i + 1] == analyses[..i] + [a];
      LatestAppend(analyses[..i], a);
      ScoresAppend(Latest(analyses[..i]), a);
      if a.file in seen {
        continue;
      }
      seen := seen + {a.file};
      if a.score.Some? {
        scores := scores + [a.score.value];
      }
    }
    assert analyses[..|analyses|] == analyses;
    if |scores| == 0 {
      return None, 0;
    }
    return Some(Mean(scores)), |scores|;
  }

  function ScoresOf(byRepo: map<nat, seq<real>>, repo: nat): seq<real> {
    if repo in byRepo then byRepo[repo] else []
  }

  ghost predicate Splits(byRepo: map<nat, seq<real>>, latest: seq<Scan>) {
    forall repo: nat :: ScoresOf(byRepo, repo) == Scores(OfRepo(latest, repo))
  }

  lemma RepoScoresAppend(latest: seq<Scan>, row: Scan, repo: nat)
    ensures Scores(OfRepo(latest + [row], repo)) ==
            if row.repo == repo && row.score.Some? then Scores(OfRepo(latest, repo)) + [row.score.value]
            else Scores(OfRepo(latest, repo))
  {
    OfRepoAppend(latest, row, repo);
    ScoresAppend(OfRepo(latest, repo), row);
  }

  lemma SplitsOneMore(latest: seq<Scan>, row: Scan, byRepo: map<nat, seq<real>>)
    requires Splits(byRepo, latest)
    ensures Splits(if row.score.None? then byRepo
                   else byRepo[row.repo := ScoresOf(byRepo, row.repo) + [row.score.value]], latest + [row])
  {
    var next := if row.score.None? then byRepo
                else byRepo[row.repo := ScoresOf(byRepo, row.repo) + [row.score.value]];
    forall repo: nat
      ensures ScoresOf(next, repo) == Scores(OfRepo(latest + [row], repo))
    {
      RepoScoresAppend(latest, row, repo);
      assert ScoresOf(byRepo, repo) == Scores(OfRepo(latest, repo));
    }
  }

  lemma BatchStep(rows: seq<Scan>, row: Scan, byRepo: map<nat, seq<real>>)
    requires Splits(byRepo, Latest(rows))
    ensures Files(rows + [row]) == Files(rows) + {row.file}
    ensures Splits(if row.file in Files(rows) || row.score.None? then byRepo
                   else byRepo[row.repo := ScoresOf(byRepo, row.repo) + [row.score.value]], Latest(rows + [row]))
  {
    LatestAppend(rows, row);
    if row.file !in Files(rows) {
      SplitsOneMore(Latest(rows), row, byRepo);
    }
  }

  function RepoScored(rows: seq<Scan>, repo: nat): set<nat> {
    set i: nat | i < |rows| && rows[i].repo == repo && rows[i].score.Some?
  }

  function RepoScoreSum(rows: seq<Scan>, repo: nat): real {
    if rows == [] then 0.0
    else
      var row := rows[|rows| - 1];
      RepoScoreSum(rows[..|rows| - 1], repo) + if row.repo == repo && row.score.Some? then row.score.value else 0.0
  }

  lemma SumAppend(xs: seq<real>, x: real)
    ensures Sum(xs + [x]) == Sum(xs) + x
  {
    assert (xs + [x])[..|xs|] == xs;
  }

  lemma {:induction false} RepoScoresAdd(rows: seq<Scan>, repo: nat)
    ensures Sum(Scores(OfRepo(rows, repo))) == RepoScoreSum(rows, repo)
  {
    if rows != [] {
      var rest, row := rows[..|rows| - 1], rows[|rows| - 1];
      RepoScoresAdd(rest, repo);
      RepoScoresAppend(rest, row, repo);
      assert rows == rest + [row];
      if row.score.Some? {
        SumAppend(Scores(OfRepo(rest, repo)), row.score.value);
      }
    }
  }

  lemma {:induction false} RepoScoresCount(rows: seq<Scan>, repo: nat)
    ensures |Scores(OfRepo(rows, repo))| == |RepoScored(rows, repo)|
  {
    if rows != [] {
      var n := |rows| - 1;
      RepoScoresCount(rows[..n], repo);
      RepoScoresAppend(rows[..n], rows[n], repo);
      assert rows == rows[..n] + [rows[n]];
      RepoScoredGrows(rows, repo);
    }
  }

  lemma RepoScoredGrows(rows: seq<Scan>, repo: nat)
    requires rows != []
    ensures var n := |rows| - 1;
            |RepoScored(rows, repo)| ==
              |RepoScored(rows[..n], repo)| + if rows[n].repo == repo && rows[n].score.Some? then 1 else 0
  {
    var n := |rows| - 1;
    var own := rows[n].repo == repo && rows[n].score.Some?;
    assert RepoScored(rows, repo) == RepoScored(rows[..n], repo) + if own then {n} else {};
  }

  /** A repository's average: there exactly when some row of its own has a score, and their sum over their number. */
  lemma RepoAverageIs(rows: seq<Scan>, repo: nat)
    ensures var average, count := Average(Scores(OfRepo(rows, repo))), |RepoScored(rows, repo)|;
            && (average.Some? <==> count > 0)
            && (count > 0 ==> average.value == RepoScoreSum(rows, repo) / count as real)
  {
    RepoScoresAdd(rows, repo);
    RepoScoresCount(rows, repo);
  }

  method ComputeAvgScoresBatch(analyses: seq<Scan>, repoIds: seq<nat>) returns (result: map<nat, Option<real>>)
    ensures forall repo :: repo in result <==> repo in repoIds
    ensures forall repo <- result :: result[repo] == Average(Scores(OfRepo(Latest(analyses), repo)))
  {
    result := map[];
    if |repoIds| == 0 {
      return;
    }
    var seen: set<nat> := {};
    var byRepo: map<nat, seq<real>> := map[];
    for i := 0 to |analyses|
      invariant seen == Files(analyses[..i])
      invariant Splits(byRepo, Latest(analyses[..i]))
    {
      var a := analyses[i];
      assert analyses[..i + 1] == analyses[..i] + [a];
      BatchStep(analyses[..i], a, byRepo);
      if a.file !in seen {
        seen := seen + {a.file};
        if a.score.Some? {
          byRepo := byRepo[a.repo := ScoresOf(byRepo, a.repo) + [a.score.value]];
        }
      }
    }
    assert analyses[..|analyses|] == analyses;
    for i := 0 to |repoIds|
      invariant forall repo :: repo in result <==> repo in repoIds[..i]
      invariant forall repo <- result :: result[repo] == Average(Scores(OfRepo(Latest(analyses), repo)))
    {
      result := result[repoIds[i] := Average(ScoresOf(byRepo, repoIds[i]))];
      assert repoIds[..i + 1] == repoIds[..i] + [repoIds[i]];
    }
    assert repoIds[..|repoIds|] == repoIds;
  }

  // ------------------------------------------------- what the averages mean

  lemma {:induction false} LatestMembers(rows: seq<Scan>)
    ensures Files(Latest(rows)) == Files(rows)
    ensures forall i, j | 0 <= i < j < |Latest(rows)| :: Latest(rows)[i].file != Latest(rows)[j].file
    ensures forall a <- Latest(rows) :: a in rows
  {
    if rows != [] {
      var n := |rows| - 1;
      var rest, row := rows[..n], rows[n];
      LatestMembers(rest);
      assert rows == rest + [row];
      LatestAppend(rest, row);
      if row.file !in Files(rest) {
        LatestAppend(Latest(rest), row);
        DistinctAppend(Latest(rest), row);
      }
    }
  }

  lemma DistinctAppend(rows: seq<Scan>, row: Scan)
    requires forall i, j | 0 <= i < j < |rows| :: rows[i].file != rows[j].file
    requires row.file !in Files(rows)
    ensures var all := rows + [row];
            forall i, j | 0 <= i < j < |all| :: all[i].file != all[j].file
  {
    FilesMembers(rows, row.file);
  }

  /** No row of a's file is newer than a. */
  ghost predicate Newest(rows: seq<Scan>, a: Scan) {
    forall k | 0 <= k < |rows| && rows[k].file == a.file :: rows[k].created <= a.created
  }

  lemma NewestStays(rest: seq<Scan>, row: Scan, a: Scan)
    requires Ordered(rest + [row]) && a in rest && Newest(rest, a)
    ensures Newest(rest + [row], a)
  {
    var rows := rest + [row];
    var i :| 0 <= i < |rest| && rest[i] == a;
    assert rows[i] == a && rows[|rest|] == row;
    forall k | 0 <= k < |rows| && rows[k].file == a.file ensures rows[k].created <= a.created {
      assert k < |rest| ==> rest[k] == rows[k];
    }
  }

  lemma FirstIsNewest(rest: seq<Scan>, row: Scan)
    requires row.file !in Files(rest)
    ensures Newest(rest + [row], row)
  {
    FilesMembers(rest, row.file);
  }

  lemma {:induction false} LatestAreNewest(rows: seq<Scan>)
    requires Ordered(rows)
    ensures forall a <- Latest(rows) :: Newest(rows, a)
  {
    if rows != [] {
      var n := |rows| - 1;
      var rest, row := rows[..n], rows[n];
      assert rows == rest + [row];
      LatestMembers(rest);
      LatestAreNewest(rest);
      forall a | a in Latest(rest) ensures Newest(rows, a) {
        NewestStays(rest, row, a);
      }
      if row.file !in Files(rest) {
        FirstIsNewest(rest, row);
      }
    }
  }

  /** Latest holds one row of each file and no other, and it is that file's newest. */
  lemma LatestIsNewestPerFile(rows: seq<Scan>)
    requires Ordered(rows)
    ensures Files(Latest(rows)) == Files(rows)
    ensures forall i, j | 0 <= i < j < |Latest(rows)| :: Latest(rows)[i].file != Latest(rows)[j].file
    ensures forall a <- Latest(rows) :: a in rows && Newest(rows, a)
  {
    LatestMembers(rows);
    LatestAreNewest(rows);
  }

  ghost predicate OneRepoPerFile(rows: seq<Scan>) {
    forall a, b | a in rows && b in rows && a.file == b.file :: a.repo == b.repo
  }

  lemma {:induction false} OfRepoMembers(rows: seq<Scan>, repo: nat)
    ensures forall a :: a in OfRepo(rows, repo) <==> a in rows && a.repo == repo
  {
    if rows != [] {
      OfRepoMembers(rows[..|rows| - 1], repo);
      assert rows == rows[..|rows| - 1] + [rows[|rows| - 1]];
    }
  }

  lemma OwnFilesAgree(rest: seq<Scan>, row: Scan)
    requires OneRepoPerFile(rest + [row])
    ensures row.file in Files(OfRepo(rest, row.repo)) <==> row.file in Files(rest)
  {
    var own := OfRepo(rest, row.repo);
    OfRepoMembers(rest, row.repo);
    FilesMembers(rest, row.file);
    FilesMembers(own, row.file);
    if i :| 0 <= i < |rest| && rest[i].file == row.file {
      assert rest[i] in rest + [row] && row in rest + [row];
      assert rest[i] in own;
    }
    if i :| 0 <= i < |own| && own[i].file == row.file {
      assert own[i] in rest;
    }
  }

  lemma {:induction false} SinglePassSplits(rows: seq<Scan>, repo: nat)
    requires OneRepoPerFile(rows)
    ensures OfRepo(Latest(rows), repo) == Latest(OfRepo(rows, repo))
  {
    if rows != [] {
      var n := |rows| - 1;
      var rest, row := rows[..n], rows[n];
      assert rows == rest + [row];
      SinglePassSplits(rest, repo);
      LatestAppend(rest, row);
      OfRepoAppend(rest, row, repo);
      OfRepoAppend(Latest(rest), row, repo);
      LatestAppend(OfRepo(rest, repo), row);
      OwnFilesAgree(rest, row);
    }
  }

  lemma SpanningFileIsLost(rows: seq<Scan>, a: Scan, b: Scan)
    requires a in rows && b in rows && a.file == b.file && a.repo != b.repo
    ensures OfRepo(Latest(rows), a.repo) != Latest(OfRepo(rows, a.repo)) ||
              OfRepo(Latest(rows), b.repo) != Latest(OfRepo(rows, b.repo))
  {
    LatestMembers(rows);
    if OfRepo(Latest(rows), a.repo) == Latest(OfRepo(rows, a.repo)) &&
        OfRepo(Latest(rows), b.repo) == Latest(OfRepo(rows, b.repo)) {
      var i := KeptInItsRepo(rows, a);
      var j := KeptInItsRepo(rows, b);
    }
  }

  lemma KeptInItsRepo(rows: seq<Scan>, c: Scan) returns (i: nat)
    requires c in rows && OfRepo(Latest(rows), c.repo) == Latest(OfRepo(rows, c.repo))
    ensures i < |Latest(rows)| && Latest(rows)[i].file == c.file && Latest(rows)[i].repo == c.repo
  {
    var own := OfRepo(rows, c.repo);
    OfRepoMembers(rows, c.repo);
    FilesMembers(own, c.file);
    var k :| 0 <= k < |own| && own[k] == c;
    LatestMembers(own);
    FilesMembers(Latest(own), c.file);
    var j :| 0 <= j < |Latest(own)| && Latest(own)[j].file == c.file;
    OfRepoMembers(Latest(rows), c.repo);
    var kept := Latest(own)[j];
    assert kept in OfRepo(Latest(rows), c.repo);
    i :| 0 <= i < |Latest(rows)| && Latest(rows)[i] == kept;
  }

  /** The single pass over all repositories keeps for each the rows its own pass would keep,
      exactly when no file's rows span two repositories. */
  lemma BatchEqualsSingleExactlyWhenFilesDoNotSpan(rows: seq<Scan>)
    ensures OneRepoPerFile(rows) <==> forall repo: nat :: OfRepo(Latest(rows), repo) == Latest(OfRepo(rows, repo))
  {
    if OneRepoPerFile(rows) {
      forall repo: nat ensures OfRepo(Latest(rows), repo) == Latest(OfRepo(rows, repo)) {
        SinglePassSplits(rows, repo);
      }
    } else {
      var a, b :| a in rows && b in rows && a.file == b.file && a.repo != b.repo;
      SpanningFileIsLost(rows, a, b);
    }
  }
}
