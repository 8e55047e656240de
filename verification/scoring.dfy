/** Scores, grades and the averages published for a repository. Floats are modelled as reals. */
module Scoring {

  datatype Violation = Violation(severity: string, weight: real)

  // An insertion-ordered dict from group name to its violations.
  datatype Group = Group(name: string, violations: seq<Violation>)

  function SeverityPenalty(severity: string): real {
    if severity == "critical" then 20.0
    else if severity == "high" then 10.0
    else if severity == "medium" then 5.0
    else if severity == "low" then 2.0
    else if severity == "info" then 0.5
    else 5.0
  }

  function Penalty(vs: seq<Violation>): real {
    if vs == [] then 0.0
    else Penalty(vs[..|vs| - 1]) + SeverityPenalty(vs[|vs| - 1].severity) * vs[|vs| - 1].weight
  }

  function AtLeastZero(x: real): real {
    if x < 0.0 then 0.0 else x
  }

  function Sum(xs: seq<real>): real {
    if xs == [] then 0.0 else Sum(xs[..|xs| - 1]) + xs[|xs| - 1]
  }

  function Mean(xs: seq<real>): real
    requires xs != []
  {
    Sum(xs) / |xs| as real
  }

  function GroupScores(groups: seq<Group>): seq<real> {
    seq(|groups|, i requires 0 <= i < |groups| => AtLeastZero(100.0 - Penalty(groups[i].violations)))
  }

  function ComputeScore(target: seq<Violation>, groups: seq<Group>): real {
    var average := if groups == [] then 100.0 else Mean(GroupScores(groups));
    AtLeastZero(average - Penalty(target))
  }

  predicate NonNegative(vs: seq<Violation>) {
    forall v <- vs :: v.weight >= 0.0
  }

  predicate AllNonNegative(groups: seq<Group>) {
    forall g <- groups :: NonNegative(g.violations)
  }

  // ------------------------------------------------- bounds and monotonicity of the score

  lemma {:induction false} PenaltyIsNonNegative(vs: seq<Violation>)
    requires NonNegative(vs)
    ensures Penalty(vs) >= 0.0
  {
    if vs != [] {
      PenaltyIsNonNegative(vs[..|vs| - 1]);
      assert vs[|vs| - 1] in vs;
    }
  }

  lemma {:induction false} PenaltyOfConcat(a: seq<Violation>, b: seq<Violation>)
    ensures Penalty(a + b) == Penalty(a) + Penalty(b)
  {
    if b == [] {
      assert a + b == a;
    } else {
      assert (a + b)[..|a + b| - 1] == a + b[..|b| - 1];
      PenaltyOfConcat(a, b[..|b| - 1]);
    }
  }

  lemma {:induction false} SumBounds(xs: seq<real>, lo: real, hi: real)
    requires forall i | 0 <= i < |xs| :: lo <= xs[i] <= hi
    ensures lo * |xs| as real <= Sum(xs) <= hi * |xs| as real
  {
    if xs != [] {
      SumBounds(xs[..|xs| - 1], lo, hi);
    }
  }

  lemma MeanBounds(xs: seq<real>, lo: real, hi: real)
    requires xs != [] && forall i | 0 <= i < |xs| :: lo <= xs[i] <= hi
    ensures lo <= Mean(xs) <= hi
  {
    SumBounds(xs, lo, hi);
    DivideBounds(Sum(xs), |xs| as real, lo, hi);
  }

  lemma SignOfFactor(x: real, n: real)
    requires n > 0.0 && x * n >= 0.0
    ensures x >= 0.0
  {
  }

  lemma DivideBounds(s: real, n: real, lo: real, hi: real)
    requires n > 0.0 && lo * n <= s <= hi * n
    ensures lo <= s / n <= hi
  {
    var q := s / n;
    assert q * n == s;
    SignOfFactor(q - lo, n);
    SignOfFactor(hi - q, n);
  }

  lemma {:induction false} SumMonotone(xs: seq<real>, ys: seq<real>)
    requires |xs| == |ys| && forall i | 0 <= i < |xs| :: xs[i] <= ys[i]
    ensures Sum(xs) <= Sum(ys)
  {
    if xs != [] {
      SumMonotone(xs[..|xs| - 1], ys[..|ys| - 1]);
    }
  }

  lemma MeanMonotone(xs: seq<real>, ys: seq<real>)
    requires xs != [] && |xs| == |ys| && forall i | 0 <= i < |xs| :: xs[i] <= ys[i]
    ensures Mean(xs) <= Mean(ys)
  {
    SumMonotone(xs, ys);
    var n := |xs| as real;
    var d := Sum(ys) - Sum(xs);
    assert Sum(ys) / n == Sum(xs) / n + d / n;
    DivideBounds(Sum(ys), n, Sum(xs) / n, Sum(ys) / n);
  }

  lemma GroupScoresInRange(groups: seq<Group>)
    requires AllNonNegative(groups)
    ensures forall i | 0 <= i < |groups| :: 0.0 <= GroupScores(groups)[i] <= 100.0
  {
    forall i | 0 <= i < |groups| ensures 0.0 <= GroupScores(groups)[i] <= 100.0 {
      assert groups[i] in groups;
      PenaltyIsNonNegative(groups[i].violations);
    }
  }

  lemma ScoreInRange(target: seq<Violation>, groups: seq<Group>)
    requires NonNegative(target) && AllNonNegative(groups)
    ensures 0.0 <= ComputeScore(target, groups) <= 100.0
  {
    PenaltyIsNonNegative(target);
    if groups != [] {
      GroupScoresInRange(groups);
      MeanBounds(GroupScores(groups), 0.0, 100.0);
    }
  }

  // ------------------------------------------------- what the score is

  /** The sum of the scores the groups would have alone. */
  function OwnScores(groups: seq<Group>): real {
    if groups == [] then 0.0
    else OwnScores(groups[..|groups| - 1]) + ComputeScore(groups[|groups| - 1].violations, [])
  }

  lemma {:induction false} OwnScoresAre(groups: seq<Group>)
    ensures Sum(GroupScores(groups)) == OwnScores(groups) && OwnScores(groups) >= 0.0
  {
    if groups != [] {
      OwnScoresAre(groups[..|groups| - 1]);
      assert GroupScores(groups)[..|groups| - 1] == GroupScores(groups[..|groups| - 1]);
    }
  }

  lemma QuotientNotNegative(s: real, n: real)
    requires n > 0.0 && s >= 0.0
    ensures s / n >= 0.0
  {
    SignOfFactor(s / n, n);
  }

  /** Without violations of the target itself the score is the mean of the scores its groups would have alone. */
  lemma GroupMeanIsMean(groups: seq<Group>)
    requires groups != []
    ensures ComputeScore([], groups) == OwnScores(groups) / |groups| as real
    ensures Mean(GroupScores(groups)) >= 0.0
  {
    OwnScoresAre(groups);
    QuotientNotNegative(OwnScores(groups), |groups| as real);
  }

  /** Each violation of the target takes off its own cost: the score falls by exactly the sum of the costs, or to zero
      when they exceed what the groups leave. */
  lemma TargetCostsComeOff(target: seq<Violation>, groups: seq<Group>)
    ensures ComputeScore(target, groups) ==
            if Penalty(target) <= ComputeScore([], groups) then ComputeScore([], groups) - Penalty(target) else 0.0
    ensures ComputeScore([], []) == 100.0
  {
    if groups != [] {
      GroupMeanIsMean(groups);
    }
  }

  /** What one violation costs, by its severity and the weight of its rule; several cost the sum of what each does. */
  lemma ViolationCosts(a: seq<Violation>, v: Violation, b: seq<Violation>)
    ensures Penalty(a + [v] + b) == Penalty(a) + Penalty([v]) + Penalty(b) && Penalty([]) == 0.0
    ensures v.severity == "critical" ==> Penalty([v]) == 20.0 * v.weight
    ensures v.severity == "high" ==> Penalty([v]) == 10.0 * v.weight
    ensures v.severity == "medium" ==> Penalty([v]) == 5.0 * v.weight
    ensures v.severity == "low" ==> Penalty([v]) == 2.0 * v.weight
    ensures v.severity == "info" ==> Penalty([v]) == 0.5 * v.weight
    ensures v.severity !in {"critical", "high", "medium", "low", "info"} ==> Penalty([v]) == 5.0 * v.weight
  {
    PenaltyOfConcat(a + [v], b);
    PenaltyOfConcat(a, [v]);
    assert Penalty([v]) == Penalty([]) + SeverityPenalty(v.severity) * v.weight;
  }

  // ------------------------------------------------- how the score moves

  /** One more violation of the target, anywhere in its list, never raises the score or improves the grade. */
  lemma TargetViolationNeverHelps(a: seq<Violation>, v: Violation, b: seq<Violation>, groups: seq<Group>)
    requires v.weight >= 0.0
    ensures ComputeScore(a + [v] + b, groups) <= ComputeScore(a + b, groups)
    ensures Rung(ComputeScore(a + [v] + b, groups)) >= Rung(ComputeScore(a + b, groups))
  {
    PenaltyOfConcat(a + [v], b);
    PenaltyOfConcat(a, [v]);
    PenaltyOfConcat(a, b);
    PenaltyIsNonNegative([v]);
  }

  /** The same for one more violation in any group. */
  lemma GroupViolationNeverHelps(target: seq<Violation>, groups: seq<Group>, i: nat, v: Violation)
    requires i < |groups| && v.weight >= 0.0
    ensures var worse := groups[i := groups[i].(violations := groups[i].violations + [v])];
            && ComputeScore(target, worse) <= ComputeScore(target, groups)
            && Rung(ComputeScore(target, worse)) >= Rung(ComputeScore(target, groups))
  {
    var worse := groups[i := groups[i].(violations := groups[i].violations + [v])];
    PenaltyOfConcat(groups[i].violations, [v]);
    PenaltyIsNonNegative([v]);
    MeanMonotone(GroupScores(worse), GroupScores(groups));
  }

  /** A clean group never lowers the score. */
  lemma CleanGroupNeverHurts(target: seq<Violation>, groups: seq<Group>, name: string)
    requires AllNonNegative(groups)
    ensures ComputeScore(target, groups + [Group(name, [])]) >= ComputeScore(target, groups)
  {
    var more := groups + [Group(name, [])];
    var xs := GroupScores(groups);
    assert GroupScores(more) == xs + [100.0];
    assert (xs + [100.0])[..|xs|] == xs;
    if groups == [] {
      assert Sum(xs + [100.0]) == 100.0;
    } else {
      GroupScoresInRange(groups);
      HundredNeverLowersTheMean(xs);
    }
  }

  lemma HundredNeverLowersTheMean(xs: seq<real>)
    requires xs != [] && forall i | 0 <= i < |xs| :: 0.0 <= xs[i] <= 100.0
    ensures Mean(xs) <= Mean(xs + [100.0])
  {
    assert (xs + [100.0])[..|xs|] == xs;
    SumBounds(xs, 0.0, 100.0);
    MeanBounds(xs, 0.0, 100.0);
    var n, m := |xs| as real, Mean(xs);
    assert m * n == Sum(xs);
    assert m * (n + 1.0) == Sum(xs) + m;
    DivideBounds(Sum(xs) + 100.0, n + 1.0, m, 100.0);
  }

  // ------------------------------------------------- per-file mean against pooling

  function Lookup(perFile: seq<Group>, name: string): seq<Violation> {
    if perFile == [] then []
    else if perFile[0].name == name then perFile[0].violations
    else Lookup(perFile[1..], name)
  }

  function Pool(perFile: seq<Group>): seq<Violation> {
    if perFile == [] then [] else perFile[0].violations + Pool(perFile[1..])
  }

  function FileGroups(perFile: seq<Group>, fetched: seq<string>): (groups: seq<Group>)
    ensures |groups| == |fetched|
  {
    seq(|fetched|, i requires 0 <= i < |fetched| => Group(fetched[i], Lookup(perFile, fetched[i])))
  }

  /** The two ways a target is graded: per fetched file, clean files included, or pooled. */
  function TargetScore(perFileMode: bool, perFile: seq<Group>, fetched: seq<string>): real {
    if perFileMode then ComputeScore([], FileGroups(perFile, fetched))
    else ComputeScore(Pool(perFile), [])
  }

  lemma {:induction false} LookupCostsNoMoreThanPool(perFile: seq<Group>, name: string)
    requires AllNonNegative(perFile)
    ensures 0.0 <= Penalty(Lookup(perFile, name)) <= Penalty(Pool(perFile))
  {
    if perFile != [] {
      assert perFile[0] in perFile;
      PenaltyIsNonNegative(perFile[0].violations);
      LookupCostsNoMoreThanPool(perFile[1..], name);
      PenaltyOfConcat(perFile[0].violations, Pool(perFile[1..]));
    }
  }

  /** Averaging per file never grades a target below pooling the same violations. */
  lemma PerFileNeverBelowPooled(perFile: seq<Group>, fetched: seq<string>)
    requires AllNonNegative(perFile) && fetched != []
    ensures TargetScore(true, perFile, fetched) >= TargetScore(false, perFile, fetched)
  {
    var groups := FileGroups(perFile, fetched);
    var pooled := TargetScore(false, perFile, fetched);
    forall i | 0 <= i < |groups| ensures pooled <= GroupScores(groups)[i] <= 100.0 {
      LookupCostsNoMoreThanPool(perFile, fetched[i]);
    }
    MeanBounds(GroupScores(groups), pooled, 100.0);
    assert Penalty([]) == 0.0;
    assert pooled >= 0.0;
  }

  // ------------------------------------------------- grades

  const THRESHOLDS: seq<real> := [98.0, 95.0, 90.0, 85.0, 70.0, 55.0, 40.0, 0.0]
  const LADDER: seq<string> := ["A+++", "A++", "A+", "A", "B", "C", "D", "F"]

  /** How far down the ladder a score falls: the number of rungs it misses, the last one never missed. */
  function Rung(score: real): (r: nat)
    ensures r < 8
  {
    if score >= 98.0 then 0 else if score >= 95.0 then 1 else if score >= 90.0 then 2 else if score >= 85.0 then 3
    else if score >= 70.0 then 4 else if score >= 55.0 then 5 else if score >= 40.0 then 6 else 7
  }

  /** The first rung whose threshold the score reaches. */
  method ScoreToGrade(score: real) returns (grade: string)
    ensures grade == LADDER[Rung(score)]
    ensures grade == (
              if score >= 98.0 then "A+++" else if score >= 95.0 then "A++" else if score >= 90.0 then "A+"
              else if score >= 85.0 then "A" else if score >= 70.0 then "B" else if score >= 55.0 then "C"
              else if score >= 40.0 then "D" else "F")
  {
    for i := 0 to |THRESHOLDS|
      invariant forall j | 0 <= j < i :: score < THRESHOLDS[j]
    {
      if score >= THRESHOLDS[i] {
        assert i == Rung(score) by {
          if i > 0 { assert score < THRESHOLDS[i - 1]; }
        }
        return LADDER[i];
      }
    }
    assert score < THRESHOLDS[7];
    grade := "F";
  }
}
