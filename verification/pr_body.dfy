/** What a delivery says it fixed: commit messages, the pull request's file sections and its manual-work list. */
module PrBody {

  datatype Finding = Finding(id: nat, resolved: bool, manual: bool)
  datatype Fix = Fix(path: string, findings: seq<Finding>)

  // The description line by line; only the lines that carry a file or a finding are told apart.
  datatype Line =
    | Text
    | FileHeading(path: string)
    | FixedLine(finding: Finding)
    | ManualHeading(count: nat)
    | ManualLine(path: string, finding: Finding)

  function Open(findings: seq<Finding>): seq<Finding> {
    if findings == [] then []
    else Open(findings[..|findings| - 1]) + if findings[|findings| - 1].resolved then [] else [findings[|findings| - 1]]
  }

  function Fixed(findings: seq<Finding>): seq<Finding> {
    if findings == [] then []
    else
      var f := findings[|findings| - 1];
      Fixed(findings[..|findings| - 1]) + if f.resolved || f.manual then [] else [f]
  }

  function Manual(findings: seq<Finding>): seq<Finding> {
    if findings == [] then []
    else
      var f := findings[|findings| - 1];
      Manual(findings[..|findings| - 1]) + if !f.resolved && f.manual then [f] else []
  }

  /** The number a file's commit message claims. */
  function CommitCount(fix: Fix): nat {
    |Fixed(fix.findings)|
  }

  /** A rewrite that leaves open every finding it was made for is withheld. */
  predicate ResolvesSomething(fix: Fix) {
    Open(fix.findings) == [] || exists f :: f in Open(fix.findings) && !f.manual
  }

  lemma {:induction false} OpenOn(a: seq<Finding>, b: seq<Finding>)
    ensures Open(a + b) == Open(a) + Open(b)
  {
    if b == [] {
      assert a + b == a;
    } else {
      OpenOn(a, b[..|b| - 1]);
      assert (a + b)[..|a + b| - 1] == a + b[..|b| - 1];
    }
  }

  lemma {:induction false} FixedOn(a: seq<Finding>, b: seq<Finding>)
    ensures Fixed(a + b) == Fixed(a) + Fixed(b)
  {
    if b == [] {
      assert a + b == a;
    } else {
      FixedOn(a, b[..|b| - 1]);
      assert (a + b)[..|a + b| - 1] == a + b[..|b| - 1];
    }
  }

  lemma {:induction false} ManualOn(a: seq<Finding>, b: seq<Finding>)
    ensures Manual(a + b) == Manual(a) + Manual(b)
  {
    if b == [] {
      assert a + b == a;
    } else {
      ManualOn(a, b[..|b| - 1]);
      assert (a + b)[..|a + b| - 1] == a + b[..|b| - 1];
    }
  }

  lemma OneFindingByFlags(f: Finding)
    ensures Open([f]) == if f.resolved then [] else [f]
    ensures Fixed([f]) == if f.resolved || f.manual then [] else [f]
    ensures Manual([f]) == if !f.resolved && f.manual then [f] else []
  {
  }

  /** Open, fixed and manual findings are those the flags say, each as often as it is given and in the order given. */
  lemma FindingsByFlags(a: seq<Finding>, f: Finding, b: seq<Finding>)
    ensures Open(a + [f] + b) == Open(a) + (if f.resolved then [] else [f]) + Open(b)
    ensures Fixed(a + [f] + b) == Fixed(a) + (if f.resolved || f.manual then [] else [f]) + Fixed(b)
    ensures Manual(a + [f] + b) == Manual(a) + (if !f.resolved && f.manual then [f] else []) + Manual(b)
  {
    OneFindingByFlags(f);
    OpenOn(a, [f]);
    OpenOn(a + [f], b);
    FixedOn(a, [f]);
    FixedOn(a + [f], b);
    ManualOn(a, [f]);
    ManualOn(a + [f], b);
  }

  /** What is withheld: a rewrite with something open and all of it left for manual work. */
  lemma {:induction false} OpenAreUnresolved(findings: seq<Finding>)
    ensures forall f :: f in Open(findings) <==> f in findings && !f.resolved
  {
    if findings != [] {
      var n := |findings| - 1;
      OpenAreUnresolved(findings[..n]);
      assert findings == findings[..n] + [findings[n]];
    }
  }

  lemma WithheldExactlyWhen(fix: Fix)
    ensures !ResolvesSomething(fix) <==>
              && (exists f <- fix.findings :: !f.resolved)
              && forall f <- fix.findings :: f.resolved || f.manual
  {
    OpenAreUnresolved(fix.findings);
    if Open(fix.findings) != [] {
      assert Open(fix.findings)[0] in Open(fix.findings);
    }
  }

  // ------------------------------------------------- sorting by path

  predicate Before(a: string, b: string) {
    if a == "" then true
    else if b == "" then false
    else a[0] < b[0] || (a[0] == b[0] && Before(a[1..], b[1..]))
  }

  predicate Sorted(fixes: seq<Fix>) {
    forall i, j | 0 <= i < j < |fixes| :: Before(fixes[i].path, fixes[j].path)
  }

  lemma {:induction false} BeforeIsTotal(a: string, b: string)
    ensures Before(a, b) || Before(b, a)
  {
    if a != "" && b != "" && a[0] == b[0] { BeforeIsTotal(a[1..], b[1..]); }
  }

  lemma {:induction false} BeforeIsTransitive(a: string, b: string, c: string)
    requires Before(a, b) && Before(b, c)
    ensures Before(a, c)
  {
    if a != "" && a[0] == b[0] && b[0] == c[0] { BeforeIsTransitive(a[1..], b[1..], c[1..]); }
  }

  predicate FirstLessAt(a: string, b: string, n: nat) {
    n < |a| && n < |b| && a[..n] == b[..n] && a[n] < b[n]
  }

  lemma LessAtStart(a: string, b: string, n: nat)
    requires FirstLessAt(a, b, n)
    ensures n > 0 ==> a[0] == b[0]
  {
    if n > 0 {
      assert a[..n][0] == a[0] && b[..n][0] == b[0];
    }
  }

  lemma SameStart(a: string, b: string)
    requires a != "" && b != "" && a[0] == b[0]
    ensures a <= b <==> a[1..] <= b[1..]
    ensures (exists n: nat :: FirstLessAt(a, b, n)) <==> exists n: nat :: FirstLessAt(a[1..], b[1..], n)
  {
    assert a == [a[0]] + a[1..] && b == [b[0]] + b[1..];
    if n: nat :| FirstLessAt(a, b, n) {
      assert a[1..][..n - 1] == a[..n][1..] && b[1..][..n - 1] == b[..n][1..];
      assert FirstLessAt(a[1..], b[1..], n - 1);
    }
    if n: nat :| FirstLessAt(a[1..], b[1..], n) {
      assert a[..n + 1] == [a[0]] + a[1..][..n] && b[..n + 1] == [b[0]] + b[1..][..n];
      assert FirstLessAt(a, b, n + 1);
    }
  }

  /** It is the order of the first difference, and a path comes before those it begins. */
  lemma {:induction false} BeforeExactlyWhen(a: string, b: string)
    ensures Before(a, b) <==> a <= b || exists n: nat :: FirstLessAt(a, b, n)
  {
    if a == "" || b == "" {
    } else if a[0] == b[0] {
      SameStart(a, b);
      BeforeExactlyWhen(a[1..], b[1..]);
    } else {
      assert FirstLessAt(a, b, 0) <==> a[0] < b[0];
      forall n: nat | FirstLessAt(a, b, n) ensures n == 0 {
        LessAtStart(a, b, n);
      }
    }
  }

  function Insert(fix: Fix, fixes: seq<Fix>): seq<Fix> {
    if fixes == [] then [fix]
    else if Before(fix.path, fixes[0].path) then [fix] + fixes
    else [fixes[0]] + Insert(fix, fixes[1..])
  }

  /** The order `sorted` by path gives. */
  function SortByPath(fixes: seq<Fix>): seq<Fix> {
    if fixes == [] then [] else Insert(fixes[0], SortByPath(fixes[1..]))
  }

  lemma {:induction false} InsertHolds(fix: Fix, fixes: seq<Fix>)
    ensures multiset(Insert(fix, fixes)) == multiset(fixes) + multiset{fix}
  {
    if fixes != [] {
      assert fixes == [fixes[0]] + fixes[1..];
      if !Before(fix.path, fixes[0].path) {
        InsertHolds(fix, fixes[1..]);
      }
    }
  }

  lemma SortedCons(fix: Fix, fixes: seq<Fix>)
    requires Sorted(fixes) && forall g <- fixes :: Before(fix.path, g.path)
    ensures Sorted([fix] + fixes)
  {}

  lemma {:induction false} InsertSorted(fix: Fix, fixes: seq<Fix>)
    requires Sorted(fixes)
    ensures Sorted(Insert(fix, fixes))
  {
    if fixes != [] {
      if Before(fix.path, fixes[0].path) {
        forall g | g in fixes ensures Before(fix.path, g.path) {
          var j :| 0 <= j < |fixes| && fixes[j] == g;
          if j > 0 {
            BeforeIsTransitive(fix.path, fixes[0].path, g.path);
          }
        }
        SortedCons(fix, fixes);
      } else {
        BeforeIsTotal(fix.path, fixes[0].path);
        InsertSorted(fix, fixes[1..]);
        InsertHolds(fix, fixes[1..]);
        forall g | g in Insert(fix, fixes[1..]) ensures Before(fixes[0].path, g.path) {
          assert g in multiset(fixes[1..]) + multiset{fix};
        }
        SortedCons(fixes[0], Insert(fix, fixes[1..]));
      }
    }
  }

  lemma {:induction false} SortKeeps(fixes: seq<Fix>)
    ensures Sorted(SortByPath(fixes)) && multiset(SortByPath(fixes)) == multiset(fixes)
  {
    if fixes != [] {
      SortKeeps(fixes[1..]);
      InsertHolds(fixes[0], SortByPath(fixes[1..]));
      InsertSorted(fixes[0], SortByPath(fixes[1..]));
      assert fixes == [fixes[0]] + fixes[1..];
    }
  }

  // ------------------------------------------------- the body, as the loops write it

  datatype Note = Note(path: string, finding: Finding)

  function FixedLines(findings: seq<Finding>): seq<Line> {
    seq(|findings|, i requires 0 <= i < |findings| => FixedLine(findings[i]))
  }

  function Section(fix: Fix): seq<Line> {
    [FileHeading(fix.path)] + FixedLines(Fixed(fix.findings)) + [Text]
  }

  function Sections(fixes: seq<Fix>): seq<Line> {
    if fixes == [] then [] else Sections(fixes[..|fixes| - 1]) + Section(fixes[|fixes| - 1])
  }

  function Notes(path: string, findings: seq<Finding>): seq<Note> {
    seq(|findings|, i requires 0 <= i < |findings| => Note(path, findings[i]))
  }

  function AllNotes(fixes: seq<Fix>): seq<Note> {
    if fixes == [] then []
    else
      var fix := fixes[|fixes| - 1];
      AllNotes(fixes[..|fixes| - 1]) + Notes(fix.path, Manual(fix.findings))
  }

  function ManualLines(notes: seq<Note>): seq<Line> {
    seq(|notes|, i requires 0 <= i < |notes| => ManualLine(notes[i].path, notes[i].finding))
  }

  const HEADER: seq<Line> := [Text, Text, Text, Text]

  function Body(fixes: seq<Fix>): seq<Line> {
    var notes := AllNotes(SortByPath(fixes));
    HEADER + Sections(SortByPath(fixes)) +
    if notes == [] then [] else ManualSection(notes)
  }

  lemma LinesStep(fix: Fix, i: nat)
    requires i < |fix.findings|
    ensures var f, was, now := fix.findings[i], fix.findings[..i], fix.findings[..i + 1];
            && FixedLines(Fixed(now)) ==
                 FixedLines(Fixed(was)) + (if f.resolved || f.manual then [] else [FixedLine(f)])
            && Notes(fix.path, Manual(now)) ==
                 Notes(fix.path, Manual(was)) + (if !f.resolved && f.manual then [Note(fix.path, f)] else [])
  {
    assert fix.findings[..i + 1][..i] == fix.findings[..i];
  }

  method WriteSection(fix: Fix, lines: seq<Line>, manual: seq<Note>) returns (lines': seq<Line>, manual': seq<Note>)
    ensures lines' == lines + Section(fix)
    ensures manual' == manual + Notes(fix.path, Manual(fix.findings))
  {
    lines', manual' := lines + [FileHeading(fix.path)], manual;
    ghost var head := lines';
    for i := 0 to |fix.findings|
      invariant lines' == head + FixedLines(Fixed(fix.findings[..i]))
      invariant manual' == manual + Notes(fix.path, Manual(fix.findings[..i]))
    {
      LinesStep(fix, i);
      Regrouped(head, FixedLines(Fixed(fix.findings[..i])), FixedLine(fix.findings[i]));
      Regrouped(manual, Notes(fix.path, Manual(fix.findings[..i])), Note(fix.path, fix.findings[i]));
      var finding := fix.findings[i];
      if !finding.resolved {
        if finding.manual {
          manual' := manual' + [Note(fix.path, finding)];
        } else {
          lines' := lines' + [FixedLine(finding)];
        }
      }
    }
    assert fix.findings[..|fix.findings|] == fix.findings;
    lines' := lines' + [Text];
    SectionIs(lines, fix);
  }

  lemma Regrouped<T>(a: seq<T>, b: seq<T>, x: T)
    ensures a + (b + [x]) == a + b + [x] && a + (b + []) == a + b
  {
  }

  lemma SectionIs(lines: seq<Line>, fix: Fix)
    ensures lines + [FileHeading(fix.path)] + FixedLines(Fixed(fix.findings)) + [Text] == lines + Section(fix)
  {
  }

  function ManualSection(notes: seq<Note>): seq<Line> {
    [Text, Text, ManualHeading(|notes|), Text, Text, Text] + ManualLines(notes) + [Text]
  }

  method WriteManual(manual: seq<Note>, lines: seq<Line>) returns (lines': seq<Line>)
    ensures lines' == lines + ManualSection(manual)
  {
    lines' := lines + [Text, Text, ManualHeading(|manual|), Text, Text, Text];
    for i := 0 to |manual|
      invariant lines' == lines + [Text, Text, ManualHeading(|manual|), Text, Text, Text] + ManualLines(manual[..i])
    {
      lines' := lines' + [ManualLine(manual[i].path, manual[i].finding)];
      assert ManualLines(manual[..i + 1]) == ManualLines(manual[..i]) + [ManualLine(manual[i].path, manual[i].finding)];
    }
    assert manual[..|manual|] == manual;
    lines' := lines' + [Text];
  }

  lemma SectionsStep(fixes: seq<Fix>, i: nat)
    requires i < |fixes|
    ensures Sections(fixes[..i + 1]) == Sections(fixes[..i]) + Section(fixes[i])
    ensures AllNotes(fixes[..i + 1]) == AllNotes(fixes[..i]) + Notes(fixes[i].path, Manual(fixes[i].findings))
  {
    assert fixes[..i + 1][..i] == fixes[..i];
  }

  method WriteSections(sorted: seq<Fix>, head: seq<Line>) returns (lines: seq<Line>, manual: seq<Note>)
    ensures lines == head + Sections(sorted)
    ensures manual == AllNotes(sorted)
  {
    lines, manual := head, [];
    for i := 0 to |sorted|
      invariant lines == head + Sections(sorted[..i])
      invariant manual == AllNotes(sorted[..i])
    {
      SectionsStep(sorted, i);
      lines, manual := WriteSection(sorted[i], lines, manual);
    }
    assert sorted[..|sorted|] == sorted;
  }

  method BuildPrBody(fixes: seq<Fix>) returns (lines: seq<Line>)
    ensures lines == Body(fixes)
  {
    var manual;
    lines, manual := WriteSections(SortByPath(fixes), HEADER);
    if |manual| > 0 {
      lines := WriteManual(manual, lines);
    }
  }

  // ------------------------------------------------- what a reader of the lines sees

  /** Every finding the lines name, with the file they put it under; h is the heading so far. */
  function Account(h: string, lines: seq<Line>): multiset<Note>
    decreases |lines|
  {
    if lines == [] then multiset{}
    else match lines[0]
      case FileHeading(p) => Account(p, lines[1..])
      case FixedLine(f) => multiset{Note(h, f)} + Account(h, lines[1..])
      case ManualLine(p, f) => multiset{Note(p, f)} + Account(h, lines[1..])
      case Text => Account(h, lines[1..])
      case ManualHeading(_) => Account(h, lines[1..])
  }

  /** The findings listed as fixed under the heading of one file. */
  function ListedUnder(h: string, lines: seq<Line>, path: string): seq<Finding>
    decreases |lines|
  {
    if lines == [] then []
    else match lines[0]
      case FileHeading(p) => ListedUnder(p, lines[1..], path)
      case FixedLine(f) => (if h == path then [f] else []) + ListedUnder(h, lines[1..], path)
      case ManualLine(_, _) => ListedUnder(h, lines[1..], path)
      case Text => ListedUnder(h, lines[1..], path)
      case ManualHeading(_) => ListedUnder(h, lines[1..], path)
  }

  function HeadingAfter(h: string, lines: seq<Line>): string
    decreases |lines|
  {
    if lines == [] then h
    else HeadingAfter(if lines[0].FileHeading? then lines[0].path else h, lines[1..])
  }

  function OpenNotes(fix: Fix): multiset<Note> {
    multiset(Notes(fix.path, Open(fix.findings)))
  }

  function AllOpen(fixes: seq<Fix>): multiset<Note> {
    if fixes == [] then multiset{} else AllOpen(fixes[..|fixes| - 1]) + OpenNotes(fixes[|fixes| - 1])
  }

  function Heading(h: string, line: Line): string {
    if line.FileHeading? then line.path else h
  }

  lemma {:induction false} AccountOn(h: string, a: seq<Line>, b: seq<Line>)
    ensures Account(h, a + b) == Account(h, a) + Account(HeadingAfter(h, a), b)
    ensures HeadingAfter(h, a + b) == HeadingAfter(HeadingAfter(h, a), b)
    decreases |a|
  {
    if a == [] {
      assert a + b == b;
    } else {
      assert (a + b)[1..] == a[1..] + b && (a + b)[0] == a[0];
      AccountOn(Heading(h, a[0]), a[1..], b);
    }
  }

  lemma {:induction false} ListedOn(h: string, a: seq<Line>, b: seq<Line>, path: string)
    ensures ListedUnder(h, a + b, path) == ListedUnder(h, a, path) + ListedUnder(HeadingAfter(h, a), b, path)
    decreases |a|
  {
    if a == [] {
      assert a + b == b;
    } else {
      assert (a + b)[1..] == a[1..] + b && (a + b)[0] == a[0];
      ListedOn(Heading(h, a[0]), a[1..], b, path);
    }
  }

  lemma ReadOn(h: string, a: seq<Line>, b: seq<Line>, path: string)
    ensures Account(h, a + b) == Account(h, a) + Account(HeadingAfter(h, a), b)
    ensures ListedUnder(h, a + b, path) == ListedUnder(h, a, path) + ListedUnder(HeadingAfter(h, a), b, path)
    ensures HeadingAfter(h, a + b) == HeadingAfter(HeadingAfter(h, a), b)
  {
    AccountOn(h, a, b);
    ListedOn(h, a, b, path);
  }

  lemma ReadLine(h: string, line: Line, path: string)
    requires !line.FileHeading?
    ensures Account(h, [line]) ==
              if line.FixedLine? then multiset{Note(h, line.finding)}
              else if line.ManualLine? then multiset{Note(line.path, line.finding)} else multiset{}
    ensures ListedUnder(h, [line], path) == if line.FixedLine? && h == path then [line.finding] else []
    ensures HeadingAfter(h, [line]) == h
  {
    assert [line][1..] == [];
  }

  lemma {:induction false} AccountFixedLines(h: string, findings: seq<Finding>)
    ensures Account(h, FixedLines(findings)) == multiset(Notes(h, findings))
    ensures HeadingAfter(h, FixedLines(findings)) == h
  {
    if findings == [] {
      assert Notes(h, findings) == [];
    } else {
      AccountFixedLines(h, findings[1..]);
      assert FixedLines(findings)[1..] == FixedLines(findings[1..]);
      assert Notes(h, findings) == [Note(h, findings[0])] + Notes(h, findings[1..]);
    }
  }

  lemma {:induction false} ListedFixedLines(h: string, findings: seq<Finding>, path: string)
    ensures ListedUnder(h, FixedLines(findings), path) == if h == path then findings else []
  {
    if findings != [] {
      ListedFixedLines(h, findings[1..], path);
      assert FixedLines(findings)[1..] == FixedLines(findings[1..]);
      assert findings == [findings[0]] + findings[1..];
    }
  }

  lemma {:induction false} ReadManualLines(h: string, notes: seq<Note>, path: string)
    ensures Account(h, ManualLines(notes)) == multiset(notes)
    ensures ListedUnder(h, ManualLines(notes), path) == []
  {
    if notes != [] {
      ReadManualLines(h, notes[1..], path);
      assert ManualLines(notes)[1..] == ManualLines(notes[1..]);
      assert notes == [notes[0]] + notes[1..];
    }
  }

  lemma ReadSection(h: string, fix: Fix, path: string)
    ensures Account(h, Section(fix)) == multiset(Notes(fix.path, Fixed(fix.findings)))
    ensures ListedUnder(h, Section(fix), path) == if fix.path == path then Fixed(fix.findings) else []
  {
    var lines := FixedLines(Fixed(fix.findings));
    assert Section(fix) == [FileHeading(fix.path)] + (lines + [Text]);
    AccountFixedLines(fix.path, Fixed(fix.findings));
    ListedFixedLines(fix.path, Fixed(fix.findings), path);
    ReadOn(fix.path, lines, [Text], path);
    assert Section(fix)[1..] == lines + [Text];
  }

  /** Open findings are those fixed and those left for manual work, each once. */
  lemma {:induction false} OpenSplits(path: string, findings: seq<Finding>)
    ensures multiset(Notes(path, Open(findings))) ==
            multiset(Notes(path, Fixed(findings))) + multiset(Notes(path, Manual(findings)))
  {
    if findings != [] {
      var n := |findings| - 1;
      var f := findings[n];
      OpenSplits(path, findings[..n]);
      NotesAppend(path, Open(findings[..n]), f);
      NotesAppend(path, Fixed(findings[..n]), f);
      NotesAppend(path, Manual(findings[..n]), f);
    }
  }

  lemma NotesAppend(path: string, findings: seq<Finding>, f: Finding)
    ensures multiset(Notes(path, findings + [f])) == multiset(Notes(path, findings)) + multiset{Note(path, f)}
    ensures findings + [] == findings
  {
    assert Notes(path, findings + [f]) == Notes(path, findings) + [Note(path, f)];
  }

  predicate DistinctPaths(fixes: seq<Fix>) {
    forall i, j | 0 <= i < j < |fixes| :: fixes[i].path != fixes[j].path
  }

  lemma {:induction false} AccountSections(h: string, fixes: seq<Fix>)
    ensures Account(h, Sections(fixes)) + multiset(AllNotes(fixes)) == AllOpen(fixes)
  {
    if fixes != [] {
      var n := |fixes| - 1;
      var fix := fixes[n];
      AccountSections(h, fixes[..n]);
      ReadOn(h, Sections(fixes[..n]), Section(fix), "");
      ReadSection(HeadingAfter(h, Sections(fixes[..n])), fix, "");
      OpenSplits(fix.path, fix.findings);
    }
  }

  lemma ListSectionsStep(h: string, fixes: seq<Fix>, fix: Fix, path: string)
    ensures ListedUnder(h, Sections(fixes + [fix]), path) ==
            ListedUnder(h, Sections(fixes), path) + if fix.path == path then Fixed(fix.findings) else []
  {
    assert (fixes + [fix])[..|fixes|] == fixes;
    ReadOn(h, Sections(fixes), Section(fix), path);
    ReadSection(HeadingAfter(h, Sections(fixes)), fix, path);
  }

  lemma {:induction false} ListSections(h: string, fixes: seq<Fix>, path: string)
    requires DistinctPaths(fixes)
    ensures (forall i | 0 <= i < |fixes| :: fixes[i].path != path) ==> ListedUnder(h, Sections(fixes), path) == []
    ensures forall i | 0 <= i < |fixes| && fixes[i].path == path ::
              ListedUnder(h, Sections(fixes), path) == Fixed(fixes[i].findings)
  {
    if fixes != [] {
      var n := |fixes| - 1;
      var rest, fix := fixes[..n], fixes[n];
      ListSections(h, rest, path);
      assert fixes == rest + [fix];
      ListSectionsStep(h, rest, fix, path);
    }
  }

  lemma {:induction false} AllOpenOf(fixes: seq<Fix>, x: Fix)
    ensures AllOpen([x] + fixes) == OpenNotes(x) + AllOpen(fixes)
  {
    var all := [x] + fixes;
    if fixes == [] {
      assert all[..0] == [];
    } else {
      var n := |fixes| - 1;
      AllOpenOf(fixes[..n], x);
      assert all[..n + 1] == [x] + fixes[..n];
    }
  }

  lemma OpenOfHead(fixes: seq<Fix>)
    requires fixes != []
    ensures AllOpen(fixes) == OpenNotes(fixes[0]) + AllOpen(fixes[1..])
  {
    AllOpenOf(fixes[1..], fixes[0]);
    assert fixes == [fixes[0]] + fixes[1..];
  }

  lemma {:induction false} InsertKeepsOpen(x: Fix, fixes: seq<Fix>)
    ensures AllOpen(Insert(x, fixes)) == OpenNotes(x) + AllOpen(fixes)
  {
    if fixes == [] || Before(x.path, fixes[0].path) {
      AllOpenOf(fixes, x);
      assert Insert(x, fixes) == [x] + fixes;
    } else {
      InsertKeepsOpen(x, fixes[1..]);
      OpenOfHead(fixes);
      AllOpenOf(Insert(x, fixes[1..]), fixes[0]);
    }
  }

  lemma {:induction false} SortKeepsOpen(fixes: seq<Fix>)
    ensures AllOpen(SortByPath(fixes)) == AllOpen(fixes)
  {
    if fixes != [] {
      SortKeepsOpen(fixes[1..]);
      InsertKeepsOpen(fixes[0], SortByPath(fixes[1..]));
      AllOpenOf(fixes[1..], fixes[0]);
      assert fixes == [fixes[0]] + fixes[1..];
    }
  }

  lemma ReadTexts(h: string, n: nat, path: string)
    ensures var texts := seq(n, i => Text);
            Account(h, texts) == multiset{} && ListedUnder(h, texts, path) == [] && HeadingAfter(h, texts) == h
  {
    var texts := seq(n, i => Text);
    if n > 0 {
      ReadTexts(h, n - 1, path);
      assert texts[1..] == seq(n - 1, i => Text);
    }
  }

  lemma ReadManualTail(h: string, notes: seq<Note>, path: string)
    ensures Account(h, ManualLines(notes) + [Text]) == multiset(notes)
    ensures ListedUnder(h, ManualLines(notes) + [Text], path) == []
  {
    ReadManualLines(h, notes, path);
    ReadLine(HeadingAfter(h, ManualLines(notes)), Text, path);
    ReadOn(h, ManualLines(notes), [Text], path);
  }

  lemma ReadManualHead(h: string, count: nat, path: string)
    ensures var head := [Text, Text, ManualHeading(count), Text, Text, Text];
            Account(h, head) == multiset{} && ListedUnder(h, head, path) == [] && HeadingAfter(h, head) == h
  {
    var lead, line, gap := seq(2, i => Text), ManualHeading(count), seq(3, i => Text);
    ReadTexts(h, 2, path);
    ReadTexts(h, 3, path);
    ReadLine(h, line, path);
    ReadOn(h, [line], gap, path);
    ReadOn(h, lead, [line] + gap, path);
    assert [Text, Text, ManualHeading(count), Text, Text, Text] == lead + ([line] + gap);
  }

  lemma ReadManualSection(h: string, notes: seq<Note>, path: string)
    ensures Account(h, ManualSection(notes)) == multiset(notes)
    ensures ListedUnder(h, ManualSection(notes), path) == []
  {
    var head := [Text, Text, ManualHeading(|notes|), Text, Text, Text];
    ReadManualHead(h, |notes|, path);
    ReadManualTail(h, notes, path);
    ReadOn(h, head, ManualLines(notes) + [Text], path);
    assert ManualSection(notes) == head + (ManualLines(notes) + [Text]);
  }

  lemma ReadAround(h: string, head: seq<Line>, mid: seq<Line>, end: seq<Line>, path: string)
    requires Account(h, head) == multiset{} && ListedUnder(h, head, path) == [] && HeadingAfter(h, head) == h
    requires ListedUnder(HeadingAfter(h, mid), end, path) == []
    ensures Account(h, head + mid + end) == Account(h, mid) + Account(HeadingAfter(h, mid), end)
    ensures ListedUnder(h, head + mid + end, path) == ListedUnder(h, mid, path)
  {
    ReadOn(h, head, mid, path);
    ReadOn(h, head + mid, end, path);
  }

  lemma ReadBody(fixes: seq<Fix>, path: string)
    ensures var sorted := SortByPath(fixes);
            && Account("", Body(fixes)) == Account("", Sections(sorted)) + multiset(AllNotes(sorted))
            && ListedUnder("", Body(fixes), path) == ListedUnder("", Sections(sorted), path)
  {
    var sections, notes := Sections(SortByPath(fixes)), AllNotes(SortByPath(fixes));
    assert HEADER == seq(4, i => Text);
    ReadTexts("", 4, path);
    ReadManualSection(HeadingAfter("", sections), notes, path);
    ReadAround("", HEADER, sections, if notes == [] then [] else ManualSection(notes), path);
  }

  /** The body names every unresolved finding of the delivered fixes exactly once, under its own file. */
  lemma BodyAccountsForEveryFinding(fixes: seq<Fix>)
    ensures Account("", Body(fixes)) == AllOpen(fixes)
  {
    ReadBody(fixes, "");
    AccountSections("", SortByPath(fixes));
    SortKeepsOpen(fixes);
  }

  /** A file's commit message counts exactly the findings its section lists. */
  lemma CommitCountIsSectionLength(fixes: seq<Fix>, i: nat)
    requires DistinctPaths(fixes) && i < |fixes|
    ensures ListedUnder("", Body(fixes), fixes[i].path) == Fixed(fixes[i].findings)
    ensures |ListedUnder("", Body(fixes), fixes[i].path)| == CommitCount(fixes[i])
  {
    var sorted := SortByPath(fixes);
    SortKeeps(fixes);
    assert fixes[i] in multiset(sorted);
    var k :| 0 <= k < |sorted| && sorted[k] == fixes[i];
    SortDistinct(fixes);
    ReadBody(fixes, fixes[i].path);
    ListSections("", sorted, fixes[i].path);
  }

  lemma {:induction false} InsertDistinct(x: Fix, fixes: seq<Fix>)
    requires DistinctPaths(fixes) && Sorted(fixes) && forall f <- fixes :: f.path != x.path
    ensures DistinctPaths(Insert(x, fixes))
  {
    if fixes != [] && !Before(x.path, fixes[0].path) {
      InsertDistinct(x, fixes[1..]);
      InsertHolds(x, fixes[1..]);
      forall g | g in Insert(x, fixes[1..]) ensures g.path != fixes[0].path {
        assert g in multiset(fixes[1..]) + multiset{x};
      }
    }
  }

  lemma {:induction false} SortDistinct(fixes: seq<Fix>)
    requires DistinctPaths(fixes)
    ensures DistinctPaths(SortByPath(fixes))
  {
    if fixes != [] {
      SortDistinct(fixes[1..]);
      SortKeeps(fixes[1..]);
      forall f | f in SortByPath(fixes[1..]) ensures f.path != fixes[0].path {
        assert f in multiset(fixes[1..]);
      }
      InsertDistinct(fixes[0], SortByPath(fixes[1..]));
    }
  }

  /** A fix is delivered exactly when it has nothing open or its commit can claim at least one finding. */
  lemma {:induction false} DeliveredExactlyWhenItFixes(path: string, findings: seq<Finding>)
    ensures ResolvesSomething(Fix(path, findings)) <==> Open(findings) == [] || CommitCount(Fix(path, findings)) >= 1
  {
    FixedAreOpen(findings);
    if Fixed(findings) != [] {
      assert Fixed(findings)[0] in Fixed(findings);
    }
  }

  lemma {:induction false} FixedAreOpen(findings: seq<Finding>)
    ensures forall f :: f in Fixed(findings) <==> f in Open(findings) && !f.manual
  {
    if findings != [] {
      FixedAreOpen(findings[..|findings| - 1]);
    }
  }
}
