/** In what order a pull request's description names its files, and what its manual-work list announces. */
module PrBodyOrder {
  import opened PrBody

  /** The texts of the lines that a reader picks out, in order. */
  function Collect<T>(read: Line -> seq<T>, lines: seq<Line>): seq<T> {
    if lines == [] then [] else read(lines[0]) + Collect(read, lines[1..])
  }

  function HeadingOf(line: Line): seq<string> {
    if line.FileHeading? then [line.path] else []
  }

  function NoteOf(line: Line): seq<Note> {
    if line.ManualLine? then [Note(line.path, line.finding)] else []
  }

  function CountOf(line: Line): seq<nat> {
    if line.ManualHeading? then [line.count] else []
  }

  lemma {:induction false} CollectOn<T>(read: Line -> seq<T>, a: seq<Line>, b: seq<Line>)
    ensures Collect(read, a + b) == Collect(read, a) + Collect(read, b)
  {
    if a == [] {
      assert a + b == b;
    } else {
      assert (a + b)[1..] == a[1..] + b && (a + b)[0] == a[0];
      CollectOn(read, a[1..], b);
    }
  }

  lemma {:induction false} CollectNone<T>(read: Line -> seq<T>, lines: seq<Line>)
    requires forall line <- lines :: read(line) == []
    ensures Collect(read, lines) == []
  {
    if lines != [] {
      assert lines[0] in lines && forall line <- lines[1..] :: line in lines;
      CollectNone(read, lines[1..]);
    }
  }

  ghost predicate Ascending(paths: seq<string>) {
    forall i, j | 0 <= i < j < |paths| :: Before(paths[i], paths[j])
  }

  function PathsOf(fixes: seq<Fix>): seq<string> {
    seq(|fixes|, i requires 0 <= i < |fixes| => fixes[i].path)
  }

  // ------------------------------------------------- the file sections

  lemma SectionReads(fix: Fix)
    ensures Collect(HeadingOf, Section(fix)) == [fix.path]
    ensures Collect(NoteOf, Section(fix)) == [] && Collect(CountOf, Section(fix)) == []
  {
    var rest := FixedLines(Fixed(fix.findings)) + [Text];
    CollectNone(HeadingOf, rest);
    assert Section(fix) == [FileHeading(fix.path)] + rest;
    CollectNone(NoteOf, Section(fix));
    CollectNone(CountOf, Section(fix));
  }

  lemma {:induction false} SectionsRead(fixes: seq<Fix>)
    ensures Collect(HeadingOf, Sections(fixes)) == PathsOf(fixes)
    ensures Collect(NoteOf, Sections(fixes)) == [] && Collect(CountOf, Sections(fixes)) == []
  {
    if fixes != [] {
      var n := |fixes| - 1;
      SectionsRead(fixes[..n]);
      SectionReads(fixes[n]);
      CollectOn(HeadingOf, Sections(fixes[..n]), Section(fixes[n]));
      CollectOn(NoteOf, Sections(fixes[..n]), Section(fixes[n]));
      CollectOn(CountOf, Sections(fixes[..n]), Section(fixes[n]));
      assert PathsOf(fixes) == PathsOf(fixes[..n]) + [fixes[n].path];
    }
  }

  // ------------------------------------------------- the manual work

  lemma {:induction false} ManualLinesRead(notes: seq<Note>)
    ensures Collect(NoteOf, ManualLines(notes)) == notes
  {
    if notes != [] {
      ManualLinesRead(notes[1..]);
      assert ManualLines(notes)[1..] == ManualLines(notes[1..]);
      assert notes == [notes[0]] + notes[1..];
    }
  }

  function ManualHead(count: nat): seq<Line> {
    [Text, Text, ManualHeading(count)]
  }

  function ManualTail(notes: seq<Note>): seq<Line> {
    [Text, Text, Text] + ManualLines(notes) + [Text]
  }

  lemma ManualTailReads(notes: seq<Note>)
    ensures Collect(NoteOf, ManualTail(notes)) == notes
    ensures Collect(HeadingOf, ManualTail(notes)) == [] && Collect(CountOf, ManualTail(notes)) == []
  {
    ManualLinesRead(notes);
    CollectOn(NoteOf, [Text, Text, Text], ManualLines(notes));
    CollectOn(NoteOf, [Text, Text, Text] + ManualLines(notes), [Text]);
    CollectNone(NoteOf, [Text, Text, Text]);
    CollectNone(NoteOf, [Text]);
    CollectNone(HeadingOf, ManualTail(notes));
    CollectNone(CountOf, ManualTail(notes));
  }

  lemma ManualHeadReads(count: nat)
    ensures Collect(NoteOf, ManualHead(count)) == [] && Collect(HeadingOf, ManualHead(count)) == []
    ensures Collect(CountOf, ManualHead(count)) == [count]
  {
    CollectNone(NoteOf, ManualHead(count));
    CollectNone(HeadingOf, ManualHead(count));
    CollectNone(CountOf, [Text, Text]);
    CollectOn(CountOf, [Text, Text], [ManualHeading(count)]);
    assert ManualHead(count) == [Text, Text] + [ManualHeading(count)];
    assert [ManualHeading(count)][1..] == [];
  }

  lemma {:induction false} NotesFollowFixes(fixes: seq<Fix>)
    requires Sorted(fixes)
    ensures forall i, j | 0 <= i < j < |AllNotes(fixes)| :: Before(AllNotes(fixes)[i].path, AllNotes(fixes)[j].path)
    ensures forall note <- AllNotes(fixes) :: exists fix <- fixes :: fix.path == note.path
  {
    if fixes != [] {
      var n := |fixes| - 1;
      var front, own := AllNotes(fixes[..n]), Notes(fixes[n].path, Manual(fixes[n].findings));
      NotesFollowFixes(fixes[..n]);
      BeforeIsTotal(fixes[n].path, fixes[n].path);
      forall i | 0 <= i < |front| ensures Before(front[i].path, fixes[n].path) {
        var fix :| fix in fixes[..n] && fix.path == front[i].path;
      }
    }
  }

  // ------------------------------------------------- the whole body

  function Front(fixes: seq<Fix>): seq<Line> {
    HEADER + Sections(SortByPath(fixes))
  }

  lemma FrontReads(fixes: seq<Fix>)
    ensures Collect(HeadingOf, Front(fixes)) == PathsOf(SortByPath(fixes))
    ensures Collect(NoteOf, Front(fixes)) == [] && Collect(CountOf, Front(fixes)) == []
  {
    var sections := Sections(SortByPath(fixes));
    SectionsRead(SortByPath(fixes));
    CollectNone(HeadingOf, HEADER);
    CollectNone(NoteOf, HEADER);
    CollectNone(CountOf, HEADER);
    CollectOn(HeadingOf, HEADER, sections);
    CollectOn(NoteOf, HEADER, sections);
    CollectOn(CountOf, HEADER, sections);
  }

  lemma BodySplits(fixes: seq<Fix>)
    ensures var notes := AllNotes(SortByPath(fixes));
            Body(fixes) == if notes == [] then Front(fixes)
              else Front(fixes) + (ManualHead(|notes|) + ManualTail(notes))
  {
    var notes := AllNotes(SortByPath(fixes));
    assert ManualSection(notes) == ManualHead(|notes|) + ManualTail(notes);
  }

  lemma ManualPartReads(notes: seq<Note>)
    ensures var part := ManualHead(|notes|) + ManualTail(notes);
            Collect(HeadingOf, part) == [] && Collect(NoteOf, part) == notes && Collect(CountOf, part) == [|notes|]
  {
    ManualHeadReads(|notes|);
    ManualTailReads(notes);
    CollectOn(HeadingOf, ManualHead(|notes|), ManualTail(notes));
    CollectOn(NoteOf, ManualHead(|notes|), ManualTail(notes));
    CollectOn(CountOf, ManualHead(|notes|), ManualTail(notes));
  }

  lemma BodyReads(fixes: seq<Fix>)
    ensures var notes := AllNotes(SortByPath(fixes));
            && Collect(HeadingOf, Body(fixes)) == PathsOf(SortByPath(fixes))
            && Collect(NoteOf, Body(fixes)) == notes
            && Collect(CountOf, Body(fixes)) == if notes == [] then [] else [|notes|]
  {
    var notes := AllNotes(SortByPath(fixes));
    BodySplits(fixes);
    FrontReads(fixes);
    if notes != [] {
      var part := ManualHead(|notes|) + ManualTail(notes);
      ManualPartReads(notes);
      CollectOn(HeadingOf, Front(fixes), part);
      CollectOn(NoteOf, Front(fixes), part);
      CollectOn(CountOf, Front(fixes), part);
    }
  }

  lemma {:induction false} InsertPaths(fix: Fix, fixes: seq<Fix>)
    ensures multiset(PathsOf(Insert(fix, fixes))) == multiset(PathsOf(fixes)) + multiset{fix.path}
  {
    if fixes == [] || Before(fix.path, fixes[0].path) {
      PathsCons(fix, fixes);
    } else {
      InsertPaths(fix, fixes[1..]);
      PathsCons(fixes[0], Insert(fix, fixes[1..]));
      PathsCons(fixes[0], fixes[1..]);
      assert fixes == [fixes[0]] + fixes[1..];
    }
  }

  lemma PathsCons(fix: Fix, fixes: seq<Fix>)
    ensures multiset(PathsOf([fix] + fixes)) == multiset{fix.path} + multiset(PathsOf(fixes))
  {
    assert PathsOf([fix] + fixes) == [fix.path] + PathsOf(fixes);
  }

  lemma {:induction false} SortKeepsPaths(fixes: seq<Fix>)
    ensures multiset(PathsOf(SortByPath(fixes))) == multiset(PathsOf(fixes))
  {
    if fixes != [] {
      SortKeepsPaths(fixes[1..]);
      InsertPaths(fixes[0], SortByPath(fixes[1..]));
      PathsCons(fixes[0], fixes[1..]);
      assert fixes == [fixes[0]] + fixes[1..];
    }
  }

  /** The description has one section per file, in path order. */
  lemma SectionsInPathOrder(fixes: seq<Fix>)
    ensures var paths := Collect(HeadingOf, Body(fixes));
            Ascending(paths) && multiset(paths) == multiset(PathsOf(fixes))
    ensures DistinctPaths(fixes) ==>
              forall path :: multiset(Collect(HeadingOf, Body(fixes)))[path] ==
                if exists fix <- fixes :: fix.path == path then 1 else 0
  {
    BodyReads(fixes);
    SortKeeps(fixes);
    SortKeepsPaths(fixes);
    if DistinctPaths(fixes) {
      forall path ensures multiset(PathsOf(fixes))[path] == if exists fix <- fixes :: fix.path == path then 1 else 0 {
        OnceEach(fixes, path);
      }
    }
  }

  lemma {:induction false} OnceEach(fixes: seq<Fix>, path: string)
    requires DistinctPaths(fixes)
    ensures multiset(PathsOf(fixes))[path] == if exists fix <- fixes :: fix.path == path then 1 else 0
  {
    if fixes != [] {
      var n := |fixes| - 1;
      OnceEach(fixes[..n], path);
      assert PathsOf(fixes) == PathsOf(fixes[..n]) + [fixes[n].path];
      assert fixes == fixes[..n] + [fixes[n]];
    }
  }

  /** The findings of one file among notes, in order. */
  function Under(notes: seq<Note>, path: string): seq<Finding> {
    if notes == [] then []
    else Under(notes[..|notes| - 1], path) +
         if notes[|notes| - 1].path == path then [notes[|notes| - 1].finding] else []
  }

  lemma {:induction false} UnderOn(a: seq<Note>, b: seq<Note>, path: string)
    ensures Under(a + b, path) == Under(a, path) + Under(b, path)
  {
    if b == [] {
      assert a + b == a;
    } else {
      assert (a + b)[..|a + b| - 1] == a + b[..|b| - 1];
      UnderOn(a, b[..|b| - 1], path);
    }
  }

  lemma {:induction false} UnderOwn(own: string, findings: seq<Finding>, path: string)
    ensures Under(Notes(own, findings), path) == if own == path then findings else []
  {
    if findings != [] {
      var n := |findings| - 1;
      UnderOwn(own, findings[..n], path);
      assert Notes(own, findings)[..n] == Notes(own, findings[..n]);
      assert findings == findings[..n] + [findings[n]];
    }
  }

  lemma UnderSectionsStep(fixes: seq<Fix>, fix: Fix, path: string)
    ensures Under(AllNotes(fixes + [fix]), path) ==
            Under(AllNotes(fixes), path) + if fix.path == path then Manual(fix.findings) else []
  {
    assert (fixes + [fix])[..|fixes|] == fixes;
    UnderOn(AllNotes(fixes), Notes(fix.path, Manual(fix.findings)), path);
    UnderOwn(fix.path, Manual(fix.findings), path);
  }

  lemma {:induction false} UnderSections(fixes: seq<Fix>, path: string)
    requires DistinctPaths(fixes)
    ensures (forall i | 0 <= i < |fixes| :: fixes[i].path != path) ==> Under(AllNotes(fixes), path) == []
    ensures forall i | 0 <= i < |fixes| && fixes[i].path == path ::
              Under(AllNotes(fixes), path) == Manual(fixes[i].findings)
  {
    if fixes != [] {
      var n := |fixes| - 1;
      var rest, fix := fixes[..n], fixes[n];
      UnderSections(rest, path);
      assert fixes == rest + [fix];
      UnderSectionsStep(rest, fix, path);
    }
  }

  /** The manual-work list holds, file by file in path order, exactly each file's open findings left for manual work in
      the order the file has them. */
  lemma ManualWorkInPathOrder(fixes: seq<Fix>)
    ensures var notes := Collect(NoteOf, Body(fixes));
            && (forall i, j | 0 <= i < j < |notes| :: Before(notes[i].path, notes[j].path))
            && (DistinctPaths(fixes) ==> forall fix <- fixes :: Under(notes, fix.path) == Manual(fix.findings))
  {
    var sorted := SortByPath(fixes);
    BodyReads(fixes);
    SortKeeps(fixes);
    NotesFollowFixes(sorted);
    if DistinctPaths(fixes) {
      SortDistinct(fixes);
      forall fix | fix in fixes ensures Under(AllNotes(sorted), fix.path) == Manual(fix.findings) {
        assert fix in multiset(sorted);
        UnderSections(sorted, fix.path);
      }
    }
  }

  lemma {:induction false} NoneCollected<T>(read: Line -> seq<T>, lines: seq<Line>)
    requires Collect(read, lines) == []
    ensures forall line <- lines :: read(line) == []
  {
    if lines != [] {
      NoneCollected(read, lines[1..]);
      assert lines == [lines[0]] + lines[1..];
    }
  }

  lemma HeadingIsHere(front: seq<Line>, line: Line, tail: seq<Line>, i: nat)
    requires Collect(CountOf, front) == [] && Collect(CountOf, tail) == []
    requires i < |front + [line] + tail| && (front + [line] + tail)[i].ManualHeading?
    ensures (front + [line] + tail)[i] == line && (front + [line] + tail)[i + 1..] == tail
  {
    NoneCollected(CountOf, front);
    NoneCollected(CountOf, tail);
    var lines := front + [line] + tail;
    forall j | 0 <= j < |lines| && j != |front| ensures !lines[j].ManualHeading? {
      assert if j < |front| then lines[j] in front else lines[j] in tail;
    }
  }

  lemma FrontHasNoHeading(fixes: seq<Fix>)
    ensures Collect(CountOf, Front(fixes) + [Text, Text]) == []
    ensures forall i | 0 <= i < |Front(fixes)| :: !Front(fixes)[i].ManualHeading?
  {
    FrontReads(fixes);
    CollectNone(CountOf, [Text, Text]);
    CollectOn(CountOf, Front(fixes), [Text, Text]);
    NoneCollected(CountOf, Front(fixes));
    forall i | 0 <= i < |Front(fixes)| ensures !Front(fixes)[i].ManualHeading? {
      assert Front(fixes)[i] in Front(fixes);
    }
  }

  lemma Regroup(front: seq<Line>, count: nat, tail: seq<Line>)
    ensures front + (ManualHead(count) + tail) == front + [Text, Text] + [ManualHeading(count)] + tail
  {
  }

  // Whatever stands before a manual-work heading, its number and what follows it are those of the list.
  lemma ManualHeadingAt(fixes: seq<Fix>, i: nat)
    requires i < |Body(fixes)| && Body(fixes)[i].ManualHeading?
    ensures var notes, after := AllNotes(SortByPath(fixes)), Body(fixes)[i + 1..];
            Body(fixes)[i].count == |notes| && Collect(NoteOf, after) == notes && Collect(HeadingOf, after) == []
  {
    var notes := AllNotes(SortByPath(fixes));
    FrontHasNoHeading(fixes);
    BodySplits(fixes);
    ManualTailReads(notes);
    Regroup(Front(fixes), |notes|, ManualTail(notes));
    HeadingIsHere(Front(fixes) + [Text, Text], ManualHeading(|notes|), ManualTail(notes), i);
  }

  /** The list has a heading exactly when it is not empty, one heading only; the heading says how many findings come
      after it, and all of them do, but no file section. */
  lemma ManualHeadingCounts(fixes: seq<Fix>)
    ensures var lines := Body(fixes);
            var notes := Collect(NoteOf, lines);
            && Collect(CountOf, lines) == (if notes == [] then [] else [|notes|])
            && forall i | 0 <= i < |lines| && lines[i].ManualHeading? ::
                 && lines[i].count == |Collect(NoteOf, lines[i + 1..])|
                 && Collect(NoteOf, lines[i + 1..]) == notes && Collect(HeadingOf, lines[i + 1..]) == []
  {
    BodyReads(fixes);
    forall i | 0 <= i < |Body(fixes)| && Body(fixes)[i].ManualHeading?
      ensures var notes, after := AllNotes(SortByPath(fixes)), Body(fixes)[i + 1..];
              Body(fixes)[i].count == |notes| && Collect(NoteOf, after) == notes && Collect(HeadingOf, after) == []
    {
      ManualHeadingAt(fixes, i);
    }
  }
}
