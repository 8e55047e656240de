/** Rewriting the generated regions of the landing pages from their partials. */
module Landing {
  import opened MarkedText

  datatype Partial = Partial(name: string, body: string)

  datatype Outcome = Page(text: string) | Unterminated(name: string)

  function StartMarker(name: string): string {
    "<!-- codegen:" + name + ":start -->"
  }

  function EndMarker(name: string): string {
    "<!-- codegen:" + name + ":end -->"
  }

  predicate PlainName(name: string) {
    '<' !in name && '>' !in name
  }

  predicate IsSpace(c: char) {
    c == ' ' || '\t' <= c <= '\r' || '\U{1C}' <= c <= '\U{1F}' || c == '\U{85}' || c == '\U{A0}' || c == '\U{1680}'
    || '\U{2000}' <= c <= '\U{200A}' || c == '\U{2028}' || c == '\U{2029}' || c == '\U{202F}' || c == '\U{205F}'
    || c == '\U{3000}'
  }

  function RStrip(s: string): (r: string)
    ensures r <= s && (r == "" || !IsSpace(r[|r| - 1]))
    ensures forall i :: |r| <= i < |s| ==> IsSpace(s[i])
  {
    if s != "" && IsSpace(s[|s| - 1]) then RStrip(s[..|s| - 1]) else s
  }

  function Block(name: string, body: string): string {
    StartMarker(name) + ("\n" + RStrip(body) + "\n") + EndMarker(name)
  }

  /** One turn of the loop. */
  function RenderOne(page: string, p: Partial): Outcome {
    match Replaced(page, StartMarker(p.name), EndMarker(p.name), Block(p.name, p.body))
    case None => Unterminated(p.name)
    case Some(t) => Page(t)
  }

  function Render(page: string, partials: seq<Partial>): Outcome
    decreases |partials|
  {
    if partials == [] then Page(page)
    else
      match RenderOne(page, partials[0])
      case Unterminated(n) => Unterminated(n)
      case Page(t) => Render(t, partials[1..])
  }

  predicate DistinctNames(ps: seq<Partial>) {
    (forall p :: p in ps ==> PlainName(p.name)) &&
    (forall i, j :: 0 <= i < j < |ps| ==> ps[i].name != ps[j].name)
  }

  function Names(ps: seq<Partial>): set<string> {
    set p | p in ps :: p.name
  }

  /** No body holds a marker of any region. */
  ghost predicate MarkerFree(ps: seq<Partial>, names: set<string>) {
    forall p, n :: p in ps && n in names ==> Absent(p.body, StartMarker(n)) && Absent(p.body, EndMarker(n))
  }

  /** Every start marker occurs at most once in the page. */
  ghost predicate StartsOnce(page: string, ps: seq<Partial>) {
    forall p :: p in ps ==> Once(page, StartMarker(p.name))
  }

  predicate SameNames(ps: seq<Partial>, qs: seq<Partial>) {
    |ps| == |qs| && forall i :: 0 <= i < |ps| ==> ps[i].name == qs[i].name
  }

  lemma NamesMakeMarkers(name: string)
    requires PlainName(name)
    ensures IsMarker(StartMarker(name)) && IsMarker(EndMarker(name))
  {}

  lemma MarkersDiffer(a: string, b: string)
    ensures StartMarker(a) == StartMarker(b) ==> a == b
    ensures EndMarker(a) == EndMarker(b) ==> a == b
    ensures StartMarker(a) != EndMarker(b)
  {
    var open := "<!-- codegen:";
    var s, e := StartMarker(a), EndMarker(b);
    assert s[|s| - 5] == 't' && e[|e| - 5] == 'd';
    assert s[|open|..|s| - 10] == a && e[|open|..|e| - 8] == b;
    assert StartMarker(b)[|open|..|StartMarker(b)| - 10] == b && EndMarker(a)[|open|..|EndMarker(a)| - 8] == a;
  }

  lemma PaddingAddsNoMarker(body: string, m: string)
    requires IsMarker(m) && Absent(body, m)
    ensures Absent("\n" + RStrip(body) + "\n", m)
  {
    var b := RStrip(body);
    assert "" + b + body[|b|..] == body;
    AbsentFromPart("", b, body[|b|..], m);
    PaddedHoldsNone(b, m);
  }

  /** Inside a block the only markers are its own, one at each end. */
  lemma MarkersOfABlock(name: string, body: string, m: string, i: nat)
    requires PlainName(name) && IsMarker(m) && Absent(body, m) && At(Block(name, body), i, m)
    ensures (i == 0 && m == StartMarker(name)) || (0 < i && m == EndMarker(name))
  {
    NamesMakeMarkers(name);
    PaddingAddsNoMarker(body, m);
    MarkersOfMarkedText(StartMarker(name), "\n" + RStrip(body) + "\n", EndMarker(name), m, i);
  }

  lemma BlockIsSolid(name: string, body: string)
    ensures Block(name, body) != "" && Block(name, body)[0] == '<' && Block(name, body)[|Block(name, body)| - 1] == '>'
  {
    var s, e := StartMarker(name), EndMarker(name);
    assert Block(name, body)[0] == s[0];
    assert Block(name, body)[|Block(name, body)| - 1] == e[|e| - 1];
  }

  lemma BlockHoldsNoOther(name: string, body: string, m: string)
    requires PlainName(name) && IsMarker(m) && Absent(body, m) && m != StartMarker(name) && m != EndMarker(name)
    ensures Absent(Block(name, body), m)
  {
    forall i: nat
      ensures !At(Block(name, body), i, m)
    {
      if At(Block(name, body), i, m) {
        MarkersOfABlock(name, body, m, i);
      }
    }
  }

  /** A foreign marker occurs before a block or after it, never across it. */
  lemma OccursAround(u: string, name: string, body: string, v: string, m: string, k: nat)
    requires PlainName(name) && IsMarker(m) && Absent(body, m) && m != StartMarker(name) && m != EndMarker(name)
    requires At(u + Block(name, body) + v, k, m)
    ensures At(u, k, m) || (|u| + |Block(name, body)| <= k && At(v, k - |u| - |Block(name, body)|, m))
  {
    BlockIsSolid(name, body);
    BlockHoldsNoOther(name, body, m);
    OccursBesides(u, Block(name, body), v, m, k);
  }

  /** A foreign marker is found before a block or after it, as if the block were not there. */
  lemma FindAround(u: string, name: string, body: string, v: string, m: string)
    requires PlainName(name) && IsMarker(m) && Absent(body, m) && m != StartMarker(name) && m != EndMarker(name)
    ensures Find(u + Block(name, body) + v, m) ==
              if Find(u, m).Some? then Find(u, m) else Shifted(Find(v, m), |u| + |Block(name, body)|)
  {
    forall k: nat | At(u + Block(name, body) + v, k, m)
      ensures At(u, k, m) || (|u| + |Block(name, body)| <= k && At(v, k - |u| - |Block(name, body)|, m))
    {
      OccursAround(u, name, body, v, m, k);
    }
    FindAroundPiece(u, Block(name, body), v, m);
  }

  /** Whatever stood in the first region is replaced; the text before its start marker and after its end marker is
      what it was. */
  lemma RegionReplaced(u: string, content: string, v: string, p: Partial)
    requires PlainName(p.name) && Absent(u, StartMarker(p.name)) && Absent(content, EndMarker(p.name))
    ensures RenderOne(u + StartMarker(p.name) + (content + EndMarker(p.name) + v), p) ==
              Page(u + Block(p.name, p.body) + v)
  {
    NamesMakeMarkers(p.name);
    MarkedTextReplaced(u, StartMarker(p.name), content, EndMarker(p.name), v, Block(p.name, p.body));
  }

  /** The same in plain text: the markers are comments naming the region, the partial stands between them on lines of
      its own, and only the white space at its end is lost. */
  lemma WrittenRegion(u: string, content: string, v: string, p: Partial)
    requires PlainName(p.name)
    requires Absent(u, "<!-- codegen:" + p.name + ":start -->")
    requires Absent(content, "<!-- codegen:" + p.name + ":end -->")
    ensures var start, end := "<!-- codegen:" + p.name + ":start -->", "<!-- codegen:" + p.name + ":end -->";
            RenderOne(u + start + (content + end + v), p) ==
              Page(u + (start + ("\n" + RStrip(p.body) + "\n") + end) + v)
  {
    RegionReplaced(u, content, v, p);
  }

  /** A page without the region is left alone. */
  lemma MissingRegionIsLeft(page: string, p: Partial)
    requires Absent(page, "<!-- codegen:" + p.name + ":start -->")
    ensures RenderOne(page, p) == Page(page)
  {
    FindIsFirst(page, StartMarker(p.name));
  }

  /** White space at the end is stripped however much there is of it, and no printable character is. */
  lemma TailIsStripped(body: string, c: char)
    ensures c in {' ', '\t', '\n', '\r'} ==> RStrip(body + [c]) == RStrip(body)
    ensures '!' <= c <= '~' ==> RStrip(body + [c]) == body + [c]
    ensures RStrip("") == ""
  {
    assert (body + [c])[..|body|] == body;
  }

  /** The build stops on a page exactly when a start marker has no end marker anywhere after it. */
  lemma StopsExactlyWhenUnterminated(page: string, p: Partial)
    ensures RenderOne(page, p).Unterminated? ==> RenderOne(page, p).name == p.name
    ensures RenderOne(page, p).Unterminated? <==>
            Find(page, StartMarker(p.name)).Some? &&
            Absent(page[Find(page, StartMarker(p.name)).value + |StartMarker(p.name)|..], EndMarker(p.name))
  {
    var start := StartMarker(p.name);
    if Find(page, start).Some? {
      FindIsFirst(page[Find(page, start).value + |start|..], EndMarker(p.name));
    }
  }

  lemma BlockRerendered(u: string, body: string, v: string, p: Partial)
    requires PlainName(p.name) && Absent(u, StartMarker(p.name)) && Absent(body, EndMarker(p.name))
    ensures RenderOne(u + Block(p.name, body) + v, p) == Page(u + Block(p.name, p.body) + v)
  {
    var content := "\n" + RStrip(body) + "\n";
    NamesMakeMarkers(p.name);
    PaddingAddsNoMarker(body, EndMarker(p.name));
    RegionReplaced(u, content, v, p);
    Regroup(u, StartMarker(p.name), content, EndMarker(p.name), v);
  }

  lemma RenderFrom(page: string, partials: seq<Partial>, i: nat)
    requires i < |partials|
    ensures Render(page, partials[i..]) ==
              match RenderOne(page, partials[i])
              case Unterminated(n) => Unterminated(n)
              case Page(t) => Render(t, partials[i + 1..])
  {
    assert partials[i..][0] == partials[i] && partials[i..][1..] == partials[i + 1..];
  }

  /** One turn of the loop, in the terms of the program: two partitions and a concatenation. */
  method RenderRegion(page: string, name: string, body: string) returns (r: Outcome)
    ensures r == RenderOne(page, Partial(name, body))
  {
    var start, end := StartMarker(name), EndMarker(name);
    var at := Find(page, start);
    if at.None? {
      return Page(page);
    }
    var head, rest := page[..at.value], page[at.value + |start|..];
    var close := Find(rest, end);
    if close.None? {
      return Unterminated(name);
    }
    var tail := rest[close.value + |end|..];
    Assembled(head, start, RStrip(body), end, tail);
    return Page(head + start + "\n" + RStrip(body) + "\n" + end + tail);
  }

  method RenderPage(original: string, partials: seq<Partial>) returns (r: Outcome)
    ensures r == Render(original, partials)
  {
    var page := original;
    for i := 0 to |partials|
      invariant Render(original, partials) == Render(page, partials[i..])
    {
      RenderFrom(page, partials, i);
      assert partials[i] == Partial(partials[i].name, partials[i].body);
      var next := RenderRegion(page, partials[i].name, partials[i].body);
      if next.Unterminated? {
        return next;
      }
      page := next.text;
    }
    return Page(page);
  }

  /** The exit code of the build, or the region it stopped at. */
  datatype Exit = Code(code: int) | Stopped(name: string)

  /** What `--check` looks for: no page would change. */
  ghost predicate InSync(pages: seq<string>, partials: seq<Partial>) {
    forall i :: 0 <= i < |pages| ==> Render(pages[i], partials) == Page(pages[i])
  }

  /** The first `n` pages are built and the others are as they were. */
  ghost predicate Built(was: seq<string>, pages: seq<string>, partials: seq<Partial>, n: nat)
    requires |was| == |pages| && n <= |was|
  {
    (forall i :: 0 <= i < n ==> Render(was[i], partials) == Page(pages[i])) &&
    (forall i :: n <= i < |was| ==> pages[i] == was[i])
  }

  /** One page of the build: written when it renders to something else, unless only checking. */
  method UpdatePage(pages: array<string>, i: nat, partials: seq<Partial>, checkOnly: bool)
    returns (rendered: Outcome, changed: bool)
    requires i < pages.Length
    modifies pages
    ensures rendered == Render(old(pages[i]), partials)
    ensures changed <==> rendered.Page? && rendered.text != old(pages[i])
    ensures pages[i] == if changed && !checkOnly then rendered.text else old(pages[i])
    ensures forall k :: 0 <= k < pages.Length && k != i ==> pages[k] == old(pages[k])
  {
    rendered := RenderPage(pages[i], partials);
    changed := rendered.Page? && rendered.text != pages[i];
    if changed && !checkOnly {
      pages[i] := rendered.text;
    }
  }

  /** The build stops at the first page with an unterminated region; the `n` pages before it are already written. */
  method Build(pages: array<string>, partials: seq<Partial>, checkOnly: bool) returns (r: Exit, ghost n: nat)
    modifies pages
    ensures n <= pages.Length && forall i :: 0 <= i < n ==> Render(old(pages[..])[i], partials).Page?
    ensures r.Stopped? ==> n < pages.Length && Render(old(pages[..])[n], partials) == Unterminated(r.name)
    ensures r.Code? ==> n == pages.Length
    ensures r.Code? ==> r.code == (if checkOnly && !InSync(old(pages[..]), partials) then 1 else 0)
    ensures if checkOnly then pages[..] == old(pages[..]) else Built(old(pages[..]), pages[..], partials, n)
  {
    ghost var was, drifted := pages[..], 0;
    var stale := false;
    for i := 0 to pages.Length
      invariant forall k :: (checkOnly || i <= k) && 0 <= k < pages.Length ==> pages[k] == was[k]
      invariant forall k :: 0 <= k < i ==> Render(was[k], partials).Page?
      invariant !checkOnly ==> forall k :: 0 <= k < i ==> Render(was[k], partials) == Page(pages[k])
      invariant !stale ==> forall k :: 0 <= k < i ==> Render(was[k], partials) == Page(was[k])
      invariant stale ==> 0 <= drifted < i && Render(was[drifted], partials) != Page(was[drifted])
    {
      var rendered, changed := UpdatePage(pages, i, partials, checkOnly);
      if rendered.Unterminated? {
        return Stopped(rendered.name), i;
      }
      if changed {
        stale, drifted := true, i;
      }
    }
    return Code(if checkOnly && stale then 1 else 0), pages.Length;
  }
}
