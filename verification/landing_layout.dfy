/** Pages laid out as plain text and marked regions, one after the other and one inside the other: what building does to
    each piece. */
module LandingLayout {
  import opened Wrappers
  import opened MarkedText
  import opened Landing

  /** The text before a region, the region with its own layout inside, and what follows; or the last text. */
  datatype Layout = End(tail: string) | Then(before: string, name: string, inner: Layout, rest: Layout)

  function Flatten(l: Layout): string {
    match l
    case End(tail) => tail
    case Then(before, name, inner, rest) =>
      before + StartMarker(name) + (Flatten(inner) + EndMarker(name) + Flatten(rest))
  }

  function NamesOf(l: Layout): set<string> {
    match l
    case End(_) => {}
    case Then(_, name, inner, rest) => {name} + NamesOf(inner) + NamesOf(rest)
  }

  ghost predicate Lacks(text: string, names: set<string>) {
    forall n <- names :: Absent(text, StartMarker(n)) && Absent(text, EndMarker(n))
  }

  /** No text holds a marker, and no region occurs twice. */
  ghost predicate LaidOut(l: Layout, names: set<string>) {
    match l
    case End(tail) => Lacks(tail, names)
    case Then(before, name, inner, rest) =>
      && Lacks(before, names) && name in names
      && LaidOut(inner, names) && LaidOut(rest, names)
      && name !in NamesOf(inner) && name !in NamesOf(rest) && NamesOf(inner) !! NamesOf(rest)
  }

  function Framed(body: string): string {
    "\n" + RStrip(body) + "\n"
  }

  /** The layout with the content of one region replaced. */
  function Refilled(l: Layout, p: Partial): Layout {
    match l
    case End(_) => l
    case Then(before, name, inner, rest) =>
      if name == p.name then Then(before, name, End(Framed(p.body)), rest)
      else Then(before, name, Refilled(inner, p), Refilled(rest, p))
  }

  // ------------------------------------------------- one region

  lemma OthersMarkers(name: string, other: string)
    requires PlainName(name) && PlainName(other) && name != other
    ensures IsMarker(StartMarker(name)) && IsMarker(EndMarker(name))
    ensures Absent(StartMarker(name), StartMarker(other)) && Absent(StartMarker(name), EndMarker(other))
    ensures Absent(EndMarker(name), StartMarker(other)) && Absent(EndMarker(name), EndMarker(other))
  {
    NamesMakeMarkers(name);
    NamesMakeMarkers(other);
    MarkersDiffer(name, other);
    MarkersDiffer(other, name);
    MarkerHoldsNoOther(StartMarker(name), StartMarker(other));
    MarkerHoldsNoOther(StartMarker(name), EndMarker(other));
    MarkerHoldsNoOther(EndMarker(name), StartMarker(other));
    MarkerHoldsNoOther(EndMarker(name), EndMarker(other));
  }

  lemma SeenPast(u: string, b: string, v: string, m: string)
    requires IsMarker(m) && IsMarker(b) && Absent(b, m)
    ensures SeenAround(u, b, v, m)
  {
    forall k: nat | At(u + b + v, k, m)
      ensures At(u, k, m) || (|u| + |b| <= k && At(v, k - |u| - |b|, m))
    {
      OccursBesides(u, b, v, m, k);
    }
    FindAroundPiece(u, b, v, m);
  }

  lemma AbsentAcross(u: string, b: string, v: string, m: string)
    requires IsMarker(m) && IsMarker(b) && Absent(b, m) && Absent(u, m) && Absent(v, m)
    ensures Absent(u + b + v, m)
  {
    forall k: nat ensures !At(u + b + v, k, m) {
      if At(u + b + v, k, m) {
        OccursBesides(u, b, v, m, k);
      }
    }
  }

  /** A layout holds no marker of a region that is not in it. */
  lemma {:induction false} FlattenLacks(l: Layout, name: string, names: set<string>)
    requires LaidOut(l, names) && name in names && name !in NamesOf(l) && forall n <- names :: PlainName(n)
    ensures Absent(Flatten(l), StartMarker(name)) && Absent(Flatten(l), EndMarker(name))
  {
    if l.Then? {
      FlattenLacks(l.inner, name, names);
      FlattenLacks(l.rest, name, names);
      OthersMarkers(l.name, name);
      NamesMakeMarkers(name);
      var inside := Flatten(l.inner) + EndMarker(l.name) + Flatten(l.rest);
      AbsentAcross(Flatten(l.inner), EndMarker(l.name), Flatten(l.rest), StartMarker(name));
      AbsentAcross(Flatten(l.inner), EndMarker(l.name), Flatten(l.rest), EndMarker(name));
      AbsentAcross(l.before, StartMarker(l.name), inside, StartMarker(name));
      AbsentAcross(l.before, StartMarker(l.name), inside, EndMarker(name));
    }
  }

  /** A region after a foreign marker is rewritten as it would be without the text up to there. */
  lemma PassedOver(u: string, b: string, v: string, p: Partial, t: string)
    requires PlainName(p.name) && IsMarker(b) && Absent(b, StartMarker(p.name)) && Absent(u, StartMarker(p.name))
    requires RenderOne(v, p) == Page(t)
    ensures RenderOne(u + b + v, p) == Page(u + b + t)
  {
    var start := StartMarker(p.name);
    NamesMakeMarkers(p.name);
    SeenPast(u, b, v, start);
    FindIsFirst(u, start);
    ReplacedBehind(u, b, v, start, EndMarker(p.name), Block(p.name, p.body));
  }

  /** A region before a foreign marker is rewritten as it would be without the text from there. */
  lemma RewrittenBefore(u: string, b: string, v: string, p: Partial, t: string)
    requires PlainName(p.name) && IsMarker(b) && Absent(b, StartMarker(p.name)) && Absent(b, EndMarker(p.name))
    requires Find(u, StartMarker(p.name)).Some? && RenderOne(u, p) == Page(t)
    ensures RenderOne(u + b + v, p) == Page(t + b + v)
  {
    var start, end, block := StartMarker(p.name), EndMarker(p.name), Block(p.name, p.body);
    NamesMakeMarkers(p.name);
    SeenPast(u, b, v, start);
    SeenPast(u[Find(u, start).value + |start|..], b, v, end);
    ReplacedInFront(u, b, v, start, end, block);
    ClosedInFront(u, v, start, end, block);
  }

  lemma ClosedInFront(u: string, v: string, start: string, end: string, block: string)
    requires Find(u, start).Some? && Replaced(u, start, end, block).Some?
    ensures EffectInFront(u, v, start, end, block) == InFront(Replaced(u, start, end, block).value)
  {}

  lemma AbsentLeavesPage(page: string, p: Partial)
    requires Absent(page, StartMarker(p.name))
    ensures RenderOne(page, p) == Page(page)
  {
    FindIsFirst(page, StartMarker(p.name));
  }

  lemma {:induction false} RefilledElsewhere(l: Layout, p: Partial)
    requires p.name !in NamesOf(l)
    ensures Refilled(l, p) == l
  {
    if l.Then? {
      RefilledElsewhere(l.inner, p);
      RefilledElsewhere(l.rest, p);
    }
  }

  /** Inside a region's tail the region of p is rewritten where it is, whether inside or after the enclosing region. */
  lemma InsideRefilled(inner: string, b: string, rest: string, p: Partial, inner': string, rest': string)
    requires PlainName(p.name) && IsMarker(b) && Absent(b, StartMarker(p.name)) && Absent(b, EndMarker(p.name))
    requires RenderOne(inner, p) == Page(inner') && RenderOne(rest, p) == Page(rest')
    requires Find(inner, StartMarker(p.name)).Some? ==> rest == rest'
    ensures RenderOne(inner + b + rest, p) == Page(inner' + b + rest')
  {
    if Find(inner, StartMarker(p.name)).Some? {
      RewrittenBefore(inner, b, rest, p, inner');
    } else {
      FindIsFirst(inner, StartMarker(p.name));
      PassedOver(inner, b, rest, p, rest');
    }
  }

  lemma {:induction false} OneRegionRefilled(l: Layout, p: Partial, names: set<string>)
    requires LaidOut(l, names) && p.name in names && forall n <- names :: PlainName(n)
    ensures RenderOne(Flatten(l), p) == Page(Flatten(Refilled(l, p)))
  {
    match l
    case End(tail) => AbsentLeavesPage(tail, p);
    case Then(before, name, inner, rest) =>
      if name == p.name {
        FlattenLacks(inner, name, names);
        RegionReplaced(before, Flatten(inner), Flatten(rest), p);
        BlockIsMarked(before, p, Flatten(rest));
      } else {
        OneRegionRefilled(inner, p, names);
        OneRegionRefilled(rest, p, names);
        OthersMarkers(name, p.name);
        NamesMakeMarkers(p.name);
        if p.name in NamesOf(inner) {
          RefilledElsewhere(rest, p);
        } else {
          FlattenLacks(inner, p.name, names);
          AbsentNotFound(Flatten(inner), StartMarker(p.name));
        }
        InsideRefilled(Flatten(inner), EndMarker(name), Flatten(rest), p,
                       Flatten(Refilled(inner, p)), Flatten(Refilled(rest, p)));
        PassedOver(before, StartMarker(name), Flatten(inner) + EndMarker(name) + Flatten(rest), p,
                   Flatten(Refilled(inner, p)) + EndMarker(name) + Flatten(Refilled(rest, p)));
      }
  }

  lemma AbsentNotFound(s: string, m: string)
    requires Absent(s, m)
    ensures Find(s, m).None?
  {
    FindIsFirst(s, m);
  }

  lemma BlockIsMarked(u: string, p: Partial, v: string)
    ensures u + Block(p.name, p.body) + v == u + StartMarker(p.name) + (Framed(p.body) + EndMarker(p.name) + v)
  {
    Regroup(u, StartMarker(p.name), Framed(p.body), EndMarker(p.name), v);
  }

  // ------------------------------------------------- whole builds

  lemma {:induction false} RefilledNames(l: Layout, p: Partial)
    ensures NamesOf(Refilled(l, p)) <= NamesOf(l)
  {
    if l.Then? {
      RefilledNames(l.inner, p);
      RefilledNames(l.rest, p);
    }
  }

  lemma FramedLacks(body: string, names: set<string>)
    requires Lacks(body, names) && forall n <- names :: PlainName(n)
    ensures Lacks(Framed(body), names)
  {
    forall n | n in names ensures Absent(Framed(body), StartMarker(n)) && Absent(Framed(body), EndMarker(n)) {
      NamesMakeMarkers(n);
      PaddingAddsNoMarker(body, StartMarker(n));
      PaddingAddsNoMarker(body, EndMarker(n));
    }
  }

  lemma {:induction false} RefilledStaysLaidOut(l: Layout, p: Partial, names: set<string>)
    requires LaidOut(l, names) && Lacks(p.body, names) && forall n <- names :: PlainName(n)
    ensures LaidOut(Refilled(l, p), names)
  {
    if l.Then? {
      FramedLacks(p.body, names);
      RefilledStaysLaidOut(l.inner, p, names);
      RefilledStaysLaidOut(l.rest, p, names);
      RefilledNames(l.inner, p);
      RefilledNames(l.rest, p);
    }
  }

  /** The partial of a region, if there is one. */
  function BodyOf(ps: seq<Partial>, name: string): Option<string> {
    if ps == [] then None else if ps[0].name == name then Some(ps[0].body) else BodyOf(ps[1..], name)
  }

  /** What a build is to make of a layout, said without any order or search: a region that has a partial holds that
      partial and nothing else, any other region and all text stay. */
  function Built(l: Layout, ps: seq<Partial>): Layout {
    match l
    case End(_) => l
    case Then(before, name, inner, rest) =>
      match BodyOf(ps, name)
      case Some(body) => Then(before, name, End(Framed(body)), Built(rest, ps))
      case None => Then(before, name, Built(inner, ps), Built(rest, ps))
  }

  lemma {:induction false} BodyOfOthers(ps: seq<Partial>, p: Partial)
    requires forall q <- ps :: q.name != p.name
    ensures BodyOf(ps, p.name).None?
  {
    if ps != [] {
      BodyOfOthers(ps[1..], p);
    }
  }

  lemma {:induction false} BuiltWithout(l: Layout, ps: seq<Partial>)
    requires ps != [] && ps[0].name !in NamesOf(l)
    ensures Built(l, ps[1..]) == Built(l, ps)
  {
    if l.Then? {
      BuiltWithout(l.inner, ps);
      BuiltWithout(l.rest, ps);
    }
  }

  /** Refilling one region first does not show once all are built. */
  lemma {:induction false} BuiltAfterRefill(l: Layout, ps: seq<Partial>, names: set<string>)
    requires LaidOut(l, names) && ps != [] && forall q <- ps[1..] :: q.name != ps[0].name
    ensures Built(Refilled(l, ps[0]), ps[1..]) == Built(l, ps)
  {
    if l.Then? {
      if l.name == ps[0].name {
        BodyOfOthers(ps[1..], ps[0]);
        BuiltWithout(l.rest, ps);
      } else {
        BuiltAfterRefill(l.inner, ps, names);
        BuiltAfterRefill(l.rest, ps, names);
      }
    }
  }

  lemma {:induction false} BuiltWithNothing(l: Layout)
    ensures Built(l, []) == l
  {
    if l.Then? {
      BuiltWithNothing(l.inner);
      BuiltWithNothing(l.rest);
    }
  }

  lemma {:induction false} RenderBuilds(l: Layout, ps: seq<Partial>, names: set<string>)
    requires LaidOut(l, names) && (forall n <- names :: PlainName(n)) && DistinctNames(ps)
    requires forall p <- ps :: p.name in names && Lacks(p.body, names)
    ensures Render(Flatten(l), ps) == Page(Flatten(Built(l, ps)))
    decreases |ps|
  {
    if ps == [] {
      BuiltWithNothing(l);
    } else {
      assert ps[0] in ps;
      OneRegionRefilled(l, ps[0], names);
      RefilledStaysLaidOut(l, ps[0], names);
      RenderBuilds(Refilled(l, ps[0]), ps[1..], names);
      BuiltAfterRefill(l, ps, names);
    }
  }

  /** The pieces of text that lie in no region with a partial, in order. */
  function Outside(l: Layout, ps: seq<Partial>): seq<string> {
    match l
    case End(tail) => [tail]
    case Then(before, name, inner, rest) =>
      [before] + (if BodyOf(ps, name).Some? then [] else Outside(inner, ps)) + Outside(rest, ps)
  }

  lemma {:induction false} OutsideIsKept(l: Layout, ps: seq<Partial>)
    ensures Outside(Built(l, ps), ps) == Outside(l, ps)
  {
    if l.Then? {
      OutsideIsKept(l.inner, ps);
      OutsideIsKept(l.rest, ps);
    }
  }

  /** Building a page, regions inside regions included and in whatever order the partials come: each region that has a
      partial, and is not inside another such region, holds exactly that partial between two line breaks, any other
      region and every piece of text outside are what they were. */
  lemma BuildRewritesOnlyTheRegions(l: Layout, ps: seq<Partial>, names: set<string>)
    requires LaidOut(l, names) && (forall n <- names :: PlainName(n)) && DistinctNames(ps)
    requires forall p <- ps :: p.name in names && Lacks(p.body, names)
    ensures Render(Flatten(l), ps) == Page(Flatten(Built(l, ps)))
    ensures Outside(Built(l, ps), ps) == Outside(l, ps)
  {
    RenderBuilds(l, ps, names);
    OutsideIsKept(l, ps);
  }
}
