/** What building a page promises: the last build wins, so building twice is building once; the text outside the
    regions is unchanged; and what goes wrong when a start marker is repeated. */
module LandingLaws {
  import opened MarkedText
  import opened Landing

  ghost predicate Foreign(name: string, body: string, p: Partial) {
    PlainName(name) && PlainName(p.name) && name != p.name &&
    Absent(body, StartMarker(p.name)) && Absent(body, EndMarker(p.name))
  }

  lemma SeenAroundForeign(u: string, name: string, body: string, v: string, p: Partial)
    requires Foreign(name, body, p)
    ensures SeenAround(u, Block(name, body), v, StartMarker(p.name))
    ensures SeenAround(u, Block(name, body), v, EndMarker(p.name))
  {
    NamesMakeMarkers(p.name);
    MarkersDiffer(name, p.name);
    MarkersDiffer(p.name, name);
    FindAround(u, name, body, v, StartMarker(p.name));
    FindAround(u, name, body, v, EndMarker(p.name));
  }

  function PartialEffect(u: string, v: string, p: Partial): Effect {
    EffectOf(u, v, StartMarker(p.name), EndMarker(p.name), Block(p.name, p.body))
  }

  lemma RenderAround(u: string, name: string, body: string, v: string, p: Partial)
    requires Foreign(name, body, p)
    ensures Replaced(u + Block(name, body) + v, StartMarker(p.name), EndMarker(p.name), Block(p.name, p.body)) ==
              Applied(PartialEffect(u, v, p), u, Block(name, body), v)
  {
    var start, end := StartMarker(p.name), EndMarker(p.name);
    SeenAroundForeign(u, name, body, v, p);
    if Find(u, start).Some? {
      SeenAroundForeign(u[Find(u, start).value + |start|..], name, body, v, p);
      ReplacedInFront(u, Block(name, body), v, start, end, Block(p.name, p.body));
    } else {
      ReplacedBehind(u, Block(name, body), v, start, end, Block(p.name, p.body));
    }
  }

  ghost predicate Site(x: string, y: string, u: string, v: string, name: string, b: string, c: string) {
    x == u + Block(name, b) + v && y == u + Block(name, c) + v &&
    Absent(u, StartMarker(name)) && Absent(v, StartMarker(name))
  }

  /** `x` and `y` are one page whose region `name` holds `b` in the first and `c` in the second; or the region is gone
      from both and they are equal. */
  ghost predicate Twins(x: string, y: string, name: string, b: string, c: string) {
    || (x == y && Absent(x, StartMarker(name)))
    || exists u, v :: Site(x, y, u, v, name, b, c)
  }

  ghost predicate TwinOutcomes(r: Outcome, q: Outcome, name: string, b: string, c: string) {
    || (r.Unterminated? && r == q)
    || (r.Page? && q.Page? && Twins(r.text, q.text, name, b, c))
  }

  /** Text around a block that lacks a foreign marker still lacks it with the block in the middle. */
  lemma AbsentAround(u: string, name: string, body: string, v: string, m: string)
    requires PlainName(name) && IsMarker(m) && Absent(body, m) && m != StartMarker(name) && m != EndMarker(name)
    requires Absent(u, m) && Absent(v, m)
    ensures Absent(u + Block(name, body) + v, m)
  {
    forall k: nat
      ensures !At(u + Block(name, body) + v, k, m)
    {
      if At(u + Block(name, body) + v, k, m) {
        OccursAround(u, name, body, v, m, k);
      }
    }
  }

  /** Replacing a region leaves a foreign marker out of text that lacked it. */
  lemma ReplacingAddsNone(u: string, p: Partial, v: string, i: nat, k: nat, m: string)
    requires PlainName(p.name) && IsMarker(m) && Absent(p.body, m) && m != StartMarker(p.name) && m != EndMarker(p.name)
    requires i <= |u| && k <= |v| && Absent(u, m) && Absent(v, m)
    ensures Absent(u[..i] + Block(p.name, p.body) + v[k..], m)
  {
    PartsLackIt(u, m, i);
    PartsLackIt(v, m, k);
    AbsentAround(u[..i], p.name, p.body, v[k..], m);
  }

  lemma ReplacedLacks(page: string, p: Partial, m: string)
    requires PlainName(p.name) && IsMarker(m) && Absent(p.body, m) && m != StartMarker(p.name) && m != EndMarker(p.name)
    requires Absent(page, m)
    ensures var r := Replaced(page, StartMarker(p.name), EndMarker(p.name), Block(p.name, p.body));
            r.Some? ==> Absent(r.value, m)
  {
    var start, end, block := StartMarker(p.name), EndMarker(p.name), Block(p.name, p.body);
    if Find(page, start).Some? && Replaced(page, start, end, block).Some? {
      var i, k := ReplacedIsSplice(page, start, end, block);
      ReplacingAddsNone(page, p, page, i, k, m);
    }
  }

  ghost predicate EffectWithout(e: Effect, m: string) {
    match e
    case InFront(t) => Absent(t, m)
    case Across(t) => Absent(t, m)
    case Behind(t) => Absent(t, m)
    case Broken => true
  }

  lemma EffectInFrontLacks(u: string, v: string, p: Partial, m: string)
    requires PlainName(p.name) && IsMarker(m) && Absent(p.body, m) && m != StartMarker(p.name) && m != EndMarker(p.name)
    requires Absent(u, m) && Absent(v, m) && Find(u, StartMarker(p.name)).Some?
    ensures EffectWithout(EffectInFront(u, v, StartMarker(p.name), EndMarker(p.name), Block(p.name, p.body)), m)
  {
    var start, end, block := StartMarker(p.name), EndMarker(p.name), Block(p.name, p.body);
    InFrontIsReplaced(u, v, start, end, block);
    match EffectInFront(u, v, start, end, block) {
      case InFront(t) => ReplacedLacks(u, p, m);
      case Across(t) => ReplacingAddsNone(u, p, v, Find(u, start).value, Find(v, end).value + |end|, m);
      case Behind(t) => assert false;
      case Broken =>
    }
  }

  lemma EffectLacks(u: string, v: string, p: Partial, m: string)
    requires PlainName(p.name) && IsMarker(m) && Absent(p.body, m) && m != StartMarker(p.name) && m != EndMarker(p.name)
    requires Absent(u, m) && Absent(v, m)
    ensures EffectWithout(PartialEffect(u, v, p), m)
  {
    if Find(u, StartMarker(p.name)).Some? {
      EffectInFrontLacks(u, v, p, m);
    } else {
      ReplacedLacks(v, p, m);
    }
  }

  /** Rewriting another region of two such pages stops on both or leaves two such pages. */
  lemma SiteKept(x: string, y: string, u: string, v: string, name: string, b: string, c: string, p: Partial)
    requires Site(x, y, u, v, name, b, c) && Foreign(name, b, p) && Foreign(name, c, p)
    requires Absent(p.body, StartMarker(name))
    ensures TwinOutcomes(RenderOne(x, p), RenderOne(y, p), name, b, c)
  {
    var m := StartMarker(name);
    NamesMakeMarkers(name);
    MarkersDiffer(name, p.name);
    RenderAround(u, name, b, v, p);
    RenderAround(u, name, c, v, p);
    EffectLacks(u, v, p, m);
    match PartialEffect(u, v, p) {
      case InFront(t) => assert Site(t + Block(name, b) + v, t + Block(name, c) + v, t, v, name, b, c);
      case Across(t) =>
      case Behind(t) => assert Site(u + Block(name, b) + t, u + Block(name, c) + t, u, t, name, b, c);
      case Broken =>
    }
  }

  lemma TwinsStep(x: string, y: string, name: string, b: string, c: string, p: Partial)
    requires Twins(x, y, name, b, c) && Foreign(name, b, p) && Foreign(name, c, p)
    requires Absent(p.body, StartMarker(name))
    ensures TwinOutcomes(RenderOne(x, p), RenderOne(y, p), name, b, c)
  {
    if x == y && Absent(x, StartMarker(name)) {
      NamesMakeMarkers(name);
      MarkersDiffer(name, p.name);
      ReplacedLacks(x, p, StartMarker(name));
    } else {
      var u, v :| Site(x, y, u, v, name, b, c);
      SiteKept(x, y, u, v, name, b, c, p);
    }
  }

  /** The partials `ps` can be written after a region `name` that holds `b` or `c`. */
  ghost predicate Compatible(name: string, b: string, c: string, ps: seq<Partial>) {
    forall p :: p in ps ==> Foreign(name, b, p) && Foreign(name, c, p) && Absent(p.body, StartMarker(name))
  }

  lemma {:induction false} TwinsRun(x: string, y: string, name: string, b: string, c: string, ps: seq<Partial>)
    requires Twins(x, y, name, b, c) && Compatible(name, b, c, ps)
    ensures TwinOutcomes(Render(x, ps), Render(y, ps), name, b, c)
    decreases |ps|
  {
    if ps != [] {
      assert ps[0] in ps;
      TwinsStep(x, y, name, b, c, ps[0]);
      if RenderOne(x, ps[0]).Page? {
        TwinsRun(RenderOne(x, ps[0]).text, RenderOne(y, ps[0]).text, name, b, c, ps[1..]);
      }
    }
  }

  lemma TwinRerendered(x: string, y: string, p: Partial, b: string)
    requires Twins(x, y, p.name, b, p.body) && PlainName(p.name) && Absent(b, EndMarker(p.name))
    ensures RenderOne(x, p) == Page(y)
  {
    if x == y && Absent(x, StartMarker(p.name)) {
      FindIsFirst(x, StartMarker(p.name));
    } else {
      var u, v :| Site(x, y, u, v, p.name, b, p.body);
      BlockRerendered(u, b, v, p);
    }
  }

  lemma OnceAtTheBlock(u: string, name: string, body: string, v: string)
    requires PlainName(name) && Absent(body, StartMarker(name))
    requires Absent(u, StartMarker(name)) && Absent(v, StartMarker(name))
    ensures Once(u + Block(name, body) + v, StartMarker(name))
  {
    var m, b := StartMarker(name), Block(name, body);
    NamesMakeMarkers(name);
    MarkersDiffer(name, name);
    BlockIsSolid(name, body);
    forall a: nat | At(u + b + v, a, m)
      ensures a == |u|
    {
      NothingStraddles(u, b, v, m, a);
      if |u| <= a && At(b, a - |u|, m) {
        MarkersOfABlock(name, body, m, a - |u|);
      }
    }
  }

  /** Where in the old page an occurrence in the new one stood. */
  lemma StoodBefore(page: string, p: Partial, m: string, i: nat, k: nat, a: nat) returns (o: nat)
    requires PlainName(p.name) && IsMarker(m) && Absent(p.body, m) && m != StartMarker(p.name) && m != EndMarker(p.name)
    requires i <= k <= |page| && At(page[..i] + Block(p.name, p.body) + page[k..], a, m)
    ensures At(page, o, m)
    ensures (o == a && a + |m| <= i) || (k <= o && o - k == a - i - |Block(p.name, p.body)|)
  {
    var u, v, n := page[..i], page[k..], |Block(p.name, p.body)|;
    OccursAround(u, p.name, p.body, v, m, a);
    if At(u, a, m) {
      o := a;
      assert u[a..a + |m|] == page[a..a + |m|];
    } else {
      o := a - i - n + k;
      assert v[a - i - n..a - i - n + |m|] == page[o..o + |m|];
    }
  }

  lemma OnceElsewhere(page: string, p: Partial, m: string, i: nat, k: nat)
    requires PlainName(p.name) && IsMarker(m) && Absent(p.body, m) && m != StartMarker(p.name) && m != EndMarker(p.name)
    requires i <= k <= |page| && Once(page, m)
    ensures Once(page[..i] + Block(p.name, p.body) + page[k..], m)
  {
    var t := page[..i] + Block(p.name, p.body) + page[k..];
    forall a: nat, b: nat | At(t, a, m) && At(t, b, m)
      ensures a == b
    {
      var oldA := StoodBefore(page, p, m, i, k, a);
      var oldB := StoodBefore(page, p, m, i, k, b);
      assert oldA == oldB;
    }
  }

  lemma StartsStayUnique(page: string, p: Partial, name: string)
    requires PlainName(p.name) && PlainName(name) && Absent(p.body, StartMarker(name))
    requires Once(page, StartMarker(name)) && RenderOne(page, p).Page?
    ensures Once(RenderOne(page, p).text, StartMarker(name))
  {
    var start, end, block := StartMarker(p.name), EndMarker(p.name), Block(p.name, p.body);
    NamesMakeMarkers(name);
    NamesMakeMarkers(p.name);
    MarkersDiffer(name, p.name);
    if Find(page, start).Some? {
      var i, k := ReplacedIsSplice(page, start, end, block);
      if name == p.name {
        OutsideLacksStart(page, start, i, k);
        OnceAtTheBlock(page[..i], p.name, p.body, page[k..]);
      } else {
        OnceElsewhere(page, p, StartMarker(name), i, k);
      }
    }
  }

  /** Writing one body or another into the same region of the same page stops on both or gives twins. */
  lemma RewritingGivesTwins(page: string, name: string, b: string, c: string)
    requires PlainName(name) && Once(page, StartMarker(name))
    ensures TwinOutcomes(RenderOne(page, Partial(name, b)), RenderOne(page, Partial(name, c)), name, b, c)
  {
    var start, end := StartMarker(name), EndMarker(name);
    if Find(page, start).None? {
      FindIsFirst(page, start);
    } else if Replaced(page, start, end, Block(name, b)).Some? {
      var i, k := ReplacedIsSplice(page, start, end, Block(name, b));
      OutsideLacksStart(page, start, i, k);
      assert Site(page[..i] + Block(name, b) + page[k..], page[..i] + Block(name, c) + page[k..],
                  page[..i], page[k..], name, b, c);
    }
  }

  /** Two sets of partials for the same regions, none of them holding a marker of any region. */
  ghost predicate Rival(ps: seq<Partial>, qs: seq<Partial>) {
    SameNames(ps, qs) && DistinctNames(ps) && MarkerFree(ps, Names(ps)) && MarkerFree(qs, Names(ps))
  }

  lemma RivalsMeet(ps: seq<Partial>, qs: seq<Partial>)
    requires Rival(ps, qs) && ps != []
    ensures Rival(ps[1..], qs[1..]) && Compatible(ps[0].name, ps[0].body, qs[0].body, ps[1..])
    ensures PlainName(ps[0].name) && Absent(ps[0].body, EndMarker(ps[0].name))
  {
    assert ps[0] in ps && qs[0] in qs;
    forall p | p in ps[1..]
      ensures Foreign(ps[0].name, ps[0].body, p) && Foreign(ps[0].name, qs[0].body, p)
      ensures Absent(p.body, StartMarker(ps[0].name))
    {
      assert p in ps && p.name in Names(ps) && ps[0].name in Names(ps);
    }
    assert ps[0].name in Names(ps);
    forall p, n | (p in ps[1..] || p in qs[1..]) && n in Names(ps[1..])
      ensures Absent(p.body, StartMarker(n)) && Absent(p.body, EndMarker(n))
    {
      assert p in ps || p in qs;
      assert n in Names(ps);
    }
  }

  lemma StartsOnceAfter(page: string, q: Partial, ps: seq<Partial>)
    requires DistinctNames(ps) && ps != [] && q.name == ps[0].name && MarkerFree([q], Names(ps))
    requires StartsOnce(page, ps) && RenderOne(page, q).Page?
    ensures StartsOnce(RenderOne(page, q).text, ps[1..])
  {
    assert ps[0] in ps && q in [q];
    forall p | p in ps[1..]
      ensures Once(RenderOne(page, q).text, StartMarker(p.name))
    {
      assert p in ps && p.name in Names(ps);
      StartsStayUnique(page, q, p.name);
    }
  }

  /** The last build wins: building a page from one set of partials and then from another gives what the other set
      alone gives from the original page, nested and swallowed regions included; and it stops on the first build
      exactly when it would have stopped on the second, at the same region. */
  lemma {:induction false} LastBuildWins(page: string, ps: seq<Partial>, qs: seq<Partial>)
    requires Rival(ps, qs) && StartsOnce(page, ps)
    ensures match Render(page, ps)
            case Page(t) => Render(t, qs) == Render(page, qs)
            case Unterminated(n) => Render(page, qs) == Unterminated(n)
    decreases |ps|
  {
    if ps != [] {
      var p, q := ps[0], qs[0];
      assert p in ps && q in qs && p.name in Names(ps);
      RivalsMeet(ps, qs);
      assert p == Partial(p.name, p.body) && q == Partial(p.name, q.body);
      RewritingGivesTwins(page, p.name, p.body, q.body);
      if RenderOne(page, p).Page? {
        var x, y := RenderOne(page, p).text, RenderOne(page, q).text;
        TwinsRun(x, y, p.name, p.body, q.body, ps[1..]);
        StartsOnceAfter(page, q, ps);
        LastBuildWins(y, ps[1..], qs[1..]);
        if Render(x, ps[1..]).Page? {
          TwinRerendered(Render(x, ps[1..]).text, Render(y, ps[1..]).text, q, p.body);
        }
      }
    }
  }

  /** Building twice is building once, so `--check` passes after a build. */
  lemma RenderIsIdempotent(page: string, ps: seq<Partial>)
    requires DistinctNames(ps) && MarkerFree(ps, Names(ps)) && StartsOnce(page, ps)
    ensures match Render(page, ps)
            case Page(t) => Render(t, ps) == Page(t)
            case Unterminated(_) => true
  {
    LastBuildWins(page, ps, ps);
  }

  /** The same regions, all empty. */
  function Emptied(ps: seq<Partial>): seq<Partial> {
    seq(|ps|, i requires 0 <= i < |ps| => Partial(ps[i].name, ""))
  }

  /** The text outside the regions is unchanged: with every region emptied, the built page is the original page. */
  lemma OutsideTheRegionsUnchanged(page: string, ps: seq<Partial>)
    requires DistinctNames(ps) && MarkerFree(ps, Names(ps)) && StartsOnce(page, ps)
    ensures match Render(page, ps)
            case Page(t) => Render(t, Emptied(ps)) == Render(page, Emptied(ps))
            case Unterminated(n) => Render(page, Emptied(ps)) == Unterminated(n)
  {
    var qs := Emptied(ps);
    forall q, n | q in qs && n in Names(ps)
      ensures Absent(q.body, StartMarker(n)) && Absent(q.body, EndMarker(n))
    {
      assert q.body == "" && |StartMarker(n)| > 0 && |EndMarker(n)| > 0;
    }
    LastBuildWins(page, ps, qs);
  }

  /** `t` holds the region of `p` with exactly its partial, or does not hold the region at all. */
  ghost predicate HoldsPartial(t: string, p: Partial) {
    Twins(t, t, p.name, p.body, p.body)
  }

  /** In a built page every region that is left holds its own partial, whatever was written after it. */
  lemma {:induction false} EveryRegionHoldsItsPartial(page: string, ps: seq<Partial>, p: Partial)
    requires DistinctNames(ps) && MarkerFree(ps, Names(ps)) && StartsOnce(page, ps)
    requires Render(page, ps).Page? && p in ps
    ensures HoldsPartial(Render(page, ps).text, p)
    decreases |ps|
  {
    RivalsMeet(ps, ps);
    var x := RenderOne(page, ps[0]).text;
    assert ps[0] in ps && ps[0] == Partial(ps[0].name, ps[0].body) && ps[0].name in Names(ps);
    if p == ps[0] {
      RewritingGivesTwins(page, p.name, p.body, p.body);
      TwinsRun(x, x, p.name, p.body, p.body, ps[1..]);
    } else {
      StartsOnceAfter(page, ps[0], ps);
      EveryRegionHoldsItsPartial(x, ps[1..], p);
    }
  }

  /** A region `a` nested in a region `b`, and `a` once more behind. */
  function Repeated(a: string, b: string): string {
    StartMarker(b) + StartMarker(a) + EndMarker(a) + EndMarker(b) + StartMarker(a) + EndMarker(a)
  }

  lemma FirstBuildOfRepeated(a: Partial, b: Partial)
    requires Rival([a, b], [a, b])
    ensures RenderOne(Repeated(a.name, b.name), a) ==
              Page(StartMarker(b.name) + Block(a.name, a.body) +
                   (EndMarker(b.name) + StartMarker(a.name) + EndMarker(a.name)))
  {
    assert [a, b][0] == a && [a, b][1] == b && a in [a, b] && b in [a, b];
    NamesMakeMarkers(a.name);
    NamesMakeMarkers(b.name);
    MarkersDiffer(a.name, b.name);
    MarkerHoldsNoOther(StartMarker(b.name), StartMarker(a.name));
    EmptyTextReplaced(StartMarker(b.name), StartMarker(a.name), EndMarker(a.name), EndMarker(b.name),
                      StartMarker(a.name), EndMarker(a.name), Block(a.name, a.body));
  }

  lemma SecondRegionOfRepeated(a: Partial, b: Partial)
    requires Rival([a, b], [a, b])
    ensures RenderOne(StartMarker(b.name) + Block(a.name, a.body) +
                      (EndMarker(b.name) + StartMarker(a.name) + EndMarker(a.name)), b)
              == Page(Block(b.name, b.body) + (StartMarker(a.name) + EndMarker(a.name)))
  {
    assert [a, b][0] == a && [a, b][1] == b && a in [a, b] && b in [a, b];
    assert b.name in Names([a, b]);
    NamesMakeMarkers(b.name);
    MarkersDiffer(a.name, b.name);
    MarkersDiffer(b.name, a.name);
    BlockHoldsNoOther(a.name, a.body, EndMarker(b.name));
    LeadingTextReplaced(StartMarker(b.name), Block(a.name, a.body), EndMarker(b.name), StartMarker(a.name),
                        EndMarker(a.name), Block(b.name, b.body));
  }

  lemma SecondBuildOfRepeated(a: Partial, b: Partial)
    requires Rival([a, b], [a, b])
    ensures RenderOne(Block(b.name, b.body) + (StartMarker(a.name) + EndMarker(a.name)), a)
              == Page(Block(b.name, b.body) + Block(a.name, a.body))
  {
    var sa, ea, ba, bb := StartMarker(a.name), EndMarker(a.name), Block(a.name, a.body), Block(b.name, b.body);
    assert [a, b][0] == a && [a, b][1] == b && a in [a, b] && b in [a, b];
    assert a.name in Names([a, b]) && b.name in Names([a, b]);
    NamesMakeMarkers(a.name);
    MarkersDiffer(a.name, b.name);
    BlockHoldsNoOther(b.name, b.body, sa);
    RegionReplaced(bb, "", "", a);
    Trailing(bb, sa, ea);
    assert bb + ba + "" == bb + ba;
  }

  lemma LeadingBlockRerendered(v: string, p: Partial)
    requires PlainName(p.name) && Absent(p.body, EndMarker(p.name))
    ensures RenderOne(Block(p.name, p.body) + v, p) == Page(Block(p.name, p.body) + v)
  {
    BlockRerendered("", p.body, v, p);
    LeadingNothing(Block(p.name, p.body), v);
  }

  /** With a start marker twice in the page the promise fails: the first build settles the nested copy, which the
      enclosing region then swallows, and the second build finds the other copy. */
  lemma RepeatedStartIsBuiltTwice(a: Partial, b: Partial)
    requires Rival([a, b], [a, b])
    ensures var once := Render(Repeated(a.name, b.name), [a, b]);
            && once == Page(Block(b.name, b.body) + (StartMarker(a.name) + EndMarker(a.name)))
            && Render(once.text, [a, b]) == Page(Block(b.name, b.body) + Block(a.name, a.body))
            && Render(once.text, [a, b]) != once
  {
    FirstBuildOfRepeated(a, b);
    SecondRegionOfRepeated(a, b);
    SecondBuildOfRepeated(a, b);
    assert [a, b][1] == b && b in [a, b] && b.name in Names([a, b]);
    LeadingBlockRerendered(Block(a.name, a.body), b);
    RenderTwo(Repeated(a.name, b.name), a, b);
    RenderTwo(Block(b.name, b.body) + (StartMarker(a.name) + EndMarker(a.name)), a, b);
    BlockIsLonger(a.name, a.body);
    LongerDiffers(Block(b.name, b.body), StartMarker(a.name) + EndMarker(a.name), Block(a.name, a.body));
  }

  lemma BlockIsLonger(name: string, body: string)
    ensures |StartMarker(name) + EndMarker(name)| < |Block(name, body)|
  {}

  lemma RenderTwo(page: string, a: Partial, b: Partial)
    ensures Render(page, [a, b]) ==
              match RenderOne(page, a)
              case Unterminated(n) => Unterminated(n)
              case Page(t) => RenderOne(t, b)
  {
    assert [a, b][1..] == [b] && [b][1..] == [];
    match RenderOne(page, a) {
      case Unterminated(_) =>
      case Page(t) => assert Render(t, [b]) == RenderOne(t, b);
    }
  }

  /** `--check` passes on every set of pages that a build has written. */
  lemma CheckPassesAfterBuild(was: seq<string>, pages: seq<string>, partials: seq<Partial>)
    requires |was| == |pages| && Built(was, pages, partials, |was|)
    requires DistinctNames(partials) && MarkerFree(partials, Names(partials))
    requires forall page :: page in was ==> StartsOnce(page, partials)
    ensures InSync(pages, partials)
  {
    forall i | 0 <= i < |pages|
      ensures Render(pages[i], partials) == Page(pages[i])
    {
      assert was[i] in was;
      RenderIsIdempotent(was[i], partials);
    }
  }
}
