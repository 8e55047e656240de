/** Pages on which a start marker may be repeated: when one rewriting unsettles a region that was already settled, and a
    guard under which building twice is still building once. */
module LandingSettled {
  import opened Wrappers
  import opened MarkedText
  import opened Landing
  import opened LandingLaws

  /** Writing the region again would change nothing. */
  predicate Settled(page: string, p: Partial) {
    RenderOne(page, p) == Page(page)
  }

  /** Where the first region of q ends, its end marker included. */
  function RegionEnd(page: string, q: Partial): (r: Option<nat>)
    ensures r.Some? ==> Find(page, StartMarker(q.name)).Some? && r.value <= |page|
  {
    match Find(page, StartMarker(q.name))
    case None => None
    case Some(i) =>
      var from := i + |StartMarker(q.name)|;
      match Find(page[from..], EndMarker(q.name))
      case None => None
      case Some(j) => Some(from + j + |EndMarker(q.name)|)
  }

  /** The first start marker of p stands inside the region of q that is about to be rewritten. */
  predicate Swallows(page: string, q: Partial, p: Partial) {
    && RegionEnd(page, q).Some? && Find(page, StartMarker(p.name)).Some?
    && Find(page, StartMarker(q.name)).value < Find(page, StartMarker(p.name)).value < RegionEnd(page, q).value
  }

  /** The guard on one rewriting: if it swallows the first copy of p's region, what follows has p settled too. */
  predicate Spares(page: string, q: Partial, p: Partial) {
    Swallows(page, q, p) ==> Settled(page[RegionEnd(page, q).value..], p)
  }

  /** The partials can stand on one page: other regions, and no markers in their bodies. */
  ghost predicate Apart(p: Partial, q: Partial) {
    && PlainName(p.name) && PlainName(q.name) && p.name != q.name
    && Absent(p.body, StartMarker(q.name)) && Absent(p.body, EndMarker(q.name))
    && Absent(q.body, StartMarker(p.name)) && Absent(q.body, EndMarker(p.name))
    && Absent(p.body, EndMarker(p.name)) && Absent(q.body, EndMarker(q.name))
  }

  lemma SettledWithoutStart(page: string, p: Partial)
    requires Absent(page, StartMarker(p.name))
    ensures Settled(page, p)
  {
    FindIsFirst(page, StartMarker(p.name));
  }

  lemma SettledAtItsBlock(u: string, v: string, p: Partial)
    requires PlainName(p.name) && Absent(u, StartMarker(p.name)) && Absent(p.body, EndMarker(p.name))
    ensures Settled(u + Block(p.name, p.body) + v, p)
  {
    BlockRerendered(u, p.body, v, p);
  }

  lemma FirstLacks(page: string, m: string, i: nat)
    requires m != "" && Find(page, m) == Some(i)
    ensures i <= |page| && Absent(page[..i], m)
  {
    FindIsFirst(page, m);
    forall a: nat ensures !At(page[..i], a, m) {
      if At(page[..i], a, m) {
        StandsInWhole(page, m, i, a);
      }
    }
  }

  /** Writing a region settles it. */
  lemma WrittenIsSettled(page: string, p: Partial, t: string)
    requires PlainName(p.name) && Absent(p.body, EndMarker(p.name)) && RenderOne(page, p) == Page(t)
    ensures Settled(t, p)
  {
    var start := StartMarker(p.name);
    if Find(page, start).Some? {
      var i, k := ReplacedIsSplice(page, start, EndMarker(p.name), Block(p.name, p.body));
      FirstLacks(page, start, i);
      SettledAtItsBlock(page[..i], page[k..], p);
    }
  }

  /** A settled page either lacks the region or holds exactly its block where the region first starts. */
  lemma SettledSplits(page: string, p: Partial) returns (u: string, v: string)
    requires Settled(page, p) && Find(page, StartMarker(p.name)).Some?
    ensures page == u + Block(p.name, p.body) + v && Absent(u, StartMarker(p.name))
    ensures |u| == Find(page, StartMarker(p.name)).value
  {
    var i, k := ReplacedIsSplice(page, StartMarker(p.name), EndMarker(p.name), Block(p.name, p.body));
    FirstLacks(page, StartMarker(p.name), i);
    u, v := page[..i], page[k..];
  }

  lemma EndsInFront(u: string, b: string, v: string, q: Partial)
    requires Find(u, StartMarker(q.name)).Some? && SeenAround(u, b, v, StartMarker(q.name))
    requires var w := u[Find(u, StartMarker(q.name)).value + |StartMarker(q.name)|..];
             SeenAround(w, b, v, EndMarker(q.name)) && Find(w, EndMarker(q.name)).Some?
    ensures RegionEnd(u + b + v, q).Some? && RegionEnd(u + b + v, q).value <= |u|
  {
    DropFrom(u, b, v, Find(u, StartMarker(q.name)).value + |StartMarker(q.name)|);
  }

  lemma EndsBehind(u: string, b: string, v: string, q: Partial)
    requires Find(u, StartMarker(q.name)).Some? && SeenAround(u, b, v, StartMarker(q.name))
    requires var w := u[Find(u, StartMarker(q.name)).value + |StartMarker(q.name)|..];
             SeenAround(w, b, v, EndMarker(q.name)) && Find(w, EndMarker(q.name)).None?
    requires Find(v, EndMarker(q.name)).Some?
    ensures RegionEnd(u + b + v, q) == Some(|u| + |b| + Find(v, EndMarker(q.name)).value + |EndMarker(q.name)|)
  {
    DropFrom(u, b, v, Find(u, StartMarker(q.name)).value + |StartMarker(q.name)|);
  }

  lemma SamePrefix(u: string, a: string, b: string)
    ensures u + a == u + b <==> a == b
  {
    if u + a == u + b {
      assert (u + a)[|u|..] == a && (u + b)[|u|..] == b;
    }
  }

  /** Behind text that holds no start marker of p, a page is settled exactly when what follows is. */
  lemma SettledBehind(u: string, q: Partial, r: string, p: Partial)
    requires Apart(p, q) && Absent(u, StartMarker(p.name))
    ensures Settled(u + Block(q.name, q.body) + r, p) <==> Settled(r, p)
  {
    var start, b := StartMarker(p.name), Block(q.name, q.body);
    SeenAroundForeign(u, q.name, q.body, r, p);
    FindIsFirst(u, start);
    ReplacedBehind(u, b, r, start, EndMarker(p.name), Block(p.name, p.body));
    var next := Replaced(r, start, EndMarker(p.name), Block(p.name, p.body));
    if next.Some? {
      SamePrefix(u + b, next.value, r);
    }
  }

  lemma InFrontStaysSettled(u: string, v: string, q: Partial, p: Partial, t: string)
    requires Apart(p, q) && Absent(u, StartMarker(p.name)) && Find(u, StartMarker(q.name)).Some?
    requires PartialEffect(u, v, q) == InFront(t)
    ensures Settled(t + Block(p.name, p.body) + v, p)
  {
    InFrontIsReplaced(u, v, StartMarker(q.name), EndMarker(q.name), Block(q.name, q.body));
    NamesMakeMarkers(p.name);
    MarkersDiffer(p.name, q.name);
    ReplacedLacks(u, q, StartMarker(p.name));
    SettledAtItsBlock(t, v, p);
  }

  /** The page around p's block rewritten at q, in terms of the text before and behind the block. */
  lemma RewrittenAround(u: string, v: string, q: Partial, p: Partial, y: string)
    requires Apart(p, q) && RenderOne(u + Block(p.name, p.body) + v, q) == Page(y)
    ensures Applied(PartialEffect(u, v, q), u, Block(p.name, p.body), v) == Some(y)
  {
    RenderAround(u, p.name, p.body, v, q);
  }

  lemma EndedBeforeIsSpared(x: string, q: Partial, p: Partial)
    requires Find(x, StartMarker(p.name)).Some?
    requires RegionEnd(x, q).Some? ==> RegionEnd(x, q).value <= Find(x, StartMarker(p.name)).value
    ensures Spares(x, q, p)
  {}

  lemma StartedBehindIsSpared(x: string, q: Partial, p: Partial)
    requires Find(x, StartMarker(p.name)).Some?
    requires Find(x, StartMarker(q.name)).Some? ==>
               Find(x, StartMarker(p.name)).value <= Find(x, StartMarker(q.name)).value
    ensures Spares(x, q, p)
  {}

  lemma SwallowedIsSparedExactlyWhen(x: string, q: Partial, p: Partial, r: string)
    requires RegionEnd(x, q).Some? && Find(x, StartMarker(p.name)).Some? && x[RegionEnd(x, q).value..] == r
    requires Find(x, StartMarker(q.name)).value < Find(x, StartMarker(p.name)).value < RegionEnd(x, q).value
    ensures Spares(x, q, p) <==> Settled(r, p)
  {}

  ghost predicate EndsWithin(u: string, q: Partial) {
    && Find(u, StartMarker(q.name)).Some?
    && Find(u[Find(u, StartMarker(q.name)).value + |StartMarker(q.name)|..], EndMarker(q.name)).Some?
  }

  /** q's region starts and ends before p's block. */
  lemma RegionBefore(u: string, v: string, q: Partial, p: Partial, y: string)
    requires Apart(p, q) && Absent(u, StartMarker(p.name)) && EndsWithin(u, q)
    requires RenderOne(u + Block(p.name, p.body) + v, q) == Page(y)
    requires Find(u + Block(p.name, p.body) + v, StartMarker(p.name)) == Some(|u|)
    ensures Settled(y, p) && Spares(u + Block(p.name, p.body) + v, q, p)
  {
    RewrittenAround(u, v, q, p, y);
    InFrontStaysSettled(u, v, q, p, PartialEffect(u, v, q).u);
    EndBefore(u, v, q, p);
    EndedBeforeIsSpared(u + Block(p.name, p.body) + v, q, p);
  }

  lemma EndBefore(u: string, v: string, q: Partial, p: Partial)
    requires Apart(p, q) && EndsWithin(u, q)
    ensures var x := u + Block(p.name, p.body) + v;
            RegionEnd(x, q).Some? && RegionEnd(x, q).value <= |u|
  {
    SeenAroundForeign(u, p.name, p.body, v, q);
    SeenAroundForeign(u[Find(u, StartMarker(q.name)).value + |StartMarker(q.name)|..], p.name, p.body, v, q);
    EndsInFront(u, Block(p.name, p.body), v, q);
  }

  /** q's region starts before p's block and ends behind it. */
  lemma RegionAcross(u: string, v: string, q: Partial, p: Partial, y: string)
    requires Apart(p, q) && Absent(u, StartMarker(p.name)) && Find(u, StartMarker(q.name)).Some? && !EndsWithin(u, q)
    requires RenderOne(u + Block(p.name, p.body) + v, q) == Page(y)
    requires Find(u + Block(p.name, p.body) + v, StartMarker(p.name)) == Some(|u|)
    ensures Settled(y, p) <==> Spares(u + Block(p.name, p.body) + v, q, p)
  {
    RewrittenAround(u, v, q, p, y);
    EffectAcross(u, v, q);
    var i, cut := Find(u, StartMarker(q.name)).value, Find(v, EndMarker(q.name)).value + |EndMarker(q.name)|;
    PartsLackIt(u, StartMarker(p.name), i);
    SettledBehind(u[..i], q, v[cut..], p);
    EndAcross(u, v, q, p);
    SwallowedIsSparedExactlyWhen(u + Block(p.name, p.body) + v, q, p, v[cut..]);
  }

  lemma EffectAcross(u: string, v: string, q: Partial)
    requires Find(u, StartMarker(q.name)).Some? && !EndsWithin(u, q)
    ensures match Find(v, EndMarker(q.name))
            case None => PartialEffect(u, v, q) == Broken
            case Some(j) =>
              var tail := v[j + |EndMarker(q.name)|..];
              PartialEffect(u, v, q) == Across(u[..Find(u, StartMarker(q.name)).value] + Block(q.name, q.body) + tail)
  {}

  lemma EndAcrossPiece(u: string, b: string, v: string, q: Partial)
    requires Find(u, StartMarker(q.name)).Some? && !EndsWithin(u, q) && Find(v, EndMarker(q.name)).Some?
    requires SeenAround(u, b, v, StartMarker(q.name)) && b != ""
    requires SeenAround(u[Find(u, StartMarker(q.name)).value + |StartMarker(q.name)|..], b, v, EndMarker(q.name))
    ensures PastPiece(u, b, v, q, Find(v, EndMarker(q.name)).value + |EndMarker(q.name)|)
  {
    EndsBehind(u, b, v, q);
    TailBehind(u, b, v, Find(v, EndMarker(q.name)).value + |EndMarker(q.name)|);
  }

  /** q's region starts in u and ends `cut` into v, past the piece between them. */
  predicate PastPiece(u: string, b: string, v: string, q: Partial, cut: nat) {
    && cut <= |v| && b != "" && RegionEnd(u + b + v, q) == Some(|u| + |b| + cut)
    && (u + b + v)[|u| + |b| + cut..] == v[cut..]
    && Find(u + b + v, StartMarker(q.name)) == Find(u, StartMarker(q.name))
  }

  lemma EndAcross(u: string, v: string, q: Partial, p: Partial)
    requires Apart(p, q) && Find(u, StartMarker(q.name)).Some? && !EndsWithin(u, q) && Find(v, EndMarker(q.name)).Some?
    ensures PastPiece(u, Block(p.name, p.body), v, q, Find(v, EndMarker(q.name)).value + |EndMarker(q.name)|)
  {
    SeenAroundForeign(u, p.name, p.body, v, q);
    SeenAroundForeign(u[Find(u, StartMarker(q.name)).value + |StartMarker(q.name)|..], p.name, p.body, v, q);
    BlockIsSolid(p.name, p.body);
    EndAcrossPiece(u, Block(p.name, p.body), v, q);
  }

  lemma TailBehind(u: string, b: string, v: string, cut: nat)
    requires cut <= |v|
    ensures |u| + |b| + cut <= |u + b + v| && (u + b + v)[|u| + |b| + cut..] == v[cut..]
  {}

  /** q's region starts behind p's block, or there is none. */
  lemma RegionBehind(u: string, v: string, q: Partial, p: Partial, y: string)
    requires Apart(p, q) && Absent(u, StartMarker(p.name)) && Find(u, StartMarker(q.name)).None?
    requires RenderOne(u + Block(p.name, p.body) + v, q) == Page(y)
    requires Find(u + Block(p.name, p.body) + v, StartMarker(p.name)) == Some(|u|)
    ensures Settled(y, p) && Spares(u + Block(p.name, p.body) + v, q, p)
  {
    RewrittenAround(u, v, q, p, y);
    EffectBehind(u, v, q);
    SettledAtItsBlock(u, PartialEffect(u, v, q).v, p);
    StartBehind(u, v, q, p);
    StartedBehindIsSpared(u + Block(p.name, p.body) + v, q, p);
  }

  lemma EffectBehind(u: string, v: string, q: Partial)
    requires Find(u, StartMarker(q.name)).None?
    ensures PartialEffect(u, v, q).Behind? || PartialEffect(u, v, q).Broken?
  {}

  lemma StartBehind(u: string, v: string, q: Partial, p: Partial)
    requires Apart(p, q) && Find(u, StartMarker(q.name)).None?
    ensures var x := u + Block(p.name, p.body) + v;
            Find(x, StartMarker(q.name)).Some? ==> |u| <= Find(x, StartMarker(q.name)).value
  {
    SeenAroundForeign(u, p.name, p.body, v, q);
  }

  /** The exact condition on one rewriting, repeated markers or not: a settled region stays settled exactly when the
      rewriting does not swallow its first copy, or what follows the swallowed copy is settled too. */
  lemma StaysSettledExactlyWhenSpared(page: string, q: Partial, p: Partial, next: string)
    requires Apart(p, q) && Settled(page, p) && RenderOne(page, q) == Page(next)
    ensures Settled(next, p) <==> Spares(page, q, p)
  {
    var start := StartMarker(p.name);
    if Find(page, start).None? {
      FindIsFirst(page, start);
      NamesMakeMarkers(p.name);
      MarkersDiffer(p.name, q.name);
      ReplacedLacks(page, q, start);
      SettledWithoutStart(next, p);
    } else {
      var u, v := SettledSplits(page, p);
      if EndsWithin(u, q) {
        RegionBefore(u, v, q, p, next);
      } else if Find(u, StartMarker(q.name)).Some? {
        RegionAcross(u, v, q, p, next);
      } else {
        RegionBehind(u, v, q, p, next);
      }
    }
  }

  // ------------------------------------------------- whole builds

  /** Each rewriting of the build spares the regions written before it, `done` being those written already. */
  predicate SparingBuild(page: string, done: seq<Partial>, ps: seq<Partial>)
    decreases |ps|
  {
    ps == [] ||
    ((forall p <- done :: Spares(page, ps[0], p)) &&
     (RenderOne(page, ps[0]).Page? ==> SparingBuild(RenderOne(page, ps[0]).text, done + [ps[0]], ps[1..])))
  }

  ghost predicate AllApart(ps: seq<Partial>) {
    && (forall i, j | 0 <= i < j < |ps| :: Apart(ps[i], ps[j]))
    && (forall p <- ps :: PlainName(p.name) && Absent(p.body, EndMarker(p.name)))
  }

  lemma {:induction false} SparingBuildSettlesAll(page: string, done: seq<Partial>, ps: seq<Partial>)
    requires AllApart(done + ps) && SparingBuild(page, done, ps) && Render(page, ps).Page?
    requires forall p <- done :: Settled(page, p)
    ensures forall p <- done + ps :: Settled(Render(page, ps).text, p)
    decreases |ps|
  {
    if ps == [] {
      assert done + ps == done;
    } else {
      var q, next := ps[0], RenderOne(page, ps[0]).text;
      assert (done + ps)[|done|] == q && q in done + ps;
      assert done + ps == (done + [q]) + ps[1..];
      WrittenIsSettled(page, q, next);
      forall p | p in done ensures Settled(next, p) {
        var i :| 0 <= i < |done| && done[i] == p;
        assert (done + ps)[i] == p && Apart(p, q);
        StaysSettledExactlyWhenSpared(page, q, p, next);
      }
      SparingBuildSettlesAll(next, done + [q], ps[1..]);
    }
  }

  lemma {:induction false} SettledPagesStay(page: string, ps: seq<Partial>)
    requires forall p <- ps :: Settled(page, p)
    ensures Render(page, ps) == Page(page)
    decreases |ps|
  {
    if ps != [] {
      assert ps[0] in ps;
      SettledPagesStay(page, ps[1..]);
    }
  }

  /** Building twice is building once on every page whose build spares what it has written, repeated markers or not. */
  lemma SparingBuildIsIdempotent(page: string, ps: seq<Partial>)
    requires AllApart(ps) && SparingBuild(page, [], ps)
    ensures match Render(page, ps)
            case Page(t) => Render(t, ps) == Page(t)
            case Unterminated(_) => true
  {
    if Render(page, ps).Page? {
      assert [] + ps == ps;
      SparingBuildSettlesAll(page, [], ps);
      SettledPagesStay(Render(page, ps).text, ps);
    }
  }

  /** A start marker that occurs once is always spared, so the guard is the weaker one. */
  lemma UniqueStartsAreSpared(page: string, q: Partial, p: Partial)
    requires PlainName(p.name) && Once(page, StartMarker(p.name))
    ensures Spares(page, q, p)
  {
    if Swallows(page, q, p) {
      NamesMakeMarkers(p.name);
      var i, k := Find(page, StartMarker(p.name)).value, RegionEnd(page, q).value;
      OutsideLacksStart(page, StartMarker(p.name), i, k);
      SettledWithoutStart(page[k..], p);
    }
  }
}
