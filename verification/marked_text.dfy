/** Text between markers: where a marker first occurs, and the replacement of what stands between a start and an end
    marker. The markers open with `<`, close with `>` and hold neither in between, so they never overlap. */
module MarkedText {
  import opened Wrappers

  predicate At(s: string, i: nat, m: string) {
    i + |m| <= |s| && s[i..i + |m|] == m
  }

  ghost predicate Absent(s: string, m: string) {
    forall i: nat :: !At(s, i, m)
  }

  ghost predicate Once(s: string, m: string) {
    forall i: nat, j: nat :: At(s, i, m) && At(s, j, m) ==> i == j
  }

  /** Opens with `<`, closes with `>`, and holds neither in between. */
  predicate IsMarker(m: string) {
    2 <= |m| && m[0] == '<' && m[|m| - 1] == '>' && forall j :: 0 < j < |m| - 1 ==> m[j] != '<' && m[j] != '>'
  }

  /** Where `m` first occurs in `s`, looking from `i` on. */
  function FindFrom(s: string, m: string, i: nat): (r: Option<nat>)
    requires i <= |s|
    ensures r.Some? ==> r.value + |m| <= |s|
    decreases |s| - i
  {
    if At(s, i, m) then Some(i) else if i == |s| then None else FindFrom(s, m, i + 1)
  }

  function Find(s: string, m: string): (r: Option<nat>)
    ensures r.Some? ==> r.value + |m| <= |s|
  {
    FindFrom(s, m, 0)
  }

  function Shifted(found: Option<nat>, offset: nat): Option<nat> {
    match found
    case Some(i) => Some(offset + i)
    case None => None
  }

  /** The text from the first `start` to the first `end` after it, both included, gives way to `block`; nothing
      happens without a `start`, and there is no result without an `end`. */
  function Replaced(page: string, start: string, end: string, block: string): Option<string> {
    match Find(page, start)
    case None => Some(page)
    case Some(i) =>
      var rest := page[i + |start|..];
      match Find(rest, end)
      case None => None
      case Some(j) => Some(page[..i] + block + rest[j + |end|..])
  }

  lemma {:induction false} FindFromIsFirst(s: string, m: string, i: nat)
    requires i <= |s|
    ensures FindFrom(s, m, i).Some? ==> i <= FindFrom(s, m, i).value && At(s, FindFrom(s, m, i).value, m)
    ensures forall k: nat | At(s, k, m) && i <= k :: FindFrom(s, m, i).Some? && FindFrom(s, m, i).value <= k
    decreases |s| - i
  {
    if !At(s, i, m) && i < |s| {
      FindFromIsFirst(s, m, i + 1);
    }
  }

  /** `Find` gives the first occurrence, and nothing only when there is none. */
  lemma FindIsFirst(s: string, m: string)
    ensures Find(s, m).Some? ==> At(s, Find(s, m).value, m)
    ensures forall k: nat | At(s, k, m) :: Find(s, m).Some? && Find(s, m).value <= k
  {
    FindFromIsFirst(s, m, 0);
  }

  /** The first occurrence is where nothing comes before and the marker stands. */
  lemma FindIs(s: string, m: string, i: nat)
    requires At(s, i, m) && forall k: nat :: k < i ==> !At(s, k, m)
    ensures Find(s, m) == Some(i)
  {
    FindIsFirst(s, m);
  }

  lemma AtIndex(s: string, i: nat, m: string, k: nat)
    requires At(s, i, m) && k < |m|
    ensures s[i + k] == m[k]
  {
    assert s[i..i + |m|][k] == m[k];
  }

  /** Two markers at the same place are the same marker. */
  lemma SamePlaceSameMarker(s: string, i: nat, m: string, n: string)
    requires IsMarker(m) && IsMarker(n) && At(s, i, m) && At(s, i, n)
    ensures m == n
  {
    AtIndex(s, i, m, |m| - 1);
    AtIndex(s, i, n, |n| - 1);
    if |m| < |n| {
      AtIndex(s, i, n, |m| - 1);
    } else if |n| < |m| {
      AtIndex(s, i, m, |n| - 1);
    }
  }

  /** A piece that opens with `<` and closes with `>` is never straddled by a marker. */
  lemma NothingStraddles(u: string, b: string, v: string, m: string, i: nat)
    requires IsMarker(m) && b != "" && b[0] == '<' && b[|b| - 1] == '>' && At(u + b + v, i, m)
    ensures || At(u, i, m)
            || (|u| <= i && At(b, i - |u|, m))
            || (|u| + |b| <= i && At(v, i - |u| - |b|, m))
  {
    var s := u + b + v;
    if i < |u| && |u| < i + |m| {
      AtIndex(s, i, m, |u| - i);
    } else if |u| <= i < |u| + |b| && |u| + |b| < i + |m| {
      AtIndex(s, i, m, |u| + |b| - 1 - i);
    } else if i + |m| <= |u| {
      assert s[i..i + |m|] == u[i..i + |m|];
    } else if i < |u| + |b| {
      assert s[i..i + |m|] == b[i - |u|..i - |u| + |m|];
    } else {
      assert s[i..i + |m|] == v[i - |u| - |b|..i - |u| - |b| + |m|];
    }
  }

  lemma OccursBesides(u: string, b: string, v: string, m: string, i: nat)
    requires IsMarker(m) && b != "" && b[0] == '<' && b[|b| - 1] == '>' && Absent(b, m) && At(u + b + v, i, m)
    ensures At(u, i, m) || (|u| + |b| <= i && At(v, i - |u| - |b|, m))
  {
    NothingStraddles(u, b, v, m, i);
  }

  lemma AtEmbeds(u: string, w: string, v: string, m: string, i: nat)
    requires At(w, i, m)
    ensures At(u + w + v, |u| + i, m)
  {
    assert (u + w + v)[|u| + i..|u| + i + |m|] == w[i..i + |m|];
  }

  lemma AbsentFromPart(u: string, w: string, v: string, m: string)
    requires Absent(u + w + v, m)
    ensures Absent(w, m)
  {
    forall i: nat
      ensures !At(w, i, m)
    {
      if At(w, i, m) {
        AtEmbeds(u, w, v, m, i);
      }
    }
  }

  lemma PartsLackIt(u: string, m: string, i: nat)
    requires i <= |u| && Absent(u, m)
    ensures Absent(u[..i], m) && Absent(u[i..], m)
  {
    assert "" + u[..i] + u[i..] == u && u[..i] + u[i..] + "" == u;
    AbsentFromPart("", u[..i], u[i..], m);
    AbsentFromPart(u[..i], u[i..], "", m);
  }

  lemma MarkerHoldsNoOther(m: string, n: string)
    requires IsMarker(m) && IsMarker(n) && m != n
    ensures Absent(m, n)
  {
    forall i: nat
      ensures !At(m, i, n)
    {
      if At(m, i, n) {
        AtIndex(m, i, n, 0);
        assert m[0..|m|] == m;
        SamePlaceSameMarker(m, i, m, n);
      }
    }
  }

  lemma StandsInPadded(b: string, m: string, i: nat)
    requires IsMarker(m) && At("\n" + b + "\n", i, m)
    ensures 1 <= i && At(b, i - 1, m)
  {
    var s := "\n" + b + "\n";
    AtIndex(s, i, m, 0);
    AtIndex(s, i, m, |m| - 1);
    assert s[i..i + |m|] == b[i - 1..i - 1 + |m|];
  }

  /** The newlines around a text complete no marker. */
  lemma PaddedHoldsNone(b: string, m: string)
    requires IsMarker(m) && Absent(b, m)
    ensures Absent("\n" + b + "\n", m)
  {
    forall i: nat
      ensures !At("\n" + b + "\n", i, m)
    {
      if At("\n" + b + "\n", i, m) {
        StandsInPadded(b, m, i);
      }
    }
  }

  lemma MarkersOfMarkedText(s: string, mid: string, e: string, m: string, i: nat)
    requires IsMarker(s) && IsMarker(e) && IsMarker(m) && Absent(mid, m) && At(s + mid + e, i, m)
    ensures (i == 0 && m == s) || (0 < i && m == e)
  {
    assert s + mid + e == "" + s + (mid + e) && mid + e == mid + e + "";
    assert s[0..|s|] == s && e[0..|e|] == e;
    NothingStraddles("", s, mid + e, m, i);
    if At(s, i, m) {
      AtIndex(s, i, m, 0);
      SamePlaceSameMarker(s, i, m, s);
    } else {
      NothingStraddles(mid, e, "", m, i - |s|);
      AtIndex(e, i - |s| - |mid|, m, 0);
      SamePlaceSameMarker(e, i - |s| - |mid|, m, e);
    }
  }

  lemma FindAfterClearText(u: string, m: string, w: string)
    requires IsMarker(m) && Absent(u, m)
    ensures Find(u + m + w, m) == Some(|u|)
  {
    var s := u + m + w;
    assert s[|u|..|u| + |m|] == m;
    forall k: nat | k < |u|
      ensures !At(s, k, m)
    {
      if At(s, k, m) {
        NothingStraddles(u, m, w, m, k);
      }
    }
    FindIs(s, m, |u|);
  }

  lemma FindAroundPiece(u: string, b: string, v: string, m: string)
    requires forall k: nat :: At(u + b + v, k, m) ==> At(u, k, m) || (|u| + |b| <= k && At(v, k - |u| - |b|, m))
    ensures Find(u + b + v, m) == if Find(u, m).Some? then Find(u, m) else Shifted(Find(v, m), |u| + |b|)
  {
    var s := u + b + v;
    if Find(u, m).Some? {
      FindIsFirst(u, m);
      AtEmbeds("", u, b + v, m, Find(u, m).value);
      assert "" + u + (b + v) == s;
      FindIs(s, m, Find(u, m).value);
    } else if Find(v, m).Some? {
      FoundBehindPiece(u, b, v, m, Find(v, m).value);
    } else {
      FindIsFirst(u, m);
      FindIsFirst(v, m);
      FindIsFirst(s, m);
    }
  }

  lemma FoundBehindPiece(u: string, b: string, v: string, m: string, j: nat)
    requires forall k: nat :: At(u + b + v, k, m) ==> At(u, k, m) || (|u| + |b| <= k && At(v, k - |u| - |b|, m))
    requires Find(u, m).None? && Find(v, m) == Some(j)
    ensures Find(u + b + v, m) == Some(|u| + |b| + j)
  {
    var s := u + b + v;
    FindIsFirst(u, m);
    FindIsFirst(v, m);
    AtEmbeds(u + b, v, "", m, j);
    assert u + b + v + "" == s;
    FindIs(s, m, |u| + |b| + j);
  }

  /** How a replacement computes once both markers are found. */
  lemma ReplacedAt(page: string, start: string, end: string, block: string, i: nat, rest: string, tail: string)
    requires Find(page, start) == Some(i) && rest == page[i + |start|..]
    requires Find(rest, end).Some? && tail == rest[Find(rest, end).value + |end|..]
    ensures Replaced(page, start, end, block) == Some(page[..i] + block + tail)
  {}

  lemma NeverCloses(page: string, start: string, end: string, block: string, i: nat, rest: string)
    requires Find(page, start) == Some(i) && rest == page[i + |start|..] && Find(rest, end).None?
    ensures Replaced(page, start, end, block) == None
  {}

  lemma MarkedTextReplaced(u: string, start: string, content: string, end: string, v: string, block: string)
    requires IsMarker(start) && IsMarker(end) && Absent(u, start) && Absent(content, end)
    ensures Replaced(u + start + (content + end + v), start, end, block) == Some(u + block + v)
  {
    var rest := content + end + v;
    var page := u + start + rest;
    FindAfterClearText(u, start, rest);
    FindAfterClearText(content, end, v);
    assert page[|u| + |start|..] == rest && page[..|u|] == u;
    assert rest[|content| + |end|..] == v;
  }

  /** A replacement keeps the page up to somewhere and from somewhere on, whatever the new block holds. */
  lemma ReplacedIsSplice(page: string, start: string, end: string, block: string) returns (i: nat, k: nat)
    requires Find(page, start).Some? && Replaced(page, start, end, block).Some?
    ensures i + |start| <= k <= |page| && i == Find(page, start).value
    ensures forall b: string :: Replaced(page, start, end, b) == Some(page[..i] + b + page[k..])
  {
    i := Find(page, start).value;
    var w := page[i + |start|..];
    var cut := Find(w, end).value + |end|;
    k := i + |start| + cut;
    assert w[cut..] == page[k..];
  }

  lemma StandsInWhole(page: string, m: string, i: nat, a: nat)
    requires i <= |page| && At(page[..i], a, m)
    ensures At(page, a, m)
  {
    assert page[..i][a..a + |m|] == page[a..a + |m|];
  }

  /** Around the first region, a page that holds the start marker once holds it nowhere else. */
  lemma OutsideLacksStart(page: string, m: string, i: nat, k: nat)
    requires m != "" && Find(page, m) == Some(i) && Once(page, m) && i < k <= |page|
    ensures Absent(page[..i], m) && Absent(page[k..], m)
  {
    FindIsFirst(page, m);
    forall a: nat
      ensures !At(page[..i], a, m) && !At(page[k..], a, m)
    {
      if At(page[..i], a, m) {
        StandsInWhole(page, m, i, a);
      }
      if At(page[k..], a, m) {
        assert page[k..][a..a + |m|] == page[k + a..k + a + |m|];
        assert At(page, k + a, m);
      }
    }
  }

  /** Where a region falls relative to a piece of the page; none of it depends on what the piece holds. */
  datatype Effect = InFront(u: string) | Across(text: string) | Behind(v: string) | Broken

  function EffectInFront(u: string, v: string, start: string, end: string, block: string): Effect
    requires Find(u, start).Some?
  {
    var i := Find(u, start).value;
    var w := u[i + |start|..];
    match Find(w, end)
    case Some(j) => InFront(u[..i] + block + w[j + |end|..])
    case None =>
      match Find(v, end)
      case Some(j) => Across(u[..i] + block + v[j + |end|..])
      case None => Broken
  }

  function EffectOf(u: string, v: string, start: string, end: string, block: string): Effect {
    if Find(u, start).Some? then EffectInFront(u, v, start, end, block)
    else
      match Replaced(v, start, end, block)
      case Some(t) => Behind(t)
      case None => Broken
  }

  function Applied(e: Effect, u: string, b: string, v: string): Option<string> {
    match e
    case InFront(t) => Some(t + b + v)
    case Across(t) => Some(t)
    case Behind(t) => Some(u + b + t)
    case Broken => None
  }

  /** What `FindAround` gives for a piece `b` and a marker foreign to it. */
  predicate SeenAround(u: string, b: string, v: string, m: string) {
    Find(u + b + v, m) == if Find(u, m).Some? then Find(u, m) else Shifted(Find(v, m), |u| + |b|)
  }

  lemma InFrontIsReplaced(u: string, v: string, start: string, end: string, block: string)
    requires Find(u, start).Some?
    ensures match EffectInFront(u, v, start, end, block)
            case InFront(t) => Replaced(u, start, end, block) == Some(t)
            case Across(t) => Find(v, end).Some? &&
              t == u[..Find(u, start).value] + block + v[Find(v, end).value + |end|..]
            case Behind(t) => false
            case Broken => true
  {}

  lemma DropFrom(u: string, b: string, v: string, i: nat)
    ensures i <= |u| ==> (u + b + v)[i..] == u[i..] + b + v && (u + b + v)[..i] == u[..i]
    ensures i <= |v| ==> (u + b + v)[|u| + |b| + i..] == v[i..] && (u + b + v)[..|u| + |b| + i] == u + b + v[..i]
  {}

  lemma Regroup4(a: string, c: string, w: string, b: string, v: string)
    ensures a + c + (w + b + v) == (a + c + w) + b + v
    ensures a + b + v + c + w == a + b + (v + c + w)
  {}

  lemma ClosesInFront(u: string, b: string, v: string, start: string, end: string, block: string, i: nat, w: string)
    requires i + |start| <= |u| && w == u[i + |start|..]
    requires Find(u + b + v, start) == Some(i) && Find(w, end).Some? && Find(w + b + v, end) == Find(w, end)
    ensures Replaced(u + b + v, start, end, block) ==
              Some((u[..i] + block + w[Find(w, end).value + |end|..]) + b + v)
  {
    var cut := Find(w, end).value + |end|;
    DropFrom(u, b, v, i);
    DropFrom(u, b, v, i + |start|);
    DropFrom(w, b, v, cut);
    ReplacedAt(u + b + v, start, end, block, i, w + b + v, w[cut..] + b + v);
    Regroup4(u[..i], block, w[cut..], b, v);
  }

  lemma ClosesBehind(u: string, b: string, v: string, start: string, end: string, block: string, i: nat, w: string)
    requires i + |start| <= |u| && w == u[i + |start|..]
    requires Find(u + b + v, start) == Some(i) && Find(v, end).Some?
    requires Find(w + b + v, end) == Shifted(Find(v, end), |w| + |b|)
    ensures Replaced(u + b + v, start, end, block) == Some(u[..i] + block + v[Find(v, end).value + |end|..])
  {
    var cut := Find(v, end).value + |end|;
    DropFrom(u, b, v, i);
    DropFrom(u, b, v, i + |start|);
    DropFrom(w, b, v, cut);
    ReplacedAt(u + b + v, start, end, block, i, w + b + v, v[cut..]);
  }

  lemma ReplacedInFront(u: string, b: string, v: string, start: string, end: string, block: string)
    requires Find(u, start).Some? && SeenAround(u, b, v, start)
    requires SeenAround(u[Find(u, start).value + |start|..], b, v, end)
    ensures Replaced(u + b + v, start, end, block) == Applied(EffectInFront(u, v, start, end, block), u, b, v)
  {
    var i := Find(u, start).value;
    var w := u[i + |start|..];
    if Find(w, end).Some? {
      ClosesInFront(u, b, v, start, end, block, i, w);
    } else if Find(v, end).Some? {
      ClosesBehind(u, b, v, start, end, block, i, w);
    } else {
      DropFrom(u, b, v, i + |start|);
    }
  }

  lemma OpensBehind(u: string, b: string, v: string, start: string, end: string, block: string, i: nat, w: string)
    requires i + |start| <= |v| && w == v[i + |start|..] && Find(w, end).Some?
    requires Find(u + b + v, start) == Some(|u| + |b| + i)
    ensures Replaced(u + b + v, start, end, block) ==
              Some(u + b + (v[..i] + block + w[Find(w, end).value + |end|..]))
  {
    var tail := w[Find(w, end).value + |end|..];
    DropFrom(u, b, v, i);
    DropFrom(u, b, v, i + |start|);
    ReplacedAt(u + b + v, start, end, block, |u| + |b| + i, w, tail);
    Regroup4(u, block, tail, b, v[..i]);
  }

  lemma ReplacedBehind(u: string, b: string, v: string, start: string, end: string, block: string)
    requires Find(u, start).None? && SeenAround(u, b, v, start)
    ensures Replaced(u + b + v, start, end, block) == Applied(EffectOf(u, v, start, end, block), u, b, v)
  {
    if Find(v, start).Some? {
      var i := Find(v, start).value;
      var w := v[i + |start|..];
      DropFrom(u, b, v, i + |start|);
      if Find(w, end).Some? {
        OpensBehind(u, b, v, start, end, block, i, w);
        ReplacedAt(v, start, end, block, i, w, w[Find(w, end).value + |end|..]);
      } else {
        NeverCloses(u + b + v, start, end, block, |u| + |b| + i, w);
        NeverCloses(v, start, end, block, i, w);
      }
    }
  }

  lemma Regroup(u: string, s: string, c: string, e: string, v: string)
    ensures u + (s + c + e) + v == u + s + (c + e + v)
  {}

  lemma Assembled(head: string, start: string, body: string, end: string, tail: string)
    ensures head + start + "\n" + body + "\n" + end + tail == head + (start + ("\n" + body + "\n") + end) + tail
  {}

  lemma Leading(s: string, c: string, e: string, v: string, w: string)
    ensures "" + s + (c + e + (v + w)) == s + c + (e + v + w)
  {}

  lemma LeadingNothing(b: string, v: string)
    ensures "" + b + v == b + v
  {}

  lemma Trailing(u: string, s: string, e: string)
    ensures u + s + ("" + e + "") == u + (s + e)
  {}

  lemma LongerDiffers(u: string, v: string, w: string)
    requires |v| < |w|
    ensures u + v != u + w
  {
    assert |u + v| == |u| + |v| && |u + w| == |u| + |w|;
  }

  lemma EmptyTextReplaced(u: string, start: string, end: string, x: string, y: string, z: string, block: string)
    requires IsMarker(start) && IsMarker(end) && Absent(u, start)
    ensures Replaced(u + start + end + x + y + z, start, end, block) == Some(u + block + (x + y + z))
  {
    MarkedTextReplaced(u, start, "", end, x + y + z, block);
    Flat(u, start, end, x, y, z);
  }

  lemma Flat(u: string, s: string, e: string, x: string, y: string, z: string)
    ensures u + s + ("" + e + (x + y + z)) == u + s + e + x + y + z
  {}

  lemma LeadingTextReplaced(start: string, content: string, end: string, v: string, w: string, block: string)
    requires IsMarker(start) && IsMarker(end) && Absent(content, end)
    ensures Replaced(start + content + (end + v + w), start, end, block) == Some(block + (v + w))
  {
    MarkedTextReplaced("", start, content, end, v + w, block);
    Leading(start, content, end, v, w);
    LeadingNothing(block, v + w);
  }
}
