/** The gates a model's rewrite must pass before it is stored on a fix. */
module FixVetting {
  import opened Wrappers

  datatype File = File(path: string, content: string)

  datatype GateError =
    | MissingContent
    | Unusable(message: string)
    | DropsComments(message: string)
    | Introduced(slugs: set<string>)

  /** The engine's own checks. `rescan` answers None when it raises. */
  datatype Gates = Gates(
    parse: string -> string,
    restore: (string, string) -> string,
    validate: (string, string, string) -> Option<string>,
    comments: (string, string) -> Option<string>,
    rescan: Option<seq<File> -> Option<set<string>>>)

  datatype Verdict = Keep(content: string) | Reject(error: GateError)

  // An empty message is falsy, so it does not reject.
  predicate Complains(e: Option<string>) {
    e.Some? && e.value != ""
  }

  function Swap(fetched: seq<File>, path: string, patched: string): seq<File> {
    seq(|fetched|, i requires 0 <= i < |fetched| => if fetched[i].path == path then File(path, patched) else fetched[i])
  }

  function IntroducedViolations(rescan: seq<File> -> Option<set<string>>, fetched: seq<File>, path: string,
                                patched: string): set<string> {
    var after, before := rescan(Swap(fetched, path, patched)), rescan(fetched);
    if after.None? || before.None? then {} else after.value - before.value
  }

  function Vet(g: Gates, response: string, original: string, path: string, fetched: seq<File>): Verdict {
    var raw := g.parse(response);
    if raw == "" then Reject(MissingContent)
    else
      var content := g.restore(original, raw);
      var invalid, dropped := g.validate(path, original, content), g.comments(original, content);
      if Complains(invalid) then Reject(Unusable(invalid.value))
      else if Complains(dropped) then Reject(DropsComments(dropped.value))
      else if g.rescan.Some? && IntroducedViolations(g.rescan.value, fetched, path, content) != {} then
        Reject(Introduced(IntroducedViolations(g.rescan.value, fetched, path, content)))
      else Keep(content)
  }

  function Source(fetched: seq<File>, path: string): Option<string> {
    if fetched == [] then None
    else if fetched[0].path == path then Some(fetched[0].content)
    else Source(fetched[1..], path)
  }

  /** The fetched files with the content of every one at `path` replaced. */
  ghost predicate Swapped(fetched: seq<File>, path: string, content: string, swapped: seq<File>) {
    |swapped| == |fetched| && forall i | 0 <= i < |fetched| ::
      swapped[i] == if fetched[i].path == path then File(path, content) else fetched[i]
  }

  // A check that answers nothing, or an empty message, has nothing against the rewrite.
  ghost predicate Silent(e: Option<string>) {
    e == None || e == Some("")
  }

  /** Nothing the whole target is checked for speaks against replacing `path` by `content`. */
  ghost predicate Passes(g: Gates, path: string, content: string, fetched: seq<File>) {
    && Source(fetched, path).Some?
    && Silent(g.validate(path, Source(fetched, path).value, content))
    && Silent(g.comments(Source(fetched, path).value, content))
    && (g.rescan.Some? ==> forall swapped | Swapped(fetched, path, content, swapped) ::
          g.rescan.value(fetched).Some? && g.rescan.value(swapped).Some? ==>
            g.rescan.value(swapped).value <= g.rescan.value(fetched).value)
  }

  lemma SwapIsSwapped(fetched: seq<File>, path: string, content: string, swapped: seq<File>)
    ensures Swapped(fetched, path, content, swapped) <==> swapped == Swap(fetched, path, content)
  {
  }

  /** The original a rewrite is judged against is the first fetched file of that path. */
  lemma {:induction false} SourceIsFirst(fetched: seq<File>, path: string, i: nat)
    requires i < |fetched| && fetched[i].path == path && forall j | 0 <= j < i :: fetched[j].path != path
    ensures Source(fetched, path) == Some(fetched[i].content)
  {
    if i > 0 {
      SourceIsFirst(fetched[1..], path, i - 1);
    }
  }

  lemma {:induction false} NoSourceExactlyWhen(fetched: seq<File>, path: string)
    ensures Source(fetched, path).None? <==> forall i | 0 <= i < |fetched| :: fetched[i].path != path
  {
    if fetched != [] {
      NoSourceExactlyWhen(fetched[1..], path);
      assert forall i | 0 < i < |fetched| :: fetched[i] == fetched[1..][i - 1];
    }
  }

  lemma NothingIntroduced(after: set<string>, before: set<string>)
    ensures after - before == {} <==> after <= before
  {
    if after - before == {} {
      forall x | x in after ensures x in before {
        assert x !in after - before;
      }
    }
  }

  /** A rewrite is kept exactly when there is one and it passes every gate. */
  lemma KeepsExactlyWhatPasses(g: Gates, response: string, path: string, fetched: seq<File>)
    requires Source(fetched, path).Some?
    ensures var original := Source(fetched, path).value;
            Vet(g, response, original, path, fetched).Keep? <==>
              g.parse(response) != "" && Passes(g, path, g.restore(original, g.parse(response)), fetched)
    ensures var original := Source(fetched, path).value;
            var v := Vet(g, response, original, path, fetched);
            v.Keep? ==> v.content == g.restore(original, g.parse(response)) && Passes(g, path, v.content, fetched)
  {
    var original := Source(fetched, path).value;
    if g.rescan.Some? {
      var content := g.restore(original, g.parse(response));
      var after, before := g.rescan.value(Swap(fetched, path, content)), g.rescan.value(fetched);
      SwapIsSwapped(fetched, path, content, Swap(fetched, path, content));
      forall swapped | Swapped(fetched, path, content, swapped) ensures swapped == Swap(fetched, path, content) {
        SwapIsSwapped(fetched, path, content, swapped);
      }
      if after.Some? && before.Some? {
        NothingIntroduced(after.value, before.value);
      }
    }
  }

  /** Which error a rejection carries: the first gate that objects, with its message, or every rule the rewrite breaks
      that the files as fetched did not. */
  lemma RejectsExactlyWhen(g: Gates, response: string, original: string, path: string, fetched: seq<File>,
                           swapped: seq<File>, message: string, slugs: set<string>)
    requires Swapped(fetched, path, g.restore(original, g.parse(response)), swapped)
    ensures var content := g.restore(original, g.parse(response));
            var invalid, dropped := g.validate(path, original, content), g.comments(original, content);
            var v := Vet(g, response, original, path, fetched);
            && (v == Reject(MissingContent) <==> g.parse(response) == "")
            && (v == Reject(Unusable(message)) <==>
                  g.parse(response) != "" && invalid == Some(message) && message != "")
            && (v == Reject(DropsComments(message)) <==>
                  g.parse(response) != "" && Silent(invalid) && dropped == Some(message) && message != "")
            && (v == Reject(Introduced(slugs)) <==>
                  && g.parse(response) != "" && Silent(invalid) && Silent(dropped) && slugs != {}
                  && g.rescan.Some? && g.rescan.value(swapped).Some? && g.rescan.value(fetched).Some?
                  && slugs == g.rescan.value(swapped).value - g.rescan.value(fetched).value)
  {
    SwapIsSwapped(fetched, path, g.restore(original, g.parse(response)), swapped);
  }
}
