/** The outcome of one maker run as publishers receive it, and the
    flattening of a list of them into the list of artifact paths that both
    the GitHub and the Snapcraft publisher perform. */
module MakeResults {

  /** A make result: the `version` of its `packageJSON` and the paths of the
      files it produced. Platform and arch are not used by the modelled
      decisions and are left out. */
  datatype MakeResult = MakeResult(version: string, artifacts: seq<string>)

  /** All artifact paths of `results`, result by result, each result's
      artifacts in their own order. */
  function Flatten(results: seq<MakeResult>): (flat: seq<string>)
    ensures forall i, x :: 0 <= i < |results| && x in results[i].artifacts ==> x in flat
    ensures forall x :: x in flat ==> exists i :: 0 <= i < |results| && x in results[i].artifacts
  {
    if results == [] then []
    else Flatten(results[..|results| - 1]) + results[|results| - 1].artifacts
  }

  /** Flattening distributes over concatenation, so the flattened list keeps
      the order of the make results. */
  lemma {:induction false} FlattenAppend(a: seq<MakeResult>, b: seq<MakeResult>)
    ensures Flatten(a + b) == Flatten(a) + Flatten(b)
    decreases |b|
  {
    if b != [] {
      var init := b[..|b| - 1];
      assert (a + b)[..|a + b| - 1] == a + init;
      FlattenAppend(a, init);
    } else {
      assert a + b == a;
    }
  }

  /** The loop `for (const r of results) flat.push(...r.artifacts)`. */
  method FlattenArtifacts(results: seq<MakeResult>) returns (flat: seq<string>)
    ensures flat == Flatten(results)
  {
    flat := [];
    var i := 0;
    while i < |results|
      invariant 0 <= i <= |results|
      invariant flat == Flatten(results[..i])
    {
      assert results[..i + 1][..i] == results[..i];
      flat := flat + results[i].artifacts;
      i := i + 1;
    }
    assert results[..i] == results;
  }
}
