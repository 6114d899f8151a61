/** Step normalization in `generate_pipeline`: an empty request falls back to the
    default steps, and `build` is made the first step, exactly once, without
    reordering, deduplicating or validating the other steps. */
module Steps {

  /** The mandatory first step. */
  const Build := "build"

  /** The steps used when none are requested. */
  const DefaultSteps: seq<string> := ["build", "test"]

  /** The requested steps, or the default steps when none were requested. */
  function Defaulted(steps: seq<string>): (r: seq<string>)
    ensures r != []
    ensures steps != [] ==> r == steps
  {
    if steps == [] then DefaultSteps else steps
  }

  /** `[s for s in steps if s != "build"]`: every step except `build`, in order, each
      as often as it was requested. */
  function WithoutBuild(steps: seq<string>): (r: seq<string>)
    ensures Build !in r
  {
    if steps == [] then []
    else if steps[0] == Build then WithoutBuild(steps[1..])
    else [steps[0]] + WithoutBuild(steps[1..])
  }

  /** Dropping `build` keeps every other step as often as it was requested. */
  lemma {:induction false} WithoutBuildMultiset(steps: seq<string>)
    ensures multiset(WithoutBuild(steps)) == multiset(steps)[Build := 0]
  {
    if steps != [] {
      WithoutBuildMultiset(steps[1..]);
      assert steps == [steps[0]] + steps[1..];
    }
  }

  /** The step list the pipeline is assembled from: `build` followed by the other
      requested steps (or the default steps) in the order given. */
  function Normalized(steps: seq<string>): (r: seq<string>)
    ensures |r| >= 1 && r[0] == Build && Build !in r[1..]
  {
    [Build] + WithoutBuild(Defaulted(steps))
  }

  /** Dropping `build` distributes over concatenation, so the steps that remain keep
      their relative order. */
  lemma {:induction false} WithoutBuildAppend(a: seq<string>, b: seq<string>)
    ensures WithoutBuild(a + b) == WithoutBuild(a) + WithoutBuild(b)
  {
    if a == [] {
      assert a + b == b;
    } else {
      var t := a[1..];
      WithoutBuildAppend(t, b);
      assert (a + b)[0] == a[0] && (a + b)[1..] == t + b;
      assert WithoutBuild(a) == (if a[0] == Build then [] else [a[0]]) + WithoutBuild(t);
      assert WithoutBuild(a + b) == (if a[0] == Build then [] else [a[0]]) + WithoutBuild(t + b);
    }
  }

  /** A list without `build` is left as it is. */
  lemma {:induction false} WithoutBuildAbsent(steps: seq<string>)
    requires Build !in steps
    ensures WithoutBuild(steps) == steps
  {
    if steps != [] {
      WithoutBuildAbsent(steps[1..]);
    }
  }

  /** After normalization `build` is the first step and occurs exactly once, whether
      the request held `build` zero, one or several times. */
  lemma NormalizedBuildFirst(steps: seq<string>)
    ensures |Normalized(steps)| >= 1 && Normalized(steps)[0] == Build
    ensures multiset(Normalized(steps))[Build] == 1
    ensures Build !in Normalized(steps)[1..]
  {
    assert Normalized(steps)[1..] == WithoutBuild(Defaulted(steps));
  }

  /** After normalization the steps other than `build` are exactly the requested ones
      other than `build`, in order and with their multiplicity. */
  lemma NormalizedKeepsOtherSteps(steps: seq<string>)
    ensures WithoutBuild(Normalized(steps)) == WithoutBuild(Defaulted(steps))
    ensures |Normalized(steps)| == |Defaulted(steps)| - multiset(Defaulted(steps))[Build] + 1
  {
    var rest := WithoutBuild(Defaulted(steps));
    WithoutBuildAppend([Build], rest);
    WithoutBuildAbsent(rest);
    WithoutBuildMultiset(Defaulted(steps));
    assert |multiset(rest)| == |multiset(Defaulted(steps))| - multiset(Defaulted(steps))[Build];
  }

  /** With nothing requested the steps are `build` then `test`. */
  lemma NormalizedDefault()
    ensures Normalized([]) == ["build", "test"]
  {
    assert WithoutBuild(["build", "test"]) == ["test"];
  }

  /** A non-empty request without `build` only gains `build` in front. */
  lemma NormalizedPrepends(steps: seq<string>)
    requires steps != [] && Build !in steps
    ensures Normalized(steps) == [Build] + steps
  {
    WithoutBuildAbsent(steps);
  }

  /** Normalizing a normalized list changes nothing. */
  lemma NormalizedIdempotent(steps: seq<string>)
    ensures Normalized(Normalized(steps)) == Normalized(steps)
  {
    NormalizedKeepsOtherSteps(steps);
    var rest := WithoutBuild(Defaulted(steps));
    WithoutBuildAbsent(rest);
  }

  /** A Python list of step names, changed in place by `insert`. */
  class StepList {
    var items: seq<string>

    constructor (items: seq<string>)
      ensures this.items == items
    {
      this.items := items;
    }

    /** `steps.insert(0, step)`. */
    method InsertFront(step: string)
      modifies this
      ensures items == [step] + old(items)
    {
      items := [step] + items;
    }
  }

  /** The normalization branch of `generate_pipeline`. When the request is non-empty
      and lacks `build`, the caller's own list gains `build` in place and is returned;
      otherwise a new list is built and the caller's list is left alone. */
  method NormalizeSteps(steps: StepList) returns (r: StepList)
    modifies steps
    ensures r.items == Normalized(old(steps.items))
    ensures old(steps.items) != [] && Build !in old(steps.items) ==> r == steps
    ensures old(steps.items) == [] || Build in old(steps.items) ==> fresh(r) && steps.items == old(steps.items)
  {
    r := steps;
    if r.items == [] {
      r := new StepList(DefaultSteps);
    }
    if Build !in r.items {
      WithoutBuildAbsent(r.items);
      r.InsertFront(Build);
    } else {
      r := new StepList([Build] + WithoutBuild(r.items));
    }
  }
}
