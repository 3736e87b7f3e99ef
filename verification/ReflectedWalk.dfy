/** A counter that goes up by one, or down by one unless it is already zero, is the largest net
    gain over any suffix of its history. */
module ReflectedWalk {
  function Net(steps: seq<int>): int {
    if steps == [] then 0 else Net(steps[..|steps| - 1]) + steps[|steps| - 1]
  }

  // c is the largest net over the suffixes of the history, the empty one included.
  ghost predicate IsBestSuffix(c: int, steps: seq<int>) {
    && (forall i :: 0 <= i <= |steps| ==> Net(steps[i..]) <= c)
    && (exists i :: 0 <= i <= |steps| && Net(steps[i..]) == c)
  }

  ghost predicate SomeSuffixReaches(steps: seq<int>, level: int) {
    exists i :: 0 <= i <= |steps| && Net(steps[i..]) >= level
  }

  function Reflect(c: int, step: int): int {
    if c + step < 0 then 0 else c + step
  }

  lemma StartBestSuffix()
    ensures IsBestSuffix(0, [])
  {
    assert Net([][0..]) == 0;
  }

  lemma SuffixSnoc(steps: seq<int>, step: int, i: nat)
    requires i <= |steps|
    ensures Net((steps + [step])[i..]) == Net(steps[i..]) + step
  {
    var longer := (steps + [step])[i..];
    assert longer[..|longer| - 1] == steps[i..];
  }

  /** One clamped step keeps the counter equal to the best suffix. */
  lemma ReflectKeepsBestSuffix(c: int, steps: seq<int>, step: int)
    requires IsBestSuffix(c, steps)
    ensures c >= 0 && IsBestSuffix(Reflect(c, step), steps + [step])
  {
    assert Net(steps[|steps|..]) == 0;
    var longer := steps + [step];
    forall i | 0 <= i <= |longer|
      ensures Net(longer[i..]) <= Reflect(c, step)
    {
      if i <= |steps| {
        SuffixSnoc(steps, step, i);
      }
    }
    if c + step < 0 {
      assert Net(longer[|longer|..]) == 0;
    } else {
      var i :| 0 <= i <= |steps| && Net(steps[i..]) == c;
      SuffixSnoc(steps, step, i);
    }
  }

  lemma BestSuffixReaches(c: int, steps: seq<int>, level: int)
    requires IsBestSuffix(c, steps)
    ensures c >= level <==> SomeSuffixReaches(steps, level)
  {
    if c >= level {
      var i :| 0 <= i <= |steps| && Net(steps[i..]) == c;
    }
  }

  // The counter after these steps, from zero.
  function Walk(steps: seq<int>): int {
    if steps == [] then 0 else Reflect(Walk(steps[..|steps| - 1]), steps[|steps| - 1])
  }

  lemma {:induction false} WalkIsBestSuffix(steps: seq<int>)
    ensures Walk(steps) >= 0 && IsBestSuffix(Walk(steps), steps)
  {
    if steps == [] {
      StartBestSuffix();
    } else {
      var n := |steps| - 1;
      WalkIsBestSuffix(steps[..n]);
      ReflectKeepsBestSuffix(Walk(steps[..n]), steps[..n], steps[n]);
      assert steps[..n] + [steps[n]] == steps;
    }
  }

  /** A run of equal steps moves the counter by its length, or down to zero. */
  lemma {:induction false} WalkRun(before: seq<int>, run: seq<int>, step: int)
    requires forall i :: 0 <= i < |run| ==> run[i] == step
    ensures step == 1 ==> Walk(before + run) == Walk(before) + |run|
    ensures step == 0 ==> Walk(before + run) == Walk(before)
    ensures step == -1 ==> Walk(before + run) == if Walk(before) > |run| then Walk(before) - |run| else 0
  {
    WalkIsBestSuffix(before);
    if run == [] {
      assert before + run == before;
    } else {
      var n := |run| - 1;
      WalkRun(before, run[..n], step);
      assert (before + run)[..|before + run| - 1] == before + run[..n];
    }
  }
}
