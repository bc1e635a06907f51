// Paths and reachability over a step relation: a path is a list in which every element leads to the
// next, and one element reaches another when a path does. What a step keeps, a path keeps, which is
// how a property that every edge preserves is carried over a whole graph.
module Paths {
  ghost predicate IsPath<N(!new)>(step: (N, N) -> bool, p: seq<N>) {
    p != [] && forall i :: 0 <= i < |p| - 1 ==> step(p[i], p[i + 1])
  }

  ghost predicate PathBetween<N(!new)>(step: (N, N) -> bool, p: seq<N>, a: N, b: N) {
    IsPath(step, p) && p[0] == a && p[|p| - 1] == b
  }

  ghost predicate Reaches<N(!new)>(step: (N, N) -> bool, a: N, b: N) {
    exists p :: PathBetween(step, p, a, b)
  }

  lemma ReachesItself<N(!new)>(step: (N, N) -> bool, a: N)
    ensures Reaches(step, a, a)
  {
    assert PathBetween(step, [a], a, a);
  }

  lemma ReachesFurther<N(!new)>(step: (N, N) -> bool, a: N, b: N, c: N)
    requires Reaches(step, a, b) && step(b, c)
    ensures Reaches(step, a, c)
  {
    var p :| PathBetween(step, p, a, b);
    var q := p + [c];
    forall i | 0 <= i < |q| - 1
      ensures step(q[i], q[i + 1])
    {
      if i + 1 < |p| {
        assert step(p[i], p[i + 1]);
      }
    }
    assert PathBetween(step, q, a, c);
  }

  // A property that every step keeps holds all along a path.
  lemma {:induction false} PathKeeps<N(!new)>(step: (N, N) -> bool, holds: N -> bool, p: seq<N>)
    requires IsPath(step, p) && holds(p[0])
    requires forall a, b :: holds(a) && step(a, b) ==> holds(b)
    ensures holds(p[|p| - 1])
  {
    if |p| > 1 {
      var q := p[..|p| - 1];
      assert forall i :: 0 <= i < |q| - 1 ==> step(q[i], q[i + 1]);
      PathKeeps(step, holds, q);
      assert step(p[|p| - 2], p[|p| - 1]);
    }
  }

  lemma ReachesKeeps<N(!new)>(step: (N, N) -> bool, holds: N -> bool, a: N, b: N)
    requires Reaches(step, a, b) && holds(a)
    requires forall x, y :: holds(x) && step(x, y) ==> holds(y)
    ensures holds(b)
  {
    var p :| PathBetween(step, p, a, b);
    PathKeeps(step, holds, p);
  }

  lemma {:induction false} PathAppend<N(!new)>(step: (N, N) -> bool, a: N, p: seq<N>, b: N)
    requires p != [] && Reaches(step, a, p[0]) && PathBetween(step, p, p[0], b)
    ensures Reaches(step, a, b)
  {
    if |p| > 1 {
      var q := p[..|p| - 1];
      assert forall i :: 0 <= i < |q| - 1 ==> step(q[i], q[i + 1]);
      PathAppend(step, a, q, q[|q| - 1]);
      assert step(p[|p| - 2], p[|p| - 1]);
      ReachesFurther(step, a, q[|q| - 1], b);
    }
  }

  lemma ReachesTrans<N(!new)>(step: (N, N) -> bool, a: N, b: N, c: N)
    requires Reaches(step, a, b) && Reaches(step, b, c)
    ensures Reaches(step, a, c)
  {
    var p :| PathBetween(step, p, b, c);
    PathAppend(step, a, p, c);
  }
}
