/** What can be reached by steps of one kind alone. */
module Paths {

  ghost predicate IsPath<S(!new)>(step: (S, S) -> bool, path: seq<S>) {
    path != [] && forall n :: 0 < n < |path| ==> step(path[n - 1], path[n])
  }

  /** Some sequence of steps leads from `s` to `s'`. */
  ghost predicate Leads<S(!new)>(step: (S, S) -> bool, s: S, s': S) {
    exists path :: IsPath(step, path) && path[0] == s && path[|path| - 1] == s'
  }

  lemma NoStep<S(!new)>(step: (S, S) -> bool, s: S)
    ensures Leads(step, s, s)
  {
    assert IsPath(step, [s]);
  }

  lemma OneStep<S(!new)>(step: (S, S) -> bool, s: S, s': S)
    requires step(s, s')
    ensures Leads(step, s, s')
  {
    assert IsPath(step, [s, s']);
  }

  lemma Onward<S(!new)>(step: (S, S) -> bool, s: S, m: S, s': S)
    requires Leads(step, s, m) && Leads(step, m, s')
    ensures Leads(step, s, s')
  {
    var p :| IsPath(step, p) && p[0] == s && p[|p| - 1] == m;
    var q :| IsPath(step, q) && q[0] == m && q[|q| - 1] == s';
    var r := p + q[1..];
    forall n | 0 < n < |r|
      ensures step(r[n - 1], r[n])
    {
      if n >= |p| {
        assert r[n] == q[n - |p| + 1] && r[n - 1] == q[n - |p|];
      }
    }
    assert IsPath(step, r) && r[0] == s && r[|r| - 1] == s';
  }

  lemma OnwardStep<S(!new)>(step: (S, S) -> bool, s: S, m: S, s': S)
    requires Leads(step, s, m) && step(m, s')
    ensures Leads(step, s, s')
  {
    OneStep(step, m, s');
    Onward(step, s, m, s');
  }

  /** Steps of one kind that are steps of another lead there too. */
  lemma LeadsAlso<S(!new)>(step: (S, S) -> bool, other: (S, S) -> bool, s: S, s': S)
    requires Leads(step, s, s') && forall a, b :: step(a, b) ==> other(a, b)
    ensures Leads(other, s, s')
  {
    var path :| IsPath(step, path) && path[0] == s && path[|path| - 1] == s';
    assert IsPath(other, path);
  }
}
