/** Finite sequences of steps of a relation. */
module Paths {

  ghost predicate StepsTo<S(!new)>(step: (S, S) -> bool, s: S, t: S, n: nat)
    decreases n
  {
    if n == 0 then s == t else exists m :: step(s, m) && StepsTo(step, m, t, n - 1)
  }

  ghost predicate Reaches<S(!new)>(step: (S, S) -> bool, s: S, t: S) {
    exists n: nat :: StepsTo(step, s, t, n)
  }

  lemma NoStep<S(!new)>(step: (S, S) -> bool, s: S)
    ensures Reaches(step, s, s)
  {
    assert StepsTo(step, s, s, 0);
  }

  lemma OneStep<S(!new)>(step: (S, S) -> bool, s: S, t: S)
    requires step(s, t)
    ensures Reaches(step, s, t)
  {
    assert StepsTo(step, t, t, 0);
    assert StepsTo(step, s, t, 1);
  }

  lemma {:induction false} StepsJoin<S(!new)>(step: (S, S) -> bool, s: S, m: S, t: S, i: nat, j: nat)
    requires StepsTo(step, s, m, i) && StepsTo(step, m, t, j)
    ensures StepsTo(step, s, t, i + j)
    decreases i
  {
    if i > 0 {
      var x :| step(s, x) && StepsTo(step, x, m, i - 1);
      StepsJoin(step, x, m, t, i - 1, j);
    }
  }

  /** A path of steps of one kind is a path of steps of any wider kind. */
  lemma Weaker<S(!new)>(step: (S, S) -> bool, wider: (S, S) -> bool, s: S, t: S)
    requires Reaches(step, s, t) && forall x, y | step(x, y) :: wider(x, y)
    ensures Reaches(wider, s, t)
  {
    var n: nat :| StepsTo(step, s, t, n);
    WeakerSteps(step, wider, s, t, n);
  }

  lemma {:induction false} WeakerSteps<S(!new)>(step: (S, S) -> bool, wider: (S, S) -> bool, s: S, t: S, n: nat)
    requires StepsTo(step, s, t, n) && forall x, y | step(x, y) :: wider(x, y)
    ensures StepsTo(wider, s, t, n)
    decreases n
  {
    if n > 0 {
      var m :| step(s, m) && StepsTo(step, m, t, n - 1);
      WeakerSteps(step, wider, m, t, n - 1);
    }
  }

  /** What every step keeps holds at the end of every path from where it holds. */
  lemma Kept<S(!new)>(step: (S, S) -> bool, inv: S -> bool, s: S, t: S)
    requires Reaches(step, s, t) && inv(s) && forall x, y | inv(x) && step(x, y) :: inv(y)
    ensures inv(t)
  {
    var n: nat :| StepsTo(step, s, t, n);
    KeptBySteps(step, inv, s, t, n);
  }

  lemma {:induction false} KeptBySteps<S(!new)>(step: (S, S) -> bool, inv: S -> bool, s: S, t: S, n: nat)
    requires StepsTo(step, s, t, n) && inv(s) && forall x, y | inv(x) && step(x, y) :: inv(y)
    ensures inv(t)
    decreases n
  {
    if n > 0 {
      var m :| step(s, m) && StepsTo(step, m, t, n - 1);
      KeptBySteps(step, inv, m, t, n - 1);
    }
  }

  lemma Joined<S(!new)>(step: (S, S) -> bool, s: S, m: S, t: S)
    requires Reaches(step, s, m) && Reaches(step, m, t)
    ensures Reaches(step, s, t)
  {
    var i: nat :| StepsTo(step, s, m, i);
    var j: nat :| StepsTo(step, m, t, j);
    StepsJoin(step, s, m, t, i, j);
  }
}
