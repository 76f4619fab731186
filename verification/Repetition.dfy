/** Repeating a step until it declines, with a rank that falls each time. */
module Repetition {
  import opened Common

  predicate Below(a: (nat, nat), b: (nat, nat)) {
    a.0 < b.0 || (a.0 == b.0 && a.1 < b.1)
  }

  ghost predicate Descends<T(!new)>(step: T -> Option<T>, rank: T -> (nat, nat)) {
    forall t :: step(t).Some? ==> Below(rank(step(t).value), rank(t))
  }

  /** The last value reached, and the number of steps to it. */
  function Repeat<T(!new)>(step: T -> Option<T>, rank: T -> (nat, nat), t: T): (T, nat)
    requires Descends(step, rank)
    decreases rank(t).0, rank(t).1
  {
    match step(t)
    case None => (t, 0)
    case Some(u) => var r := Repeat(step, rank, u); (r.0, r.1 + 1)
  }

  lemma RepeatUnfolds<T(!new)>(step: T -> Option<T>, rank: T -> (nat, nat), t: T)
    requires Descends(step, rank)
    ensures step(t).None? ==> Repeat(step, rank, t) == (t, 0)
    ensures step(t).Some? ==> Repeat(step, rank, t).0 == Repeat(step, rank, step(t).value).0
  {
  }

  /** An invariant of the step holds at the end, where the step declines. */
  lemma {:induction false} RepeatKeeps<T(!new)>(step: T -> Option<T>, rank: T -> (nat, nat), keeps: T -> bool, t: T)
    requires Descends(step, rank) && keeps(t)
    requires forall x :: keeps(x) && step(x).Some? ==> keeps(step(x).value)
    ensures keeps(Repeat(step, rank, t).0) && step(Repeat(step, rank, t).0).None?
    decreases rank(t).0, rank(t).1
  {
    if step(t).Some? {
      RepeatKeeps(step, rank, keeps, step(t).value);
    }
  }

  /** The step from `x` ends the repetition or spends some of a positive budget. */
  predicate Spends<T>(step: T -> Option<T>, budget: T -> nat, x: T) {
    step(x).Some? ==> budget(x) > 0 && (step(step(x).value).None? || budget(step(x).value) < budget(x))
  }

  lemma {:induction false} RepeatWithinBudget<T(!new)>(
    step: T -> Option<T>, rank: T -> (nat, nat), budget: T -> nat, t: T)
    requires Descends(step, rank)
    requires forall x :: Spends(step, budget, x)
    ensures Repeat(step, rank, t).1 <= budget(t)
    decreases rank(t).0, rank(t).1
  {
    assert Spends(step, budget, t);
    if step(t).Some? {
      RepeatWithinBudget(step, rank, budget, step(t).value);
    }
  }

  // ---- Counting some of the steps ----

  /** The steps taken from values with property `q`. */
  function StepsFrom<T(!new)>(step: T -> Option<T>, rank: T -> (nat, nat), q: T -> bool, t: T): nat
    requires Descends(step, rank)
    decreases rank(t).0, rank(t).1
  {
    match step(t)
    case None => 0
    case Some(u) => (if q(t) then 1 else 0) + StepsFrom(step, rank, q, u)
  }

  /** A step from `q` is the last, or leads to `spent`, from where there is no way back to `q`. */
  predicate UsesUp<T>(step: T -> Option<T>, q: T -> bool, spent: T -> bool, x: T) {
    && (spent(x) ==> !q(x))
    && (step(x).Some? && spent(x) ==> spent(step(x).value))
    && (step(x).Some? && q(x) ==> step(step(x).value).None? || spent(step(x).value))
  }

  lemma {:induction false} SpentStepsNoMore<T(!new)>(
    step: T -> Option<T>, rank: T -> (nat, nat), q: T -> bool, spent: T -> bool, t: T)
    requires Descends(step, rank) && spent(t) && forall x :: UsesUp(step, q, spent, x)
    ensures StepsFrom(step, rank, q, t) == 0
    decreases rank(t).0, rank(t).1
  {
    assert UsesUp(step, q, spent, t);
    if step(t).Some? {
      SpentStepsNoMore(step, rank, q, spent, step(t).value);
    }
  }

  /** So there is at most one such step. */
  lemma {:induction false} AtMostOneStep<T(!new)>(
    step: T -> Option<T>, rank: T -> (nat, nat), q: T -> bool, spent: T -> bool, t: T)
    requires Descends(step, rank) && forall x :: UsesUp(step, q, spent, x)
    ensures StepsFrom(step, rank, q, t) <= 1
    decreases rank(t).0, rank(t).1
  {
    assert UsesUp(step, q, spent, t);
    if step(t).Some? {
      var u := step(t).value;
      AtMostOneStep(step, rank, q, spent, u);
      if q(t) && step(u).Some? {
        SpentStepsNoMore(step, rank, q, spent, u);
      }
    }
  }
}
