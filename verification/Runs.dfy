/** Runs of a deterministic system whose nondeterminism lies in the choice of actions. */
module Runs {

  /** The state after the first `k` actions. */
  ghost function After<S, A>(next: (S, A) -> S, s: S, actions: seq<A>, k: nat): S
    requires k <= |actions|
  {
    if k == 0 then s else next(After(next, s, actions, k - 1), actions[k - 1])
  }

  ghost predicate Leads<S, A(!new)>(next: (S, A) -> S, s: S, s': S) {
    exists actions: seq<A> :: s' == After(next, s, actions, |actions|)
  }

  lemma {:induction false} AfterPrefix<S, A>(next: (S, A) -> S, s: S, first: seq<A>, second: seq<A>, k: nat)
    requires k <= |first|
    ensures After(next, s, first + second, k) == After(next, s, first, k)
  {
    if k > 0 {
      AfterPrefix(next, s, first, second, k - 1);
    }
  }

  lemma {:induction false} AfterBoth<S, A>(next: (S, A) -> S, s: S, first: seq<A>, second: seq<A>, k: nat)
    requires k <= |second|
    ensures After(next, s, first + second, |first| + k) == After(next, After(next, s, first, |first|), second, k)
  {
    if k == 0 {
      AfterPrefix(next, s, first, second, |first|);
    } else {
      AfterBoth(next, s, first, second, k - 1);
    }
  }

  lemma LeadsNowhere<S, A(!new)>(next: (S, A) -> S, s: S)
    ensures Leads(next, s, s)
  {
    var none: seq<A> := [];
    assert s == After(next, s, none, |none|);
  }

  lemma LeadsOn<S, A(!new)>(next: (S, A) -> S, s: S, s': S, s'': S)
    requires Leads(next, s, s') && Leads(next, s', s'')
    ensures Leads(next, s, s'')
  {
    var first: seq<A> :| s' == After(next, s, first, |first|);
    var second: seq<A> :| s'' == After(next, s', second, |second|);
    AfterBoth(next, s, first, second, |second|);
    var both := first + second;
    assert s'' == After(next, s, both, |both|);
  }

  lemma LeadsNext<S, A(!new)>(next: (S, A) -> S, s: S, s': S, a: A)
    requires Leads(next, s, s')
    ensures Leads(next, s, next(s', a))
  {
    var one := [a];
    assert After(next, s', one, 0) == s';
    assert next(s', a) == After(next, s', one, |one|);
    LeadsOn(next, s, s', next(s', a));
  }

  /** What the start satisfies and every action keeps holds wherever a run leads. */
  lemma InvariantHolds<S(!new), A(!new)>(next: (S, A) -> S, inv: S -> bool, s: S, s': S)
    requires inv(s) && Leads(next, s, s')
    requires forall c, a :: inv(c) ==> inv(next(c, a))
    ensures inv(s')
  {
    var actions: seq<A> :| s' == After(next, s, actions, |actions|);
    InvariantAfter(next, inv, s, actions, |actions|);
  }

  lemma {:induction false} InvariantAfter<S(!new), A(!new)>(next: (S, A) -> S, inv: S -> bool, s: S, actions: seq<A>, k: nat)
    requires k <= |actions| && inv(s)
    requires forall c, a :: inv(c) ==> inv(next(c, a))
    ensures inv(After(next, s, actions, k))
  {
    if k > 0 {
      InvariantAfter(next, inv, s, actions, k - 1);
    }
  }

  /** A run of a nondeterministic system with the same actions. */
  ghost predicate IsRun<U, A>(step: (U, A, U) -> bool, u: U, actions: seq<A>, run: seq<U>)
  {
    && 0 < |run| <= |actions| + 1 && run[0] == u
    && forall k :: 0 < k < |run| ==> StepAt(step, actions, run, k)
  }

  ghost predicate StepAt<U, A>(step: (U, A, U) -> bool, actions: seq<A>, run: seq<U>, k: nat)
    requires 0 < k < |run| <= |actions| + 1
  {
    step(run[k - 1], actions[k - 1], run[k])
  }

  lemma ExtendRun<U, A>(step: (U, A, U) -> bool, u: U, actions: seq<A>, run: seq<U>, u': U)
    requires IsRun(step, u, actions, run) && |run| <= |actions|
    requires step(run[|run| - 1], actions[|run| - 1], u')
    ensures IsRun(step, u, actions, run + [u'])
  {
    forall k | 0 < k < |run + [u']|
      ensures StepAt(step, actions, run + [u'], k)
    {
      assert k < |run| ==> StepAt(step, actions, run, k);
    }
  }

  /** Answers that keep a relation step by step keep it to the end. */
  lemma {:induction false} Tracks<S(!new), U(!new), A>(next: (S, A) -> S, rel: (S, U) -> bool,
      s: S, answer: nat -> U, actions: seq<A>, k: nat)
    requires k <= |actions| && rel(s, answer(0))
    requires forall c, i: nat :: i < |actions| && rel(c, answer(i)) ==> rel(next(c, actions[i]), answer(i + 1))
    ensures rel(After(next, s, actions, k), answer(k))
    decreases k
  {
    if k > 0 {
      Tracks(next, rel, s, answer, actions, k - 1);
    }
  }

  ghost predicate Answered<S, U(!new), A>(next: (S, A) -> S, step: (U, A, U) -> bool, rel: (S, U) -> bool,
                                          s: S, u: U, a: A) {
    exists u' :: step(u, a, u') && rel(next(s, a), u')
  }

  ghost predicate Simulates<S(!new), U(!new), A(!new)>(next: (S, A) -> S, step: (U, A, U) -> bool, rel: (S, U) -> bool) {
    forall s, u, a {:trigger Answered(next, step, rel, s, u, a)} :: rel(s, u) ==> Answered(next, step, rel, s, u, a)
  }

  /** A relation that every action keeps turns every run into a run of the other system. */
  lemma {:induction false} Simulation<S(!new), U(!new), A(!new)>(next: (S, A) -> S, step: (U, A, U) -> bool,
      rel: (S, U) -> bool, s: S, u: U, actions: seq<A>, k: nat) returns (run: seq<U>)
    requires k <= |actions| && rel(s, u) && Simulates(next, step, rel)
    ensures |run| == k + 1 && IsRun(step, u, actions, run)
    ensures forall i :: 0 <= i <= k ==> rel(After(next, s, actions, i), run[i])
  {
    if k == 0 {
      run := [u];
    } else {
      var prefix := Simulation(next, step, rel, s, u, actions, k - 1);
      var c, a := After(next, s, actions, k - 1), actions[k - 1];
      assert Answered(next, step, rel, c, prefix[k - 1], a);
      var u' :| step(prefix[k - 1], a, u') && rel(next(c, a), u');
      ExtendRun(step, u, actions, prefix, u');
      run := prefix + [u'];
    }
  }
}
