/** Runs of a step function: the states reached and the calls made, over any event sequence. */
module Machine {

  /** A state and the calls made on the way to it. */
  datatype Outcome<S, C> = Outcome(state: S, calls: seq<C>)

  function Run<S, E, C>(step: (S, E) -> Outcome<S, C>, s: S, es: seq<E>): (o: Outcome<S, C>) {
    if es == [] then Outcome(s, [])
    else
      var before := Run(step, s, es[..|es| - 1]);
      var last := step(before.state, es[|es| - 1]);
      Outcome(last.state, before.calls + last.calls)
  }

  lemma RunSnoc<S, E, C>(step: (S, E) -> Outcome<S, C>, s: S, es: seq<E>, e: E)
    ensures var before := Run(step, s, es);
            var last := step(before.state, e);
            Run(step, s, es + [e]) == Outcome(last.state, before.calls + last.calls)
  {
    assert (es + [e])[..|es|] == es;
  }

  lemma {:induction false} RunSplits<S, E, C>(step: (S, E) -> Outcome<S, C>, s: S, a: seq<E>, b: seq<E>)
    ensures var first := Run(step, s, a);
            var second := Run(step, first.state, b);
            Run(step, s, a + b) == Outcome(second.state, first.calls + second.calls)
    decreases |b|
  {
    if b == [] {
      assert a + b == a;
    } else {
      var init := b[..|b| - 1];
      RunSplits(step, s, a, init);
      assert (a + b)[..|a + b| - 1] == a + init;
    }
  }

  lemma RunOne<S, E, C>(step: (S, E) -> Outcome<S, C>, s: S, e: E)
    ensures Run(step, s, [e]) == step(s, e)
  {
    assert [e][..0] == [];
  }

  lemma RunCons<S, E, C>(step: (S, E) -> Outcome<S, C>, s: S, es: seq<E>)
    requires es != []
    ensures var first := step(s, es[0]);
            var rest := Run(step, first.state, es[1..]);
            Run(step, s, es) == Outcome(rest.state, first.calls + rest.calls)
  {
    RunOne(step, s, es[0]);
    RunSplits(step, s, [es[0]], es[1..]);
    assert [es[0]] + es[1..] == es;
  }

  /** A run that can be seen to pass through these states ends in the last of them. */
  lemma {:induction false} RunVisits<S, E, C>(step: (S, E) -> Outcome<S, C>, es: seq<E>, states: seq<S>)
    requires |states| == |es| + 1
    requires forall i | 0 <= i < |es| :: step(states[i], es[i]).state == states[i + 1]
    ensures Run(step, states[0], es).state == states[|es|]
  {
    if es != [] {
      var n := |es| - 1;
      RunVisits(step, es[..n], states[..n + 1]);
      assert step(states[n], es[n]).state == states[n + 1];
    }
  }
}
