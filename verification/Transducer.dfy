/** Machines that turn a stream of inputs into a stream of outputs, one input at a time. */
module Transducer {
  datatype Ran<S, O> = Ran(state: S, out: seq<O>)

  function Run<S, I, O>(step: (S, I) -> Ran<S, O>, state: S, input: seq<I>): Ran<S, O>
    decreases |input|
  {
    if input == [] then Ran(state, [])
    else
      var first := step(state, input[0]);
      var rest := Run(step, first.state, input[1..]);
      Ran(rest.state, first.out + rest.out)
  }

  /** Where the input is cut makes no difference. */
  lemma {:induction false} RunConcat<S, I, O>(step: (S, I) -> Ran<S, O>, state: S, x: seq<I>, y: seq<I>)
    ensures var first := Run(step, state, x);
            var rest := Run(step, first.state, y);
            Run(step, state, x + y) == Ran(rest.state, first.out + rest.out)
    decreases |x|
  {
    if x == [] {
      assert x + y == y;
    } else {
      assert (x + y)[1..] == x[1..] + y;
      RunConcat(step, step(state, x[0]).state, x[1..], y);
    }
  }

  lemma RunOne<S, I, O>(step: (S, I) -> Ran<S, O>, state: S, b: I)
    ensures Run(step, state, [b]) == step(state, b)
  {
    var first := step(state, b);
    assert [b][1..] == [];
    assert Run(step, first.state, []) == Ran(first.state, []);
  }
}
