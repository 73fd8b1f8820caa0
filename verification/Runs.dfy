/** Runs of a state machine: the states it goes through, one operation at a time,
    each permitted in the state it meets. */
module Runs {

  ghost predicate IsRun<S, O>(step: (S, O) -> S, ok: (S, O) -> bool, states: seq<S>, ops: seq<O>) {
    && |states| == |ops| + 1
    && forall k {:trigger ops[k]} :: 0 <= k < |ops| ==>
         ok(states[k], ops[k]) && states[k + 1] == step(states[k], ops[k])
  }

  /** What every permitted step keeps holds all along every run. */
  lemma {:induction false} Keeps<S(!new), O(!new)>(
    step: (S, O) -> S, ok: (S, O) -> bool, inv: S -> bool, states: seq<S>, ops: seq<O>, n: nat)
    requires IsRun(step, ok, states, ops) && inv(states[0]) && n < |states|
    requires forall s, o :: inv(s) && ok(s, o) ==> inv(step(s, o))
    ensures inv(states[n])
  {
    if n > 0 {
      Keeps(step, ok, inv, states, ops, n - 1);
      var op := ops[n - 1];
      assert inv(step(states[n - 1], op));
    }
  }

  /** Some run leads from one state to the other. */
  ghost predicate Leads<S(!new), O(!new)>(step: (S, O) -> S, ok: (S, O) -> bool, start: S, end: S) {
    exists states, ops :: IsRun(step, ok, states, ops) && states[0] == start && states[|ops|] == end
  }

  lemma LeadsNowhere<S(!new), O(!new)>(step: (S, O) -> S, ok: (S, O) -> bool, start: S)
    ensures Leads(step, ok, start, start)
  {
    var ops: seq<O> := [];
    assert IsRun(step, ok, [start], ops);
  }

  /** A run goes on with any operation its last state permits. */
  lemma LeadsOn<S(!new), O(!new)>(step: (S, O) -> S, ok: (S, O) -> bool, start: S, end: S, op: O)
    requires Leads(step, ok, start, end) && ok(end, op)
    ensures Leads(step, ok, start, step(end, op))
  {
    var states, ops :| IsRun(step, ok, states, ops) && states[0] == start && states[|ops|] == end;
    var longer := states + [step(end, op)];
    assert IsRun(step, ok, longer, ops + [op]);
    assert longer[0] == start && longer[|ops + [op]|] == step(end, op);
  }

  /** A permitted operation, and then a run from where it leads. */
  lemma LeadsFrom<S(!new), O(!new)>(step: (S, O) -> S, ok: (S, O) -> bool, start: S, op: O, end: S)
    requires ok(start, op) && Leads(step, ok, step(start, op), end)
    ensures Leads(step, ok, start, end)
  {
    var states, ops :|
      IsRun(step, ok, states, ops) && states[0] == step(start, op) && states[|ops|] == end;
    var longer, more := [start] + states, [op] + ops;
    forall k | 0 <= k < |more|
      ensures ok(longer[k], more[k]) && longer[k + 1] == step(longer[k], more[k])
    {
      if k > 0 {
        assert more[k] == ops[k - 1];
      }
    }
    assert IsRun(step, ok, longer, more);
    assert longer[0] == start && longer[|more|] == end;
  }
}
