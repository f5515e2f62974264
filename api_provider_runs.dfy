/**
 * The wizard over time: the store hands each dispatched action to the reducer
 * in order, starting from the initial state. These are the properties of
 * every such history.
 */
module ApiProviderRuns {
  import opened Wrappers
  import opened ApiProviderReducer

  /** The state after feeding `acts` to the reducer, one after another, from `s`. */
  function Run(s: State, acts: seq<Action>): (r: State)
    ensures WellFormed(s) ==> WellFormed(r)
    decreases |acts|
  {
    if acts == [] then s else Run(Reduce(s, acts[0]), acts[1..])
  }

  /** A history with every unrecognised action removed. */
  function Recognised(acts: seq<Action>): (r: seq<Action>)
    ensures |r| <= |acts|
    ensures forall i :: 0 <= i < |r| ==> !r[i].Unrecognised?
    ensures forall a :: a in r <==> a in acts && !a.Unrecognised?
  {
    if acts == [] then []
    else if acts[0].Unrecognised? then Recognised(acts[1..])
    else [acts[0]] + Recognised(acts[1..])
  }

  /** Feeding two histories in sequence is feeding their concatenation. */
  lemma {:induction false} RunAppend(s: State, first: seq<Action>, second: seq<Action>)
    ensures Run(s, first + second) == Run(Run(s, first), second)
    decreases |first|
  {
    if first == [] {
      assert first + second == second;
    } else {
      assert (first + second)[0] == first[0];
      assert (first + second)[1..] == first[1..] + second;
      RunAppend(Reduce(s, first[0]), first[1..], second);
    }
  }

  /** Every state the wizard can reach satisfies the state invariant, so the
      completion flag is never raised. */
  lemma ReachableWellFormed(acts: seq<Action>)
    ensures WellFormed(Run(Initial, acts))
  {
    InitialState();
  }

  /** In a reachable state with a recorded failure, the error selector yields
      the failure's list and the specification is the user's own input. */
  lemma ReachableFailureFallsBack(acts: seq<Action>)
    ensures Run(Initial, acts).hasErrors ==>
      ValidationError(Run(Initial, acts)) == Run(Initial, acts).validationErrors.value.errors
      && Specification(Run(Initial, acts)) ==
         (var u := Run(Initial, acts).uploadSpecification; if u.kind == Spec then u.spec else None)
  {
    ReachableWellFormed(acts);
  }

  /** A new validation request after a failure clears the failure flag but
      keeps the failure on record, so the error selector still yields it. */
  lemma StaleFailureAfterRevalidate(s: State, failure: ValidationErrors)
    ensures var t := Run(s, [ValidateSpecFail(failure), ValidateSpec]);
      && !t.hasErrors && t.loading
      && t.validationErrors == Some(failure) && t.validationResponse.None?
      && ValidationError(t) == failure.errors
  {
    var mid := Reduce(s, ValidateSpecFail(failure));
    assert Run(s, [ValidateSpecFail(failure), ValidateSpec]) == Run(mid, [ValidateSpec]);
    assert Run(mid, [ValidateSpec]) == Run(Reduce(mid, ValidateSpec), []);
  }

  /** A cancel forgets the whole history before it. */
  lemma {:induction false} CancelForgetsHistory(s: State, before: seq<Action>, after: seq<Action>)
    ensures Run(s, before + [CreateCancel] + after) == Run(Initial, after)
  {
    RunAppend(s, before + [CreateCancel], after);
    RunAppend(s, before, [CreateCancel]);
  }

  /** Unrecognised actions can be dropped from any history without effect. */
  lemma {:induction false} UnrecognisedIgnored(s: State, acts: seq<Action>)
    ensures Run(s, acts) == Run(s, Recognised(acts))
    decreases |acts|
  {
    if acts != [] {
      UnrecognisedIgnored(Reduce(s, acts[0]), acts[1..]);
      if !acts[0].Unrecognised? {
        var rest := Recognised(acts[1..]);
        assert ([acts[0]] + rest)[0] == acts[0];
        assert ([acts[0]] + rest)[1..] == rest;
      }
    }
  }

  /** A validation request stays in flight until its outcome arrives or the
      wizard is cancelled, whatever else is dispatched meanwhile. */
  lemma {:induction false} LoadingUntilSettled(s: State, acts: seq<Action>)
    requires s.loading
    requires forall i :: 0 <= i < |acts| ==> !acts[i].Settles()
    ensures Run(s, acts).loading
    decreases |acts|
  {
    if acts != [] {
      assert !acts[0].Settles();
      assert Reduce(s, acts[0]).loading;
      LoadingUntilSettled(Reduce(s, acts[0]), acts[1..]);
    }
  }
}
