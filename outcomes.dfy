/**
  Failure-compatible wrappers shared by the model.

  `Option` stands for a Python expression that may raise inside a `try`
  block whose `except` substitutes a sentinel; `Result` stands for a step
  whose failure is NOT caught and therefore aborts the whole run.
 */
module Outcomes {

  datatype Option<+T> = None | Some(value: T) {
    predicate IsFailure() { None? }

    function PropagateFailure<U>(): Option<U>
      requires None?
    {
      None
    }

    function Extract(): T
      requires Some?
    {
      value
    }

    /** The value, or `default` when the computation raised. */
    function GetOr(default: T): T {
      if Some? then value else default
    }
  }

  /**
    The outcome of a step outside every `try`: its value, or `Fatal` when it
    raised and the script stopped.  Which exception fired is not recorded.
   */
  datatype Result<+T> = Ok(value: T) | Fatal {
    predicate IsFailure() { Fatal? }

    function PropagateFailure<U>(): Result<U>
      requires Fatal?
    {
      Fatal
    }

    function Extract(): T
      requires Ok?
    {
      value
    }
  }

  /** Turns a lookup that may fail into a step that aborts the run when it does. */
  function Require<T>(o: Option<T>): (r: Result<T>)
    ensures r.Ok? <==> o.Some?
    ensures r.Ok? ==> r.value == o.value
  {
    match o
    case Some(v) => Ok(v)
    case None => Fatal
  }

  /** Steps run one after the other: their values, or `Fatal` once one of them fails. */
  function AllOk<T>(rs: seq<Result<T>>): (r: Result<seq<T>>)
    ensures r.Ok? ==> |r.value| == |rs|
    decreases |rs|
  {
    if |rs| == 0 then Ok([])
    else
      var prev :- AllOk(rs[..|rs| - 1]);
      var v :- rs[|rs| - 1];
      Ok(prev + [v])
  }

  /** The values held by the `Some` entries, in order: a table with its empty rows dropped. */
  function Somes<T>(xs: seq<Option<T>>): (r: seq<T>)
    ensures |r| <= |xs|
    decreases |xs|
  {
    if |xs| == 0 then []
    else Somes(xs[..|xs| - 1]) + (if xs[|xs| - 1].Some? then [xs[|xs| - 1].value] else [])
  }

  /** One more entry adds its value, if it holds one, at the end. */
  lemma SomesSnoc<T>(xs: seq<Option<T>>, x: Option<T>)
    ensures Somes(xs + [x]) == Somes(xs) + Somes([x])
  {
    assert (xs + [x])[..|xs|] == xs;
    assert [x][..0] == [];
  }

  /** A value is kept exactly when some entry holds it. */
  lemma {:induction false} SomesMembers<T>(xs: seq<Option<T>>)
    ensures forall v :: v in Somes(xs) ==> Some(v) in xs
    ensures forall v :: Some(v) in xs ==> v in Somes(xs)
    decreases |xs|
  {
    if |xs| > 0 {
      var init := xs[..|xs| - 1];
      SomesMembers(init);
      assert xs == init + [xs[|xs| - 1]];
    }
  }

  /** The steps succeed together exactly when each does, and each value is its step's. */
  lemma {:induction false} AllOkByIndex<T>(rs: seq<Result<T>>)
    ensures AllOk(rs).Ok? ==> forall k :: 0 <= k < |rs| ==> rs[k].Ok?
    ensures (forall k :: 0 <= k < |rs| ==> rs[k].Ok?) ==> AllOk(rs).Ok?
    ensures AllOk(rs).Ok? ==> forall k :: 0 <= k < |rs| ==> AllOk(rs).value[k] == rs[k].value
    decreases |rs|
  {
    if |rs| > 0 {
      var init := rs[..|rs| - 1];
      AllOkByIndex(init);
      assert forall k :: 0 <= k < |init| ==> init[k] == rs[k];
    }
  }
}
