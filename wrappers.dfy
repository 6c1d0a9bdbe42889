/** Failure-compatible wrappers used for the source's exceptions and missing values. */
module Wrappers {

  datatype Option<+T> = None | Some(value: T) {
    predicate IsFailure() { None? }

    function PropagateFailure<U>(): Option<U>
      requires None?
    {
      None
    }

    function Extract(): T
      requires Some?
    {
      value
    }

    function GetOr(default: T): T {
      match this
      case Some(v) => v
      case None => default
    }
  }

  /** A computation that either succeeds with a value or raises with a message. */
  datatype Result<+T> = Ok(value: T) | Err(error: string) {
    predicate IsFailure() { Err? }

    function PropagateFailure<U>(): Result<U>
      requires Err?
    {
      Err(error)
    }

    function Extract(): T
      requires Ok?
    {
      value
    }
  }

  /** The values of a run of steps, in order, or the error of the first step that fails. */
  function Collect<T>(rs: seq<Result<T>>): Result<seq<T>>
    decreases |rs|
  {
    if rs == [] then Ok([])
    else
      match Collect(rs[..|rs| - 1])
      case Err(e) => Err(e)
      case Ok(init) =>
        match rs[|rs| - 1]
        case Err(e) => Err(e)
        case Ok(v) => Ok(init + [v])
  }

  /** The run succeeds exactly when every step does, with the steps' values in order. */
  lemma {:induction false} CollectOk<T>(rs: seq<Result<T>>)
    ensures Collect(rs).Ok? <==> forall i :: 0 <= i < |rs| ==> rs[i].Ok?
    ensures Collect(rs).Ok? ==> |Collect(rs).value| == |rs| && forall i :: 0 <= i < |rs| ==> Collect(rs).value[i] == rs[i].value
    decreases |rs|
  {
    if rs != [] {
      var init := rs[..|rs| - 1];
      CollectOk(init);
      assert forall i :: 0 <= i < |init| ==> init[i] == rs[i];
    }
  }

  /** A run whose every step succeeds, framed by a first and a last value. */
  lemma CollectFramed<T>(rs: seq<Result<T>>, first: T, last: T)
    requires forall i :: 0 <= i < |rs| ==> rs[i].Ok?
    ensures Collect(rs).Ok?
    ensures var r := [first] + Collect(rs).value + [last];
            && |r| == |rs| + 2 && r[0] == first && r[|rs| + 1] == last
            && forall i :: 0 <= i < |rs| ==> r[i + 1] == rs[i].value
  {
    CollectOk(rs);
  }

  /** One more step of a run that has not failed. */
  lemma CollectStep<T>(rs: seq<Result<T>>, i: nat, done: seq<T>)
    requires i < |rs| && Collect(rs[..i]) == Ok(done)
    ensures rs[i].Err? ==> Collect(rs[..i + 1]) == Err(rs[i].error)
    ensures rs[i].Ok? ==> Collect(rs[..i + 1]) == Ok(done + [rs[i].value])
  {
    assert rs[..i + 1][..i] == rs[..i];
  }

  /** A failed run carries the error of its first failing step. */
  lemma {:induction false} CollectFail<T>(rs: seq<Result<T>>)
    requires Collect(rs).Err?
    ensures exists j :: 0 <= j < |rs| && rs[j] == Err(Collect(rs).error) && forall k :: 0 <= k < j ==> rs[k].Ok?
    decreases |rs|
  {
    var init := rs[..|rs| - 1];
    assert forall i :: 0 <= i < |init| ==> init[i] == rs[i];
    if Collect(init).Err? {
      CollectFail(init);
      var j :| 0 <= j < |init| && init[j] == Err(Collect(init).error) && forall k :: 0 <= k < j ==> init[k].Ok?;
      assert rs[j] == Err(Collect(rs).error);
    } else {
      CollectOk(init);
      assert rs[|rs| - 1] == Err(Collect(rs).error);
    }
  }

  /** Once a prefix of the run has failed, the whole run fails the same way. */
  lemma {:induction false} CollectErr<T>(rs: seq<Result<T>>, j: nat)
    requires j <= |rs| && Collect(rs[..j]).Err?
    ensures Collect(rs) == Collect(rs[..j])
    decreases |rs| - j
  {
    if j < |rs| {
      assert rs[..j + 1][..j] == rs[..j];
      CollectErr(rs, j + 1);
    } else {
      assert rs[..j] == rs;
    }
  }
}
