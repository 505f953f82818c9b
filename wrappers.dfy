/** Option and Result values used across the model. */
module Wrappers {

  datatype Option<+T> = None | Some(value: T)

  /** The outcome of an operation that can fail with an error value. */
  datatype Result<+T, +E> = Ok(value: T) | Err(error: E)

  /** The successful values of a sequence of outcomes, in order. */
  function Oks<T, E>(rs: seq<Result<T, E>>): seq<T>
  {
    if rs == [] then []
    else Oks(rs[..|rs| - 1]) + (if rs[|rs| - 1].Ok? then [rs[|rs| - 1].value] else [])
  }

  /** The error values of a sequence of outcomes, in order. */
  function Errs<T, E>(rs: seq<Result<T, E>>): seq<E>
  {
    if rs == [] then []
    else Errs(rs[..|rs| - 1]) + (if rs[|rs| - 1].Err? then [rs[|rs| - 1].error] else [])
  }

  /** Every outcome is either a success or an error, never both and never neither. */
  lemma {:induction false} OksErrsPartition<T, E>(rs: seq<Result<T, E>>)
    ensures |Oks(rs)| + |Errs(rs)| == |rs|
  {
    if rs != [] {
      OksErrsPartition(rs[..|rs| - 1]);
    }
  }

  /** One more outcome at the end adds its value, or its error, at the end. */
  lemma OksErrsSnoc<T, E>(rs: seq<Result<T, E>>, r: Result<T, E>)
    ensures Oks(rs + [r]) == Oks(rs) + (if r.Ok? then [r.value] else [])
    ensures Errs(rs + [r]) == Errs(rs) + (if r.Err? then [r.error] else [])
  {
    assert (rs + [r])[..|rs|] == rs;
  }

  /** Extending a prefix of the outcomes by one adds that outcome's value, or its error, at the end. */
  lemma OksErrsPrefix<T, E>(rs: seq<Result<T, E>>, i: nat)
    requires i < |rs|
    ensures Oks(rs[..i + 1]) == Oks(rs[..i]) + (if rs[i].Ok? then [rs[i].value] else [])
    ensures Errs(rs[..i + 1]) == Errs(rs[..i]) + (if rs[i].Err? then [rs[i].error] else [])
  {
    assert rs[..i + 1] == rs[..i] + [rs[i]];
    OksErrsSnoc(rs[..i], rs[i]);
  }
}
