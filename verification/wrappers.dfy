/** Failure values for the operations that the library aborts with a panic. */
module Wrappers {

  datatype Option<+T> = None | Some(value: T)

  /** One kind per panic site of the library. */
  datatype Error =
    | ParseError(text: string)          // a typed column rejected a literal
    | ColumnNotFound(name: string)      // a named column is absent
    | DuplicateColumn(name: string)     // add_column with a name already present
    | MissingColumn(name: string)       // push_row_str without a value for a column
    | NonNumericValue                   // a Sum over text that is not a float literal
    | RowOutOfRange(row: nat)           // a read past the end of a column

  datatype Result<+T> = Ok(value: T) | Err(error: Error) {
    predicate IsFailure() { Err? }

    function PropagateFailure<U>(): Result<U>
      requires Err?
    {
      Err(error)
    }

    function Extract(): T
      requires Ok?
    {
      value
    }
  }

  /** The values of a run of results, in order, or the first error among them. */
  function Collect<T>(rs: seq<Result<T>>): (r: Result<seq<T>>)
    ensures r.Ok? ==> |r.value| == |rs|
  {
    if rs == [] then Ok([])
    else
      var n := |rs| - 1;
      match Collect(rs[..n])
      case Err(e) => Err(e)
      case Ok(vs) =>
        match rs[n]
        case Err(e) => Err(e)
        case Ok(v) => Ok(vs + [v])
  }

  /** Collecting succeeds exactly when every result does, and keeps their values. */
  lemma {:induction false} CollectOk<T>(rs: seq<Result<T>>)
    ensures Collect(rs).Ok? <==> forall k :: 0 <= k < |rs| ==> rs[k].Ok?
    ensures Collect(rs).Ok? ==> forall k :: 0 <= k < |rs| ==> Collect(rs).value[k] == rs[k].value
  {
    if rs != [] {
      var n := |rs| - 1;
      CollectOk(rs[..n]);
      assert forall k :: 0 <= k < n ==> rs[..n][k] == rs[k];
    }
  }

  /** The error reported is that of the first failing result. */
  lemma {:induction false} CollectFirstError<T>(rs: seq<Result<T>>, j: nat)
    requires j < |rs| && rs[j].Err? && forall k :: 0 <= k < j ==> rs[k].Ok?
    ensures Collect(rs) == Err(rs[j].error)
    decreases |rs|
  {
    var n := |rs| - 1;
    if j < n {
      CollectFirstError(rs[..n], j);
    } else {
      CollectOk(rs[..n]);
    }
  }

  /** A failed collection reports the error of one of the results. */
  lemma {:induction false} CollectErrorFrom<T>(rs: seq<Result<T>>)
    ensures Collect(rs).Err? ==> exists k :: 0 <= k < |rs| && rs[k] == Err(Collect(rs).error)
  {
    if rs != [] {
      var n := |rs| - 1;
      CollectErrorFrom(rs[..n]);
      if Collect(rs[..n]).Err? {
        var k :| 0 <= k < n && rs[..n][k] == Err(Collect(rs[..n]).error);
        assert rs[k] == rs[..n][k];
      }
    }
  }

  /** One result more: the collected prefix grows by its value, or stops at its error. */
  lemma CollectSnoc<T>(rs: seq<Result<T>>, k: nat)
    requires k < |rs|
    ensures Collect(rs[..k + 1]) ==
      match Collect(rs[..k])
      case Err(e) => Err(e)
      case Ok(vs) => (match rs[k] case Err(e) => Err(e) case Ok(v) => Ok(vs + [v]))
  {
    assert rs[..k + 1][..k] == rs[..k];
  }

  /** The result of an operation that changes state and returns nothing. */
  datatype Outcome = Pass | Fail(error: Error)
}
