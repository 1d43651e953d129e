/** Option and Result, and the ways a run of the pipeline can fail. */
module Wrappers {

  datatype Option<+T> = None | Some(value: T)

  /** The failures the pipeline can raise. Every one of them aborts the run. */
  datatype Error =
    | ColumnCountMismatch  // the dump has no records, so there are no columns for the nine names
    | DateParse            // a date column value is not a valid `%Y-%m-%d` date
    | DuplicateOrderId     // two orders share an order_ID
    | IntParse             // a member key is not an integer
    | FloatParse           // a numeric column value is not a decimal number
    | MissingColumn(column: string)   // the exploded table has no rows, so the column is absent
    | MissingProduct       // an order has no product rows, or a request names a product it does not have
    | DuplicateBinEdges    // the quartile edges of a column are not all distinct
    | EmptyPivot           // the cohort pivot has no column for `iloc[:, 0]` to select

  datatype Result<+T> = Success(value: T) | Failure(error: Error) {

    predicate IsFailure() {
      Failure?
    }

    function PropagateFailure<U>(): Result<U>
      requires Failure?
    {
      Failure(error)
    }

    function Extract(): T
      requires Success?
    {
      value
    }
  }

  /**
   * Converts every element in turn. The first element whose conversion
   * fails fails the whole with its error; otherwise the results line up
   * one to one with the elements.
   */
  function ConvertAll<T, U>(xs: seq<T>, convert: T -> Result<U>): (r: Result<seq<U>>)
    ensures r.Success? <==> forall i :: 0 <= i < |xs| ==> convert(xs[i]).Success?
    ensures r.Failure? ==> exists i ::
      && 0 <= i < |xs| && convert(xs[i]) == Failure(r.error)
      && forall j :: 0 <= j < i ==> convert(xs[j]).Success?
    ensures r.Success? ==>
      |r.value| == |xs| && forall i :: 0 <= i < |xs| ==> r.value[i] == convert(xs[i]).value
  {
    if xs == [] then Success([])
    else
      var first :- convert(xs[0]);
      var rest := ConvertAll(xs[1..], convert);
      if rest.Failure? then
        assert exists i :: 0 <= i < |xs| - 1 && convert(xs[1..][i]) == Failure(rest.error)
          && forall j :: 0 <= j < i ==> convert(xs[1..][j]).Success?;
        var i :| 0 <= i < |xs| - 1 && convert(xs[1..][i]) == Failure(rest.error)
          && forall j :: 0 <= j < i ==> convert(xs[1..][j]).Success?;
        assert forall j :: 1 <= j < i + 1 ==> xs[j] == xs[1..][j - 1];
        Failure(rest.error)
      else
        Success([first] + rest.value)
  }
}
