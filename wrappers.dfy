/** Results for the operations of the chatbot's code that can raise, and
    the list comprehension whose element expression may raise. */
module Wrappers {

  datatype Option<T> = None | Some(value: T) {
    /** `d.get(key, default)` on a record field that may be absent. */
    function GetOr(default: T): T {
      if Some? then value else default
    }
  }

  /** The exceptions the modelled code can raise by itself. */
  datatype Error =
    | KeyError(key: string)   // `d[key]` on a record that has no such key
    | IndexError              // `chunks[0]` on an empty corpus

  datatype Result<T> = Ok(value: T) | Err(error: Error)

  /** `[f(x) for x in xs]` where evaluating `f(x)` may raise: the comprehension
      raises the error of the first element that fails, and otherwise yields
      one value per element, in order. */
  function MapResult<A, B>(xs: seq<A>, f: A -> Result<B>): (r: Result<seq<B>>)
    ensures r.Ok? <==> forall i :: 0 <= i < |xs| ==> f(xs[i]).Ok?
    ensures r.Ok? ==> |r.value| == |xs| && forall i :: 0 <= i < |xs| ==> r.value[i] == f(xs[i]).value
    ensures r.Err? ==>
      exists i :: 0 <= i < |xs| && f(xs[i]).Err? && f(xs[i]).error == r.error
        && forall j :: 0 <= j < i ==> f(xs[j]).Ok?
  {
    if xs == [] then Ok([])
    else match f(xs[0])
      case Err(e) => Err(e)
      case Ok(y) =>
        match MapResult(xs[1..], f)
        case Err(e) =>
          var i :| 0 <= i < |xs| - 1 && f(xs[1..][i]).Err? && f(xs[1..][i]).error == e
                   && forall j :: 0 <= j < i ==> f(xs[1..][j]).Ok?;
          assert forall j :: 0 <= j < i + 1 ==> f(xs[j]).Ok? by {
            forall j | 0 <= j < i + 1 ensures f(xs[j]).Ok? {
              if j > 0 { assert xs[j] == xs[1..][j - 1]; }
            }
          }
          Err(e)
        case Ok(ys) => Ok([y] + ys)
  }
}
