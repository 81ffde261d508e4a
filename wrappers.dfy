/** Optional values and results with an error, as the scripts use `None` and exceptions. */
module Wrappers {

  datatype Option<+T> = None | Some(value: T) {
    function GetOr(default: T): T {
      match this
      case Some(v) => v
      case None => default
    }
  }

  datatype Result<+T, +E> = Ok(value: T) | Err(error: E)

  /** The value of an option as a list of zero or one elements, for appending to a log. */
  function OptionSeq<T>(o: Option<T>): (r: seq<T>)
    ensures |r| <= 1 && (o.Some? <==> |r| == 1) && (o.Some? ==> r[0] == o.value)
  {
    if o.Some? then [o.value] else []
  }

  /** Appending to a log that extends `log0` by `run` extends it by `run + more`. */
  lemma AppendAfterLog<T>(log0: seq<T>, run: seq<T>, more: seq<T>)
    ensures (log0 + run) + more == log0 + (run + more)
  {
  }
}
