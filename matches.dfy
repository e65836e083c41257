/**
 * The gate behind every leaf check: a predicate on the raw input becomes a value
 * transform that passes the input through or fails with an empty path.
 */
module Matching {
  import opened JsValues
  import opened InvalidValues

  /** `matches(message, pred)` */
  function Matches(message: string, pred: Value -> bool): (transform: Value -> Result<Value>)
    ensures forall v: Value :: transform(v).Ok? <==> pred(v)
    ensures forall v: Value :: pred(v) ==> transform(v) == Ok(v)
    ensures forall v: Value :: !pred(v) ==> transform(v) == Invalid(NewFailure("failed: " + message, v))
  {
    (v: Value) => if pred(v) then Ok(v) else Invalid(NewFailure("failed: " + message, v))
  }
}
