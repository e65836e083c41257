/**
 * `InvalidValue`: failures are returned as values; host exceptions travel as
 * `Thrown`. A failure carries a message, the offending raw value, and a path of
 * labels that grows by prepending as the failure crosses each enclosing composite.
 */
module InvalidValues {
  import opened JsValues

  /** The state of an `InvalidValue`: what results carry. */
  datatype Failure = Failure(message: string, value: Value, path: seq<string>)
  {
    /** The state after `pathComponent(component)`: the label goes in front, and
        message, value and the earlier labels are kept, in their order. */
    function PathComponent(component: string): (f: Failure)
      ensures f.message == message && f.value == value
      ensures |f.path| == |path| + 1 && f.path[0] == component && f.path[1..] == path
    {
      Failure(message, value, [component] + path)
    }

    /** `toString()`: the message, the path as `$` and the labels joined by `.`,
        and the value as a template literal renders it. */
    function ToString(): string
    {
      "Error '" + message + "' at '" + Join(["$"] + path, ".") + "', got value: " + Text(value)
    }
  }

  /** `new InvalidValue(message, value)`: the path starts empty. */
  function NewFailure(message: string, value: Value): (f: Failure)
    ensures f.message == message && f.value == value && f.path == []
  {
    Failure(message, value, [])
  }

  /** Each label rendered with the separator in front of it. */
  function Prefixed(parts: seq<string>, sep: string): string
  {
    if parts == [] then "" else sep + parts[0] + Prefixed(parts[1..], sep)
  }

  lemma {:induction false} JoinAfterHead(head: string, parts: seq<string>, sep: string)
    ensures Join([head] + parts, sep) == head + Prefixed(parts, sep)
    decreases |parts|
  {
    if parts != [] {
      JoinAfterHead(parts[0], parts[1..], sep);
      assert ([head] + parts)[1..] == [parts[0]] + parts[1..];
    }
  }

  /** The rendered location is `$` followed by `.label` for each label, outermost first;
      an empty path renders as `$`. */
  lemma {:induction false} RenderedPath(f: Failure)
    ensures f.ToString() == "Error '" + f.message + "' at '$" + Prefixed(f.path, ".") + "', got value: " + Text(f.value)
    ensures f.path == [] ==> f.ToString() == "Error '" + f.message + "' at '$', got value: " + Text(f.value)
  {
    JoinAfterHead("$", f.path, ".");
  }

  /** Prepending a label inserts `.label` right after the `$`. */
  lemma {:induction false} RenderedPathComponent(f: Failure, component: string)
    ensures f.PathComponent(component).ToString()
         == "Error '" + f.message + "' at '$." + component + Prefixed(f.path, ".") + "', got value: " + Text(f.value)
  {
    RenderedPath(f.PathComponent(component));
    assert [component] + f.path == f.PathComponent(component).path;
  }

  /** An exception the host throws. The library itself throws only from `parse`;
      the host throws from `Object.entries(null)` and from string methods called on
      non-strings. */
  datatype Exception = TypeError | Error(message: string)

  /** What a transform returns: an output value, an `InvalidValue`, or, where the host
      throws, the exception (which passes through every combinator untouched). */
  datatype Result<+T> = Ok(value: T) | Invalid(failure: Failure) | Thrown(exception: Exception)
  {
    /** `isInvalidValue(result)`: a constructor test, so no output value can pass for a failure. */
    predicate IsInvalidValue() { Invalid? }

    /** `result.pathComponent(component)` where the result is a failure; anything else is kept. */
    function WithPathComponent(component: string): (r: Result<T>)
      ensures Ok? ==> r == this
      ensures Thrown? ==> r == this
      ensures Invalid? ==> r == Invalid(failure.PathComponent(component))
    {
      if Invalid? then Invalid(failure.PathComponent(component)) else this
    }

    /** The same failure or exception at another output type. */
    function Propagate<U>(): (r: Result<U>)
      requires !Ok?
      ensures Invalid? <==> r.Invalid?
      ensures Invalid? ==> r.failure == failure
      ensures Thrown? ==> r == Thrown(exception)
    {
      if Invalid? then Invalid(failure) else Thrown(exception)
    }
  }

  /** Output values are never mistaken for failures. */
  lemma {:induction false} OutputsAreNotInvalid(x: Value, r: Result<Value>)
    ensures !Ok(x).IsInvalidValue()
    ensures r.IsInvalidValue() <==> exists f :: r == Invalid(f)
  {
  }

  /** An `InvalidValue` object: message and value are fixed at construction, the path
      array is updated in place. */
  class InvalidValue {
    const message: string
    const value: Value
    var path: seq<string>

    constructor (message: string, value: Value)
      ensures this.message == message && this.value == value && path == []
      ensures Snapshot() == NewFailure(message, value)
    {
      this.message := message;
      this.value := value;
      path := [];
    }

    /** The object's current state as a failure value. */
    function Snapshot(): (f: Failure)
      reads this
      ensures f.message == message && f.value == value && f.path == path
    {
      Failure(message, value, path)
    }

    /** `pathComponent(component)`: `path.unshift(component)`, then `return this`. */
    method PathComponent(component: string) returns (self: InvalidValue)
      modifies this
      ensures self == this
      ensures path == [component] + old(path)
      ensures Snapshot() == old(Snapshot()).PathComponent(component)
    {
      path := [component] + path;
      self := this;
    }

    /** `toString()` on the current state: `$` and then `.label` for each label. */
    function ToString(): (s: string)
      reads this
      ensures s == "Error '" + message + "' at '$" + Prefixed(path, ".") + "', got value: " + Text(value)
    {
      RenderedPath(Snapshot());
      Snapshot().ToString()
    }
  }
}
