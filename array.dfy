/**
 * `array(elementType)`: an array check piped into a transform that checks every
 * element in order and labels a failure with the element's index.
 */
module Arrays {
  import opened JsValues
  import opened InvalidValues
  import opened Matching
  import opened Types
  import opened Transforms
  import opened Traversal
  import opened Base

  /** Element `i` is checked against the element type and labelled with its index. */
  function ElementChildren(elementType: Type, xs: seq<Value>): (cs: seq<Child>)
    ensures |cs| == |xs|
    ensures forall i :: 0 <= i < |xs| ==> cs[i] == Child(NatToString(i), elementType, xs[i])
  {
    seq(|xs|, i requires 0 <= i < |xs| => Child(NatToString(i), elementType, xs[i]))
  }

  /** The mapper of the `every` step; it only sees arrays, as the array check runs first. */
  function EveryElement(elementType: Type): Value -> Result<Value>
  {
    (v: Value) =>
      if v.Arr? then
        var r := Visit(ElementChildren(elementType, v.elems));
        if r.Ok? then Ok(Arr(r.value)) else r.Propagate<Value>()
      else Ok(v)
  }

  /** `array(elementType)` */
  function Array(elementType: Type): Type
  {
    Piped(Type(elementType.name + "[]", Matches("array", (v: Value) => v.IsArray())),
          [Transform(EveryElement(elementType))])
  }

  /** The array check and then the `every` step. */
  lemma {:induction false} ArrayUnfolds(elementType: Type, v: Value)
    ensures Array(elementType).name == elementType.name + "[]"
    ensures !v.Arr? ==> Array(elementType).transformValue(v) == Invalid(Failure("failed: array", v, []))
    ensures v.Arr? ==> Array(elementType).transformValue(v) == EveryElement(elementType)(v)
  {
    var base := Type(elementType.name + "[]", Matches("array", (v: Value) => v.IsArray()));
    var steps := [Transform(EveryElement(elementType))];
    assert steps[..0] == [];
    assert Array(elementType) == steps[0](Piped(base, []));
  }

  /** The loop of the `every` step: element by element into the preallocated `result`
      array, returning at the first failure. */
  method TransformElements(elementType: Type, xs: seq<Value>) returns (r: Result<Value>)
    ensures r == Array(elementType).transformValue(Arr(xs))
  {
    ghost var children := ElementChildren(elementType, xs);
    ghost var outputs: seq<Value> := [];
    var result := new Value[|xs|](_ => Undefined);
    for idx := 0 to |xs|
      invariant |outputs| == idx
      invariant Visit(children[..idx]) == Ok(outputs)
      invariant result[..idx] == outputs
    {
      var element := elementType.transformValue(xs[idx]);
      assert children[..idx + 1][..idx] == children[..idx];
      if !element.Ok? {
        VisitPrefixFinal(children, idx + 1);
        ArrayUnfolds(elementType, Arr(xs));
        return element.WithPathComponent(NatToString(idx));
      }
      result[idx] := element.value;
      outputs := outputs + [element.value];
      assert result[..idx + 1] == result[..idx] + [result[idx]];
    }
    assert children[..|xs|] == children;
    assert result[..] == result[..|xs|];
    ArrayUnfolds(elementType, Arr(xs));
    return Ok(Arr(result[..]));
  }

  /** An array is accepted iff each element is; the output has the same length and holds
      each element's output at its index. */
  lemma {:induction false} ArraySucceeds(elementType: Type, xs: seq<Value>)
    ensures Array(elementType).transformValue(Arr(xs)).Ok? <==>
      forall i :: 0 <= i < |xs| ==> elementType.transformValue(xs[i]).Ok?
    ensures Array(elementType).transformValue(Arr(xs)).Ok? ==>
      var out := Array(elementType).transformValue(Arr(xs)).value;
      && out.Arr? && |out.elems| == |xs|
      && forall i :: 0 <= i < |xs| ==> out.elems[i] == elementType.transformValue(xs[i]).value
  {
    ArrayUnfolds(elementType, Arr(xs));
    VisitSucceeds(ElementChildren(elementType, xs));
  }

  /** The first failing element decides the result: its failure with the decimal index in
      front of the path; the elements after it are not looked at. */
  lemma {:induction false} ArrayFirstFailure(elementType: Type, xs: seq<Value>, i: nat)
    requires i < |xs|
    requires forall j :: 0 <= j < i ==> elementType.transformValue(xs[j]).Ok?
    requires elementType.transformValue(xs[i]).Invalid?
    ensures Array(elementType).transformValue(Arr(xs))
         == Invalid(elementType.transformValue(xs[i]).failure.PathComponent(NatToString(i)))
  {
    ArrayUnfolds(elementType, Arr(xs));
    VisitFirstFailure(ElementChildren(elementType, xs), i);
  }

  /** The empty array is accepted, whatever the element type. */
  lemma {:induction false} ArrayEmpty(elementType: Type)
    ensures Array(elementType).transformValue(Arr([])) == Ok(Arr([]))
  {
    ArrayUnfolds(elementType, Arr([]));
  }

  /** `array(number())` on `[1, 'x']` fails at index `1`, rendered `$.1`. */
  lemma ArrayExample()
    ensures Array(Number()).transformValue(Arr([Num(1), Str("x")])) == Invalid(Failure("failed: number", Str("x"), ["1"]))
  {
    var xs := [Num(1), Str("x")];
    var f := Failure("failed: number", Str("x"), []);
    assert Number().transformValue(xs[0]).Ok?;
    assert Number().transformValue(xs[1]) == Invalid(f);
    ArrayFirstFailure(Number(), xs, 1);
    assert NatToString(1) == "1";
    assert f.PathComponent("1") == Failure("failed: number", Str("x"), ["1"]);
  }
}
