/**
 * `tuple(...elements)`: an array of exactly as many values as there are element types,
 * each checked against the type at its position.
 */
module Tuples {
  import opened JsValues
  import opened InvalidValues
  import opened Types
  import opened Traversal
  import opened Base

  /** Position `i` is checked against `elements[i]` and labelled with its index. */
  function PositionChildren(elements: seq<Type>, values: seq<Value>): (cs: seq<Child>)
    requires |values| == |elements|
    ensures |cs| == |elements|
    ensures forall i :: 0 <= i < |elements| ==> cs[i] == Child(NatToString(i), elements[i], values[i])
  {
    seq(|elements|, i requires 0 <= i < |elements| => Child(NatToString(i), elements[i], values[i]))
  }

  /** The message for an array of the wrong length. */
  function LengthMessage(expected: nat, actual: nat): string
  {
    "expected " + NatToString(expected) + " values, got " + NatToString(actual)
  }

  /** The transform of `tuple(...elements)`. */
  function TupleTransform(elements: seq<Type>, values: Value): Result<Value>
  {
    if !values.IsArray() then Invalid(NewFailure("expected array", values))
    else if |values.elems| != |elements| then Invalid(NewFailure(LengthMessage(|elements|, |values.elems|), values))
    else
      var r := Visit(PositionChildren(elements, values.elems));
      if r.Ok? then Ok(Arr(r.value)) else r.Propagate<Value>()
  }

  function ElementNames(elements: seq<Type>): (names: seq<string>)
    ensures |names| == |elements|
    ensures forall i :: 0 <= i < |elements| ==> names[i] == elements[i].name
  {
    seq(|elements|, i requires 0 <= i < |elements| => elements[i].name)
  }

  /** `tuple(...elements)`, named `[n1, n2, ...]`. */
  function Tuple(elements: seq<Type>): Type
  {
    Type("[" + Join(ElementNames(elements), ", ") + "]", (v: Value) => TupleTransform(elements, v))
  }

  /** The closure of `tuple`: the two shape checks, then the loop over the positions
      into the preallocated `result` array. */
  method TransformTuple(elements: seq<Type>, values: Value) returns (r: Result<Value>)
    ensures r == Tuple(elements).transformValue(values)
  {
    if !values.IsArray() {
      return Invalid(NewFailure("expected array", values));
    }
    if |values.elems| != |elements| {
      return Invalid(NewFailure(LengthMessage(|elements|, |values.elems|), values));
    }
    ghost var children := PositionChildren(elements, values.elems);
    ghost var outputs: seq<Value> := [];
    var result := new Value[|elements|](_ => Undefined);
    for idx := 0 to |elements|
      invariant |outputs| == idx
      invariant Visit(children[..idx]) == Ok(outputs)
      invariant result[..idx] == outputs
    {
      var value := elements[idx].transformValue(values.elems[idx]);
      assert children[..idx + 1][..idx] == children[..idx];
      if !value.Ok? {
        VisitPrefixFinal(children, idx + 1);
        return value.WithPathComponent(NatToString(idx));
      }
      result[idx] := value.value;
      outputs := outputs + [value.value];
      assert result[..idx + 1] == result[..idx] + [result[idx]];
    }
    assert children[..|elements|] == children;
    assert result[..] == result[..|elements|];
    return Ok(Arr(result[..]));
  }

  /** A value that is not an array, or an array of another length, fails at the root with
      the matching message; the elements are then not looked at. */
  lemma {:induction false} TupleRejectsShape(elements: seq<Type>, values: Value)
    ensures !values.Arr? ==> Tuple(elements).transformValue(values) == Invalid(Failure("expected array", values, []))
    ensures values.Arr? && |values.elems| != |elements| ==>
      Tuple(elements).transformValue(values) == Invalid(Failure(LengthMessage(|elements|, |values.elems|), values, []))
  {
  }

  /** An array of the right length is accepted iff each position is; the output holds each
      position's output. */
  lemma {:induction false} TupleSucceeds(elements: seq<Type>, xs: seq<Value>)
    requires |xs| == |elements|
    ensures Tuple(elements).transformValue(Arr(xs)).Ok? <==>
      forall i :: 0 <= i < |xs| ==> elements[i].transformValue(xs[i]).Ok?
    ensures Tuple(elements).transformValue(Arr(xs)).Ok? ==>
      var out := Tuple(elements).transformValue(Arr(xs)).value;
      && out.Arr? && |out.elems| == |xs|
      && forall i :: 0 <= i < |xs| ==> out.elems[i] == elements[i].transformValue(xs[i]).value
  {
    VisitSucceeds(PositionChildren(elements, xs));
  }

  /** The first failing position decides the result, labelled with its index. */
  lemma {:induction false} TupleFirstFailure(elements: seq<Type>, xs: seq<Value>, i: nat)
    requires |xs| == |elements| && i < |xs|
    requires forall j :: 0 <= j < i ==> elements[j].transformValue(xs[j]).Ok?
    requires elements[i].transformValue(xs[i]).Invalid?
    ensures Tuple(elements).transformValue(Arr(xs))
         == Invalid(elements[i].transformValue(xs[i]).failure.PathComponent(NatToString(i)))
  {
    VisitFirstFailure(PositionChildren(elements, xs), i);
  }

  /** `tuple(number(), number())` */
  function Point(): Type
  {
    Tuple([Number(), Number()])
  }

  /** The point type accepts a pair of numbers unchanged, such as `[1, 2]` or `[0, -3]`. */
  lemma {:induction false} PointAccepts(x: int, y: int)
    ensures Point().transformValue(Arr([Num(x), Num(y)])) == Ok(Arr([Num(x), Num(y)]))
  {
    var point, xs := [Number(), Number()], [Num(x), Num(y)];
    VisitAllOk(PositionChildren(point, xs), xs);
  }

  /** It rejects `[]` and `[1]` by their length. */
  lemma PointRejectsShort()
    ensures Point().transformValue(Arr([])) == Invalid(Failure(LengthMessage(2, 0), Arr([]), []))
    ensures Point().transformValue(Arr([Num(1)])) == Invalid(Failure(LengthMessage(2, 1), Arr([Num(1)]), []))
  {
  }

  /** It rejects `[1, 2, 3]` by its length. */
  lemma PointRejectsLong()
    ensures Point().transformValue(Arr([Num(1), Num(2), Num(3)])) == Invalid(Failure(LengthMessage(2, 3), Arr([Num(1), Num(2), Num(3)]), []))
  {
  }

  /** It rejects `[1, null]` at index `1`. */
  lemma PointRejectsNull()
    ensures Point().transformValue(Arr([Num(1), Null])) == Invalid(Failure("failed: number", Null, ["1"]))
  {
    var f := Failure("failed: number", Null, []);
    assert Number().transformValue(Num(1)).Ok?;
    assert Number().transformValue(Null) == Invalid(f);
    TupleFirstFailure([Number(), Number()], [Num(1), Null], 1);
    assert NatToString(1) == "1";
    assert f.PathComponent("1") == Failure("failed: number", Null, ["1"]);
  }

  /** The rendered length message. */
  lemma LengthMessageExample()
    ensures LengthMessage(2, 3) == "expected 2 values, got 3"
  {
    assert NatToString(2) == "2" && NatToString(3) == "3";
  }

  /** `tuple(number(), string())` is named `[number, string]`. */
  lemma TupleName()
    ensures Tuple([Number(), String()]).name == "[number, string]"
  {
    var names := ElementNames([Number(), String()]);
    assert Number().name == "number" && String().name == "string";
    assert names == ["number", "string"];
    assert Join(names, ", ") == "number" + ", " + Join(["string"], ", ");
  }
}
