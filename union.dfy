/**
 * `union(...types)`: the alternatives after the first are tried in declared order and
 * the first result that is not a failure is returned; only when all of them fail is the
 * first alternative tried, and its result, success or failure, is the union's.
 */
module Unions {
  import opened JsValues
  import opened InvalidValues
  import opened Types
  import opened Base

  /** The failure of the empty union, the same for every input. */
  function NoValue(): (f: Failure)
    ensures f.message == "no value" && f.value == Undefined && f.path == []
  {
    NewFailure("no value", Undefined)
  }

  /** Trying `alternatives` in order on `value`: the first result that is not a
      failure ends the search (an exception too, since it escapes the loop), and when
      every one fails, `fallback` decides. */
  function FirstNotInvalid(alternatives: seq<Type>, fallback: Type, value: Value): (r: Result<Value>)
    ensures forall i ::
      (0 <= i < |alternatives| &&
       (forall j :: 0 <= j < i ==> alternatives[j].transformValue(value).Invalid?) &&
       !alternatives[i].transformValue(value).Invalid?) ==> r == alternatives[i].transformValue(value)
    ensures (forall j :: 0 <= j < |alternatives| ==> alternatives[j].transformValue(value).Invalid?) ==>
      r == fallback.transformValue(value)
    decreases |alternatives|
  {
    if alternatives == [] then fallback.transformValue(value)
    else
      var res := alternatives[0].transformValue(value);
      if !res.IsInvalidValue() then res
      else
        var rest := FirstNotInvalid(alternatives[1..], fallback, value);
        assert forall j :: 0 <= j < |alternatives| - 1 ==> alternatives[1..][j] == alternatives[j + 1];
        rest
  }

  /** The union's transform: the empty union always fails with `no value`. */
  function UnionTransform(types: seq<Type>, value: Value): Result<Value>
  {
    if types == [] then Invalid(NoValue()) else FirstNotInvalid(types[1..], types[0], value)
  }

  function TypeNames(types: seq<Type>): (names: seq<string>)
    ensures |names| == |types| && forall i :: 0 <= i < |types| ==> names[i] == types[i].name
  {
    seq(|types|, i requires 0 <= i < |types| => types[i].name)
  }

  /** `union(...types)`: named `never` when empty, else the alternatives' names joined
      by ` | `. The empty union fails with `no value`; otherwise the alternatives after
      the first are tried in order and the first that does not fail wins, and when all
      of them fail, the first alternative's result is returned. */
  function Union(types: seq<Type>): (u: Type)
    ensures u.name == if types == [] then "never" else Join(TypeNames(types), " | ")
    ensures types == [] ==> forall v: Value :: u.transformValue(v) == Invalid(NoValue())
    ensures forall v: Value, i ::
      (1 <= i < |types| &&
       (forall j :: 1 <= j < i ==> types[j].transformValue(v).Invalid?) &&
       !types[i].transformValue(v).Invalid?) ==> u.transformValue(v) == types[i].transformValue(v)
    ensures forall v: Value ::
      (1 <= |types| && forall j :: 1 <= j < |types| ==> types[j].transformValue(v).Invalid?) ==>
      u.transformValue(v) == types[0].transformValue(v)
  {
    if types == [] then Type("never", (_: Value) => Invalid(NoValue()))
    else
      assert forall j :: 0 <= j < |types| - 1 ==> types[1..][j] == types[j + 1];
      Type(Join(TypeNames(types), " | "), (v: Value) => UnionTransform(types, v))
  }

  /** The loop of the union's transform, over `types.slice(1)`. */
  method TransformUnion(types: seq<Type>, value: Value) returns (r: Result<Value>)
    ensures r == Union(types).transformValue(value)
  {
    if |types| == 0 {
      return Invalid(NoValue());
    }
    var rest := types[1..];
    for i := 0 to |rest|
      invariant FirstNotInvalid(rest[i..], types[0], value) == FirstNotInvalid(rest, types[0], value)
    {
      assert rest[i..][1..] == rest[i + 1..];
      var res := rest[i].transformValue(value);
      if !res.IsInvalidValue() {
        return res;
      }
    }
    return types[0].transformValue(value);
  }

  /** The search fails exactly when every alternative and the fallback fail. */
  lemma {:induction false} FirstNotInvalidFails(alternatives: seq<Type>, fallback: Type, value: Value)
    ensures FirstNotInvalid(alternatives, fallback, value).Invalid? <==>
      (forall j :: 0 <= j < |alternatives| ==> alternatives[j].transformValue(value).Invalid?)
      && fallback.transformValue(value).Invalid?
    decreases |alternatives|
  {
    if alternatives != [] {
      FirstNotInvalidFails(alternatives[1..], fallback, value);
      assert forall j :: 1 <= j < |alternatives| ==> alternatives[1..][j - 1] == alternatives[j];
    }
  }

  /** Alternative `i` (counting from 0, and not the first) wins when the alternatives
      between the first and it fail and it does not. */
  lemma {:induction false} UnionPicks(types: seq<Type>, value: Value, i: nat)
    requires 1 <= i < |types|
    requires forall j :: 1 <= j < i ==> types[j].transformValue(value).Invalid?
    requires !types[i].transformValue(value).Invalid?
    ensures Union(types).transformValue(value) == types[i].transformValue(value)
  {
    assert forall j :: 0 <= j < i - 1 ==> types[1..][j] == types[j + 1];
  }

  /** When every alternative after the first fails, the first alternative's result is
      the union's, whatever it is. */
  lemma {:induction false} UnionFallsBack(types: seq<Type>, value: Value)
    requires |types| >= 1
    requires forall j :: 1 <= j < |types| ==> types[j].transformValue(value).Invalid?
    ensures Union(types).transformValue(value) == types[0].transformValue(value)
  {
    assert forall j :: 0 <= j < |types| - 1 ==> types[1..][j] == types[j + 1];
  }

  /** A non-empty union fails exactly when every alternative fails, and its failure is
      then the first alternative's, with no label added. */
  lemma {:induction false} UnionFails(types: seq<Type>, value: Value)
    requires |types| >= 1
    ensures Union(types).transformValue(value).Invalid? <==>
      forall j :: 0 <= j < |types| ==> types[j].transformValue(value).Invalid?
    ensures Union(types).transformValue(value).Invalid? ==>
      Union(types).transformValue(value) == types[0].transformValue(value)
  {
    FirstNotInvalidFails(types[1..], types[0], value);
    assert forall j :: 1 <= j < |types| ==> types[1..][j - 1] == types[j];
    if forall j :: 1 <= j < |types| ==> types[j].transformValue(value).Invalid? {
      UnionFallsBack(types, value);
    }
  }

  /** Whatever a non-empty union returns is the result of one of its alternatives. */
  lemma {:induction false} UnionIsAnAlternative(types: seq<Type>, value: Value)
    requires |types| >= 1
    ensures exists i :: 0 <= i < |types| && Union(types).transformValue(value) == types[i].transformValue(value)
  {
    if forall j :: 1 <= j < |types| ==> types[j].transformValue(value).Invalid? {
      UnionFallsBack(types, value);
      assert Union(types).transformValue(value) == types[0].transformValue(value);
    } else {
      var i := 1;
      while types[i].transformValue(value).Invalid?
        invariant 1 <= i < |types|
        invariant forall j :: 1 <= j < i ==> types[j].transformValue(value).Invalid?
        invariant exists k :: i <= k < |types| && !types[k].transformValue(value).Invalid?
        decreases |types| - i
      {
        i := i + 1;
      }
      UnionPicks(types, value, i);
    }
  }

  /** The order quirk: when the second alternative accepts, its output is returned,
      even where the first alternative accepts too and would output something else. */
  lemma {:induction false} SecondBeatsFirst(a: Type, b: Type, value: Value)
    requires b.transformValue(value).Ok?
    ensures Union([a, b]).transformValue(value) == b.transformValue(value)
  {
    UnionPicks([a, b], value, 1);
  }

  /** A union of one alternative behaves as that alternative and has its name. */
  lemma {:induction false} UnionOfOne(t: Type, value: Value)
    ensures Union([t]).name == t.name
    ensures Union([t]).transformValue(value) == t.transformValue(value)
  {
    UnionFallsBack([t], value);
  }

  /** The empty union is `never` and fails every input with `no value` at undefined. */
  lemma {:induction false} UnionOfNone(value: Value)
    ensures Union([]).name == "never"
    ensures Union([]).transformValue(value) == Invalid(Failure("no value", Undefined, []))
  {
  }

  /** `union(string(), number())` */
  function StringOrNumber(): Type
  {
    Union([String(), Number()])
  }

  /** It accepts numbers unchanged (the second alternative). */
  lemma {:induction false} StringOrNumberAcceptsNumbers(n: int)
    ensures StringOrNumber().transformValue(Num(n)) == Ok(Num(n))
  {
    UnionPicks([String(), Number()], Num(n), 1);
  }

  /** It accepts strings unchanged (the first alternative, after the second failed). */
  lemma {:induction false} StringOrNumberAcceptsStrings(s: string)
    ensures StringOrNumber().transformValue(Str(s)) == Ok(Str(s))
  {
    UnionFallsBack([String(), Number()], Str(s));
  }

  /** It rejects null with the first alternative's failure. */
  lemma StringOrNumberRejectsNull()
    ensures StringOrNumber().transformValue(Null) == Invalid(Failure("failed: string", Null, []))
  {
    UnionFallsBack([String(), Number()], Null);
  }

  /** It is named `string | number`. */
  lemma StringOrNumberName()
    ensures StringOrNumber().name == "string | number"
  {
    var names := TypeNames([String(), Number()]);
    assert names == ["string", "number"];
    assert names[1..] == ["number"];
  }
}
