/**
 * `object(shape)`: a plain object whose declared fields are checked in declaration
 * order; the output holds exactly the declared fields.
 */
module Objects {
  import opened JsValues
  import opened InvalidValues
  import opened Types
  import opened Transforms
  import opened Traversal
  import opened Base

  /** The shape `{k1: T1, k2: T2, ...}` in declaration order. */
  type Shape = seq<(string, Type)>

  /** The shape is a JavaScript object, so no key is declared twice. */
  predicate WellFormed(shape: Shape)
  {
    forall i, j :: 0 <= i < j < |shape| ==> shape[i].0 != shape[j].0
  }

  /** Field `key` of the shape is checked against `value[key]`, undefined when missing. */
  function FieldChildren(shape: Shape, fields: seq<(string, Value)>): (cs: seq<Child>)
    ensures |cs| == |shape|
    ensures forall i :: 0 <= i < |shape| ==> cs[i] == Child(shape[i].0, shape[i].1, Get(fields, shape[i].0))
  {
    seq(|shape|, i requires 0 <= i < |shape| => Child(shape[i].0, shape[i].1, Get(fields, shape[i].0)))
  }

  /** The output record: each declared key with its child's output. */
  function Output(shape: Shape, outputs: seq<Value>): (fields: seq<(string, Value)>)
    requires |outputs| == |shape|
    ensures |fields| == |shape|
    ensures forall i :: 0 <= i < |shape| ==> fields[i] == (shape[i].0, outputs[i])
  {
    seq(|shape|, i requires 0 <= i < |shape| => (shape[i].0, outputs[i]))
  }

  /** The transform of `object(shape)`. */
  function ObjectTransform(shape: Shape, value: Value): Result<Value>
  {
    if value.IsNullish() then Invalid(NewFailure("is null", value))
    else if !value.HasObjectConstructor() then Invalid(NewFailure("is not an object", value))
    else
      var r := Visit(FieldChildren(shape, value.fields));
      if r.Ok? then Ok(PlainObject(Output(shape, r.value))) else r.Propagate<Value>()
  }

  /** `k: n` for each declared field, in declaration order. */
  function FieldNames(shape: Shape): (names: seq<string>)
    ensures |names| == |shape|
    ensures forall i :: 0 <= i < |shape| ==> names[i] == shape[i].0 + ": " + shape[i].1.name
  {
    seq(|shape|, i requires 0 <= i < |shape| => shape[i].0 + ": " + shape[i].1.name)
  }

  /** `{k1: n1, k2: n2, ...}` */
  function ShapeName(shape: Shape): string
  {
    "{" + Join(FieldNames(shape), ", ") + "}"
  }

  /** `object(shape)` */
  function Object(shape: Shape): Type
    requires WellFormed(shape)
  {
    Type(ShapeName(shape), v => ObjectTransform(shape, v))
  }

  /** The `transform` closure of `object(shape)`: the two shape checks, then the loop over
      the declared fields that returns at the first failure. */
  method TransformObject(shape: Shape, value: Value) returns (r: Result<Value>)
    requires WellFormed(shape)
    ensures r == Object(shape).transformValue(value)
  {
    if value.IsNullish() {
      return Invalid(NewFailure("is null", value));
    }
    if !value.HasObjectConstructor() {
      return Invalid(NewFailure("is not an object", value));
    }
    ghost var children := FieldChildren(shape, value.fields);
    ghost var outputs: seq<Value> := [];
    var result: seq<(string, Value)> := [];
    for i := 0 to |shape|
      invariant |outputs| == i
      invariant Visit(children[..i]) == Ok(outputs)
      invariant result == Output(shape[..i], outputs)
    {
      var (key, fieldType) := shape[i];
      var transformed := fieldType.transformValue(Get(value.fields, key));
      assert children[..i + 1][..i] == children[..i];
      if !transformed.Ok? {
        VisitPrefixFinal(children, i + 1);
        return transformed.WithPathComponent(key);
      }
      result := result + [(key, transformed.value)];
      outputs := outputs + [transformed.value];
    }
    assert children[..|shape|] == children;
    assert shape[..|shape|] == shape;
    return Ok(PlainObject(result));
  }

  /** Null and undefined fail with `is null`; any other value whose constructor is not
      `Object` (a primitive, an array, a class instance, a plain object with an own
      `constructor` field) fails with `is not an object`. */
  lemma {:induction false} ObjectRejectsNonObjects(shape: Shape, value: Value)
    requires WellFormed(shape)
    ensures value.IsNullish() ==> Object(shape).transformValue(value) == Invalid(Failure("is null", value, []))
    ensures !value.IsNullish() && !value.HasObjectConstructor() ==>
      Object(shape).transformValue(value) == Invalid(Failure("is not an object", value, []))
  {
  }

  /** A plain object without an own `constructor` field is accepted iff every declared
      field is (a missing field is checked as undefined); the output then has exactly the declared keys, in declaration order,
      each with its child's output, and nothing of the input's other fields. */
  lemma {:induction false} ObjectSucceeds(shape: Shape, fields: seq<(string, Value)>)
    requires WellFormed(shape) && PlainObject(fields).HasObjectConstructor()
    ensures Object(shape).transformValue(PlainObject(fields)).Ok? <==>
      forall i :: 0 <= i < |shape| ==> shape[i].1.transformValue(Get(fields, shape[i].0)).Ok?
    ensures Object(shape).transformValue(PlainObject(fields)).Ok? ==>
      var out := Object(shape).transformValue(PlainObject(fields)).value;
      && out.PlainObject? && |out.fields| == |shape|
      && forall i :: 0 <= i < |shape| ==>
           out.fields[i] == (shape[i].0, shape[i].1.transformValue(Get(fields, shape[i].0)).value)
  {
    VisitSucceeds(FieldChildren(shape, fields));
  }

  /** The first declared field that fails decides the result: its failure with the field
      name in front of the path. The fields after it are not looked at. */
  lemma {:induction false} ObjectFirstFailure(shape: Shape, fields: seq<(string, Value)>, i: nat)
    requires WellFormed(shape) && PlainObject(fields).HasObjectConstructor() && i < |shape|
    requires forall j :: 0 <= j < i ==> shape[j].1.transformValue(Get(fields, shape[j].0)).Ok?
    requires shape[i].1.transformValue(Get(fields, shape[i].0)).Invalid?
    ensures Object(shape).transformValue(PlainObject(fields))
         == Invalid(shape[i].1.transformValue(Get(fields, shape[i].0)).failure.PathComponent(shape[i].0))
  {
    VisitFirstFailure(FieldChildren(shape, fields), i);
  }

  /** A failure one level down carries the field name. */
  lemma InnerPath()
    ensures Object([("b", Number())]).transformValue(PlainObject([("b", Str("x"))]))
         == Invalid(Failure("failed: number", Str("x"), ["b"]))
  {
    assert Get([("b", Str("x"))], "b") == Str("x");
    ObjectFirstFailure([("b", Number())], [("b", Str("x"))], 0);
  }

  /** Nested objects compose paths, outermost first: `object({a: object({b: number()})})`
      on `{a: {b: 'x'}}` fails at path `a`, `b`. */
  lemma NestedPath()
    ensures Object([("a", Object([("b", Number())]))]).transformValue(PlainObject([("a", PlainObject([("b", Str("x"))]))]))
         == Invalid(Failure("failed: number", Str("x"), ["a", "b"]))
  {
    var innerValue := PlainObject([("b", Str("x"))]);
    InnerPath();
    assert Get([("a", innerValue)], "a") == innerValue;
    ObjectFirstFailure([("a", Object([("b", Number())]))], [("a", innerValue)], 0);
    assert ["a"] + ["b"] == ["a", "b"];
  }

  /** A failure two levels down renders its location as `$.outer.inner`. */
  lemma {:induction false} NestedPathRendered(message: string, value: Value, outer: string, inner: string)
    ensures Failure(message, value, [outer, inner]).ToString()
         == "Error '" + message + "' at '$." + outer + "." + inner + "', got value: " + Text(value)
  {
    var f := Failure(message, value, [outer, inner]);
    RenderedPath(f);
    assert f.path[1..] == [inner] && f.path[1..][1..] == [];
    assert Prefixed([inner], ".") == "." + inner + Prefixed([], ".");
    assert Prefixed([inner], ".") == "." + inner;
    assert Prefixed(f.path, ".") == "." + outer + Prefixed([inner], ".");
  }

  /** With two declared fields whose types return their inputs unchanged, an input
      holding them and one more field in another order yields just the declared two,
      in declaration order. */
  lemma {:induction false} ObjectDropsExtraField(ageType: Type, nameType: Type, age: Value, name: Value, extra: string, extraValue: Value)
    requires extra != "age" && extra != "name" && extra != "constructor"
    requires ageType.transformValue(age) == Ok(age) && nameType.transformValue(name) == Ok(name)
    ensures Object([("age", ageType), ("name", nameType)]).transformValue(PlainObject([("name", name), (extra, extraValue), ("age", age)]))
         == Ok(PlainObject([("age", age), ("name", name)]))
  {
    var shape := [("age", ageType), ("name", nameType)];
    var fields := [("name", name), (extra, extraValue), ("age", age)];
    assert fields[1..] == [(extra, extraValue), ("age", age)] && fields[1..][1..] == [("age", age)];
    assert Get(fields, "name") == name;
    assert Get(fields, "age") == Get(fields[1..], "age") == Get(fields[1..][1..], "age") == age;
    assert PlainObject(fields).HasObjectConstructor();
    ObjectSucceeds(shape, fields);
    var out := Object(shape).transformValue(PlainObject(fields)).value;
    assert out.fields[0] == ("age", age) && out.fields[1] == ("name", name);
    assert out.fields == [("age", age), ("name", name)];
  }

  /** When each declared field yields the output given for it, the object yields exactly
      those outputs under the declared keys. */
  lemma {:induction false} ObjectAllOk(shape: Shape, fields: seq<(string, Value)>, outputs: seq<Value>)
    requires WellFormed(shape) && PlainObject(fields).HasObjectConstructor() && |outputs| == |shape|
    requires forall i :: 0 <= i < |shape| ==> shape[i].1.transformValue(Get(fields, shape[i].0)) == Ok(outputs[i])
    ensures Object(shape).transformValue(PlainObject(fields)) == Ok(PlainObject(Output(shape, outputs)))
  {
    VisitAllOk(FieldChildren(shape, fields), outputs);
  }

  /** A three-field shape on an input with exactly those fields, in declaration order:
      the output holds each field's output under its key, in that order. */
  lemma {:induction false} ObjectThreeFields(ka: string, ta: Type, a: Value, a': Value,
                                             kb: string, tb: Type, b: Value, b': Value,
                                             kc: string, tc: Type, c: Value, c': Value)
    requires ka != kb && ka != kc && kb != kc
    requires ka != "constructor" && kb != "constructor" && kc != "constructor"
    requires ta.transformValue(a) == Ok(a') && tb.transformValue(b) == Ok(b') && tc.transformValue(c) == Ok(c')
    ensures Object([(ka, ta), (kb, tb), (kc, tc)]).transformValue(PlainObject([(ka, a), (kb, b), (kc, c)]))
         == Ok(PlainObject([(ka, a'), (kb, b'), (kc, c')]))
  {
    var shape := [(ka, ta), (kb, tb), (kc, tc)];
    var fields := [(ka, a), (kb, b), (kc, c)];
    var outputs := [a', b', c'];
    GetOfThree(ka, a, kb, b, kc, c);
    forall i | 0 <= i < |shape|
      ensures shape[i].1.transformValue(Get(fields, shape[i].0)) == Ok(outputs[i])
    {
      if i == 0 {
      } else if i == 1 {
      } else {
        assert i == 2;
      }
    }
    assert PlainObject(fields).HasObjectConstructor();
    ObjectAllOk(shape, fields, outputs);
    OutputOfThree(ka, ta, a', kb, tb, b', kc, tc, c');
  }

  /** The output record of a three-field shape lists the three keys in order. */
  lemma {:induction false} OutputOfThree(ka: string, ta: Type, a': Value, kb: string, tb: Type, b': Value,
                                         kc: string, tc: Type, c': Value)
    ensures Output([(ka, ta), (kb, tb), (kc, tc)], [a', b', c']) == [(ka, a'), (kb, b'), (kc, c')]
  {
    var out := Output([(ka, ta), (kb, tb), (kc, tc)], [a', b', c']);
    assert out[0] == (ka, a') && out[1] == (kb, b') && out[2] == (kc, c');
  }

  /** Property lookup on three distinct fields finds each. */
  lemma {:induction false} GetOfThree(ka: string, a: Value, kb: string, b: Value, kc: string, c: Value)
    requires ka != kb && ka != kc && kb != kc
    ensures Get([(ka, a), (kb, b), (kc, c)], ka) == a
    ensures Get([(ka, a), (kb, b), (kc, c)], kb) == b
    ensures Get([(ka, a), (kb, b), (kc, c)], kc) == c
  {
    var fields := [(ka, a), (kb, b), (kc, c)];
    assert fields[1..] == [(kb, b), (kc, c)] && fields[1..][1..] == [(kc, c)];
    assert Get(fields, kb) == Get(fields[1..], kb);
    assert Get(fields, kc) == Get(fields[1..], kc) == Get(fields[1..][1..], kc);
  }

  /** `string().pipe(toDate())`, with the host's date parsing as `parseDate`. */
  function DateString(parseDate: Value -> Option<Value>): Type
  {
    Piped(String(), [ToDate(parseDate)])
  }

  /** A string that parses as a date comes out as that date. */
  lemma {:induction false} DateStringParses(parseDate: Value -> Option<Value>, text: string, date: Value)
    requires parseDate(Str(text)) == Some(date)
    ensures DateString(parseDate).transformValue(Str(text)) == Ok(date)
  {
    var steps := [ToDate(parseDate)];
    assert steps[..0] == [];
    assert DateString(parseDate) == steps[0](Piped(String(), []));
  }

  /** The shape of the test's person type, with its field types as parameters. */
  lemma {:induction false} PersonShapeAccepts(ageType: Type, nameType: Type, birthType: Type,
                                              age: Value, name: Value, birth: Value, date: Value)
    requires ageType.transformValue(age) == Ok(age) && nameType.transformValue(name) == Ok(name)
    requires birthType.transformValue(birth) == Ok(date)
    ensures Object([("age", ageType), ("name", nameType), ("birth", birthType)])
              .transformValue(PlainObject([("age", age), ("name", name), ("birth", birth)]))
         == Ok(PlainObject([("age", age), ("name", name), ("birth", date)]))
  {
    ObjectThreeFields("age", ageType, age, age, "name", nameType, name, name, "birth", birthType, birth, date);
  }

  /** `number()` and `string()` accept the test's age and name unchanged. */
  lemma {:induction false} LeafTypesAccept(age: int, name: string)
    ensures Number().transformValue(Num(age)) == Ok(Num(age))
    ensures String().transformValue(Str(name)) == Ok(Str(name))
  {
  }

  /** `object({age: number(), name: string(), birth: string().pipe(toDate())})` on
      `{age, name, birth}` outputs the number and the string unchanged and `birth` as the
      parsed date. */
  lemma {:induction false} PersonExample(parseDate: Value -> Option<Value>, age: int, name: string, birth: string, date: Value)
    requires parseDate(Str(birth)) == Some(date)
    ensures Object([("age", Number()), ("name", String()), ("birth", DateString(parseDate))])
              .transformValue(PlainObject([("age", Num(age)), ("name", Str(name)), ("birth", Str(birth))]))
         == Ok(PlainObject([("age", Num(age)), ("name", Str(name)), ("birth", date)]))
  {
    DateStringParses(parseDate, birth, date);
    LeafTypesAccept(age, name);
    PersonShapeAccepts(Number(), String(), DateString(parseDate), Num(age), Str(name), Str(birth), date);
  }

  /** A declared field missing from the input is checked as undefined, so
      `object({a: optional(t)})` turns `{}` into `{a: undefined}`, whatever `t` is. */
  lemma {:induction false} MissingFieldExample(t: Type)
    ensures Object([("a", Optional(t))]).transformValue(PlainObject([])) == Ok(PlainObject([("a", Undefined)]))
  {
    var shape := [("a", Optional(t))];
    assert Get([], "a") == Undefined;
    ObjectSucceeds(shape, []);
    var out := Object(shape).transformValue(PlainObject([])).value;
    assert out.fields == [("a", Undefined)];
  }

  /** A two-field shape is named `{a: name of a's type, b: name of b's type}`, in
      declaration order; `object({age: number(), name: string()})` is
      `{age: number, name: string}`. */
  lemma {:induction false} ObjectName(a: string, ta: Type, b: string, tb: Type)
    requires a != b
    ensures Object([(a, ta), (b, tb)]).name == "{" + a + ": " + ta.name + ", " + b + ": " + tb.name + "}"
  {
    var names := FieldNames([(a, ta), (b, tb)]);
    assert names == [a + ": " + ta.name, b + ": " + tb.name];
    assert names[1..] == [b + ": " + tb.name];
    assert Join(names, ", ") == a + ": " + ta.name + ", " + (b + ": " + tb.name);
  }
}
