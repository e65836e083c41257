/**
 * The leaf types. All but `unknown` and `any` are a name and a `matches` predicate.
 */
module Base {
  import opened JsValues
  import opened InvalidValues
  import opened Matching
  import opened Types

  /** `unknown()`: accepts everything, unchanged. */
  function Unknown(): (t: Type)
    ensures t.name == "unknown"
    ensures forall v: Value :: t.transformValue(v) == Ok(v)
  {
    Type("unknown", (v: Value) => Ok(v))
  }

  /** `any()`: accepts everything without looking at it, and outputs null. */
  function Any(): (t: Type)
    ensures t.name == "any"
    ensures forall v: Value :: t.transformValue(v) == Ok(Null)
  {
    Type("any", (_: Value) => Ok(Null))
  }

  /** `string()` */
  function String(): (t: Type)
    ensures t.name == "string"
    ensures forall v: Value :: t.transformValue(v).Ok? <==> v.Str?
    ensures forall v: Value :: v.Str? ==> t.transformValue(v) == Ok(v)
    ensures forall v: Value :: !v.Str? ==> t.transformValue(v) == Invalid(NewFailure("failed: string", v))
  {
    Type("string", Matches("string", (v: Value) => v.TypeOf() == "string"))
  }

  /** `boolean()` */
  function Boolean(): (t: Type)
    ensures t.name == "boolean"
    ensures forall v: Value :: t.transformValue(v).Ok? <==> v.Bool?
    ensures forall v: Value :: v.Bool? ==> t.transformValue(v) == Ok(v)
    ensures forall v: Value :: !v.Bool? ==> t.transformValue(v) == Invalid(NewFailure("failed: boolean", v))
  {
    Type("boolean", Matches("boolean", (v: Value) => v.TypeOf() == "boolean"))
  }

  /** `number()` */
  function Number(): (t: Type)
    ensures t.name == "number"
    ensures forall v: Value :: t.transformValue(v).Ok? <==> v.Num?
    ensures forall v: Value :: v.Num? ==> t.transformValue(v) == Ok(v)
    ensures forall v: Value :: !v.Num? ==> t.transformValue(v) == Invalid(NewFailure("failed: number", v))
  {
    Type("number", Matches("number", (v: Value) => v.TypeOf() == "number"))
  }

  /** `literal(lit)`: strict equality, which on primitives is equality of values. The
      name is `JSON.stringify(lit)`, the message renders `lit` as a template literal. */
  function Literal(lit: Value): (t: Type)
    requires lit.IsPrimitive()
    ensures t.name == JsonText(lit)
    ensures forall v: Value :: t.transformValue(v).Ok? <==> v == lit
    ensures forall v: Value :: v == lit ==> t.transformValue(v) == Ok(v)
    ensures forall v: Value :: v != lit ==> t.transformValue(v) == Invalid(NewFailure("failed: literal '" + Text(lit) + "'", v))
  {
    Type(JsonText(lit), Matches("literal '" + Text(lit) + "'", (v: Value) => v == lit))
  }

  /** `nullValue()` is `literal(null)`. */
  function NullValue(): (t: Type)
    ensures t.name == Literal(Null).name
    ensures forall v: Value :: t.transformValue(v) == Literal(Null).transformValue(v)
  {
    Literal(Null)
  }

  /** `undefinedValue()` is `literal(undefined)`. */
  function UndefinedValue(): (t: Type)
    ensures t.name == Literal(Undefined).name
    ensures forall v: Value :: t.transformValue(v) == Literal(Undefined).transformValue(v)
  {
    Literal(Undefined)
  }

  /** `instanceOf(C)`, for the class named `className`. */
  function InstanceOf(className: string): (t: Type)
    ensures t.name == className
    ensures forall v: Value :: t.transformValue(v).Ok? <==> v.InstanceOf(className)
    ensures forall v: Value :: v.InstanceOf(className) ==> t.transformValue(v) == Ok(v)
    ensures forall v: Value :: !v.InstanceOf(className) ==> t.transformValue(v) == Invalid(NewFailure("failed: " + className, v))
  {
    Type(className, Matches(className, (v: Value) => v.InstanceOf(className)))
  }

  /** The string cases of the tests: every string, "null", "undefined" and the empty
      one included, is accepted unchanged ... */
  lemma StringAcceptsStrings()
    ensures String().ParseSafe(Str("foo")) == Ok(Str("foo"))
    ensures String().ParseSafe(Str("null")) == Ok(Str("null"))
  {
  }

  lemma StringAcceptsEdgeCases()
    ensures String().ParseSafe(Str("undefined")) == Ok(Str("undefined"))
    ensures String().ParseSafe(Str("")) == Ok(Str(""))
  {
  }

  /** ... and null and undefined are rejected ... */
  lemma StringRejectsNullish()
    ensures String().ParseSafe(Null).Invalid?
    ensures String().ParseSafe(Undefined).Invalid?
  {
  }

  /** ... and so is a number such as 123. */
  lemma {:induction false} StringRejectsNumbers(n: int)
    ensures String().ParseSafe(Num(n)) == Invalid(Failure("failed: string", Num(n), []))
  {
  }

  /** null, undefined and 0 are three different literals. */
  lemma LiteralExamples()
    ensures Literal(Null).ParseSafe(Null) == Ok(Null)
    ensures Literal(Undefined).ParseSafe(Undefined) == Ok(Undefined)
    ensures Literal(Num(0)).ParseSafe(Num(0)) == Ok(Num(0))
    ensures Literal(Null).ParseSafe(Undefined).Invalid? && Literal(Null).ParseSafe(Num(0)).Invalid?
    ensures Literal(Undefined).ParseSafe(Null).Invalid? && Literal(Undefined).ParseSafe(Num(0)).Invalid?
    ensures Literal(Num(0)).ParseSafe(Null).Invalid? && Literal(Num(0)).ParseSafe(Undefined).Invalid?
  {
  }

  /** The literal's message for `literal(0)` names the literal as written. */
  lemma LiteralMessage()
    ensures Literal(Num(0)).ParseSafe(Null) == Invalid(Failure("failed: literal '0'", Null, []))
    ensures Literal(Null).ParseSafe(Num(0)) == Invalid(Failure("failed: literal 'null'", Num(0), []))
  {
  }
}
