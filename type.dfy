/**
 * `Type`: a diagnostic name and a transform from an input value to an
 * output value or a failure; pipelines of type transforms; and the modifiers
 * `optional`, `nullable` and `defer`.
 */
module Types {
  import opened JsValues
  import opened InvalidValues

  /** `Type<T, Source>`: the static output and source types are not modelled; every
      value is a `Value`. */
  datatype Type = Type(name: string, transformValue: Value -> Result<Value>)
  {
    /** `parseSafe(value)` is `transformValue(value)`. */
    function ParseSafe(value: Value): Result<Value>
    {
      transformValue(value)
    }

    /** `parse(value)`: the raising entry point. A failure becomes a thrown `Error`
        whose message is the failure's rendering; it otherwise behaves as `parseSafe`. */
    function Parse(value: Value): (r: Result<Value>)
      ensures !r.Invalid?
      ensures !ParseSafe(value).Invalid? ==> r == ParseSafe(value)
      ensures ParseSafe(value).Invalid? ==> r == Thrown(Error(ParseSafe(value).failure.ToString()))
    {
      var res := ParseSafe(value);
      if res.IsInvalidValue() then Thrown(Error(res.failure.ToString())) else res
    }

    /** `parseOrNull(value)`: a failure becomes null. Because a successful null is also
        null, null alone does not tell the two apart. */
    function ParseOrNull(value: Value): (r: Result<Value>)
      ensures !r.Invalid?
      ensures r == Ok(Null) <==> ParseSafe(value).Invalid? || ParseSafe(value) == Ok(Null)
      ensures !ParseSafe(value).Invalid? ==> r == ParseSafe(value)
    {
      var res := ParseSafe(value);
      if res.IsInvalidValue() then Ok(Null) else res
    }

    /** `pipe(...transforms)`: the loop that applies the type transforms in order. */
    method Pipe(transforms: seq<Type -> Type>) returns (result: Type)
      ensures result == Piped(this, transforms)
    {
      result := this;
      for i := 0 to |transforms|
        invariant result == Piped(this, transforms[..i])
      {
        assert transforms[..i + 1][..i] == transforms[..i];
        result := transforms[i](result);
      }
      assert transforms[..|transforms|] == transforms;
    }
  }

  /** The type `pipe` produces: each transform applied to the result of those before it. */
  function Piped(t: Type, transforms: seq<Type -> Type>): Type
  {
    if transforms == [] then t
    else transforms[|transforms| - 1](Piped(t, transforms[..|transforms| - 1]))
  }

  /** Piping in two stages is piping once: `t.pipe(a...).pipe(b...) == t.pipe(a..., b...)`. */
  lemma {:induction false} PipedAppend(t: Type, a: seq<Type -> Type>, b: seq<Type -> Type>)
    ensures Piped(t, a + b) == Piped(Piped(t, a), b)
    decreases |b|
  {
    if b == [] {
      assert a + b == a;
    } else {
      var n := |b| - 1;
      PipedAppend(t, a, b[..n]);
      assert (a + b)[..|a + b| - 1] == a + b[..n];
    }
  }

  /** The first transform is applied first: `t.pipe(f, rest...) == f(t).pipe(rest...)`,
      and a pipe without transforms is the type itself. */
  lemma {:induction false} PipedLeftToRight(t: Type, f: Type -> Type, rest: seq<Type -> Type>)
    ensures Piped(t, []) == t
    ensures Piped(t, [f] + rest) == Piped(f(t), rest)
  {
    PipedAppend(t, [f], rest);
  }

  /** `t.pipe(t1, t2, t3)` is `t3(t2(t1(t)))`. */
  lemma {:induction false} PipedThree(t: Type, t1: Type -> Type, t2: Type -> Type, t3: Type -> Type)
    ensures Piped(t, [t1, t2, t3]) == t3(t2(t1(t)))
  {
    assert [t1, t2, t3] == [t1] + [t2, t3] && [t2, t3] == [t2] + [t3] && [t3] == [t3] + [];
    PipedLeftToRight(t, t1, [t2, t3]);
    PipedLeftToRight(t1(t), t2, [t3]);
    PipedLeftToRight(t2(t1(t)), t3, []);
  }

  /** `optional(type)`: null and undefined are returned unchanged, everything else is
      delegated. */
  function Optional(t: Type): (o: Type)
    ensures o.name == t.name + " | undefined | null"
    ensures forall v: Value :: v.IsNullish() ==> o.transformValue(v) == Ok(v)
    ensures forall v: Value :: !v.IsNullish() ==> o.transformValue(v) == t.transformValue(v)
  {
    Type(t.name + " | undefined | null", (v: Value) => if v.IsNullish() then Ok(v) else t.transformValue(v))
  }

  /** `nullable(type)`: null and undefined both become null, everything else is delegated. */
  function Nullable(t: Type): (n: Type)
    ensures n.name == t.name + " | null"
    ensures forall v: Value :: v.IsNullish() ==> n.transformValue(v) == Ok(Null)
    ensures forall v: Value :: !v.IsNullish() ==> n.transformValue(v) == t.transformValue(v)
  {
    Type(t.name + " | null", (v: Value) => if v.IsNullish() then Ok(Null) else t.transformValue(v))
  }

  /** `nullable` and `optional` differ only on undefined, which `nullable` maps to null. */
  lemma {:induction false} NullableVersusOptional(t: Type, v: Value)
    ensures v != Undefined <==> Nullable(t).transformValue(v) == Optional(t).transformValue(v)
  {
  }

  /** Wrapping twice changes the name but not the behaviour. */
  lemma {:induction false} ModifiersIdempotent(t: Type, v: Value)
    ensures Optional(Optional(t)).transformValue(v) == Optional(t).transformValue(v)
    ensures Nullable(Nullable(t)).transformValue(v) == Nullable(t).transformValue(v)
  {
  }

  /** `defer(name, typeConstructor)` as seen from outside: it is named `defer<name>` and
      behaves as the constructed type. The one-time construction is `Deferred`. */
  function Defer(name: string, typeConstructor: () -> Type): (d: Type)
    ensures d.name == "defer<" + name + ">"
    ensures forall v: Value :: d.transformValue(v) == typeConstructor().transformValue(v)
  {
    Type("defer<" + name + ">", (v: Value) => typeConstructor().transformValue(v))
  }

  /** The closure state of `defer`: the `cachedType` variable, set on first use. The ghost
      counter records how often the constructor has run. */
  class Deferred {
    const name: string
    const typeConstructor: () -> Type
    var cachedType: Option<Type>
    ghost var constructorCalls: nat

    ghost predicate Valid()
      reads this
    {
      && constructorCalls <= 1
      && (cachedType.Some? <==> constructorCalls == 1)
      && (cachedType.Some? ==> cachedType.value == typeConstructor())
    }

    constructor (name: string, typeConstructor: () -> Type)
      ensures Valid()
      ensures this.name == name && this.typeConstructor == typeConstructor
      ensures cachedType == None && constructorCalls == 0
    {
      this.name := name;
      this.typeConstructor := typeConstructor;
      cachedType := None;
      constructorCalls := 0;
    }

    /** The inner `type()`: construct on first use, afterwards return the cached type. */
    method Resolve() returns (t: Type)
      requires Valid()
      modifies this
      ensures Valid()
      ensures t == typeConstructor() && cachedType == Some(t)
      ensures constructorCalls == 1
      ensures old(cachedType).Some? ==> cachedType == old(cachedType)
    {
      if cachedType.None? {
        cachedType := Some(typeConstructor());
        constructorCalls := constructorCalls + 1;
      }
      t := cachedType.value;
    }

    /** The deferred type's `transformValue`: forward to the resolved type. */
    method TransformValue(value: Value) returns (r: Result<Value>)
      requires Valid()
      modifies this
      ensures Valid() && constructorCalls == 1
      ensures r == Defer(name, typeConstructor).transformValue(value)
    {
      var t := Resolve();
      r := t.transformValue(value);
    }
  }

  /** However many values are validated, the constructor runs once. */
  method ValidateTwice(d: Deferred, v1: Value, v2: Value) returns (r1: Result<Value>, r2: Result<Value>)
    requires d.Valid()
    modifies d
    ensures d.Valid() && d.constructorCalls == 1
    ensures r1 == d.typeConstructor().transformValue(v1)
    ensures r2 == d.typeConstructor().transformValue(v2)
  {
    r1 := d.TransformValue(v1);
    r2 := d.TransformValue(v2);
  }
}
