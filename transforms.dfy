/**
 * Type transforms for `pipe`: each keeps the name and the failures of the type it
 * wraps and, only on success, maps the output. Host string behaviour (case mapping,
 * regular-expression matching, date parsing) enters as parameters.
 */
module Transforms {
  import opened JsValues
  import opened InvalidValues
  import opened Types

  /** `transform(mapper)` */
  function Transform(mapper: Value -> Result<Value>): (step: Type -> Type)
    ensures forall t: Type :: step(t).name == t.name
    ensures forall t: Type, v: Value {:trigger step(t).transformValue(v)} ::
      !t.transformValue(v).Ok? ==> step(t).transformValue(v) == t.transformValue(v)
    ensures forall t: Type, v: Value {:trigger step(t).transformValue(v)} ::
      t.transformValue(v).Ok? ==> step(t).transformValue(v) == mapper(t.transformValue(v).value)
  {
    (t: Type) => Type(t.name, (v: Value) =>
      var valueT := t.transformValue(v);
      if valueT.Ok? then mapper(valueT.value) else valueT)
  }

  /** When the wrapped type fails, the mapper is not consulted: any two mappers give the
      same result. */
  lemma {:induction false} TransformSkipsMapperOnFailure(m1: Value -> Result<Value>, m2: Value -> Result<Value>, t: Type, v: Value)
    requires !t.transformValue(v).Ok?
    ensures Transform(m1)(t).transformValue(v) == Transform(m2)(t).transformValue(v) == t.transformValue(v)
  {
  }

  /** The mapper behind `validate(message, pred)`. */
  function Check(message: string, pred: Value -> bool): Value -> Result<Value>
  {
    (v: Value) => if pred(v) then Ok(v) else Invalid(NewFailure(message, v))
  }

  /** `validate(message, pred)`: a successful value passes unchanged when the predicate
      holds and otherwise fails with the message, that value and an empty path. */
  function Validate(message: string, pred: Value -> bool): (step: Type -> Type)
    ensures forall t: Type :: step(t).name == t.name
    ensures forall t: Type, v: Value {:trigger step(t).transformValue(v)} :: !t.transformValue(v).Ok? ==> step(t).transformValue(v) == t.transformValue(v)
    ensures forall t: Type, v: Value {:trigger step(t).transformValue(v)} :: t.transformValue(v).Ok? && pred(t.transformValue(v).value) ==>
      step(t).transformValue(v) == t.transformValue(v)
    ensures forall t: Type, v: Value {:trigger step(t).transformValue(v)} :: t.transformValue(v).Ok? && !pred(t.transformValue(v).value) ==>
      step(t).transformValue(v) == Invalid(NewFailure(message, t.transformValue(v).value))
  {
    Transform(Check(message, pred))
  }

  /** Validating twice is validating once, because a value that passes is unchanged. */
  lemma {:induction false} ValidateIdempotent(message: string, pred: Value -> bool, t: Type, v: Value)
    ensures Piped(t, [Validate(message, pred), Validate(message, pred)]).transformValue(v)
         == Piped(t, [Validate(message, pred)]).transformValue(v)
  {
    var step := Validate(message, pred);
    assert [step, step][..1] == [step];
    assert [step][..0] == [];
  }

  /** `toLowerCase()`, with the host's case mapping as `lower`. A non-string output
      makes the host throw. */
  function ToLowerCase(lower: string -> string): (step: Type -> Type)
    ensures forall t: Type, v: Value {:trigger step(t).transformValue(v)} :: t.transformValue(v).Ok? && t.transformValue(v).value.Str? ==>
      step(t).transformValue(v) == Ok(Str(lower(t.transformValue(v).value.s)))
  {
    Transform((v: Value) => if v.Str? then Ok(Str(lower(v.s))) else Thrown(TypeError))
  }

  /** `toUpperCase()`, with the host's case mapping as `upper`. */
  function ToUpperCase(upper: string -> string): (step: Type -> Type)
    ensures forall t: Type, v: Value {:trigger step(t).transformValue(v)} :: t.transformValue(v).Ok? && t.transformValue(v).value.Str? ==>
      step(t).transformValue(v) == Ok(Str(upper(t.transformValue(v).value.s)))
  {
    Transform((v: Value) => if v.Str? then Ok(Str(upper(v.s))) else Thrown(TypeError))
  }

  /** `toString()`: `String(value)` of the output. */
  function ToString(): (step: Type -> Type)
    ensures forall t: Type, v: Value {:trigger step(t).transformValue(v)} :: t.transformValue(v).Ok? ==>
      step(t).transformValue(v) == Ok(Str(Text(t.transformValue(v).value)))
  {
    Transform((v: Value) => Ok(Str(Text(v))))
  }

  /** `toDate()`, with `new Date(value)` as `parseDate`; `None` stands for a date whose
      day is NaN. The failure carries the input, not the parsed date. */
  function ToDate(parseDate: Value -> Option<Value>): (step: Type -> Type)
    ensures forall t: Type, v: Value {:trigger step(t).transformValue(v)} :: t.transformValue(v).Ok? && parseDate(t.transformValue(v).value).None? ==>
      step(t).transformValue(v) == Invalid(NewFailure("invalid date", t.transformValue(v).value))
    ensures forall t: Type, v: Value {:trigger step(t).transformValue(v)} :: t.transformValue(v).Ok? && parseDate(t.transformValue(v).value).Some? ==>
      step(t).transformValue(v) == Ok(parseDate(t.transformValue(v).value).value)
  {
    Transform((v: Value) => match parseDate(v)
                   case None => Invalid(NewFailure("invalid date", v))
                   case Some(date) => Ok(date))
  }

  /** `isAtLeast(minValue)` on a number output: accepted iff `n >= minValue`. */
  function IsAtLeast(minValue: int): (step: Type -> Type)
    ensures forall t: Type, v: Value {:trigger step(t).transformValue(v)} :: t.transformValue(v).Ok? && t.transformValue(v).value.Num? ==>
      (step(t).transformValue(v) == if t.transformValue(v).value.n >= minValue then t.transformValue(v)
                                    else Invalid(NewFailure("value >= " + IntToString(minValue), t.transformValue(v).value)))
  {
    Validate("value >= " + IntToString(minValue), (v: Value) => v.Num? && v.n >= minValue)
  }

  /** `isAtMost(maxValue)` on a number output: accepted iff `n <= maxValue`. */
  function IsAtMost(maxValue: int): (step: Type -> Type)
    ensures forall t: Type, v: Value {:trigger step(t).transformValue(v)} :: t.transformValue(v).Ok? && t.transformValue(v).value.Num? ==>
      (step(t).transformValue(v) == if t.transformValue(v).value.n <= maxValue then t.transformValue(v)
                                    else Invalid(NewFailure("value <= " + IntToString(maxValue), t.transformValue(v).value)))
  {
    Validate("value <= " + IntToString(maxValue), (v: Value) => v.Num? && v.n <= maxValue)
  }

  /** A regular expression: its source text and the host's `test`. */
  datatype RegExp = RegExp(source: string, test: string -> bool)

  /** `regex(r)`: `r.test(value)`, which sees the value converted to a string. */
  function Regex(r: RegExp): (step: Type -> Type)
    ensures forall t: Type, v: Value {:trigger step(t).transformValue(v)} :: t.transformValue(v).Ok? && !r.test(Text(t.transformValue(v).value)) ==>
      step(t).transformValue(v) == Invalid(NewFailure("matches " + r.source, t.transformValue(v).value))
    ensures forall t: Type, v: Value {:trigger step(t).transformValue(v)} :: t.transformValue(v).Ok? && r.test(Text(t.transformValue(v).value)) ==>
      step(t).transformValue(v) == t.transformValue(v)
  {
    Validate("matches " + r.source, (v: Value) => r.test(Text(v)))
  }
}
