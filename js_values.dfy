/**
 * The dynamically typed values the library validates, and the handful of host
 * (JavaScript) operations on them that the library relies on: `typeof`, loose
 * `== null`, `Array.isArray`, property lookup, `Object.entries`,
 * `Object.fromEntries`, `Array.prototype.join`, number-to-string and `String(value)`.
 */
module JsValues {

  /** A value as produced by a deserializer such as `JSON.parse`, plus class instances.
      Numbers are integers; a plain object is an ordered association list whose order
      is its enumeration order. */
  datatype Value =
    | Str(s: string)
    | Num(n: int)
    | Bool(b: bool)
    | Null
    | Undefined
    | Arr(elems: seq<Value>)
    /** An object whose `constructor` is `Object`. */
    | PlainObject(fields: seq<(string, Value)>)
    /** Any other object: `classes` is its prototype chain (nearest class first),
        `props` its own enumerable properties. */
    | Instance(classes: seq<string>, props: seq<(string, Value)>)
  {
    predicate IsPrimitive() { Str? || Num? || Bool? || Null? || Undefined? }

    /** `value == null`: loose equality holds for null and undefined only. */
    predicate IsNullish() { Null? || Undefined? }

    /** `value.constructor === Object`: a plain object, unless an own `constructor`
        property shadows the inherited one (no value here can be the function `Object`). */
    predicate HasObjectConstructor() {
      PlainObject? && forall i :: 0 <= i < |fields| ==> fields[i].0 != "constructor"
    }

    /** `Array.isArray(value)` */
    predicate IsArray() { Arr? }

    /** `typeof value` */
    function TypeOf(): (t: string)
      ensures t == "object" <==> Null? || Arr? || PlainObject? || Instance?
    {
      match this
      case Str(_) => "string"
      case Num(_) => "number"
      case Bool(_) => "boolean"
      case Undefined => "undefined"
      case _ => "object"
    }

    /** `typeof value === 'object'`, which holds for null as well. */
    predicate TypeOfIsObject()
      ensures TypeOfIsObject() <==> TypeOf() == "object"
    {
      Null? || Arr? || PlainObject? || Instance?
    }

    /** `value instanceof C`, with classes identified by their names. */
    predicate InstanceOf(className: string) {
      match this
      case Arr(_) => className in ["Array", "Object"]
      case PlainObject(_) => className == "Object"
      case Instance(classes, _) => className in classes
      case _ => false
    }
  }

  /** `obj[key]` on a plain object: the first field named `key`, or undefined. */
  function Get(fields: seq<(string, Value)>, key: string): (v: Value)
    ensures v != Undefined ==> exists i :: 0 <= i < |fields| && fields[i] == (key, v)
    ensures (forall i :: 0 <= i < |fields| ==> fields[i].0 != key) ==> v == Undefined
  {
    if fields == [] then Undefined
    else if fields[0].0 == key then fields[0].1
    else Get(fields[1..], key)
  }

  predicate DistinctKeys(fields: seq<(string, Value)>) {
    forall i, j :: 0 <= i < j < |fields| ==> fields[i].0 != fields[j].0
  }

  /** The digit character of `d`. */
  function Digit(d: nat): char
    requires d < 10
  {
    ('0' as int + d) as char
  }

  /** `n.toString()` for a natural number: its decimal digits. */
  function NatToString(n: nat): (s: string)
    ensures |s| >= 1
    ensures forall i :: 0 <= i < |s| ==> '0' <= s[i] <= '9'
  {
    if n < 10 then [Digit(n)] else NatToString(n / 10) + [Digit(n % 10)]
  }

  /** `n.toString()` for an integer. */
  function IntToString(n: int): string {
    if n < 0 then "-" + NatToString(-n) else NatToString(n)
  }

  /** Distinct indices get distinct decimal labels. */
  lemma {:induction false} NatToStringInjective(a: nat, b: nat)
    requires NatToString(a) == NatToString(b)
    ensures a == b
  {
    var sa, sb := NatToString(a), NatToString(b);
    if a >= 10 && b >= 10 {
      var qa, ra, qb, rb := a / 10, a % 10, b / 10, b % 10;
      assert sa == NatToString(qa) + [Digit(ra)];
      assert sb == NatToString(qb) + [Digit(rb)];
      assert NatToString(qa) == sa[..|sa| - 1] == sb[..|sb| - 1] == NatToString(qb);
      NatToStringInjective(qa, qb);
      assert Digit(ra) == sa[|sa| - 1] == sb[|sb| - 1] == Digit(rb);
      assert a == 10 * qa + ra && b == 10 * qb + rb;
    }
  }

  /** `parts.join(sep)` */
  function Join(parts: seq<string>, sep: string): string
  {
    if |parts| == 0 then ""
    else if |parts| == 1 then parts[0]
    else parts[0] + sep + Join(parts[1..], sep)
  }

  /** `String(value)`, which is also what a template literal `${value}` produces.
      Class instances are rendered by the default `Object.prototype.toString`. */
  function Text(v: Value): string
  {
    match v
    case Str(s) => s
    case Num(n) => IntToString(n)
    case Bool(b) => if b then "true" else "false"
    case Null => "null"
    case Undefined => "undefined"
    case Arr(xs) => Join(seq(|xs|, i requires 0 <= i < |xs| => if xs[i].IsNullish() then "" else Text(xs[i])), ",")
    case PlainObject(_) => "[object Object]"
    case Instance(_, _) => "[object Object]"
  }

  /** `JSON.stringify(value)` for a primitive (without escaping), and "undefined" for
      undefined, for which the host returns the undefined value rather than a string. */
  function JsonText(v: Value): string
    requires v.IsPrimitive()
  {
    if v.Str? then "\"" + v.s + "\"" else Text(v)
  }

  /** The entries of an array-like sequence, keyed by decimal index. */
  function IndexedEntries(xs: seq<Value>): (es: seq<(string, Value)>)
    ensures |es| == |xs|
    ensures forall i :: 0 <= i < |xs| ==> es[i] == (NatToString(i), xs[i])
  {
    seq(|xs|, i requires 0 <= i < |xs| => (NatToString(i), xs[i]))
  }

  /** Index keys never repeat, since distinct indices have distinct decimal texts. */
  lemma {:induction false} IndexedKeysDistinct(xs: seq<Value>)
    ensures DistinctKeys(IndexedEntries(xs))
  {
    var es := IndexedEntries(xs);
    forall i, j | 0 <= i < j < |es|
      ensures es[i].0 != es[j].0
    {
      if es[i].0 == es[j].0 {
        NatToStringInjective(i, j);
      }
    }
  }

  datatype Option<+T> = None | Some(value: T)

  /** `Object.entries(value)`; `None` where the host throws a TypeError (null and undefined). */
  function Entries(v: Value): (es: Option<seq<(string, Value)>>)
    ensures es.None? <==> v.IsNullish()
  {
    match v
    case Null => None
    case Undefined => None
    case Str(s) => Some(IndexedEntries(seq(|s|, i requires 0 <= i < |s| => Str([s[i]]))))
    case Num(_) => Some([])
    case Bool(_) => Some([])
    case Arr(xs) => Some(IndexedEntries(xs))
    case PlainObject(fields) => Some(fields)
    case Instance(_, props) => Some(props)
  }

  /** `obj[key] = value` on a plain object: overwrite the field in place, or append it. */
  function SetField(fields: seq<(string, Value)>, key: string, value: Value): (r: seq<(string, Value)>)
    ensures (forall i :: 0 <= i < |fields| ==> fields[i].0 != key) ==> r == fields + [(key, value)]
  {
    if fields == [] then [(key, value)]
    else if fields[0].0 == key then [(key, value)] + fields[1..]
    else [fields[0]] + SetField(fields[1..], key, value)
  }

  /** `Object.fromEntries(pairs)`: each key is converted with `String(key)` and assigned in order. */
  function FromEntries(pairs: seq<(Value, Value)>): seq<(string, Value)>
  {
    if pairs == [] then []
    else
      var last := pairs[|pairs| - 1];
      SetField(FromEntries(pairs[..|pairs| - 1]), Text(last.0), last.1)
  }

  /** With string keys whose texts are distinct, `Object.fromEntries` keeps every
      pair, in order. */
  lemma {:induction false} FromEntriesDistinct(pairs: seq<(Value, Value)>)
    requires forall i, j :: 0 <= i < j < |pairs| ==> Text(pairs[i].0) != Text(pairs[j].0)
    ensures FromEntries(pairs) == seq(|pairs|, i requires 0 <= i < |pairs| => (Text(pairs[i].0), pairs[i].1))
  {
    if pairs != [] {
      var n := |pairs| - 1;
      FromEntriesDistinct(pairs[..n]);
      var expected := seq(|pairs|, i requires 0 <= i < |pairs| => (Text(pairs[i].0), pairs[i].1));
      assert FromEntries(pairs[..n]) == expected[..n];
      assert FromEntries(pairs) == expected[..n] + [expected[n]];
      assert expected[..n] + [expected[n]] == expected;
    }
  }
}
