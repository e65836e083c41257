/**
 * `record(keyType, valueType)`: a `typeof 'object'` check piped into a transform that
 * checks every entry, its key before its value, and rebuilds the object from the
 * transformed pairs.
 */
module Records {
  import opened JsValues
  import opened InvalidValues
  import opened Matching
  import opened Types
  import opened Transforms
  import opened Traversal
  import opened Base

  /** The path component of a failing key. */
  function KeyComponent(key: string): string
  {
    "key(" + key + ")"
  }

  /** The check of an entry's key, labelled `key(k)`. */
  function KeyChild(keyType: Type, entry: (string, Value)): Child
  {
    Child(KeyComponent(entry.0), keyType, Str(entry.0))
  }

  /** The check of an entry's value, labelled with its key. */
  function ValueChild(valueType: Type, entry: (string, Value)): Child
  {
    Child(entry.0, valueType, entry.1)
  }

  /** The checks of the entry loop in order: each entry's key, then its value. */
  function EntryChildren(keyType: Type, valueType: Type, entries: seq<(string, Value)>): (cs: seq<Child>)
    ensures |cs| == 2 * |entries|
    ensures forall j :: 0 <= j < |entries| ==>
      cs[2 * j] == KeyChild(keyType, entries[j]) && cs[2 * j + 1] == ValueChild(valueType, entries[j])
    decreases |entries|
  {
    if entries == [] then []
    else
      var n := |entries| - 1;
      var before := EntryChildren(keyType, valueType, entries[..n]);
      assert forall j :: 0 <= j < n ==> entries[..n][j] == entries[j];
      before + [KeyChild(keyType, entries[n]), ValueChild(valueType, entries[n])]
  }

  /** The loop's outputs, key and value alternating, as `[key, value]` pairs. */
  function Pairs(outputs: seq<Value>): (pairs: seq<(Value, Value)>)
    requires |outputs| % 2 == 0
    ensures 2 * |pairs| == |outputs|
    ensures forall j :: 0 <= j < |pairs| ==> pairs[j] == (outputs[2 * j], outputs[2 * j + 1])
    decreases |outputs|
  {
    if outputs == [] then []
    else
      var n := |outputs| - 2;
      Pairs(outputs[..n]) + [(outputs[n], outputs[n + 1])]
  }

  /** The mapper of the `every` step. `Object.entries` throws a TypeError on null, which
      the `typeof` check lets through. */
  function EntriesOutcome(keyType: Type, valueType: Type, v: Value): Result<Value>
  {
    match Entries(v)
    case None => Thrown(TypeError)
    case Some(entries) => EntryLoop(keyType, valueType, entries)
  }

  /** The loop over the entries: the object rebuilt from the transformed pairs, or the
      first failing check's result. */
  function EntryLoop(keyType: Type, valueType: Type, entries: seq<(string, Value)>): Result<Value>
  {
    var r := Visit(EntryChildren(keyType, valueType, entries));
    if r.Ok? then Ok(PlainObject(FromEntries(Pairs(r.value)))) else r.Propagate<Value>()
  }

  function EveryEntry(keyType: Type, valueType: Type): Value -> Result<Value>
  {
    (v: Value) => EntriesOutcome(keyType, valueType, v)
  }

  /** `record(keyType, valueType)` */
  function Record(keyType: Type, valueType: Type): Type
  {
    Piped(RecordBase(keyType, valueType), [Transform(EveryEntry(keyType, valueType))])
  }

  /** The base type of the pipeline: the `typeof` check. */
  function RecordBase(keyType: Type, valueType: Type): Type
  {
    Type("{ [key: " + keyType.name + "]: " + valueType.name + " }",
         Matches("record", (t: Value) => t.TypeOfIsObject()))
  }

  /** The pipeline is the `typeof` check followed by the `every` step. */
  lemma {:induction false} RecordIsPipeline(keyType: Type, valueType: Type)
    ensures Record(keyType, valueType) == Transform(EveryEntry(keyType, valueType))(RecordBase(keyType, valueType))
  {
    var steps := [Transform(EveryEntry(keyType, valueType))];
    assert steps[..0] == [];
    assert Record(keyType, valueType) == steps[0](Piped(RecordBase(keyType, valueType), []));
  }

  /** The `every` step runs on whatever passes the `typeof` check. */
  lemma {:induction false} RecordUnfolds(keyType: Type, valueType: Type, v: Value)
    requires v.TypeOfIsObject()
    ensures Record(keyType, valueType).transformValue(v) == EntriesOutcome(keyType, valueType, v)
  {
    RecordIsPipeline(keyType, valueType);
  }

  /** On a plain object the result is the entry loop over its fields. */
  lemma {:induction false} RecordOnPlainObject(keyType: Type, valueType: Type, fields: seq<(string, Value)>)
    ensures Record(keyType, valueType).transformValue(PlainObject(fields)) == EntryLoop(keyType, valueType, fields)
  {
    RecordUnfolds(keyType, valueType, PlainObject(fields));
  }

  /** One pass of the entry loop over entry `idx` after the earlier ones have passed:
      a failing key ends the step with its failure labelled `key(k)`. */
  lemma {:induction false} KeyFails(keyType: Type, valueType: Type, entries: seq<(string, Value)>, idx: nat, outputs: seq<Value>)
    requires idx < |entries|
    requires Visit(EntryChildren(keyType, valueType, entries)[..2 * idx]) == Ok(outputs)
    requires !keyType.transformValue(Str(entries[idx].0)).Ok?
    ensures EntryLoop(keyType, valueType, entries)
         == keyType.transformValue(Str(entries[idx].0)).WithPathComponent(KeyComponent(entries[idx].0))
  {
    var children := EntryChildren(keyType, valueType, entries);
    assert children[2 * idx] == KeyChild(keyType, entries[idx]);
    assert children[..2 * idx + 1][..2 * idx] == children[..2 * idx];
    VisitPrefixFinal(children, 2 * idx + 1);
  }

  /** A passing key and a failing value end the step with the value's failure
      labelled with the key. */
  lemma {:induction false} ValueFails(keyType: Type, valueType: Type, entries: seq<(string, Value)>, idx: nat, outputs: seq<Value>)
    requires idx < |entries|
    requires Visit(EntryChildren(keyType, valueType, entries)[..2 * idx]) == Ok(outputs)
    requires keyType.transformValue(Str(entries[idx].0)).Ok?
    requires !valueType.transformValue(entries[idx].1).Ok?
    ensures EntryLoop(keyType, valueType, entries)
         == valueType.transformValue(entries[idx].1).WithPathComponent(entries[idx].0)
  {
    var children := EntryChildren(keyType, valueType, entries);
    assert children[2 * idx] == KeyChild(keyType, entries[idx]);
    assert children[2 * idx + 1] == ValueChild(valueType, entries[idx]);
    assert children[..2 * idx + 1][..2 * idx] == children[..2 * idx];
    assert children[..2 * idx + 2][..2 * idx + 1] == children[..2 * idx + 1];
    VisitPrefixFinal(children, 2 * idx + 2);
  }

  /** A passing key and value extend the outputs by both, and the pairs by one. */
  lemma {:induction false} EntryPassesStep(keyType: Type, valueType: Type, entries: seq<(string, Value)>, idx: nat, outputs: seq<Value>)
    requires idx < |entries| && |outputs| == 2 * idx
    requires Visit(EntryChildren(keyType, valueType, entries)[..2 * idx]) == Ok(outputs)
    requires keyType.transformValue(Str(entries[idx].0)).Ok?
    requires valueType.transformValue(entries[idx].1).Ok?
    ensures Visit(EntryChildren(keyType, valueType, entries)[..2 * idx + 2])
         == Ok(outputs + [keyType.transformValue(Str(entries[idx].0)).value, valueType.transformValue(entries[idx].1).value])
    ensures Pairs(outputs + [keyType.transformValue(Str(entries[idx].0)).value, valueType.transformValue(entries[idx].1).value])
         == Pairs(outputs) + [(keyType.transformValue(Str(entries[idx].0)).value, valueType.transformValue(entries[idx].1).value)]
  {
    var children := EntryChildren(keyType, valueType, entries);
    var k, v := keyType.transformValue(Str(entries[idx].0)).value, valueType.transformValue(entries[idx].1).value;
    assert children[2 * idx] == KeyChild(keyType, entries[idx]);
    assert children[2 * idx + 1] == ValueChild(valueType, entries[idx]);
    assert children[..2 * idx + 1][..2 * idx] == children[..2 * idx];
    assert children[..2 * idx + 2][..2 * idx + 1] == children[..2 * idx + 1];
    assert Visit(children[..2 * idx + 1]) == Ok(outputs + [k]);
    assert outputs + [k] + [v] == outputs + [k, v];
    assert (outputs + [k, v])[..2 * idx] == outputs;
  }

  /** After the last entry the outputs are complete and the object is rebuilt from them. */
  lemma {:induction false} EntriesPass(keyType: Type, valueType: Type, entries: seq<(string, Value)>, outputs: seq<Value>)
    requires |outputs| == 2 * |entries|
    requires Visit(EntryChildren(keyType, valueType, entries)[..2 * |entries|]) == Ok(outputs)
    ensures EntryLoop(keyType, valueType, entries) == Ok(PlainObject(FromEntries(Pairs(outputs))))
  {
    assert EntryChildren(keyType, valueType, entries)[..2 * |entries|] == EntryChildren(keyType, valueType, entries);
  }

  /** The mapper of the `every` step: `Object.entries`, then the entry loop. */
  method TransformEntries(keyType: Type, valueType: Type, value: Value) returns (r: Result<Value>)
    ensures r == EntriesOutcome(keyType, valueType, value)
  {
    var found := Entries(value);
    if found.None? {
      return Thrown(TypeError);
    }
    r := CheckEntries(keyType, valueType, found.value);
  }

  /** The loop over the entries: parse the key, then the value, and return at the
      first failure; each passing pair goes into the preallocated `result` array, from
      which the object is rebuilt. */
  method CheckEntries(keyType: Type, valueType: Type, entries: seq<(string, Value)>) returns (r: Result<Value>)
    ensures r == EntryLoop(keyType, valueType, entries)
  {
    ghost var outputs: seq<Value> := [];
    ghost var pairs: seq<(Value, Value)> := [];
    var result := new (Value, Value)[|entries|](_ => (Undefined, Undefined));
    for idx := 0 to |entries|
      invariant |outputs| == 2 * idx && |pairs| == idx
      invariant Visit(EntryChildren(keyType, valueType, entries)[..2 * idx]) == Ok(outputs)
      invariant pairs == Pairs(outputs)
      invariant result[..idx] == pairs
    {
      var key, v := entries[idx].0, entries[idx].1;
      var keyTransformed := keyType.ParseSafe(Str(key));
      if !keyTransformed.Ok? {
        KeyFails(keyType, valueType, entries, idx, outputs);
        return keyTransformed.WithPathComponent(KeyComponent(key));
      }
      var valueTransformed := valueType.ParseSafe(v);
      if !valueTransformed.Ok? {
        ValueFails(keyType, valueType, entries, idx, outputs);
        return valueTransformed.WithPathComponent(key);
      }
      EntryPassesStep(keyType, valueType, entries, idx, outputs);
      var pair := (keyTransformed.value, valueTransformed.value);
      result[idx] := pair;
      assert result[..idx + 1] == pairs + [pair];
      outputs := outputs + [pair.0, pair.1];
      pairs := pairs + [pair];
    }
    EntriesPass(keyType, valueType, entries, outputs);
    assert result[..] == result[..|entries|];
    return Ok(PlainObject(FromEntries(result[..])));
  }

  /** The name shows the key and value types. */
  lemma {:induction false} RecordName(keyType: Type, valueType: Type)
    ensures Record(keyType, valueType).name == "{ [key: " + keyType.name + "]: " + valueType.name + " }"
  {
    RecordIsPipeline(keyType, valueType);
  }

  /** A value whose `typeof` is not `object` (undefined or a primitive) fails with
      `failed: record`. */
  lemma {:induction false} RecordRejects(keyType: Type, valueType: Type, v: Value)
    requires !v.TypeOfIsObject()
    ensures Record(keyType, valueType).transformValue(v) == Invalid(Failure("failed: record", v, []))
  {
    RecordIsPipeline(keyType, valueType);
  }

  /** Null passes the `typeof` check and makes `Object.entries` throw a TypeError. */
  lemma {:induction false} RecordOnNull(keyType: Type, valueType: Type)
    ensures Record(keyType, valueType).transformValue(Null) == Thrown(TypeError)
  {
    RecordUnfolds(keyType, valueType, Null);
  }

  /** Both checks of an entry pass (the key given as a string). */
  predicate EntryPasses(keyType: Type, valueType: Type, entry: (string, Value))
  {
    keyType.transformValue(Str(entry.0)).Ok? && valueType.transformValue(entry.1).Ok?
  }

  /** The transformed key and value of a passing entry. */
  function EntryOutput(keyType: Type, valueType: Type, entry: (string, Value)): (Value, Value)
    requires EntryPasses(keyType, valueType, entry)
  {
    (keyType.transformValue(Str(entry.0)).value, valueType.transformValue(entry.1).value)
  }

  /** The entry outputs, as `Object.fromEntries` receives them. */
  function EntryOutputs(keyType: Type, valueType: Type, fields: seq<(string, Value)>): (pairs: seq<(Value, Value)>)
    requires forall j :: 0 <= j < |fields| ==> EntryPasses(keyType, valueType, fields[j])
    ensures |pairs| == |fields|
    ensures forall j :: 0 <= j < |fields| ==> pairs[j] == EntryOutput(keyType, valueType, fields[j])
    decreases |fields|
  {
    if fields == [] then []
    else
      assert forall j :: 0 <= j < |fields| - 1 ==> fields[1..][j] == fields[j + 1];
      [EntryOutput(keyType, valueType, fields[0])] + EntryOutputs(keyType, valueType, fields[1..])
  }

  /** When the first `j` entries pass, so do the first `2 j` checks. */
  lemma {:induction false} PrefixPasses(keyType: Type, valueType: Type, fields: seq<(string, Value)>, j: nat)
    requires j <= |fields|
    requires forall i :: 0 <= i < j ==> EntryPasses(keyType, valueType, fields[i])
    ensures forall i :: 0 <= i < 2 * j ==> EntryChildren(keyType, valueType, fields)[i].Outcome().Ok?
  {
    var children := EntryChildren(keyType, valueType, fields);
    forall i | 0 <= i < 2 * j
      ensures children[i].Outcome().Ok?
    {
      var k := i / 2;
      assert k < j;
      if i % 2 == 0 {
        assert i == 2 * k;
        assert children[i] == KeyChild(keyType, fields[k]);
      } else {
        assert i == 2 * k + 1;
        assert children[i] == ValueChild(valueType, fields[k]);
      }
    }
  }

  /** Every entry passes exactly when every check of the loop does. */
  lemma {:induction false} AllEntriesPass(keyType: Type, valueType: Type, fields: seq<(string, Value)>)
    ensures (forall j :: 0 <= j < |fields| ==> EntryPasses(keyType, valueType, fields[j])) <==>
      (forall i :: 0 <= i < |EntryChildren(keyType, valueType, fields)| ==> EntryChildren(keyType, valueType, fields)[i].Outcome().Ok?)
  {
    var children := EntryChildren(keyType, valueType, fields);
    if forall j :: 0 <= j < |fields| ==> EntryPasses(keyType, valueType, fields[j]) {
      PrefixPasses(keyType, valueType, fields, |fields|);
    } else {
      var j :| 0 <= j < |fields| && !EntryPasses(keyType, valueType, fields[j]);
      EntryFails(keyType, valueType, fields, j);
    }
  }

  /** A failing entry has a failing check. */
  lemma {:induction false} EntryFails(keyType: Type, valueType: Type, fields: seq<(string, Value)>, j: nat)
    requires j < |fields| && !EntryPasses(keyType, valueType, fields[j])
    ensures exists i :: 0 <= i < |EntryChildren(keyType, valueType, fields)| && !EntryChildren(keyType, valueType, fields)[i].Outcome().Ok?
  {
    var children := EntryChildren(keyType, valueType, fields);
    assert children[2 * j] == KeyChild(keyType, fields[j]);
    assert children[2 * j + 1] == ValueChild(valueType, fields[j]);
    var i := if keyType.transformValue(Str(fields[j].0)).Ok? then 2 * j + 1 else 2 * j;
    assert 0 <= i < |children| && !children[i].Outcome().Ok?;
  }

  /** When every entry passes, the loop's pairs are the entries' transformed keys and values. */
  lemma {:induction false} LoopPairs(keyType: Type, valueType: Type, fields: seq<(string, Value)>)
    requires forall j :: 0 <= j < |fields| ==> EntryPasses(keyType, valueType, fields[j])
    ensures Visit(EntryChildren(keyType, valueType, fields)).Ok?
    ensures Pairs(Visit(EntryChildren(keyType, valueType, fields)).value) == EntryOutputs(keyType, valueType, fields)
  {
    var children := EntryChildren(keyType, valueType, fields);
    AllEntriesPass(keyType, valueType, fields);
    VisitSucceeds(children);
    var outputs := Visit(children).value;
    var pairs := Pairs(outputs);
    var expected := EntryOutputs(keyType, valueType, fields);
    forall j | 0 <= j < |fields|
      ensures pairs[j] == expected[j]
    {
      assert children[2 * j] == KeyChild(keyType, fields[j]);
      assert children[2 * j + 1] == ValueChild(valueType, fields[j]);
      assert outputs[2 * j] == children[2 * j].Outcome().value;
      assert outputs[2 * j + 1] == children[2 * j + 1].Outcome().value;
    }
  }

  /** A plain object is accepted iff every key and every value is. */
  lemma {:induction false} RecordSucceeds(keyType: Type, valueType: Type, fields: seq<(string, Value)>)
    ensures Record(keyType, valueType).transformValue(PlainObject(fields)).Ok? <==>
      forall j :: 0 <= j < |fields| ==> EntryPasses(keyType, valueType, fields[j])
  {
    assert Record(keyType, valueType).transformValue(PlainObject(fields)).Ok? <==>
      Visit(EntryChildren(keyType, valueType, fields)).Ok? by {
      RecordOnPlainObject(keyType, valueType, fields);
    }
    VisitSucceeds(EntryChildren(keyType, valueType, fields));
    AllEntriesPass(keyType, valueType, fields);
  }

  /** The output is built by `Object.fromEntries` from the transformed pairs, in entry order. */
  lemma {:induction false} RecordOutput(keyType: Type, valueType: Type, fields: seq<(string, Value)>)
    requires forall j :: 0 <= j < |fields| ==> EntryPasses(keyType, valueType, fields[j])
    ensures Record(keyType, valueType).transformValue(PlainObject(fields))
         == Ok(PlainObject(FromEntries(EntryOutputs(keyType, valueType, fields))))
  {
    RecordOnPlainObject(keyType, valueType, fields);
    LoopPairs(keyType, valueType, fields);
  }

  /** Keys are checked before values: when every earlier entry passes and the key of
      entry `j` fails, that failure is the result, labelled `key(k)`, whatever its value. */
  lemma {:induction false} RecordKeyFailure(keyType: Type, valueType: Type, fields: seq<(string, Value)>, j: nat)
    requires j < |fields|
    requires forall i :: 0 <= i < j ==> EntryPasses(keyType, valueType, fields[i])
    requires keyType.transformValue(Str(fields[j].0)).Invalid?
    ensures Record(keyType, valueType).transformValue(PlainObject(fields))
         == Invalid(keyType.transformValue(Str(fields[j].0)).failure.PathComponent(KeyComponent(fields[j].0)))
  {
    RecordOnPlainObject(keyType, valueType, fields);
    var children := EntryChildren(keyType, valueType, fields);
    PrefixPasses(keyType, valueType, fields, j);
    assert children[2 * j] == KeyChild(keyType, fields[j]);
    VisitFirstFailure(children, 2 * j);
  }

  /** When every earlier entry and the key of entry `j` pass and its value fails, that
      failure is the result, labelled with the key. */
  lemma {:induction false} RecordValueFailure(keyType: Type, valueType: Type, fields: seq<(string, Value)>, j: nat)
    requires j < |fields|
    requires forall i :: 0 <= i < j ==> EntryPasses(keyType, valueType, fields[i])
    requires keyType.transformValue(Str(fields[j].0)).Ok?
    requires valueType.transformValue(fields[j].1).Invalid?
    ensures Record(keyType, valueType).transformValue(PlainObject(fields))
         == Invalid(valueType.transformValue(fields[j].1).failure.PathComponent(fields[j].0))
  {
    RecordOnPlainObject(keyType, valueType, fields);
    var children := EntryChildren(keyType, valueType, fields);
    PrefixPasses(keyType, valueType, fields, j);
    assert children[2 * j] == KeyChild(keyType, fields[j]);
    assert children[2 * j + 1] == ValueChild(valueType, fields[j]);
    forall i | 0 <= i < 2 * j + 1
      ensures children[i].Outcome().Ok?
    {
      if i == 2 * j {
        assert children[i] == KeyChild(keyType, fields[j]);
      }
    }
    VisitFirstFailure(children, 2 * j + 1);
  }

  /** When the key and value types return every key and value unchanged and the keys
      are distinct, the rebuilt object equals the input, field for field and in order. */
  lemma {:induction false} RecordKeepsObject(keyType: Type, valueType: Type, fields: seq<(string, Value)>)
    requires DistinctKeys(fields)
    requires forall j :: 0 <= j < |fields| ==> keyType.transformValue(Str(fields[j].0)) == Ok(Str(fields[j].0))
    requires forall j :: 0 <= j < |fields| ==> valueType.transformValue(fields[j].1) == Ok(fields[j].1)
    ensures Record(keyType, valueType).transformValue(PlainObject(fields)) == Ok(PlainObject(fields))
  {
    assert forall j :: 0 <= j < |fields| ==> EntryPasses(keyType, valueType, fields[j]);
    RecordOutput(keyType, valueType, fields);
    var pairs := EntryOutputs(keyType, valueType, fields);
    assert forall j :: 0 <= j < |fields| ==> pairs[j] == (Str(fields[j].0), fields[j].1);
    FromEntriesDistinct(pairs);
    assert FromEntries(pairs) == fields;
  }

  /** An array passes the `typeof` check, and its entries are those of the plain object
      keyed by index. */
  lemma {:induction false} RecordArrayAsObject(keyType: Type, valueType: Type, xs: seq<Value>)
    ensures Record(keyType, valueType).transformValue(Arr(xs))
         == Record(keyType, valueType).transformValue(PlainObject(IndexedEntries(xs)))
  {
    RecordUnfolds(keyType, valueType, Arr(xs));
    RecordOnPlainObject(keyType, valueType, IndexedEntries(xs));
  }

  /** So with key and value types that return their inputs unchanged, an array becomes
      the plain object `{"0": x0, "1": x1, ...}`. */
  lemma {:induction false} RecordOnArray(keyType: Type, valueType: Type, xs: seq<Value>)
    requires forall j :: 0 <= j < |xs| ==> keyType.transformValue(Str(NatToString(j))) == Ok(Str(NatToString(j)))
    requires forall j :: 0 <= j < |xs| ==> valueType.transformValue(xs[j]) == Ok(xs[j])
    ensures Record(keyType, valueType).transformValue(Arr(xs)) == Ok(PlainObject(IndexedEntries(xs)))
  {
    var fields := IndexedEntries(xs);
    IndexedKeysDistinct(xs);
    assert forall j :: 0 <= j < |fields| ==> fields[j] == (NatToString(j), xs[j]);
    RecordKeepsObject(keyType, valueType, fields);
    RecordArrayAsObject(keyType, valueType, xs);
  }

  /** `record(string(), number())` accepts an object with two distinct keys and number
      values, such as `{age: 35, year: 1987}`, unchanged. */
  lemma {:induction false} TagsExample(k1: string, k2: string, a: int, y: int)
    requires k1 != k2
    ensures Record(String(), Number()).transformValue(PlainObject([(k1, Num(a)), (k2, Num(y))]))
         == Ok(PlainObject([(k1, Num(a)), (k2, Num(y))]))
  {
    RecordKeepsObject(String(), Number(), [(k1, Num(a)), (k2, Num(y))]);
  }

  /** `record(string(), number())` on `{age: 'x'}` fails at the value, path `age`. */
  lemma TagsValueFailure()
    ensures Record(String(), Number()).transformValue(PlainObject([("age", Str("x"))]))
         == Invalid(Failure("failed: number", Str("x"), ["age"]))
  {
    assert String().transformValue(Str("age")).Ok?;
    assert Number().transformValue(Str("x")) == Invalid(Failure("failed: number", Str("x"), []));
    RecordValueFailure(String(), Number(), [("age", Str("x"))], 0);
  }
}
