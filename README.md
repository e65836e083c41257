# fud schema combinators in Dafny

This project models the runtime core of `fud`, a small TypeScript library of schema
combinators. A schema is a `Type`: a diagnostic `name` plus a `transformValue`
function. That function maps a dynamically typed input either to an output value or
to an `InvalidValue`. An `InvalidValue` is a failure returned as a value: a message,
the offending value, and a path of labels that grows at the front as the failure
crosses each enclosing composite.

The model is a shallow embedding: a `Type` holds a Dafny function
`Value -> Result<Value>`, so schemas are built and composed exactly as the library
composes closures. The parts:

- `JsValues` (js_values.dfy): the input value model. It covers strings, integers,
  booleans, null, undefined, arrays, plain objects as ordered association lists, and
  class instances with their prototype chain. It also holds the host operations the
  library relies on: `typeof`, `== null`, `Array.isArray`, property lookup,
  `Object.entries`, `Object.fromEntries`, `join`, number-to-string and `String(value)`.
- `InvalidValues` (invalid_value.dfy): the failure, with `pathComponent` and
  `toString`. It appears both as a value (`Failure`, which results carry) and as the
  mutable class `InvalidValue`, whose `path` array is updated in place. Also the
  three-way `Result`: an output, a failure, or an exception the host throws.
- `Matching` (matches.dfy): `matches`, the predicate gate behind the leaf types.
- `Types` (type.dfy): `Type` with `pipe`, `parseSafe`, `parse` and `parseOrNull`;
  `optional`, `nullable` and `defer`. The memoising closure of `defer` becomes the
  class `Deferred`, with a ghost count of constructor calls.
- `Transforms` (transforms.dfy): `transform`, `validate`, `isAtLeast`, `isAtMost`,
  `regex`, `toLowerCase`, `toUpperCase`, `toString`, `toDate`.
- `Base` (base.dfy): the leaf types `unknown`, `any`, `string`, `boolean`, `number`,
  `literal`, `nullValue`, `undefinedValue` and `instanceOf`.
- `Traversal` (traversal.dfy): what object, array, tuple and record share. Children
  are checked one at a time, in order. The first child that does not succeed ends the
  check, and its failure gets the child's label in front of its path.
- The composites, each with its loop as a `method` proved equal to the type's
  transform: `Objects` (object.dfy), `Arrays` (array.dfy), `Tuples` (tuple.dfy),
  `Records` (record.dfy) and `Unions` (union.dfy).

The composite and `pipe` loops are imperative in the library, so they are methods with
loop invariants. Array, tuple and record fill a preallocated result
array. The `pipe` loop reassigns `result` and the object loop fills a result record.
Every loop is proved to return what the corresponding specification function returns,
and the library's promises are proved as lemmas about those functions. Among them:
first failure wins; paths compose, outermost label first; outputs keep length and
order; extra object fields are dropped; the union tries alternatives 2..N before 1.

Two behaviours of the code that the model keeps as written:

- `record` checks only `typeof value === 'object'` (record.ts:41). So it accepts
  arrays, whose entries are keyed by index (`Records.RecordOnArray`). It also lets
  null reach `Object.entries`, which then throws a TypeError (record.ts:17); the model
  gives `Thrown(TypeError)` for null (`Records.RecordOnNull`).
- invalid-value.ts:2 says failures are used instead of exceptions. Yet `parse` throws
  (type.ts:79), and host calls inside a transform can throw: `Object.entries(null)`,
  and `toLowerCase` or `toUpperCase` on a non-string. Nothing in the library catches
  these, so they pass unchanged through every combinator. `Result` has a `Thrown`
  case to carry them.

## Model

| member | source | states |
|---|---|---|
| InvalidValues.NewFailure | src/lib/invalid-value.ts:5-11 | a new failure keeps the message and value and has an empty path |
| InvalidValues.Failure.PathComponent | src/lib/invalid-value.ts:16-19 | the new path is the label followed by the old path, and message and value are kept |
| InvalidValues.InvalidValue.constructor | src/lib/invalid-value.ts:5-11 | a new instance holds the message and value and an empty path |
| InvalidValues.InvalidValue.PathComponent | src/lib/invalid-value.ts:16-19 | the shared `path` becomes `[component] + old path`, and the same instance is returned |
| InvalidValues.InvalidValue.ToString | src/lib/invalid-value.ts:24-27 | renders `Error '<message>' at '$<.label for each label of the current path>', got value: <String(value)>` |
| InvalidValues.RenderedPath | src/lib/invalid-value.ts:24-27 | the rendering is `Error '<message>' at '$<.label for each label>', got value: <String(value)>`, and an empty path renders as `$` |
| InvalidValues.RenderedPathComponent | src/lib/invalid-value.ts:16-27 | prepending a label inserts `.label` right after the `$` of the rendering |
| InvalidValues.OutputsAreNotInvalid | src/lib/invalid-value.ts:33-35 | `isInvalidValue` holds exactly for failures, never for an output value |
| InvalidValues.Result.WithPathComponent | src/lib/invalid-value.ts:16-19 | a failure gets the label in front of its path; an output or an exception is unchanged |
| Matching.Matches | src/lib/internal/matches.ts:4-6 | accepted iff the predicate holds, and the input is returned unchanged; otherwise the failure is `failed: <message>` with the input and an empty path |
| Types.Type.Pipe | src/lib/type.ts:55-62 | the loop returns the transforms applied in order, each to the result of those before it |
| Types.PipedLeftToRight | src/lib/type.ts:55-62 | an empty pipe is the type itself, and the first transform is applied first |
| Types.PipedAppend | src/lib/type.ts:55-62 | piping `a` and then `b` equals piping `a + b` |
| Types.PipedThree | src/lib/type.ts:51-62 | `t.pipe(t1, t2, t3)` is `t3(t2(t1(t)))` |
| Types.Type.Parse | src/lib/type.ts:76-83 | never a failure: the `parseSafe` result on success, and a thrown `Error` carrying the failure's rendering on failure |
| Types.Type.ParseOrNull | src/lib/type.ts:90-93 | null iff `parseSafe` fails or succeeds with null; otherwise the `parseSafe` result |
| Types.Optional | src/lib/type.ts:100-106 | named after the type with `undefined` and `null` appended as alternatives; null and undefined are returned unchanged, anything else is delegated |
| Types.Nullable | src/lib/type.ts:112-116 | named after the type with `null` appended as an alternative; null and undefined become null, anything else is delegated |
| Types.NullableVersusOptional | src/lib/type.ts:100-116 | the two modifiers agree on an input iff it is not undefined |
| Types.ModifiersIdempotent | src/lib/type.ts:100-116 | wrapping twice behaves as wrapping once |
| Types.Defer | src/lib/type.ts:121-133 | named `defer<name>`, and behaves as the constructed type on every input |
| Types.Deferred.constructor | src/lib/type.ts:121-122 | the cache starts empty and the constructor has not run |
| Types.Deferred.Resolve | src/lib/type.ts:124-130 | returns the constructed type and caches it; the constructor runs only on the first call, after which the cache never changes |
| Types.Deferred.TransformValue | src/lib/type.ts:132 | forwards to the resolved type, and its result equals that of `Defer` |
| Types.ValidateTwice | src/lib/type.ts:121-133 | two validations run the constructor once and give the constructed type's results |
| Transforms.Transform | src/lib/transforms.ts:10-16 | keeps the name; a failure or exception of the wrapped type passes unchanged; an output goes through the mapper |
| Transforms.TransformSkipsMapperOnFailure | src/lib/transforms.ts:12-13 | when the wrapped type fails, the mapper makes no difference |
| Transforms.Validate | src/lib/transforms.ts:23-25 | an output that satisfies the predicate passes unchanged; otherwise the failure carries the message, that output and an empty path |
| Transforms.ValidateIdempotent | src/lib/transforms.ts:23-25 | piping the same `validate` twice equals piping it once |
| Transforms.ToLowerCase | src/lib/transforms.ts:30-32 | a string output is mapped by the host's lower-casing |
| Transforms.ToUpperCase | src/lib/transforms.ts:37-39 | a string output is mapped by the host's upper-casing |
| Transforms.ToString | src/lib/transforms.ts:44-46 | an output becomes `String(output)` |
| Transforms.ToDate | src/lib/transforms.ts:52-57 | an unparseable output fails with `invalid date` and that output; otherwise the result is the parsed date |
| Transforms.IsAtLeast | src/lib/transforms.ts:62-64 | a number output passes iff `n >= minValue`, otherwise fails with `value >= <minValue>` |
| Transforms.IsAtMost | src/lib/transforms.ts:69-71 | a number output passes iff `n <= maxValue`, otherwise fails with `value <= <maxValue>` |
| Transforms.Regex | src/lib/transforms.ts:76-78 | an output passes unchanged iff the expression matches it, otherwise fails with `matches <source>` |
| Base.Unknown | src/lib/types/base.ts:11-13 | never fails and returns its input unchanged |
| Base.Any | src/lib/types/base.ts:18-20 | never fails and always outputs null |
| Base.String | src/lib/types/base.ts:25-27 | accepts exactly strings, unchanged; anything else fails with `failed: string` and the value |
| Base.Boolean | src/lib/types/base.ts:32-34 | accepts exactly booleans, unchanged; anything else fails with `failed: boolean` |
| Base.Number | src/lib/types/base.ts:39-41 | accepts exactly numbers, unchanged; anything else fails with `failed: number` |
| Base.Literal | src/lib/types/base.ts:46-48 | named `JSON.stringify(lit)`; accepts exactly the values strictly equal to the literal; otherwise fails with `failed: literal '<lit>'` |
| Base.NullValue | src/lib/types/base.ts:53-55 | behaves as `literal(null)` and has its name |
| Base.UndefinedValue | src/lib/types/base.ts:60-62 | behaves as `literal(undefined)` and has its name |
| Base.InstanceOf | src/lib/types/base.ts:68-70 | named after the class; accepts exactly its instances, unchanged; otherwise fails with `failed: <class>` |
| Base.StringAcceptsStrings | src/lib/types/base.test.ts:7-9 | `'foo'` and `'null'` are accepted unchanged |
| Base.StringAcceptsEdgeCases | src/lib/types/base.test.ts:10-11 | `'undefined'` and `''` are accepted unchanged |
| Base.StringRejectsNullish | src/lib/types/base.test.ts:22-25 | null and undefined are rejected |
| Base.StringRejectsNumbers | src/lib/types/base.test.ts:24 | a number such as 123 is rejected with `failed: string` |
| Base.LiteralExamples | src/lib/types/base.test.ts:38-49 | `literal(null)`, `literal(undefined)` and `literal(0)` each accept their own value and reject the other two |
| Base.LiteralMessage | src/lib/types/base.ts:47 | the failure message renders the literal as a template literal does (`'0'`, `'null'`) |
| Traversal.VisitSucceeds | src/lib/types/object.ts:32-41 | a traversal succeeds iff every child does, and then output `i` is child `i`'s output |
| Traversal.VisitAllOk | src/lib/types/array.ts:12-21 | when each child yields a given output, the traversal yields exactly those outputs |
| Traversal.VisitFirstFailure | src/lib/types/tuple.ts:29-33 | the first child that does not succeed decides: a failure with that child's label in front, or the exception unchanged |
| Traversal.VisitPrefixFinal | src/lib/types/array.ts:12-16 | once a prefix has failed, the children after it do not matter |
| Objects.TransformObject | src/lib/types/object.ts:22-42 | the loop returns the object type's result on every input |
| Objects.ObjectRejectsNonObjects | src/lib/types/object.ts:23-29 | null and undefined fail with `is null`; any other value whose constructor is not `Object` fails with `is not an object` |
| Objects.ObjectSucceeds | src/lib/types/object.ts:31-41 | accepted iff every declared field is (a missing field is checked as undefined); the output has exactly the declared keys, in order, each with its child's output |
| Objects.ObjectFirstFailure | src/lib/types/object.ts:32-36 | the first failing declared field decides, with its name in front of the path |
| Objects.ObjectDropsExtraField | src/lib/types/object.ts:31-41 | an extra input field is dropped, and the declared fields come out in declaration order |
| Objects.ObjectAllOk | src/lib/types/object.ts:31-41 | when each declared field's type yields a given output, the object outputs exactly those, under the declared keys |
| Objects.ObjectThreeFields | src/lib/types/object.ts:31-41 | a three-field shape over an input with exactly those distinct keys outputs each field's output under its key, in order |
| Objects.PersonShapeAccepts | src/lib/types/object.test.ts:9-13 | the `{age, name, birth}` shape returns age and name unchanged and birth as its type's output |
| Objects.DateStringParses | src/lib/types/object.test.ts:12 | `string().pipe(toDate())` turns a parseable string into the parsed date |
| Objects.PersonExample | src/lib/types/object.test.ts:9-19 | `object({age: number(), name: string(), birth: string().pipe(toDate())})` outputs the number and the string unchanged and `birth` as the parsed date |
| Objects.MissingFieldExample | src/lib/types/object.ts:33 | a missing field is passed to its type as undefined |
| Objects.InnerPath | src/lib/types/object.ts:33-36 | a failing field labels the failure with its name |
| Objects.NestedPath | src/lib/types/object.ts:34-35 | `object({a: object({b: number()})})` on `{a: {b: 'x'}}` fails with path `a`, `b` |
| Objects.NestedPathRendered | src/lib/invalid-value.ts:24-27 | a two-label path renders as `$.outer.inner` |
| Objects.ObjectName | src/lib/types/object.ts:44-48 | the name is `{k1: n1, k2: n2}` in declaration order |
| Arrays.ArrayUnfolds | src/lib/types/array.ts:25-31 | named `<element>[]`; a non-array fails with `failed: array` before any element is checked |
| Arrays.TransformElements | src/lib/types/array.ts:9-22 | the loop returns the array type's result on every array |
| Arrays.ArraySucceeds | src/lib/types/array.ts:10-21 | accepted iff every element is; the output has the same length and each element's output at its index |
| Arrays.ArrayFirstFailure | src/lib/types/array.ts:13-16 | the first failing element decides, with its decimal index in front of the path |
| Arrays.ArrayEmpty | src/lib/types/array.ts:10-12 | the empty array is accepted as the empty array |
| Arrays.ArrayExample | src/lib/types/array.ts:13-16 | `array(number())` on `[1, 'x']` fails with path `1` |
| Tuples.TransformTuple | src/lib/types/tuple.ts:17-39 | the closure's checks and loop return the tuple type's result on every input |
| Tuples.TupleRejectsShape | src/lib/types/tuple.ts:18-24 | a non-array fails with `expected array`; a wrong length fails with `expected <n> values, got <m>`; both fail before any element is checked |
| Tuples.TupleSucceeds | src/lib/types/tuple.ts:27-38 | an array of the right length is accepted iff every position is; output `i` comes from `elements[i]` on `values[i]` |
| Tuples.TupleFirstFailure | src/lib/types/tuple.ts:29-33 | the first failing position decides, with its index in front of the path |
| Tuples.PointAccepts | src/lib/types/tuple.test.ts:12-13 | `tuple(number(), number())` accepts any pair of numbers unchanged |
| Tuples.PointRejectsShort | src/lib/types/tuple.test.ts:14-15 | `[]` and `[1]` are rejected by their length |
| Tuples.PointRejectsNull | src/lib/types/tuple.test.ts:16 | `[1, null]` is rejected at index `1` |
| Tuples.PointRejectsLong | src/lib/types/tuple.test.ts:17 | `[1, 2, 3]` is rejected by its length |
| Tuples.LengthMessageExample | src/lib/types/tuple.ts:23 | the message reads `expected 2 values, got 3` |
| Tuples.TupleName | src/lib/types/tuple.ts:15 | `tuple(number(), string())` is named `[number, string]` |
| Records.RecordIsPipeline | src/lib/types/record.ts:39-45 | the record type is the `typeof` check piped into the `every` step |
| Records.RecordName | src/lib/types/record.ts:40 | the name is `{ [key: K]: V }` |
| Records.RecordRejects | src/lib/types/record.ts:41 | a value whose `typeof` is not `object` fails with `failed: record` |
| Records.RecordOnNull | src/lib/types/record.ts:17 | null passes the `typeof` check, and `Object.entries` then throws a TypeError |
| Records.RecordUnfolds | src/lib/types/record.ts:16-37 | for anything that passes the `typeof` check, the result is the entry loop's |
| Records.RecordOnPlainObject | src/lib/types/record.ts:16-20 | a plain object passes the `typeof` check and its fields, in order, are the entries the loop runs over |
| Records.TransformEntries | src/lib/types/record.ts:16-37 | the mapper takes `Object.entries` and then runs the entry loop |
| Records.CheckEntries | src/lib/types/record.ts:20-36 | the loop over the entries returns the entry loop's result |
| Records.KeyFails | src/lib/types/record.ts:23-26 | in the loop, a failing key ends it labelled `key(<k>)` |
| Records.ValueFails | src/lib/types/record.ts:28-31 | in the loop, a failing value after a passing key ends it labelled `<k>` |
| Records.EntryPassesStep | src/lib/types/record.ts:33 | a passing entry adds its key and value outputs, and one pair |
| Records.EntriesPass | src/lib/types/record.ts:36 | after the last entry the object is rebuilt from the pairs |
| Records.AllEntriesPass | src/lib/types/record.ts:20-34 | every entry passes iff every key and value check of the loop passes |
| Records.RecordSucceeds | src/lib/types/record.ts:20-36 | a plain object is accepted iff every key and every value is |
| Records.RecordOutput | src/lib/types/record.ts:33-36 | the output is `Object.fromEntries` of the transformed pairs, in entry order |
| Records.RecordKeyFailure | src/lib/types/record.ts:23-26 | keys come before values: the first failing key decides, labelled `key(<k>)`, whatever its value is |
| Records.RecordValueFailure | src/lib/types/record.ts:28-31 | a failing value decides, labelled with the plain key |
| Records.RecordArrayAsObject | src/lib/types/record.ts:16-17 | on an array the record type gives exactly what it gives on the plain object of the array's index-keyed entries |
| Records.RecordOnArray | src/lib/types/record.ts:16-41 | an array passes the `typeof` check; with types that return keys and values unchanged it becomes the plain object keyed `"0"`, `"1"`, ... by index |
| Records.RecordKeepsObject | src/lib/types/record.ts:36 | with distinct keys and types that return keys and values unchanged, the output equals the input |
| Records.TagsExample | src/lib/types/record.test.ts:7-12 | `record(string(), number())` returns two distinct number fields unchanged, as with `{age: 35, year: 1987}` |
| Records.TagsValueFailure | src/lib/types/record.ts:28-31 | `record(string(), number())` on `{age: 'x'}` fails at path `age`, not `key(age)` |
| JsValues.Entries | src/lib/types/record.ts:17 | `Object.entries` throws exactly on null and undefined |
| JsValues.IndexedKeysDistinct | src/lib/types/record.ts:17 | the index keys of an array's entries are pairwise distinct |
| JsValues.FromEntriesDistinct | src/lib/types/record.ts:36 | with distinct key texts, `Object.fromEntries` keeps every pair, in order |
| Unions.Union | src/lib/types/union.ts:10-29 | named `never` when empty, else the alternatives' names joined by a vertical bar between spaces; the empty union fails every input with `no value`; alternative `i` (not the first) wins when alternatives 2 to `i - 1` fail and it does not; when alternatives 2..N all fail, the first alternative's result is returned |
| Unions.FirstNotInvalid | src/lib/types/union.ts:19-26 | the search returns the first alternative that does not fail, or the fallback's result when all fail |
| Unions.UnionOfNone | src/lib/types/union.ts:11-14 | the empty union is `never`, and it fails every input with `no value` at undefined |
| Unions.TransformUnion | src/lib/types/union.ts:18-27 | the loop over `types.slice(1)` and the fallback return the union's result |
| Unions.FirstNotInvalidFails | src/lib/types/union.ts:19-26 | the search fails iff every alternative and the fallback fail |
| Unions.UnionPicks | src/lib/types/union.ts:19-24 | alternative `i` (not the first) wins when alternatives 2 to `i - 1` fail and it does not |
| Unions.UnionFallsBack | src/lib/types/union.ts:26 | when alternatives 2..N all fail, the first alternative's result is returned unchanged |
| Unions.UnionFails | src/lib/types/union.ts:19-26 | a non-empty union fails iff every alternative fails, and the failure is then the first one's |
| Unions.UnionIsAnAlternative | src/lib/types/union.ts:18-27 | a non-empty union always returns one of its alternatives' results |
| Unions.SecondBeatsFirst | src/lib/types/union.ts:19-23 | whenever the second alternative accepts, it wins, even if the first also accepts |
| Unions.UnionOfOne | src/lib/types/union.ts:16-26 | a union of one behaves as that type and has its name |
| Unions.StringOrNumberAcceptsNumbers | src/lib/types/union.test.ts:13 | `union(string(), number())` accepts numbers unchanged |
| Unions.StringOrNumberAcceptsStrings | src/lib/types/union.test.ts:14 | it accepts strings unchanged |
| Unions.StringOrNumberRejectsNull | src/lib/types/union.test.ts:15 | it rejects null with the first alternative's failure |
| Unions.StringOrNumberName | src/lib/types/union.ts:16 | its name is the two names joined by the union separator |

## Left out

- Numbers are unbounded integers. Floating point is not modelled: NaN, the infinities
  and fractions, which `number()` accepts, and `isAtLeast`/`isAtMost` comparisons that
  involve NaN.
- Host string behaviour enters as parameters: Unicode case mapping in
  `toLowerCase`/`toUpperCase`, the RegExp engine's `test`, and `new Date(value)` in
  `toDate`, where `None` stands for a date whose day is NaN.
- Text renderings: `JSON.stringify` is modelled for primitives only, without escaping.
  For undefined, the host returns the undefined value rather than a string; the
  model's text is "undefined". `String(value)` joins an array's elements with `,`
  and renders every other object as `[object Object]`; custom `toString` methods are
  not modelled.
- Inputs that are themselves `InvalidValue` instances are outside the modelled input
  domain. `isInvalidValue` is an `instanceof` test (invalid-value.ts:33-35), so in the
  library a check that passes such an input through unchanged reports it as a failure:
  `unknown().parse(iv)` throws, `record(string(), unknown())` returns `iv` as its
  failure, and `object({a: unknown()})` on `{a: iv}` fails at path `a`. The model
  gives `Instance` values no failure tag, so those calls succeed there.
- Prototype machinery: `instanceof` is a class-name test against a stored prototype
  chain. `value.constructor === Object` holds for plain objects without an own
  `constructor` field. Inherited properties are not looked up by `value[key]`.
- `Object.entries` enumerates an object in association-list order. The host's rule
  that integer-like keys come first is not modelled.
- `ObjectType` is not modelled separately: it adds nothing to `Type` at run time.
- `defer` over a constructor that builds a cyclic schema is not modelled. A Dafny
  function must terminate, so `Deferred` and `Defer` describe the memoisation and the
  forwarding for a given constructor, not recursive validation. The constructor's own
  side effects are not modelled either.
- Compile-time typing is not modelled: `TypeOf`, `SourceOf`, `TypesOf`, `SourcesOf`,
  `src/lib/internal/asserts.ts`, and the `typeAssert` lines of the tests.
- `src/index.ts` is not part of this model. It only re-exports, plus an unused demo.
- There is no concurrency in the library.
- Failure paths are values. In the library, `pathComponent` (object.ts:35, array.ts:15,
  tuple.ts:32, record.ts:25 and 30) updates the child's `InvalidValue` in place
  (invalid-value.ts:16-19), while `Result.WithPathComponent` returns a new `Failure`.
  Aliasing is therefore not captured. An `InvalidValue` instance shared across calls,
  say one that a mapper returns every time, gains one more label on each failing parse
  in the library, but not in the model. The class `InvalidValue` models the in-place
  update for a single instance.
- Types.Type.Parse: the thrown `Error` is the outcome `Thrown(Error(message))` rather
  than a raised exception.
- Transforms.IsAtLeast: the contract covers number outputs only. The host would compare
  a non-number after coercing it; the model rejects it.
- Transforms.IsAtMost: the contract covers number outputs only, for the same reason.
- Transforms.ToLowerCase: the contract covers string outputs only. A non-string makes
  the host throw, which the model gives as `Thrown(TypeError)`.
- Transforms.ToUpperCase: the contract covers string outputs only, as for `ToLowerCase`.
- Base.Literal: requires a primitive literal, as the TypeScript signature demands.
- Objects.ObjectName: the name is stated for two-field shapes; the general form is the
  definition `ShapeName`.
- `Objects.Object`, `Arrays.Array`, `Tuples.Tuple` and `Records.Record` are
  specification functions without contracts. Their behaviour is stated by the lemmas
  and loop methods above. `Objects.Object` requires distinct shape keys, which every
  JavaScript object literal meets.
- `Types.Type.ParseSafe` (type.ts:68-70) has no contract: it is `transformValue` by
  definition, and `Parse` and `ParseOrNull` state their contracts in terms of it.
