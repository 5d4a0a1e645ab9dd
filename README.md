# Optional<T> for TypeScript, modelled in Dafny

This project models the `Optional<T>` container of `ts-optional-class` and its
free helper `isDefined`. It covers:

- the four named constructors: `empty`, `of`, `ofNullable` and `ofAnything`;
- the accessors `get`, `isPresent`, `orElse`, `orElseGet`, `orElseThrow` and `toString`;
- the combinators `ifPresent`, `filter`, `map` and `flatMap`.

Files:

- `js_values.dfy` (module `JsValues`) models JavaScript values and calls.
  - A runtime value is a `Slot<T>`: `Undefined`, `Null` or `Val(v)`.
  - A call ends in a `Completion<R>`. It either returns (`Ok`) or throws.
    `TypeErr` and `RefErr` are the `TypeError` and `ReferenceError` the
    container raises itself. `Thrown(e)` is an error object built by caller code.
- `optional.dfy` (module `Optionals`) holds the container.
  - The container is the datatype `Optional(value: Slot<T>)`. Its constructor
    is the class's private constructor, so it stores any slot as given.
  - Every public operation is a function with a contract, except `Empty`,
    whose properties are stated by the lemma `EmptyIsAbsent`.
- `optional_laws.dfy` (module `OptionalLaws`) holds lemmas that relate
  several operations. It covers which constructor rejects what, the
  short-circuit guarantee for callbacks, and the monad-style laws.

Presence is tested as `value !== null`, as in the source. So only `Null` counts
as empty. A container holding `undefined` counts as present.

Callbacks are partial functions (`-->`). They may also throw, because they
return a `Completion`. Each operation asks for a callback's precondition only
on the branch that calls it. So the verifier proves that, on the other branch,
the callback is never called. `EmptyNeverCallsBack` and
`PresentNeverCallsFallback` state this for callbacks of every precondition,
including one that nothing can meet. Exceptions from callbacks pass through
unchanged, because the library catches nothing.

Where the source's own documentation and its code disagree, the model follows
the code:

- The documentation of `map` (`src/optional.ts:137-139`) says the result
  describes the mapper's result only when that is non-null, and is empty
  otherwise. The code stores the mapper's raw
  result through the private constructor (`src/optional.ts:151`). So a mapper
  that returns `undefined` produces a present container holding `undefined`
  (see Findings).
- The class documentation (`src/optional.ts:3`) speaks of a "non-null value",
  and `get()` promises a value that is "neither null nor undefined"
  (`src/optional.ts:87`). The code does not keep that promise, for the reason
  above, and the model does not impose it.

## Model

| member | source | states |
|---|---|---|
| `Optionals.IsDefined` | src/optional.ts:236-238 | false exactly for `undefined` and `null`, true for every other value |
| `Optionals.Optional.Empty` | src/optional.ts:28-30 | the container holding `null`; its contract is stated by `OptionalLaws.EmptyIsAbsent` |
| `Optionals.Optional.Of` | src/optional.ts:40-45 | throws `TypeError` exactly when the argument is `null` or `undefined`; otherwise the result is present and `get()` returns the argument |
| `Optionals.Optional.OfNullable` | src/optional.ts:57-63 | throws `TypeError` exactly for `undefined`; `null` gives the empty container; a defined value is present and `get()` returns it |
| `Optionals.Optional.OfAnything` | src/optional.ts:76-81 | never throws (its result type has no error); present exactly when `isDefined` holds, with `get()` returning the argument; otherwise equal to `empty()` |
| `Optionals.Optional.IsPresent` | src/optional.ts:104-106 | false exactly for the container equal to `empty()` |
| `Optionals.Optional.Get` | src/optional.ts:92-97 | throws `ReferenceError` exactly when not present; otherwise returns the stored value, which is never `null` |
| `Optionals.Optional.IfPresent` | src/optional.ts:114-117 | when present, the call's outcome is the consumer's outcome on the stored value; when empty, it returns normally and does not need the consumer |
| `Optionals.Optional.Filter` | src/optional.ts:129-134 | empty stays empty without the predicate; when present, the result is this container exactly when the predicate returns true, empty exactly when it returns false, and the predicate's exception otherwise |
| `Optionals.Optional.Map` | src/optional.ts:147-152 | empty stays empty without the mapper; when present, the result is present exactly when the mapper's result is not `null`, and `get()` then returns that result, even `undefined`; the mapper's exception propagates |
| `Optionals.Optional.MapDefined` | src/optional.ts:136-146 | corrected `map`: its result never holds `undefined`, and is present exactly when the mapper's result is defined |
| `Optionals.Optional.FlatMap` | src/optional.ts:168-173 | empty stays empty without the mapper; when present, the result is the mapper's own outcome, not wrapped again |
| `Optionals.Optional.OrElse` | src/optional.ts:181-186 | when present, the result is what `get()` returns; when empty, it is `other` |
| `Optionals.Optional.OrElseGet` | src/optional.ts:195-200 | when present, returns what `get()` returns without the supplier; when empty, the supplier's outcome |
| `Optionals.Optional.OrElseThrow` | src/optional.ts:211-216 | when present, returns what `get()` returns without the supplier; when empty, it always throws: the error the supplier returns, or the supplier's own exception |
| `Optionals.Optional.ToString` | src/optional.ts:222-227 | `'empty'` when not present; the value's own string when it holds a defined value; a `TypeError` when it holds `undefined` |
| `OptionalLaws.ConstructorTable` | src/optional.ts:40-81 | on `undefined`, `of` and `ofNullable` throw and `ofAnything` is empty; on `null`, only `of` throws and the others are empty; on a value, all three build the same container |
| `OptionalLaws.EmptyIsAbsent` | src/optional.ts:28-30 | `empty()` is not present, `get()` on it throws `ReferenceError`, and `toString()` gives `'empty'` |
| `OptionalLaws.EmptyNeverCallsBack` | src/optional.ts:114-173 | on `empty()`, `ifPresent`, `filter`, `map` and `flatMap` return normally and never call their callback, whatever the callback's precondition |
| `OptionalLaws.PresentNeverCallsFallback` | src/optional.ts:181-216 | on a present container, `orElse`, `orElseGet` and `orElseThrow` all return the `get()` value and never call their supplier |
| `OptionalLaws.MapIdentity` | src/optional.ts:147-152 | `map` with the identity mapper gives back an equal container |
| `OptionalLaws.FlatMapLeftIdentity` | src/optional.ts:168-173 | `of(x).flatMap(f)` is `f(x)` for a defined `x` |
| `OptionalLaws.FlatMapRightIdentity` | src/optional.ts:168-173 | `o.flatMap(of)` gives back `o` exactly when `o` does not hold `undefined`; on a stored `undefined`, it throws `TypeError` |
| `OptionalLaws.FlatMapAssociative` | src/optional.ts:168-173 | `o.flatMap(f).flatMap(g)` equals `o.flatMap(x => f(x).flatMap(g))` |
| `OptionalLaws.MapFusion` | src/optional.ts:147-152 | `o.map(f).map(g)` equals `o.map(x => g(f(x)))` exactly unless `o` is present, `f` yields `null` and `g(null)` is not `null` |
| `OptionalLaws.MapFusionCanFail` | src/optional.ts:147-152 | on every present container, some pair of mappers makes the two sides of map fusion differ |
| `OptionalLaws.MapCanStoreUndefined` | src/optional.ts:147-152 | on every present container, some mapper makes `map` give a present container whose `get()` returns `undefined` and whose `toString()` throws |
| `OptionalLaws.MapDefinedKeepsGetPromise` | src/optional.ts:83-97 | after the corrected `map`, `get()` never returns `null` or `undefined`; the corrected `map` agrees with the source's unless the mapper returns `undefined` |
| `OptionalLaws.TestSuiteScenarios` | test/optional.spec.ts:5-140 | every case of the test suite, including the mapped results of `map` and `flatMap` with an `indexOf` mapper, holds of the model; a callback that throws is never reached where the tests say it must not be called |

## Left out

- `toString()` on a present, defined value calls the value's own `toString()`. That is dynamic dispatch on an arbitrary `T`, so the model takes it as a parameter `show`.
- `Optionals.Optional.ToString`: `show` is total, so a stored value whose own `toString()` throws (an object without a prototype, or a user-defined `toString` that throws) is not modelled.
- `Optionals.Optional.Filter`: the predicate returns a `bool`; JavaScript's truthiness coercion of a non-boolean predicate result (`src/optional.ts:133`) is not modelled.
- Error objects carry only the error kind. `TypeErr` and `RefErr` do not keep the messages `'value must be defined'`, `'value cannot be undefined'` and `'value is not defined'`. A caller's error is kept as a name and a message.
- What a callback does to the world (for example inside `ifPresent`) is not modelled. The model keeps only whether the callback is called, with which argument, and how that call ends.
- `typeof`, loose `==` and JavaScript's `document.all` quirk are not modelled. A runtime value is just `undefined`, `null` or an ordinary value.
- The TypeScript type parameters are not checked at runtime by the source, so they are not modelled beyond the `T` in `Slot<T>`.
- The test-runner and bundler configuration (`karma.conf.js`, `webpack.config.js`) hold no logic.

## Findings

| source | as written | input that shows it | evidently intended | confidence | as-written member | corrected member |
|---|---|---|---|---|---|---|
| src/optional.ts:147-152 | `map` stores the mapper's raw result, so a mapper that returns `undefined` gives a container that `isPresent()` calls present | `Optional.of('str').map(_ => undefined)`: `isPresent()` is true, `get()` returns `undefined`, and `toString()` throws `TypeError` | an empty container, as the documentation of `map` (lines 137-139) and of `get` ("neither null nor undefined", line 87) say | medium, not executed | `OptionalLaws.MapCanStoreUndefined` | `Optionals.Optional.MapDefined` |

`Map` stays the model of the source's `map`, because it is what the library
does. `MapDefined` beside it is the corrected version, and
`MapDefinedKeepsGetPromise` proves the documented promise for it.
