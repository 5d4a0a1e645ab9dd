/** Properties of the `Optional` container that relate several operations:
    which constructor rejects what, the short-circuit guarantee for callbacks,
    and the monad-style laws `map` and `flatMap` do or do not obey. */
module OptionalLaws {
  import opened JsValues
  import opened Optionals

  /** The three constructors side by side on `undefined`, `null` and an
      ordinary value: `of` rejects both markers, `ofNullable` only
      `undefined`, `ofAnything` neither. */
  lemma ConstructorTable<T>(x: Slot<T>)
    ensures x == Undefined ==>
      Optional<T>.Of(x) == TypeErr && Optional<T>.OfNullable(x) == TypeErr
      && Optional<T>.OfAnything(x) == Optional<T>.Empty()
    ensures x == Null ==>
      Optional<T>.Of(x) == TypeErr && Optional<T>.OfNullable(x) == Ok(Optional<T>.Empty())
      && Optional<T>.OfAnything(x) == Optional<T>.Empty()
    ensures x.Val? ==>
      Optional<T>.Of(x) == Optional<T>.OfNullable(x) == Ok(Optional<T>.OfAnything(x))
  {
  }

  /** `empty()` is absent: `get()` throws a `ReferenceError` and `toString()`
      gives the sentinel. */
  lemma EmptyIsAbsent<T>(show: T -> string)
    ensures !Optional<T>.Empty().IsPresent()
    ensures Optional<T>.Empty().Get() == RefErr
    ensures Optional<T>.Empty().ToString(show) == Ok("empty")
  {
  }

  /** On an empty container no callback is ever invoked: the combinators are
      defined for callbacks of any precondition, even one nothing meets. */
  lemma EmptyNeverCallsBack<T, U>(
    func: Slot<T> --> Completion<()>,
    pred: Slot<T> --> Completion<bool>,
    mapper: Slot<T> --> Completion<Slot<U>>,
    flatMapper: Slot<T> --> Completion<Optional<U>>)
    ensures Optional<T>.Empty().IfPresent(func) == Ok(())
    ensures Optional<T>.Empty().Filter(pred) == Ok(Optional<T>.Empty())
    ensures Optional<T>.Empty().Map(mapper) == Ok(Optional<U>.Empty())
    ensures Optional<T>.Empty().FlatMap(flatMapper) == Ok(Optional<U>.Empty())
  {
  }

  /** On a present container the fallbacks are never invoked, whatever their
      precondition: all three accessors give back the stored value. */
  lemma PresentNeverCallsFallback<T>(
    o: Optional<T>, other: Slot<T>,
    supplier: () --> Completion<Slot<T>>,
    errorSupplier: () --> Completion<Error>)
    requires o.IsPresent()
    ensures Ok(o.OrElse(other)) == o.OrElseGet(supplier) == o.OrElseThrow(errorSupplier) == o.Get()
  {
  }

  /** `map` with the identity mapper gives back an equal container. */
  lemma MapIdentity<T>(o: Optional<T>)
    ensures o.Map((x: Slot<T>) => Ok(x)) == Ok(o)
  {
  }

  /** `flatMap` after `of` runs the mapper on the value (left identity). */
  lemma FlatMapLeftIdentity<T, U>(x: Slot<T>, f: Slot<T> -> Completion<Optional<U>>)
    requires IsDefined(x)
    ensures Optional<T>.Of(x).AndThen((o: Optional<T>) => o.FlatMap(f)) == f(x)
  {
  }

  /** `flatMap(of)` gives the container back exactly when it does not hold
      `undefined`; on a stored `undefined`, `of` throws a `TypeError`. */
  lemma FlatMapRightIdentity<T>(o: Optional<T>)
    ensures o.FlatMap((x: Slot<T>) => Optional<T>.Of(x)) == Ok(o) <==> o.value != Undefined
    ensures o.value == Undefined ==> o.FlatMap((x: Slot<T>) => Optional<T>.Of(x)) == TypeErr
  {
  }

  /** Chained `flatMap` calls may be regrouped (associativity). */
  lemma FlatMapAssociative<T, U, V>(
    o: Optional<T>, f: Slot<T> -> Completion<Optional<U>>, g: Slot<U> -> Completion<Optional<V>>)
    ensures o.FlatMap(f).AndThen((m: Optional<U>) => m.FlatMap(g))
         == o.FlatMap((x: Slot<T>) => f(x).AndThen((m: Optional<U>) => m.FlatMap(g)))
  {
  }

  /** `o.map(f).map(g)`, with an exception from either call propagating. */
  function MapThenMap<T, U, V>(o: Optional<T>, f: Slot<T> -> Completion<Slot<U>>, g: Slot<U> -> Completion<Slot<V>>)
    : Completion<Optional<V>>
  {
    o.Map(f).AndThen((m: Optional<U>) => m.Map(g))
  }

  /** `o.map(x => g(f(x)))`. */
  function MapComposed<T, U, V>(o: Optional<T>, f: Slot<T> -> Completion<Slot<U>>, g: Slot<U> -> Completion<Slot<V>>)
    : Completion<Optional<V>>
  {
    o.Map((x: Slot<T>) => f(x).AndThen(g))
  }

  /** Two `map` calls equal one `map` of the composed mapper unless the first
      mapper yields `null` and the second would turn `null` into something else:
      `map` stops at the `null`, the composed mapper does not. */
  lemma MapFusion<T, U, V>(o: Optional<T>, f: Slot<T> -> Completion<Slot<U>>, g: Slot<U> -> Completion<Slot<V>>)
    ensures MapThenMap(o, f, g) == MapComposed(o, f, g)
        <==> !(o.IsPresent() && f(o.value) == Ok(Null) && g(Null) != Ok(Null))
  {
  }

  /** Hence on every present container some pair of mappers tells the two
      apart: one that yields `null`, then one that turns `null` into a value. */
  lemma MapFusionCanFail<T>(o: Optional<T>, y: T)
    requires o.IsPresent()
    ensures exists f: Slot<T> -> Completion<Slot<T>>, g: Slot<T> -> Completion<Slot<T>> ::
      MapThenMap(o, f, g) != MapComposed(o, f, g)
  {
    var f: Slot<T> -> Completion<Slot<T>> := (x: Slot<T>) => Ok(Null);
    var g: Slot<T> -> Completion<Slot<T>> := (x: Slot<T>) => Ok(Val(y));
    MapFusion(o, f, g);
  }

  /** As written, `map` keeps a mapper's `undefined` result: for every present
      container some mapper yields a container that reports itself present,
      whose `get()` returns `undefined` and whose `toString()` throws. */
  lemma MapCanStoreUndefined<T, U>(o: Optional<T>, show: U -> string)
    requires o.IsPresent()
    ensures exists f: Slot<T> -> Completion<Slot<U>> ::
      o.Map(f).Ok? && o.Map(f).result.IsPresent()
      && o.Map(f).result.Get() == Ok(Undefined) && o.Map(f).result.ToString(show) == TypeErr
  {
    var f: Slot<T> -> Completion<Slot<U>> := (x: Slot<T>) => Ok(Undefined);
    assert o.Map(f).result == Optional(Undefined);
  }

  /** The corrected `map` never stores `undefined`, so `get()` on its result
      returns a value that is neither `null` nor `undefined`, and agrees with
      the source's `map` whenever the mapper's result is not `undefined`. */
  lemma MapDefinedKeepsGetPromise<T, U>(o: Optional<T>, f: Slot<T> -> Completion<Slot<U>>)
    ensures o.MapDefined(f).Ok? && o.MapDefined(f).result.Get().Ok? ==>
      IsDefined(o.MapDefined(f).result.Get().result)
    ensures !(o.IsPresent() && f(o.value) == Ok(Undefined)) ==> o.MapDefined(f) == o.Map(f)
  {
  }

  /** The scenarios of the repository's own test suite, on strings; a callback
      that throws stands for "must not be called". */
  lemma TestSuiteScenarios()
    ensures Optional<string>.Of(Null) == TypeErr && Optional<string>.Of(Undefined) == TypeErr
    ensures Optional<string>.Of(Val("str")).result.Get() == Ok(Val("str"))
    ensures Optional<string>.OfNullable(Val("str")).result.Get() == Ok(Val("str"))
    ensures Optional<string>.Of(Val("str")).result.Map(IndexOfS) == Ok(Optional(Val(0)))
    ensures Optional<string>.Of(Val("str")).result.Map(IndexOfS).result.Get() == Ok(Val(0))
    ensures Optional<string>.Of(Val("str")).result.FlatMap(
              (x: Slot<string>) => IndexOfS(x).AndThen((n: Slot<int>) => Optional<int>.Of(n)))
            .result.Get() == Ok(Val(0))
    ensures Optional<string>.OfNullable(Null).Ok? && Optional<string>.OfNullable(Undefined) == TypeErr
    ensures !Optional<string>.OfNullable(Null).result.IsPresent()
    ensures Optional<string>.Empty().Map(Throwing<string, Slot<int>>()) == Ok(Optional<int>.Empty())
    ensures Optional<string>.Empty().FlatMap(Throwing<string, Optional<int>>()) == Ok(Optional<int>.Empty())
    ensures Optional<string>.Empty().Filter(Throwing<string, bool>()) == Ok(Optional<string>.Empty())
    ensures Optional(Val("str")).Filter((x: Slot<string>) => Ok(x != Val("str"))) == Ok(Optional<string>.Empty())
    ensures Optional(Val("str")).Filter((x: Slot<string>) => Ok(x == Val("str"))) == Ok(Optional(Val("str")))
    ensures Optional(Val("str")).OrElse(Val("other")) == Val("str")
    ensures Optional<string>.Empty().OrElse(Val("other")) == Val("other")
    ensures Optional<string>.Empty().IfPresent(Throwing<string, ()>()) == Ok(())
    ensures Optional(Val("str")).IfPresent(Throwing<string, ()>()).Thrown?
    ensures Optional<string>.Empty().OrElseGet(() => Ok(Val("str"))) == Ok(Val("str"))
    ensures Optional(Val("str")).OrElseGet(() => Thrown(NotCalled)) == Ok(Val("str"))
    ensures Optional<string>.Empty().OrElseThrow(() => Ok(Error("TypeError", "error"))) == Thrown(Error("TypeError", "error"))
    ensures Optional(Val("str")).OrElseThrow(() => Ok(Error("TypeError", "error"))) == Ok(Val("str"))
    ensures Optional<string>.OfAnything(Null) == Optional<string>.OfAnything(Undefined) == Optional<string>.Empty()
    ensures Optional<string>.OfAnything(Val("str")).Get() == Ok(Val("str"))
  {
  }

  /** The test suite's mapper `value => value.indexOf('s')`; on `undefined`
      the property access throws a `TypeError`. */
  function IndexOfS(x: Slot<string>): Completion<Slot<int>>
  {
    match x
    case Val(s) => Ok(Val(IndexOf(s, 's')))
    case _ => TypeErr
  }

  /** `String.prototype.indexOf` for one character: the first position, or -1. */
  function IndexOf(s: string, c: char): int
  {
    if s == [] then -1
    else if s[0] == c then 0
    else var i := IndexOf(s[1..], c); if i < 0 then -1 else i + 1
  }

  /** The error the test suite's callbacks throw. */
  const NotCalled: Error := Error("Error", "should not be called")

  /** A callback that throws whenever it is invoked. */
  function Throwing<T, R>(): Slot<T> -> Completion<R>
  {
    (x: Slot<T>) => Thrown(NotCalled)
  }
}
