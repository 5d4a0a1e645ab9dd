/** The `Optional<T>` container of src/optional.ts and its free helper
    `isDefined`.

    The source class has a single readonly field, `value: T | null`, set once
    by a private constructor; at runtime that field can also hold `undefined`.
    Presence is tested as `value !== null`, so only `Null` is "empty" here. */
module Optionals {
  import opened JsValues

  /** `isDefined(value)`: neither `undefined` nor `null`. */
  function IsDefined<T>(x: Slot<T>): (b: bool)
    ensures !b <==> x == Undefined || x == Null
  {
    !x.Undefined? && !x.Null?
  }

  /** The private constructor `Optional(value)` stores any slot as given. */
  datatype Optional<T> = Optional(value: Slot<T>)
  {
    /** `Optional.empty()`: the container holding `null`. */
    static function Empty(): Optional<T>
    {
      Optional(Null)
    }

    /** `Optional.of(value)`: the strict constructor. */
    static function Of(x: Slot<T>): (r: Completion<Optional<T>>)
      ensures r.TypeErr? <==> !IsDefined(x)
      ensures r.Ok? <==> IsDefined(x)
      ensures r.Ok? ==> r.result.IsPresent() && r.result.Get() == Ok(x)
    {
      if !IsDefined(x) then TypeErr else Ok(Optional(x))
    }

    /** `Optional.ofNullable(value)`: rejects only `undefined`. */
    static function OfNullable(x: Slot<T>): (r: Completion<Optional<T>>)
      ensures r.TypeErr? <==> x == Undefined
      ensures r.Ok? <==> x != Undefined
      ensures x == Null ==> r == Ok(Empty())
      ensures IsDefined(x) ==> r.Ok? && r.result.IsPresent() && r.result.Get() == Ok(x)
    {
      if x.Undefined? then TypeErr else Ok(Optional(x))
    }

    /** `Optional.ofAnything(value)`: never throws, hence the plain result type. */
    static function OfAnything(x: Slot<T>): (r: Optional<T>)
      ensures r.IsPresent() <==> IsDefined(x)
      ensures IsDefined(x) ==> r.Get() == Ok(x)
      ensures !IsDefined(x) ==> r == Empty()
    {
      // `value == null` is loose equality: it holds for null and for undefined
      if x == Null || x == Undefined then Empty() else Optional(x)
    }

    /** `isPresent()`: false exactly for the empty container. */
    predicate IsPresent()
      ensures IsPresent() <==> this != Empty()
    {
      value != Null
    }

    /** `get()`: the stored value, or a `ReferenceError` when empty. The result
        is never `null`, but it is `undefined` when `undefined` was stored. */
    function Get(): (r: Completion<Slot<T>>)
      ensures r.RefErr? <==> !IsPresent()
      ensures r.Ok? <==> IsPresent()
      ensures r.Ok? ==> r.result != Null && Optional(r.result) == this
    {
      if value == Null then RefErr else Ok(value)
    }

    /** `ifPresent(func)`: the completion of `func(value)` when present; when
        empty `func` is not invoked (its precondition is not needed) and the
        call returns normally. */
    function IfPresent(func: Slot<T> --> Completion<()>): (r: Completion<()>)
      requires IsPresent() ==> func.requires(value)
      ensures !IsPresent() ==> r == Ok(())
      ensures IsPresent() ==> Get() == Ok(value) && r == func(value)
    {
      if value != Null then func(value) else Ok(())
    }

    /** `filter(predicate)`: keeps the value when the predicate `pred` accepts it. */
    function Filter(pred: Slot<T> --> Completion<bool>): (r: Completion<Optional<T>>)
      requires IsPresent() ==> pred.requires(value)
      ensures !IsPresent() ==> r == Ok(Empty())
      ensures IsPresent() ==> (r.Ok? <==> pred(value).Ok?)
      ensures IsPresent() ==> (r == Ok(this) <==> pred(value) == Ok(true))
      ensures IsPresent() ==> (r == Ok(Empty()) <==> pred(value) == Ok(false))
      ensures r.Ok? && r.result.IsPresent() ==> r.result == this
      ensures IsPresent() && !r.Ok? ==> r == pred(value).Propagate()
    {
      if value == Null then Ok(Empty())
      else
        match pred(value)
        case Ok(keep) => Ok(Optional(if keep then value else Null))
        case _ => pred(value).Propagate()
    }

    /** `map(mapper)`: stores the mapper's raw result through the private
        constructor, so a `null` result is empty and an `undefined` result is
        a present container holding `undefined`. */
    function Map<U>(mapper: Slot<T> --> Completion<Slot<U>>): (r: Completion<Optional<U>>)
      requires IsPresent() ==> mapper.requires(value)
      ensures !IsPresent() ==> r == Ok(Optional<U>.Empty())
      ensures IsPresent() ==> (r.Ok? <==> mapper(value).Ok?)
      ensures IsPresent() && r.Ok? ==> r.result.IsPresent() == (mapper(value).result != Null)
      ensures IsPresent() && r.Ok? && r.result.IsPresent() ==> r.result.Get() == mapper(value)
      ensures IsPresent() && !r.Ok? ==> r == mapper(value).Propagate()
    {
      if value == Null then Ok(Optional<U>.Empty())
      else
        match mapper(value)
        case Ok(u) => Ok(Optional(u))
        case _ => mapper(value).Propagate()
    }

    /** `map` as its documentation describes it: a result that is `null` or
        `undefined` gives the empty container, as `ofAnything` would. */
    function MapDefined<U>(mapper: Slot<T> --> Completion<Slot<U>>): (r: Completion<Optional<U>>)
      requires IsPresent() ==> mapper.requires(value)
      ensures !IsPresent() ==> r == Ok(Optional<U>.Empty())
      ensures IsPresent() ==> (r.Ok? <==> mapper(value).Ok?)
      ensures r.Ok? ==> r.result.value != Undefined
      ensures IsPresent() && r.Ok? ==> (r.result.IsPresent() <==> IsDefined(mapper(value).result))
      ensures IsPresent() && r.Ok? && r.result.IsPresent() ==> r.result.Get() == mapper(value)
    {
      if value == Null then Ok(Optional<U>.Empty())
      else mapper(value).AndThen(u => Ok(Optional<U>.OfAnything(u)))
    }

    /** `flatMap(mapper)`: the mapper's result as it is, without re-wrapping. */
    function FlatMap<U>(mapper: Slot<T> --> Completion<Optional<U>>): (r: Completion<Optional<U>>)
      requires IsPresent() ==> mapper.requires(value)
      ensures !IsPresent() ==> r == Ok(Optional<U>.Empty())
      ensures IsPresent() ==> r == mapper(value)
    {
      if value == Null then Ok(Optional<U>.Empty()) else mapper(value)
    }

    /** `orElse(other)`: `other` was evaluated by the caller either way. */
    function OrElse(other: Slot<T>): (r: Slot<T>)
      ensures IsPresent() ==> Get() == Ok(r)
      ensures !IsPresent() ==> r == other
    {
      if value == Null then other else value
    }

    /** `orElseGet(supplier)`: the supplier runs only when empty. */
    function OrElseGet(supplier: () --> Completion<Slot<T>>): (r: Completion<Slot<T>>)
      requires !IsPresent() ==> supplier.requires()
      ensures IsPresent() ==> r == Get() && r.Ok?
      ensures !IsPresent() ==> r == supplier()
    {
      if value == Null then supplier() else Ok(value)
    }

    /** `orElseThrow(errorSupplier)`: when empty, throws the error the
        supplier returns (or whatever the supplier itself throws). */
    function OrElseThrow(errorSupplier: () --> Completion<Error>): (r: Completion<Slot<T>>)
      requires !IsPresent() ==> errorSupplier.requires()
      ensures IsPresent() ==> r == Get() && r.Ok?
      ensures !IsPresent() ==> !r.Ok?
      ensures !IsPresent() && errorSupplier().Ok? ==> r == Thrown(errorSupplier().result)
      ensures !IsPresent() && !errorSupplier().Ok? ==> r == errorSupplier().Propagate()
    {
      if value == Null then
        match errorSupplier()
        case Ok(e) => Thrown(e)
        case _ => errorSupplier().Propagate()
      else Ok(value)
    }

    /** `toString()`: `'empty'` when empty; otherwise the stored value's own
        `toString()`, given here as `show`. Calling it on a stored `undefined`
        is a `TypeError` in JavaScript. */
    function ToString(show: T -> string): (r: Completion<string>)
      ensures !IsPresent() ==> r == Ok(EmptyText)
      ensures value.Val? ==> r == Ok(show(value.v))
      ensures value == Undefined ==> r == TypeErr
      ensures r.Ok? <==> IsDefined(value) || !IsPresent()
    {
      match value
      case Null => Ok(EmptyText)
      case Undefined => TypeErr
      case Val(v) => Ok(show(v))
    }
  }

  /** The text `toString()` gives for an empty container. */
  const EmptyText: string := "empty"
}
