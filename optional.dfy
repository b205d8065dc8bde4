/** The conveniences on optional values: `orEmpty` for every type with a
    default value, `isBlank` for optional strings, and the default values of
    `String` and `Data`. A Swift optional is an `Option`; the `Default`
    conformance of a type is the default value passed alongside. */
module Optionals {

  datatype Option<T> = None | Some(value: T)

  /** `String.defaultValue`. */
  function StringDefault(): (r: string)
    ensures |r| == 0
  {
    ""
  }

  /** `Data.defaultValue`: no bytes. */
  function DataDefault(): (r: seq<bv8>)
    ensures |r| == 0
  {
    []
  }

  /** `orEmpty`: the wrapped value when there is one, the type's default
      otherwise. */
  function OrEmpty<T>(o: Option<T>, default: T): (r: T)
    ensures o.Some? ==> r == o.value
    ensures o.None? ==> r == default
  {
    match o
    case Some(value) => value
    case None => default
  }

  /** `orEmpty` on an optional string. */
  function OrEmptyString(o: Option<string>): (r: string)
    ensures o.None? ==> r == []
    ensures o.Some? ==> r == o.value
  {
    OrEmpty(o, StringDefault())
  }

  /** `orEmpty` on optional data. */
  function OrEmptyData(o: Option<seq<bv8>>): (r: seq<bv8>)
    ensures o.None? ==> r == []
    ensures o.Some? ==> r == o.value
  {
    OrEmpty(o, DataDefault())
  }

  /** `isBlank`: no string, or the empty one. */
  function IsBlank(o: Option<string>): (r: bool)
    ensures r <==> o.None? || |o.value| == 0
  {
    match o
    case Some(s) => s == []
    case None => true
  }

  /** A blank optional is exactly one that `orEmpty` turns into "". */
  lemma BlankIffOrEmptyIsEmpty(o: Option<string>)
    ensures IsBlank(o) <==> OrEmptyString(o) == []
  {
  }

  /** Wrapping a value and unwrapping it with `orEmpty` gives it back,
      whatever the default. */
  lemma OrEmptyOfSome<T>(x: T, default: T)
    ensures OrEmpty(Some(x), default) == x
  {
  }

  /** `nil.orEmpty` is "" and blank; `"abc"` is kept and not blank. */
  lemma OptionalExamples()
    ensures OrEmptyString(None) == "" && IsBlank(None)
    ensures OrEmptyString(Some("abc")) == "abc" && !IsBlank(Some("abc"))
    ensures IsBlank(Some(""))
    ensures OrEmptyData(None) == []
  {
  }
}
