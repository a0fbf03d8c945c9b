/** `CacheItem<T>`: what a cache lookup returns. Both properties are
    get-only and set once by the constructor, so the item is a value; the
    datatype constructor `CacheItem(value, hasValue)` is that constructor
    and places no link between its two arguments. */
module Caching {
  import opened Outcomes

  datatype CacheItem<T> = CacheItem(value: Nullable<T>, hasValue: bool)

  /** What `ToString` falls back to when there is no text. */
  const NullText: string := "<null>"

  /** `ToString`: the value's own text, or `NullText` when the value is null
      or its own `ToString` gives null. `show` is the value's `ToString`. */
  function ToString<T>(item: CacheItem<T>, show: T -> Nullable<string>): (r: string)
    ensures item.value.NonNull? && show(item.value.get).NonNull? ==> r == show(item.value.get).get
    ensures r == NullText <==>
      item.value.Null? || show(item.value.get) == Null || show(item.value.get) == NonNull(NullText)
  {
    match item.value
    case Null => NullText
    case NonNull(v) =>
      match show(v)
      case Null => NullText
      case NonNull(text) => text
  }

  /** The text depends on the value only: a lookup that missed (whose value
      is the default, null) prints exactly like a hit on a cached null. */
  lemma ToStringIgnoresHasValue<T>(value: Nullable<T>, show: T -> Nullable<string>)
    ensures ToString(CacheItem(value, true), show) == ToString(CacheItem(value, false), show)
    ensures ToString(CacheItem(Null, false), show) == NullText
  {
  }
}
