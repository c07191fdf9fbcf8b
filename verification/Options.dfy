/** Optional values: the source's `None` and its nullable columns. */
module Options {
  datatype Option<+T> = None | Some(value: T)

  /** The value if there is one, otherwise the given default. */
  function GetOr<T>(o: Option<T>, default: T): T {
    if o.Some? then o.value else default
  }
}
