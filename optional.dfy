/** An optional value: `None` stands for JavaScript's `null` or `undefined`. */
module Optional {
  datatype Option<T> = None | Some(value: T)

  /** `x || ''` for a header or parameter that may be absent. */
  function OrEmpty(x: Option<string>): string {
    if x.Some? then x.value else ""
  }
}
