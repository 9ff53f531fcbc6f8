/** A value that may be `undefined`, as JavaScript optional fields and
    lookups are. */
module Optional {

  datatype Option<T> = None | Some(value: T)

  /** The value, or `fallback` when it is undefined. For a string with
      fallback `""` this is `o || ""`: an empty string maps to itself either way. */
  function GetOr<T>(o: Option<T>, fallback: T): T {
    if o.Some? then o.value else fallback
  }
}
