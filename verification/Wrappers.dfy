/** Stock result types. */
module Wrappers {
  datatype Option<+T> = None | Some(value: T)

  /** `o ?? otherwise`. */
  function OrElse<T>(o: Option<T>, otherwise: T): T { if o.Some? then o.value else otherwise }

  /** `o ?? []`. */
  function ListOf<T>(o: Option<seq<T>>): seq<T> { OrElse(o, []) }
}
