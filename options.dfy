/** Optional values, for the places where the source raises instead of returning. */
module Options {

  datatype Option<+T> = None | Some(value: T)
}
