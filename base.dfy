/** Optional values, for JavaScript's `undefined`/`null` results and searches that can fail. */
module Base {

  datatype Option<+T> = None | Some(value: T)

}
