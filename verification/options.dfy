/** Optional values and results shared by every module. */
module Options {

  datatype Option<+T> = None | Some(value: T)

  /** The outcome of an operation whose error carries no information the model needs. */
  datatype Result<+T> = Failure | Success(value: T)

  /** Map lookup with the zero value Go returns for a missing key. */
  function Lookup(m: map<string, int>, key: string): int {
    if key in m then m[key] else 0
  }
}
