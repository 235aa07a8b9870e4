/** The `T | null` results of the source, as an explicit option type. */
module Options {

  datatype Option<+T> = None | Some(value: T)

}
