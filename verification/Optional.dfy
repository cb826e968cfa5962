/** The absent-or-present value used for the source's `null` results. */
module Optional {

  datatype Option<+T> = None | Some(value: T)
}
