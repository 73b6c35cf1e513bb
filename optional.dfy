/** The absent-or-present value used wherever the source has `T | null`. */
module Optional {

  datatype Option<T> = None | Some(value: T)

}
