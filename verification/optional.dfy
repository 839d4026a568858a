/** The absent-or-present value used where the source returns `null`/`undefined`
    or `find(...) || null`. */
module Optional {

  datatype Option<+T> = None | Some(value: T)
}
