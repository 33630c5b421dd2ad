/** The optional value used wherever the source returns `(value, ok)` or
    `(value, err)` and the caller only looks at success. */
module Options {

  datatype Option<+T> = None | Some(value: T)
}
