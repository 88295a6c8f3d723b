/** A value that may be missing: the model's stand-in for JavaScript's `null`
    where the page reads a DOM attribute or a checked input that may not exist. */
module Options {

  datatype Option<T> = None | Some(value: T)
}
