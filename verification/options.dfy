/** Values that may be absent: the result of a dictionary lookup that does not
    raise, and the numeric reading of a setting that has none. */
module Options {

  datatype Option<T> = None | Some(value: T)
}
