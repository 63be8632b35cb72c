/** The conventional Some/None wrapper, used where the source yields `undefined`
    or a missing entry. */
module Options {
  datatype Option<+T> = None | Some(value: T)
}
