/** The optional value used for pandas' missing values (NaT, a `None`
    filter argument). */
module Options {
  datatype Option<T> = None | Some(value: T)
}
