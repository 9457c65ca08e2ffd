/** The usual Some/None wrapper, used for lookups that may find nothing and
    for the storage slot that may be empty. */
module Optional {

  datatype Option<+T> = None | Some(value: T)

}
