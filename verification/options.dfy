/** The source signals "absent" with Python's None; the model uses Option. */
module Options {

  datatype Option<+T> = None | Some(value: T)
}
