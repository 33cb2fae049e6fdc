/** The optional value used wherever the application holds something that may be
    absent: an undefined cache, a missing description, a failed remote answer. */
module Options {

  datatype Option<+T> = None | Some(value: T)
}
