/** The optional value used wherever the C code passes a pointer that may be NULL
    or an out-parameter that is only written on some paths. */
module Options {

  datatype Option<+T> = None | Some(value: T)
}
