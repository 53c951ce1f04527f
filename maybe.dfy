/** The optional value used wherever the modelled code can fail: a Python
    exception (an index out of range, a failed `int()` conversion) becomes
    `None`. */
module Maybe {

  datatype Option<T> = None | Some(value: T)

}
