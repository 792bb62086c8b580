/** The optional value used for every nullable field of the tracker: Python's
    `None` is `None`, any other value `v` is `Some(v)`. */
module Optional {

  datatype Option<+T> = None | Some(value: T)
}
