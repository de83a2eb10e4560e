/** The "no text" versus "some text" distinction that the tatweel remover
    keeps apart (Python's `None` versus a `str`). */
module Options {

  datatype Option<+T> = None | Some(value: T)
}
