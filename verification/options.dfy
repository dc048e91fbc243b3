/** The outcome of a step that may produce nothing: a blank pattern that
    gives no expression, regex text outside the emitted forms, a file that
    cannot be read. */
module Options {
  datatype Option<+T> = None | Some(value: T)
}
