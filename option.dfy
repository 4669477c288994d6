/** The optional value used wherever JavaScript yields `undefined` or a parse can fail. */
module Maybe {
  datatype Option<+T> = None | Some(value: T)
}
