/** The optional value used wherever the PHP code returns `false` or leaves a
    capture group unset. */
module Optional {
  datatype Option<+T> = None | Some(value: T)
}
