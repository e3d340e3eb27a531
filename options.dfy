/** The optional value used wherever the component deals in PHP `null`. */
module Options {

  /** `None` stands for PHP `null` (an unset default, an unresolved action). */
  datatype Option<+T> = None | Some(value: T)
}
