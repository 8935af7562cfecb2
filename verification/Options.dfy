module Options {

  /** A value, or none: an undefined Perl value, an absent map entry, `Option` of Rust. */
  datatype Option<+T> = None | Some(value: T)
}
