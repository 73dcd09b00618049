/** An optional value: what a component handler emits to its parent, if anything. */
module Optional {
  datatype Option<+T> = None | Some(value: T)
}
