/** An optional value: Java's nullable references and absent bundle entries. */
module Optional {
  datatype Option<T> = None | Some(value: T)
}
