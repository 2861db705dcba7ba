/** A value that may be absent: React state that has not been set yet, or an
    object field that the source leaves undefined. */
module Optional {
  datatype Option<T> = None | Some(value: T)
}
