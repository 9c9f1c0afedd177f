/** An optional value: a C pointer that may be NULL, a peer that may not
    have been learned yet, an allocation that may fail. */
module Optional {
  datatype Option<T> = None | Some(value: T)
}
