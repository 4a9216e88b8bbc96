/** A value that may be absent: the model of a TypeScript `T | null` state slot. */
module Optional {

  datatype Option<+T> = None | Some(value: T)
}
