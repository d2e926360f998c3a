/** Absent-or-present values: `None` stands for the `null` a lookup returns. */
module Optional {

  datatype Option<+T> = None | Some(value: T)
}
