/** The `None`-or-value wrapper used for Python's `None` results and optional fields. */
module Optional {

  datatype Option<+T> = None | Some(value: T)
}
