/** Small datatypes shared by the whole model. */
module Common {

  /** An optional value; `None` stands for Python's `None`, JavaScript's `null`/`NaN`, or an absent entry. */
  datatype Option<+T> = None | Some(value: T)
}
