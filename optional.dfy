/** The absence of a value, used where the benchmark calls `unwrap` on an
    operation that can fail: `None` stands for the failure. */
module Optional {
  datatype Option<T> = None | Some(value: T)
}
