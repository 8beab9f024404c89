/** The Option type the model uses for Rust's `Option` and for results whose
    failure is a panic (an `unwrap` on `None` or `Err`). */
module Options {

  datatype Option<+T> = None | Some(value: T)

}
