/** Small value types that the rest of the model shares: Rust's `Option` and `Ordering`. */
module Prelude {

  datatype Option<+T> = None | Some(value: T)

  /** The result of comparing two values, as `std::cmp::Ordering`. */
  datatype Ordering = Less | Equal | Greater

  /** The ordering seen from the other operand's side. */
  function Reverse(o: Ordering): Ordering {
    match o
    case Less => Greater
    case Equal => Equal
    case Greater => Less
  }
}
