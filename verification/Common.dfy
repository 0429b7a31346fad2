/** Datatypes shared by the models. */
module Common {

  datatype Option<T> = None | Some(value: T)

  /** A floating-point value: an exact real, or one of the values that are not finite. */
  datatype Float = Finite(value: real) | PlusInfinity | MinusInfinity | NaN
}
