/** The named functions and constants of the calculator (src/item.rs). */
module Items {

  /** Prefix functions; `UnaryMinus` is the one the coalescer makes out of a prefix `-`. */
  datatype Function =
    | Sine | Cosine | Tangent
    | InverseSine | InverseCosine | InverseTangent
    | AbsoluteValue | SquareRoot | CubeRoot
    | NaturalLogarithm | BinaryLogarithm | DecimalLogarithm
    | UnaryMinus

  datatype Constant = E | Pi
}
