/** Values and failure datatypes shared by the services of the pipeline. */
module Common {

  /** Python's `None` or a present value. */
  datatype Option<+T> = None | Some(value: T)

  /** A return value, or the exception a Python function raises instead of returning. */
  datatype Result<+T, +E> = Success(value: T) | Failure(error: E)

  /** The exceptions the modelled code can raise. `KeyError(k)` is a `dict[k]`
      lookup of a missing key; `TypeError` is a `<` between a string and a number. */
  datatype Error = KeyError(key: string) | TypeError

  /** A scalar of a JSON document or a CAD parameter map: a number or a string. */
  datatype Value = Num(x: real) | Text(s: string)
}
