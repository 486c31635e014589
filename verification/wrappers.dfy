/** Failure-carrying results used wherever the JavaScript source throws or returns `null`. */
module Wrappers {

  /** `None` stands for a JavaScript `null`/`undefined` result or an absent option. */
  datatype Option<+T> = None | Some(value: T) {
    function GetOr(default: T): T
    {
      match this
      case Some(v) => v
      case None => default
    }
  }

  /** The errors the modelled functions can raise (the source throws a JavaScript `Error`/`TypeError`). */
  datatype Error =
    | NotAnArray          // `.filter`, `.map`, `icepick.splice` or a spread applied to a non-array
    | InvalidBounds       // `move` with an index at or past the end of the collection
    | MissingSegment      // descending through `undefined`/`null` while walking a metadata path
    | NotAForm            // descending through a record that carries no `$form`
    | NotAnObject         // a plain object was required: the development-mode form-state check, or `in` on a primitive
    | FormNotFound        // the `invariant` in `getFieldAndForm`
    | NullAccess          // reading a property of `undefined`/`null`

  datatype Result<+T> = Ok(value: T) | Err(error: Error)
}
