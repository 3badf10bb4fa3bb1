/**
 * The exceptions the event bus raises (EXCEPTION_RAISE with a category name),
 * plus std::bad_variant_access from std::get, as values. Each constructor
 * carries the part of the message the model keeps: the name it complains about.
 */
module Exceptions {

  datatype Error =
    | IllegalName(name: string)
    | ProductExists(name: string)
    | TypeMismatch(typeName: string)
    | ProductNotFound(name: string)
    | ProductAmbiguous(name: string, candidates: seq<string>)
    | InvalidRegex(pattern: string)
    | RegexErr(pattern: string)
    | BadVariantAccess(typeName: string)

  /** The result of an operation that returns a value or raises. */
  datatype Result<+T> = Ok(value: T) | Err(error: Error)

  /** The result of an operation that returns nothing or raises. */
  datatype Outcome = Pass | Fail(error: Error)
}
