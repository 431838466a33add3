/**
 * The exceptions that reach the global exception handler, as one datatype.
 * `NasaNotFound` is the application's own `NasaNotFoundException`; the
 * framework's `AccessDeniedException`, `NoResourceFoundException` and
 * `HttpMessageNotWritableException` have their own handlers; every other
 * exception is `Other`, carrying `getMessage()`, which Java allows to be null.
 */
module Errors {
  import opened Wrappers
  import opened Strings

  datatype Exception =
    | NasaNotFound(message: string)
    | AccessDenied
    | NoResourceFound
    | HttpMessageNotWritable
    | Other(detail: Option<string>)

  /** The message of the strict list operation when nothing is stored. */
  const NoApodsMessage: string := "No Apods Found. Try Adding Apod To The Database"

  /** The message for an id that is not in the store. */
  function NoApodWithIdMessage(id: int): (m: string)
  {
    "No Apod Found With Id: " + IntToString(id)
  }

  /** The not-found message names its id: two ids give the same message only when they are equal. */
  lemma NoApodWithIdMessageInjective(a: int, b: int)
    ensures NoApodWithIdMessage(a) == NoApodWithIdMessage(b) <==> a == b
  {
    if NoApodWithIdMessage(a) == NoApodWithIdMessage(b) {
      var p := "No Apod Found With Id: ";
      assert IntToString(a) == NoApodWithIdMessage(a)[|p|..];
      assert IntToString(b) == NoApodWithIdMessage(b)[|p|..];
      IntToStringInjective(a, b);
    }
  }
}
