/**
  The error record of the `errors` package: an error is a numeric code plus a
  category. The wrapped Go error (and so the message text) is not modelled.
 */
module Errors {

  /** `errors.Code`, a Go `int`. */
  type Code = int

  const UnknownCode: Code := -1

  /** The category of an error: a struct holding one string. */
  datatype ErrorType = ErrorType(t: string)

  const ErrorTypeUnknown := ErrorType("unknown")
  const ErrorTypeAuthorization := ErrorType("authorization")
  const ErrorTypeIncorrectInput := ErrorType("incorrect-input")
  const ErrorTypeNotFound := ErrorType("not-found")

  /** The four categories the package declares. */
  predicate IsDeclaredType(t: ErrorType) {
    t == ErrorTypeUnknown || t == ErrorTypeAuthorization
    || t == ErrorTypeIncorrectInput || t == ErrorTypeNotFound
  }

  datatype Error = Error(code: Code, errorType: ErrorType) {

    /** The code the error was built with. */
    function Code(): Code
    {
      code
    }

    /** The category the error was built with, unchanged. */
    function ErrorType(): ErrorType
    {
      errorType
    }
  }

  function NewUnknownError(code: Code): (e: Error)
    ensures e.Code() == code && e.ErrorType() == ErrorTypeUnknown
  {
    Error(code, ErrorTypeUnknown)
  }

  /** Despite its name, this constructor gives the "authorization" category. */
  function NewInvalidFileError(code: Code): (e: Error)
    ensures e.Code() == code && e.ErrorType() == ErrorTypeAuthorization
    ensures e.ErrorType().t == "authorization"
  {
    Error(code, ErrorTypeAuthorization)
  }

  function NewIncorrectInputError(code: Code): (e: Error)
    ensures e.Code() == code && e.ErrorType() == ErrorTypeIncorrectInput
  {
    Error(code, ErrorTypeIncorrectInput)
  }

  function NewNotFoundError(code: Code): (e: Error)
    ensures e.Code() == code && e.ErrorType() == ErrorTypeNotFound
  {
    Error(code, ErrorTypeNotFound)
  }

  /** The four categories are pairwise distinct, so a category tells the constructor apart. */
  lemma CategoriesDistinct()
    ensures ErrorTypeUnknown != ErrorTypeAuthorization
    ensures ErrorTypeUnknown != ErrorTypeIncorrectInput
    ensures ErrorTypeUnknown != ErrorTypeNotFound
    ensures ErrorTypeAuthorization != ErrorTypeIncorrectInput
    ensures ErrorTypeAuthorization != ErrorTypeNotFound
    ensures ErrorTypeIncorrectInput != ErrorTypeNotFound
  {
  }

  /**
    An error built by any of the four constructors gives back its code and a
    declared category, and the category determines which constructor built it.
   */
  lemma ConstructorsAreDistinguishable(c1: Code, c2: Code)
    ensures NewUnknownError(c1) != NewIncorrectInputError(c2)
    ensures NewUnknownError(c1) != NewNotFoundError(c2)
    ensures NewUnknownError(c1) != NewInvalidFileError(c2)
    ensures NewIncorrectInputError(c1) != NewNotFoundError(c2)
    ensures NewIncorrectInputError(c1) != NewInvalidFileError(c2)
    ensures NewNotFoundError(c1) != NewInvalidFileError(c2)
    ensures IsDeclaredType(NewUnknownError(c1).ErrorType())
    ensures IsDeclaredType(NewIncorrectInputError(c1).ErrorType())
    ensures IsDeclaredType(NewNotFoundError(c1).ErrorType())
    ensures IsDeclaredType(NewInvalidFileError(c1).ErrorType())
  {
    CategoriesDistinct();
  }
}
