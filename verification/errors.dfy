/** The exceptions the core can raise, as one closed datatype, and the result
    type every fallible operation returns instead of throwing. */
module Errors {

  /** One variant per exception class. The first six mirror the hierarchy
      rooted at `CustomException`; the last four are standard-library
      exceptions that reach callers of the core unchanged. Each carries the
      text `what()` returns. */
  datatype Error =
    | Custom(msg: string)              // CustomException itself
    | EntryError(msg: string)          // EntryException
    | CryptographyError(msg: string)   // CryptographyException
    | FileError(msg: string)           // FileException
    | InvalidPassword(msg: string)     // InvalidPasswordException
    | CorruptedVault(msg: string)      // CorruptedVaultException
    | InvalidArgument(msg: string)     // std::invalid_argument
    | OutOfRange(msg: string)          // std::out_of_range
    | RuntimeError(msg: string)        // std::runtime_error
    | LengthError(msg: string)         // std::length_error
  {
    /** True for the classes derived from `CustomException`. */
    predicate IsCustomException()
    {
      !(InvalidArgument? || OutOfRange? || RuntimeError? || LengthError?)
    }
  }

  /** A value or the exception raised instead of producing it. */
  datatype Result<+T> = Ok(value: T) | Err(error: Error)
  {
    predicate IsFailure()
    {
      Err?
    }

    function PropagateFailure<U>(): Result<U>
      requires Err?
    {
      Err(error)
    }

    function Extract(): T
      requires Ok?
    {
      value
    }
  }

  /** Completion of a `void` step: normal return or an exception. */
  datatype Outcome = Pass | Fail(error: Error)
}
