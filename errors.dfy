/** The error taxonomy of GetOpt/Enums/GetOptError.cs, used as the failure kind of parsing. */
module Errors {

  datatype GetOptError =
    | NoError
    | TypeMismatch
    | OutOfRange
    | UnknownOption
    | MustHaveArgument
    | MustNotHaveArgument
    | RegexFailed
    | CustomValidationFailed
  {
    /** The numeric value the enum member has in the source. */
    function Code(): (n: nat)
      ensures n <= 7
      ensures n == 0 <==> this == NoError
    {
      match this
      case NoError => 0
      case TypeMismatch => 1
      case OutOfRange => 2
      case UnknownOption => 3
      case MustHaveArgument => 4
      case MustNotHaveArgument => 5
      case RegexFailed => 6
      case CustomValidationFailed => 7
    }
  }
}
