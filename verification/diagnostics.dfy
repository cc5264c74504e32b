/** What an annotation processor can do instead of producing code. */
module Diagnostics {
  /** A message printed through the Messager; an Error fails the compilation. */
  datatype Diagnostic = Error(message: string, subject: string) | Warning(message: string, subject: string)

  /** An exception that escapes the processor and aborts it. */
  datatype Thrown =
    | NullPointer
    | IllegalArgument(message: string)
    | Assertion(message: string)

  /** Why no code was produced for an element. */
  datatype GenFailure = Reported(diagnostic: Diagnostic) | Threw(thrown: Thrown)
}
