/** The Java exceptions the modelled code throws, as values. A member that may throw returns
    a `Result<_, Exception>`; the message is kept where the code fixes it. */
module Exceptions {
  datatype Exception =
    | NullPointer(message: string)
    | IllegalArgument(message: string)
    | IllegalState(message: string)
    | StringIndexOutOfBounds
    | StackOverflow
}
