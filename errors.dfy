/** The ways a run of the machine can fail. The first eight are the
    exceptions the C++ code throws (their messages are given); the last three
    stand for behaviour that C++ leaves undefined and that this model turns
    into explicit failures instead. */
module Errors {

  datatype Fault =
    | StackOverflow         // "stack overflow": push onto a full stack
    | StackUnderflow        // "stack underflow": pop or unary apply on an empty stack
    | IndexOutOfBounds      // "index out of bounds": slot outside [0, size)
    | RemoveTooMany         // "remove too many elements": resize below empty
    | AddTooMany            // "add too many elements": resize beyond capacity
    | NotTwoArguments       // "not two arguments for binary"
    | UnknownOperation      // "unknown operation": opr selector outside 0..12
    | OutOfCodeSegment      // "out of code segment": program counter outside the code
    | InvalidCommand        // command nibble 8..15, which names no Command
    | DivisionByZero        // `/` or `%` with a zero divisor
    | ArithmeticOverflow    // a result that does not fit a 32-bit int

  datatype Result<+T> = Ok(value: T) | Err(fault: Fault)
}
