/** The failures the XBee engines raise, and a Result type that carries them.
    Each error tag names the Python exception the source raises for it; the
    ones marked "divergence" stand for inputs on which the source hangs or
    crashes outside its own error handling. */
module Results {
  import opened Bytes

  datatype Error =
    | UnknownCommand(name: string)                       // KeyError: api_commands[cmd]
    | MissingField(name: string, len: nat)               // KeyError: required field not given
    | FieldLengthMismatch(name: string, expected: nat, actual: nat)  // ValueError
    | EmptyPayload                                       // IndexError: data[0] of an empty payload
    | UnknownResponse(id: byte)                          // KeyError: unrecognised response id
    | CommandFrameEchoed(id: byte, command: string)      // CommandFrameException, a KeyError
    | ShorterThanExpected                                // ValueError "shorter than expected"
    | LongerThanExpected                                 // ValueError "longer than expected"
    | MissingTerminator                                  // divergence: the scan for 0x00 never ends
    | MissingKey(key: string)                            // KeyError: info[key] on an absent key
    | NotBytes(key: string)                              // AttributeError/TypeError: value is not bytes
    | TruncatedIoSample                                  // divergence: IndexError/struct.error on short IO data
    | NdLengthMismatch(length: nat, read: nat)           // ValueError "Improper ND response length"
    | LengthTooLarge                                     // struct.error: length does not fit "> h"
    | ShortFrame                                         // struct.error: fewer than two length bytes
    | InvalidChecksum                                    // ValueError "Invalid checksum on given frame"

  /** The errors that are KeyError or one of its subclasses in the source. */
  predicate IsKeyError(e: Error)
  {
    e.UnknownCommand? || e.MissingField? || e.UnknownResponse? || e.CommandFrameEchoed? || e.MissingKey?
  }

  datatype Result<+T> = Ok(value: T) | Err(error: Error) {
    predicate IsFailure() { Err? }

    function PropagateFailure<U>(): Result<U>
      requires Err?
    {
      Err(error)
    }

    function Extract(): T
      requires Ok?
    {
      value
    }
  }

  /** Puts p in front of a successful result and passes an error through. */
  function Prefix<T>(p: seq<T>, r: Result<seq<T>>): Result<seq<T>>
  {
    match r
    case Ok(s) => Ok(p + s)
    case Err(e) => Err(e)
  }
}
