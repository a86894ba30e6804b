/** Failure-compatible wrappers and the exceptions the modelled code can raise. */
module Results {

  datatype Option<+T> = None | Some(value: T)

  /** One constructor per way the Python code raises, named after its cause. */
  datatype Fault =
    | FalseyPath                    // check_log_file: the log path is empty
    | MalformedJson                 // JSONDecodeError: the file is not JSON
    | UnsupportedPayload            // process_input_data: neither a dict nor a string (TypeError)
    | BadTimestamp(key: string)     // a key that neither float() nor the ISO parser accepts (ValueError)
    | NotAMapping                   // .items(), .update, `in` or [] on a value of the wrong JSON type
    | MissingKey(key: string)       // KeyError
    | NotComparable                 // `>` between a non-number and an int (TypeError)
    | EmptyLog                      // IndexError: [0] of the sorted entries of an empty health log
    | MalformedToken(token: string) // `name, t = arg.split("=")` on a token with two or more '='
    | MissingCommand                // text.split("/sleep")[1] when the text has no "/sleep"

  datatype Result<+T> = Ok(value: T) | Err(fault: Fault) {
    predicate IsFailure() { Err? }

    function PropagateFailure<U>(): Result<U>
      requires Err?
    {
      Err(fault)
    }

    function Extract(): T
      requires Ok?
    {
      value
    }
  }
}
