/** Failure-carrying wrappers and the error kinds of the converter. */
module Base {

  datatype Option<+T> = None | Some(value: T)

  /** The errors the converter can report. */
  datatype Error =
    /** "Invalid JSON Pointer %q": malformed pointer text, or a pointer that does not resolve. */
    | InvalidPointer(text: string)
    /** "Unknown kind: ...": the flattener met a value of a kind it does not handle (a null). */
    | UnknownKind
    /** "Unsupported JSON structure.": the top-level value is neither an object nor an array. */
    | UnsupportedStructure
    /** The run-time panic of dot-bracket rendering when the first token is an index. */
    | IndexOutOfRangePanic
    /** The destination refused a row. */
    | WriteFailure

  datatype Result<+T> = Ok(value: T) | Err(error: Error)
}
