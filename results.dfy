/** Outcomes of the evaluator and the converter: a value, or the Python
    exception that the Python code would raise instead. */
module Results {

  /** The exceptions the modelled code can raise. */
  datatype Error =
    | ZeroDivisionError  // a float division by a zero union area
    | IndexError         // a row with fewer fields than the code reads
    | TypeError          // an unknown split name: the size map is None
    | KeyError           // a label name missing from the class-id map

  datatype Result<+T> = Ok(value: T) | Err(error: Error)

  datatype Option<+T> = None | Some(value: T)
}
