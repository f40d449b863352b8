/** Failure values shared by the model of the short-burst script.
    The script has no error handling of its own: every fault below ends the run.
    The model returns the fault instead of crashing. */
module Outcomes {

  datatype Option<T> = None | Some(value: T)

  /** The four ways the script stops with an exception. */
  datatype Fault =
    | MissingNode(node: int)   // KeyError: node index v of range(len(nodes)) is not a node id
    | ZeroVap(position: nat)   // ZeroDivisionError: the zipped VAP at this position is 0
    | MmUnbound                // NameError: `mm` is appended before any step ever qualified
    | NoPlanToCarry            // IndexError: `max1[1]` on the sentinel `[0]` of an empty burst

  datatype Result<T> = Ok(value: T) | Err(error: Fault)
}
