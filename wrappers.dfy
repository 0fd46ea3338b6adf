/** Option and Result values, and the error conditions the generator can raise. */
module Wrappers {

  datatype Option<+T> = None | Some(value: T)

  /** Every exception the modelled code can raise, one constructor per cause. */
  datatype Error =
    | TooFewColumns(found: nat)                  // iloc with a column list past the sheet's end
    | MissingColumn(name: string)                // selecting a column that neither block has
    | NotAnInteger(column: string)               // astype(int) on a missing or text cell
    | NotInitialised                             // fusion.py: records were never parsed
    | StartWellNotFound(well: string)
    | MultipleStartWells
    | NotEnoughWells
    | IdsExhausted                               // the supplied id stream ran out
    | KeyError(key: string)                      // dict lookup of a missing key
    | WellNotFound(well: string)                 // update_well: no well with that name
    | ChannelNotFound(channel: string, well: string)
    | NotInWellOrder(well: string)               // list.index in the sort key

  datatype Result<+T> = Ok(value: T) | Err(error: Error) {
    predicate IsFailure() { Err? }
    function PropagateFailure<U>(): Result<U> requires Err? { Err(error) }
    function Extract(): T requires Ok? { value }
  }
}
