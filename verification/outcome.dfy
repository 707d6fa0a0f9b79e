/** Shared result and error types of the row canonicaliser. */
module Outcome {

  datatype Option<T> = None | Some(value: T)

  /** The ways canonicalisation of a data dump stops. Each one ends the whole run. */
  datatype Error =
    | UnknownTable(table: string)           // the schema map has no entry for the table (KeyError)
    | TooManyCells(unmatched: seq<string>)  // the cells of a row beyond its table's last column (IndexError)
    | BadInteger(cell: string)              // an 'integer' cell that is not an integer literal (ValueError)
    | BadNumeric(cell: string)              // a 'numeric' cell that is not a decimal literal (InvalidOperation)
    | TruncatedBlock(start: string)         // the input ends inside the COPY block this line starts

  datatype Result<T> = Ok(value: T) | Err(error: Error)
}
