/** Spreadsheet cells as the matcher sees them: a cell either holds text or is
    missing (what pandas reports as NaN). */
module Sheet {

  datatype Option<+T> = None | Some(value: T)

  /** One cell of an uploaded sheet. */
  type Cell = Option<string>
}
