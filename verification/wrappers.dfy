/** The optional-value datatype used for cells that may be missing. */
module Wrappers {

  /** A cell value that is either present (`Some`) or missing (`None`):
      pandas' NaN / NaT after `errors="coerce"`, or an empty label. */
  datatype Option<+T> = None | Some(value: T)
}
