/** An optional value. `None` stands for a value that is absent; in a row it is a
    cell the CSV reader turns into NaN: an empty cell, or one spelled as one of the
    reader's missing-value markers ("NA", "N/A", "NULL", "NaN", "nan", "#N/A", ...). */
module Opt {
  datatype Option<+T> = None | Some(value: T)
}
