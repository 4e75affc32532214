/** The optional value used wherever the dashboard reads something that may be absent:
    an embedded token, the result of `find`, a price string that `parseFloat` turns into NaN. */
module Wrappers {

  datatype Option<+T> = None | Some(value: T)
}
