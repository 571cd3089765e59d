/** The missing-value convention of the pipeline: pandas' NaN and Python's
    `None` are both modelled as `None`. */
module Wrappers {

  datatype Option<+T> = None | Some(value: T)
}
