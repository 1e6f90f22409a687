/** The optional value used wherever the source would produce `undefined`, `NaN`
    or throw on malformed input. */
module Wrappers {

  datatype Option<+T> = None | Some(value: T)

}
