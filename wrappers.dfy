/** An optional value: `None` stands for a JavaScript `undefined` (or, for a parsed
    number, `NaN`). */
module Wrappers {

  datatype Option<+T> = None | Some(value: T)
}
