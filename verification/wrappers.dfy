/** A nullable value. `None` stands for the null pointer wherever an address is optional. */
module Wrappers {

  datatype Option<+T> = None | Some(value: T)
}
