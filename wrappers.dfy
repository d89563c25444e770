/** The optional value used for absent dialog answers, missing files and empty searches. */
module Wrappers {
  datatype Option<+T> = None | Some(value: T)
}
