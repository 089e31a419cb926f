/** The optional value used wherever the scraper may or may not find something. */
module Wrappers {

  datatype Option<+T> = None | Some(value: T)
}
