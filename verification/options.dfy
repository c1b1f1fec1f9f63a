/**
 * The optional value used wherever the pages keep "nothing yet": a stored entry that
 * may be absent, a number that may fail to parse, a check that may find no problem.
 */
module Options {
  datatype Option<T> = None | Some(value: T)
}
