/** The error codes of err.h that the modelled code returns or tests. */
module Err {
  const ERR_OK := 0
  const ERR_MEM := -1
  const ERR_BUF := -2
  const ERR_TIMEOUT := -3
  const ERR_INPROGRESS := -5
  const ERR_VAL := -6
  const ERR_WOULDBLOCK := -7
  const ERR_ISCONN := -9
  const ERR_CLSD := -12
  const ERR_CONN := -13
  const ERR_ARG := -14

  /** ERR_IS_FATAL. */
  predicate Fatal(err: int) { err < ERR_ISCONN }
}
