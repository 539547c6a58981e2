/** kernel/param.h. */
module Params {
  const NPROC := 64
  const NCPU := 8
  const MAXOPBLOCKS := 10
  const LOGSIZE := 30
  const FSSIZE := 2000
}
