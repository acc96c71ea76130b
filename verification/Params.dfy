// param.h: the sizes of the log and of the buffer cache.
module Params {
  const MAXOPBLOCKS := 10
  const LOGSIZE := 3 * MAXOPBLOCKS
  const NBUF := 3 * MAXOPBLOCKS
}
