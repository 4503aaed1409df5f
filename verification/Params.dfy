/** Sizes shared by the kernel's components. */
module Params {
  /** The most blocks one file-system operation may log. */
  const MAXOPBLOCKS := 10
  /** The most data blocks the on-disk log can hold. */
  const LOGBLOCKS := 3 * MAXOPBLOCKS
  /** Bytes in a disk block, and the number of 32-bit words that is. */
  const BSIZE := 1024
  const BLOCK_WORDS := BSIZE / 4
  /** Buffers in the block cache. */
  const NBUF := 3 * MAXOPBLOCKS
  /** Bytes in a page, the end of the user addresses, and where mapped areas start. */
  const PGSIZE := 4096
  const MAXVA := 0x40_0000_0000
  const MMAPBASE := 0x4000_0000
}
