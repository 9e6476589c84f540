/** Disk blocks.  A block is BSIZE = 1024 bytes; the log only copies blocks and
    lays an array of ints over one of them, so a block is kept as its 256
    32-bit words. */
module Blocks {
  const WORD_LIMIT := 0x1_0000_0000
  const WORDS_PER_BLOCK := 256

  type Word32 = x: nat | x < WORD_LIMIT
  type Block = s: seq<Word32> | |s| == WORDS_PER_BLOCK witness seq(WORDS_PER_BLOCK, _ => 0)

  const ZERO_BLOCK: Block := seq(WORDS_PER_BLOCK, _ => 0)

  /** A history of disk writes, latest last. */
  datatype Writes = NoWrites | Then(before: Writes, bno: nat, data: Block)
}
