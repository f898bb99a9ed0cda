/** The bit counter of BLAKE and ECHO. */
module Counters {

  /** The counter for block `i` of a message of `bits` bits: the message bits up to the end of the block,
      or zero when the block holds no message bit. */
  function Count(blockBits: nat, bits: nat, i: nat): nat {
    if blockBits * i >= bits then 0
    else if blockBits * (i + 1) <= bits then blockBits * (i + 1)
    else bits
  }

  /** The counter of the block in which the message ends, and of a block after it. */
  lemma LastCount(blockBits: nat, k: nat, more: nat)
    requires more < blockBits
    ensures Count(blockBits, blockBits * k + more, k) == if more == 0 then 0 else blockBits * k + more
    ensures Count(blockBits, blockBits * k + more, k + 1) == 0
  {
    assert blockBits * (k + 1) == blockBits * k + blockBits;
  }
}
