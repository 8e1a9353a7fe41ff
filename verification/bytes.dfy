/** Bytes as numbers and as words of eight bits. */
module Bytes {

  type Byte = b: nat | b < 256

  lemma BitsBelow(v: Byte)
    ensures (v as bv8) as int <= v
  {
  }

  lemma BitsAbove(v: Byte)
    ensures (v as bv8) as int >= v
  {
  }

  /** A byte comes back from its bits. */
  lemma ByteBits(v: Byte)
    ensures (v as bv8) as int == v
  {
    BitsBelow(v);
    BitsAbove(v);
  }
}
