/** Bytes as the writer's Uint8Array holds them. */
module Bytes {

  type byte = bv8

  /** The n-th byte, counting up from 0: the byte whose value is n. */
  function NthByte(n: nat): byte
    requires n < 256
  {
    if n == 0 then 0 else NthByte(n - 1) + 1
  }

  /** The low eight bits of a number. */
  function ByteOf(n: nat): byte {
    NthByte(n % 256)
  }

  function ValueOf(b: byte): (n: nat)
    ensures n < 256
  {
    b as int
  }

  lemma {:induction false} NthValue(n: nat)
    requires n < 256
    ensures NthByte(n) as int == n
  {
    if n > 0 {
      NthValue(n - 1);
    }
  }

  lemma ValueOfByteOf(n: nat)
    ensures ValueOf(ByteOf(n)) == n % 256
  {
    NthValue(n % 256);
  }
}
