/**
 * The Matyas-Meyer-Oseas hash as section B.6 of ZigBee 05-3474 defines it for messages below 2^13 octets, and the keyed hash of
 * RFC 2104, section 2, octet by octet. Nothing here is shared with the model of the code but the types.
 */
module Mmo {
  import Bytes

  type Octet = Bytes.byte

  /** A block cipher that takes its key as first argument; nothing is assumed about it. */
  type KeyedCipher = (Bytes.Block, Bytes.Block) -> Bytes.Block

  /** Octet k of a message that is padded to c blocks: a one bit, zeros, and the length in bits in the last two octets. */
  function Padded(input: seq<Octet>, c: nat, k: nat): Octet {
    if k < |input| then input[k]
    else if k == |input| then 0x80
    else if k + 2 == 16 * c then ((8 * |input| / 256) % 256) as Octet
    else if k + 1 == 16 * c then (8 * |input| % 256) as Octet
    else 0
  }

  /** Block M_i, counted from 0. */
  function M(input: seq<Octet>, c: nat, i: nat): (m: Bytes.Block) {
    seq(16, j requires 0 <= j < 16 => Padded(input, c, 16 * i + j))
  }

  /** Hash_0 = 0, Hash_i = E(Hash_i-1, M_i) XOR M_i, with the former hash as key. */
  function H(E: KeyedCipher, input: seq<Octet>, c: nat, i: nat): (h: Bytes.Block) {
    if i == 0 then [0, 0, 0, 0, 0, 0, 0, 0, 0, 0, 0, 0, 0, 0, 0, 0]
    else
      var m := M(input, c, i - 1);
      var e := E(H(E, input, c, i - 1), m);
      seq(16, j requires 0 <= j < 16 => e[j] ^ m[j])
  }

  /** The fewest blocks that hold the message, the bit and the length. */
  function BlockCount(n: nat): nat { (n + 18) / 16 }

  function Hash(E: KeyedCipher, input: seq<Octet>): Bytes.Block {
    H(E, input, BlockCount(|input|), BlockCount(|input|))
  }

  function Masked(key: Bytes.Block, pad: Octet): (r: Bytes.Block) {
    seq(16, j requires 0 <= j < 16 => key[j] ^ pad)
  }

  /** H(K XOR opad, H(K XOR ipad, text)). */
  function Hmac(E: KeyedCipher, key: Bytes.Block, text: seq<Octet>): Bytes.Block {
    Hash(E, Masked(key, 0x5c) + Hash(E, Masked(key, 0x36) + text))
  }
}
