/** Octets, blocks and the byte orders shared by the protocol modules. */
module Bytes {

  type byte = bv8

  type Block = s: seq<byte> | |s| == 16 witness [0, 0, 0, 0, 0, 0, 0, 0, 0, 0, 0, 0, 0, 0, 0, 0]

  /** A block cipher under a fixed key; nothing is assumed about it. */
  type Cipher = Block -> Block

  function Zeros(n: nat): (r: seq<byte>)
    ensures |r| == n
    ensures forall i :: 0 <= i < n ==> r[i] == 0
  {
    seq(n, _ => 0 as byte)
  }

  function Xor(a: seq<byte>, b: seq<byte>): (r: seq<byte>)
    requires |a| == |b|
    ensures |r| == |a|
    ensures forall i :: 0 <= i < |a| ==> r[i] == a[i] ^ b[i]
  {
    seq(|a|, i requires 0 <= i < |a| => a[i] ^ b[i])
  }

  /** The big-endian form of a 16-bit register that holds n modulo 65536. */
  function U16B(n: nat): (r: seq<byte>)
    ensures |r| == 2
  {
    [((n / 256) % 256) as byte, (n % 256) as byte]
  }

  function Min(x: int, y: int): int {
    if x < y then x else y
  }

  /** Appends the fewest zero octets that fill the last block. */
  function PadBlock(s: seq<byte>): (r: seq<byte>)
    ensures |r| % 16 == 0 && |s| <= |r| < |s| + 16
    ensures r[..|s|] == s
    ensures forall i :: |s| <= i < |r| ==> r[i] == 0
  {
    s + Zeros((16 - |s| % 16) % 16)
  }

  /** Cuts whole blocks. */
  function Chunks(s: seq<byte>): (r: seq<Block>)
    requires |s| % 16 == 0
    ensures |r| == |s| / 16
    ensures forall i :: 0 <= i < |r| ==> r[i] == s[16 * i..16 * i + 16]
  {
    seq(|s| / 16, i requires 0 <= i < |s| / 16 => s[16 * i..16 * i + 16])
  }

  /** Post-increment of an 8 bit and of a 32 bit counter register. */
  function Next8(b: byte): byte { b + 1 }

  function Next32(c: bv32): bv32 { c + 1 }

  // ----- little-endian registers

  function U16L(v: bv16): (r: seq<byte>)
    ensures |r| == 2
  {
    [(v & 0xff) as byte, (v >> 8) as byte]
  }

  function U32L(v: bv32): (r: seq<byte>)
    ensures |r| == 4
  {
    [(v & 0xff) as byte, ((v >> 8) & 0xff) as byte, ((v >> 16) & 0xff) as byte, (v >> 24) as byte]
  }

  function U64L(v: bv64): (r: seq<byte>)
    ensures |r| == 8
  {
    U32L((v & 0xffff_ffff) as bv32) + U32L((v >> 32) as bv32)
  }

  function Join16(low: byte, high: byte): bv16 {
    (low as bv16) | ((high as bv16) << 8)
  }

  function GetU16L(s: seq<byte>, i: nat): bv16
    requires i + 2 <= |s|
  {
    Join16(s[i], s[i + 1])
  }

  function GetU32L(s: seq<byte>, i: nat): bv32
    requires i + 4 <= |s|
  {
    (s[i] as bv32) | ((s[i + 1] as bv32) << 8) | ((s[i + 2] as bv32) << 16) | ((s[i + 3] as bv32) << 24)
  }

  lemma SameU16L(s: seq<byte>, t: seq<byte>)
    requires 2 <= |s| && 2 <= |t| && s[0] == t[0] && s[1] == t[1]
    ensures GetU16L(s, 0) == GetU16L(t, 0)
  {
    hide Join16;
  }

  lemma ReadsBackU16L(v: bv16)
    ensures GetU16L(U16L(v), 0) == v
  {
  }

  lemma ReadsBackU32L(v: bv32)
    ensures GetU32L(U32L(v), 0) == v
  {
  }

  lemma SliceU32L(s: seq<byte>, i: nat)
    requires i + 4 <= |s|
    ensures GetU32L(s[i..i + 4], 0) == GetU32L(s, i)
  {
  }
}
