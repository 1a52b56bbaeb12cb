/**
 * CCM as sections 2.2 and 2.3 of RFC 3610 define it for L = 2 and M = 4, octet by octet. Nothing here is shared with the
 * model of the code but the types.
 */
module Rfc3610 {
  import Bytes

  type Octet = Bytes.byte

  type Nonce = s: seq<Octet> | |s| == 13 witness [0, 0, 0, 0, 0, 0, 0, 0, 0, 0, 0, 0, 0]

  function High(n: nat): Octet { ((n / 256) % 256) as Octet }

  function Low(n: nat): Octet { (n % 256) as Octet }

  /** Octet k of a string that zeros continue. */
  function Padded(s: seq<Octet>, k: nat): Octet {
    if k < |s| then s[k] else 0
  }

  /** The number of blocks of a string that is padded with zeros. */
  function BlockCount(n: nat): nat { (n + 15) / 16 }

  /** The flags of B_0: 64 * Adata + 8 * M' + L'. */
  function Flags(adata: bool): Octet {
    if adata then 0x49 else 0x09
  }

  /** The encoding of l(a). */
  function LengthField(n: nat): seq<Octet> {
    if n == 0 then []
    else if n < 0xff00 then [High(n), Low(n)]
    else [0xff, 0xfe, High(n / 0x1_0000), Low(n / 0x1_0000), High(n), Low(n)]
  }

  /** Octet j of B_i, for given flags and a given encoding of the header length. */
  function B(flags: Octet, field: seq<Octet>, nonce: Nonce, a: seq<Octet>, m: seq<Octet>, i: nat, j: nat): Octet
    requires j < 16
  {
    if i == 0 then
      if j == 0 then flags
      else if j < 14 then nonce[j - 1]
      else if j == 14 then High(|m|)
      else Low(|m|)
    else if i <= BlockCount(|field + a|) then Padded(field + a, 16 * (i - 1) + j)
    else Padded(m, 16 * (i - 1 - BlockCount(|field + a|)) + j)
  }

  /** X_1 = E(B_0), X_i+1 = E(X_i XOR B_i). */
  function X(E: Bytes.Cipher, flags: Octet, field: seq<Octet>, nonce: Nonce, a: seq<Octet>, m: seq<Octet>, i: nat): (r: Bytes.Block)
    requires i >= 1
  {
    if i == 1 then E(seq(16, j requires 0 <= j < 16 => B(flags, field, nonce, a, m, 0, j)))
    else
      var x := X(E, flags, field, nonce, a, m, i - 1);
      E(seq(16, j requires 0 <= j < 16 => x[j] ^ B(flags, field, nonce, a, m, i - 1, j)))
  }

  /** X_n+1 for the last block B_n. */
  function LastX(E: Bytes.Cipher, flags: Octet, field: seq<Octet>, nonce: Nonce, a: seq<Octet>, m: seq<Octet>): (r: Bytes.Block) {
    X(E, flags, field, nonce, a, m, 1 + BlockCount(|field + a|) + BlockCount(|m|))
  }

  /** S_i = E(A_i), where A_i has the flags L' = 1. */
  function S(E: Bytes.Cipher, nonce: Nonce, i: nat): (r: Bytes.Block) {
    E([1] + nonce + [High(i), Low(i)])
  }

  /** The message XORed with the front of S_1, S_2, .., and T XORed with the front of S_0. */
  function Seal(E: Bytes.Cipher, nonce: Nonce, a: seq<Octet>, m: seq<Octet>): (r: seq<Octet>)
    ensures |r| == |m| + 4
  {
    var x := LastX(E, Flags(|a| > 0), LengthField(|a|), nonce, a, m);
    seq(|m| + 4, k requires 0 <= k < |m| + 4 =>
      if k < |m| then m[k] ^ S(E, nonce, k / 16 + 1)[k % 16] else x[k - |m|] ^ S(E, nonce, 0)[k - |m|])
  }
}
