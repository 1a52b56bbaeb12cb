/**
 * CCM as RFC 3610 defines it (sections 2.2 and 2.3), next to the variant that crypt.cpp computes:
 * L is 2, M is 4, the Adata flag is always set and the header length is always two octets.
 */
module Ccm {
  import opened Bytes
  import Rfc3610

  type Nonce = Rfc3610.Nonce

  const AUTH_FLAGS: byte := 0x49
  const CTR_FLAGS: byte := 0x01

  // ----- authentication, section 2.2

  /** The CBC-MAC value after the first n blocks: X_1 = E(B_0), X_i+1 = E(X_i ^ B_i). */
  function Mac(E: Cipher, blocks: seq<Block>, n: nat): (x: Block)
    requires 1 <= n <= |blocks|
  {
    if n == 1 then E(blocks[0]) else E(Xor(Mac(E, blocks, n - 1), blocks[n - 1]))
  }

  function FirstBlock(flags: byte, nonce: Nonce, payloadLength: nat): (b: Block) {
    [flags] + nonce + U16B(payloadLength)
  }

  /** The first block, the header behind the encoding of its length, and the payload. */
  function Formatted(flags: byte, field: seq<byte>, nonce: Nonce, header: seq<byte>, payload: seq<byte>): (b: seq<Block>)
    ensures |b| >= 1
  {
    [FirstBlock(flags, nonce, |payload|)] + Chunks(PadBlock(field + header)) + Chunks(PadBlock(payload))
  }

  /** The blocks that crypt.cpp authenticates. */
  function AuthBlocks(nonce: Nonce, header: seq<byte>, payload: seq<byte>): (b: seq<Block>)
    ensures |b| >= 2
  {
    Formatted(AUTH_FLAGS, U16B(|header|), nonce, header, payload)
  }

  function Tag(E: Cipher, nonce: Nonce, header: seq<byte>, payload: seq<byte>): Block {
    var b := AuthBlocks(nonce, header, payload);
    Mac(E, b, |b|)
  }

  // ----- encryption, section 2.3

  /** Key stream block S_i. */
  function KeyBlock(E: Cipher, nonce: Nonce, i: nat): Block {
    E([CTR_FLAGS] + nonce + U16B(i))
  }

  /** Applies S_1, S_2, ... to the data. */
  function Ctr(E: Cipher, nonce: Nonce, data: seq<byte>): (r: seq<byte>)
    ensures |r| == |data|
  {
    seq(|data|, k requires 0 <= k < |data| => data[k] ^ KeyBlock(E, nonce, k / 16 + 1)[k % 16])
  }

  /** Applies the front of S_0 to an authentication tag. */
  function CtrTag(E: Cipher, nonce: Nonce, tag: seq<byte>): (r: seq<byte>)
    requires |tag| <= 16
    ensures |r| == |tag|
  {
    Xor(tag, KeyBlock(E, nonce, 0)[..|tag|])
  }

  /** The sealed form of a payload: ciphertext and message integrity code. */
  function Seal(E: Cipher, nonce: Nonce, header: seq<byte>, payload: seq<byte>, micLength: nat): (sealed: seq<byte>)
    requires micLength <= 16
    ensures |sealed| == |payload| + micLength
  {
    Ctr(E, nonce, payload) + CtrTag(E, nonce, Tag(E, nonce, header, payload)[..micLength])
  }

  /** What decryption writes, whether or not the tag is accepted. */
  function Unseal(E: Cipher, nonce: Nonce, sealed: seq<byte>, micLength: nat): (payload: seq<byte>)
    requires micLength <= |sealed|
  {
    Ctr(E, nonce, sealed[..|sealed| - micLength])
  }

  /** True when the integrity code belongs to the unsealed payload. */
  predicate Accepts(E: Cipher, nonce: Nonce, header: seq<byte>, sealed: seq<byte>, micLength: nat)
    requires micLength <= 16 && micLength <= |sealed|
  {
    CtrTag(E, nonce, sealed[|sealed| - micLength..])
      == Tag(E, nonce, header, Unseal(E, nonce, sealed, micLength))[..micLength]
  }

  // ----- sealing and opening are inverse to each other

  lemma CtrTwice(E: Cipher, nonce: Nonce, data: seq<byte>)
    ensures Ctr(E, nonce, Ctr(E, nonce, data)) == data
  {
    var once := Ctr(E, nonce, data);
    var twice := Ctr(E, nonce, once);
    forall k | 0 <= k < |data|
      ensures twice[k] == data[k]
    {
      var s := KeyBlock(E, nonce, k / 16 + 1)[k % 16];
      assert once[k] == data[k] ^ s;
      assert twice[k] == (data[k] ^ s) ^ s;
    }
  }

  lemma CtrTagTwice(E: Cipher, nonce: Nonce, tag: seq<byte>)
    requires |tag| <= 16
    ensures CtrTag(E, nonce, CtrTag(E, nonce, tag)) == tag
  {
    var s := KeyBlock(E, nonce, 0)[..|tag|];
    forall k | 0 <= k < |tag|
      ensures CtrTag(E, nonce, CtrTag(E, nonce, tag))[k] == tag[k]
    {
      assert CtrTag(E, nonce, tag)[k] == tag[k] ^ s[k];
    }
  }

  /** Opening accepts every sealed message and restores its payload, for payloads of any length. */
  lemma OpenSealed(E: Cipher, nonce: Nonce, header: seq<byte>, payload: seq<byte>, micLength: nat)
    requires micLength <= 16
    ensures var sealed := Seal(E, nonce, header, payload, micLength);
            Accepts(E, nonce, header, sealed, micLength) && Unseal(E, nonce, sealed, micLength) == payload
  {
    var sealed := Seal(E, nonce, header, payload, micLength);
    var tag := Tag(E, nonce, header, payload)[..micLength];
    assert sealed[..|payload|] == Ctr(E, nonce, payload);
    assert sealed[|payload|..] == CtrTag(E, nonce, tag);
    CtrTwice(E, nonce, payload);
    CtrTagTwice(E, nonce, tag);
  }

  /** A message that opening accepts is the only one that sealing its payload produces. */
  lemma SealOpened(E: Cipher, nonce: Nonce, header: seq<byte>, sealed: seq<byte>, micLength: nat)
    requires micLength <= 16 && micLength <= |sealed|
    ensures Accepts(E, nonce, header, sealed, micLength)
       <==> Seal(E, nonce, header, Unseal(E, nonce, sealed, micLength), micLength) == sealed
  {
    var n := |sealed| - micLength;
    var payload := Unseal(E, nonce, sealed, micLength);
    CtrTwice(E, nonce, sealed[..n]);
    CtrTagTwice(E, nonce, sealed[n..]);
    assert sealed == sealed[..n] + sealed[n..];
    if Seal(E, nonce, header, payload, micLength) == sealed {
      OpenSealed(E, nonce, header, payload, micLength);
    }
  }

  // ----- the relation to RFC 3610

  /** The flags octet of section 2.2 for L = 2, M = 4. */
  function RfcFlags(adata: bool): byte {
    (if adata then 64 else 0) + 8 * ((4 - 2) / 2) + (2 - 1)
  }

  /** The encoded header length of section 2.2, for headers below 2^32 octets. */
  function RfcHeaderLength(n: nat): seq<byte> {
    if n == 0 then []
    else if n < 0xff00 then U16B(n)
    else [0xff, 0xfe] + U16B(n / 65536) + U16B(n)
  }

  function RfcBlocks(nonce: Nonce, header: seq<byte>, payload: seq<byte>): (b: seq<Block>) {
    Formatted(RfcFlags(|header| > 0), RfcHeaderLength(|header|), nonce, header, payload)
  }

  function RfcTag(E: Cipher, nonce: Nonce, header: seq<byte>, payload: seq<byte>): Block {
    var b := RfcBlocks(nonce, header, payload);
    Mac(E, b, |b|)
  }

  /** Section 2.3: T is cut to M octets and encrypted with S_0. */
  function RfcSeal(E: Cipher, nonce: Nonce, header: seq<byte>, payload: seq<byte>): seq<byte> {
    Ctr(E, nonce, payload) + CtrTag(E, nonce, RfcTag(E, nonce, header, payload)[..4])
  }

  // ----- octet by octet

  function BlockTotal(field: seq<byte>, header: seq<byte>, payload: seq<byte>): nat {
    1 + Rfc3610.BlockCount(|field + header|) + Rfc3610.BlockCount(|payload|)
  }

  lemma PaddedCount(s: seq<byte>)
    ensures |Chunks(PadBlock(s))| == Rfc3610.BlockCount(|s|)
  {
  }

  lemma PaddedOctet(s: seq<byte>, i: nat, j: nat)
    requires j < 16 && i < |Chunks(PadBlock(s))|
    ensures Chunks(PadBlock(s))[i][j] == Rfc3610.Padded(s, 16 * i + j)
  {
    var p, k := PadBlock(s), 16 * i + j;
    assert Chunks(p)[i][j] == p[k];
    if k < |s| {
      assert p[..|s|][k] == s[k];
    }
  }

  lemma FormattedCount(flags: byte, field: seq<byte>, nonce: Nonce, header: seq<byte>, payload: seq<byte>)
    ensures |Formatted(flags, field, nonce, header, payload)| == BlockTotal(field, header, payload)
  {
    PaddedCount(field + header);
    PaddedCount(payload);
    hide FirstBlock, PadBlock, Chunks;
  }

  lemma FirstOctet(flags: byte, nonce: Nonce, length: nat, j: nat)
    requires j < 16
    ensures FirstBlock(flags, nonce, length)[j]
            == if j == 0 then flags else if j < 14 then nonce[j - 1] else if j == 14 then Rfc3610.High(length) else Rfc3610.Low(length)
  {
  }

  /** The blocks are those of the standard. */
  lemma FormattedOctet(flags: byte, field: seq<byte>, nonce: Nonce, header: seq<byte>, payload: seq<byte>, i: nat, j: nat)
    requires j < 16 && i < |Formatted(flags, field, nonce, header, payload)|
    ensures Formatted(flags, field, nonce, header, payload)[i][j] == Rfc3610.B(flags, field, nonce, header, payload, i, j)
  {
    hide FirstBlock, PadBlock, Chunks, Rfc3610.High, Rfc3610.Low;
    PaddedCount(field + header);
    PaddedCount(payload);
    var c := Rfc3610.BlockCount(|field + header|);
    if i == 0 {
      FirstOctet(flags, nonce, |payload|, j);
    } else if i <= c {
      PaddedOctet(field + header, i - 1, j);
    } else {
      PaddedOctet(payload, i - 1 - c, j);
    }
  }

  lemma {:induction false} ChainIs(E: Cipher, flags: byte, field: seq<byte>, nonce: Nonce, header: seq<byte>, payload: seq<byte>, n: nat)
    requires 1 <= n <= |Formatted(flags, field, nonce, header, payload)|
    ensures Mac(E, Formatted(flags, field, nonce, header, payload), n) == Rfc3610.X(E, flags, field, nonce, header, payload, n)
  {
    hide Formatted, Rfc3610.B;
    var b, i := Formatted(flags, field, nonce, header, payload), n - 1;
    var last := b[i];
    forall j | 0 <= j < 16 ensures last[j] == Rfc3610.B(flags, field, nonce, header, payload, i, j) {
      FormattedOctet(flags, field, nonce, header, payload, i, j);
    }
    if n == 1 {
      assert last == seq(16, j requires 0 <= j < 16 => Rfc3610.B(flags, field, nonce, header, payload, 0, j));
    } else {
      ChainIs(E, flags, field, nonce, header, payload, i);
      var x := Mac(E, b, i);
      assert Xor(x, last) == seq(16, j requires 0 <= j < 16 => x[j] ^ Rfc3610.B(flags, field, nonce, header, payload, i, j));
    }
  }

  lemma LastIs(E: Cipher, flags: byte, field: seq<byte>, nonce: Nonce, header: seq<byte>, payload: seq<byte>)
    ensures var b := Formatted(flags, field, nonce, header, payload);
            Mac(E, b, |b|) == Rfc3610.LastX(E, flags, field, nonce, header, payload)
  {
    FormattedCount(flags, field, nonce, header, payload);
    ChainIs(E, flags, field, nonce, header, payload, BlockTotal(field, header, payload));
  }

  lemma FieldIs(n: nat)
    ensures U16B(n) == [Rfc3610.High(n), Rfc3610.Low(n)]
  {
  }

  /** The authentication value, for every header length: the standard's chain with a header length of always two octets. */
  lemma TagIs(E: Cipher, nonce: Nonce, header: seq<byte>, payload: seq<byte>)
    ensures Tag(E, nonce, header, payload)
            == Rfc3610.LastX(E, 0x49, [Rfc3610.High(|header|), Rfc3610.Low(|header|)], nonce, header, payload)
  {
    hide Formatted, Mac, U16B, Rfc3610.LastX;
    FieldIs(|header|);
    LastIs(E, 0x49, U16B(|header|), nonce, header, payload);
  }

  lemma RfcFieldIs(n: nat)
    requires n < 0x1_0000_0000
    ensures RfcHeaderLength(n) == Rfc3610.LengthField(n) && RfcFlags(n > 0) == Rfc3610.Flags(n > 0)
  {
    FieldIs(n);
    FieldIs(n / 65536);
    hide U16B;
  }

  lemma RfcTagIs(E: Cipher, nonce: Nonce, header: seq<byte>, payload: seq<byte>)
    requires |header| < 0x1_0000_0000
    ensures RfcTag(E, nonce, header, payload)
            == Rfc3610.LastX(E, Rfc3610.Flags(|header| > 0), Rfc3610.LengthField(|header|), nonce, header, payload)
  {
    hide Formatted, Mac, Rfc3610.LastX, RfcHeaderLength, RfcFlags;
    RfcFieldIs(|header|);
    LastIs(E, RfcFlags(|header| > 0), RfcHeaderLength(|header|), nonce, header, payload);
  }

  /** Block i of the key stream: the flags 1, the nonce and the counter, the higher octet first, under the cipher. */
  lemma KeyBlockIs(E: Cipher, nonce: Nonce, i: nat)
    ensures KeyBlock(E, nonce, i) == Rfc3610.S(E, nonce, i)
    ensures KeyBlock(E, nonce, i) == E([1] + nonce + [((i / 256) % 256) as byte, (i % 256) as byte])
  {
    FieldIs(i);
  }

  lemma CtrOctet(E: Cipher, nonce: Nonce, data: seq<byte>, k: nat)
    requires k < |data|
    ensures Ctr(E, nonce, data)[k] == data[k] ^ KeyBlock(E, nonce, k / 16 + 1)[k % 16]
  {
  }

  lemma CtrTagOctet(E: Cipher, nonce: Nonce, tag: seq<byte>, k: nat)
    requires k < |tag| <= 16
    ensures CtrTag(E, nonce, tag)[k] == tag[k] ^ KeyBlock(E, nonce, 0)[k]
  {
  }

  lemma SealedParts(E: Cipher, nonce: Nonce, header: seq<byte>, payload: seq<byte>, micLength: nat)
    requires micLength <= 16
    ensures Seal(E, nonce, header, payload, micLength)
            == Ctr(E, nonce, payload) + CtrTag(E, nonce, Tag(E, nonce, header, payload)[..micLength])
    ensures |Ctr(E, nonce, payload)| == |payload|
  {
    hide Tag, KeyBlock;
  }

  /**
   * Every octet of a sealed message, for all lengths: the payload under the key stream of the standard, whose blocks KeyBlockIs
   * writes out, and the authentication value under the block of counter 0.
   */
  lemma SealedOctet(E: Cipher, nonce: Nonce, header: seq<byte>, payload: seq<byte>, micLength: nat, k: nat)
    requires micLength <= 16 && k < |payload| + micLength
    ensures var n := |payload|;
            Seal(E, nonce, header, payload, micLength)[k]
            == if k < n then payload[k] ^ Rfc3610.S(E, nonce, k / 16 + 1)[k % 16]
               else Rfc3610.LastX(E, 0x49, [Rfc3610.High(|header|), Rfc3610.Low(|header|)], nonce, header, payload)[k - n]
                    ^ Rfc3610.S(E, nonce, 0)[k - n]
  {
    hide Seal, Tag, Rfc3610.LastX, KeyBlock, Ctr, CtrTag, Rfc3610.S, Rfc3610.High, Rfc3610.Low;
    SealedParts(E, nonce, header, payload, micLength);
    if k < |payload| {
      KeyBlockIs(E, nonce, k / 16 + 1);
      CtrOctet(E, nonce, payload, k);
    } else {
      TagIs(E, nonce, header, payload);
      KeyBlockIs(E, nonce, 0);
      CtrTagOctet(E, nonce, Tag(E, nonce, header, payload)[..micLength], k - |payload|);
    }
  }

  /** The standard's sealed message. */
  lemma RfcSealIs(E: Cipher, nonce: Nonce, header: seq<byte>, payload: seq<byte>)
    requires |header| < 0x1_0000_0000
    ensures RfcSeal(E, nonce, header, payload) == Rfc3610.Seal(E, nonce, header, payload)
  {
    hide RfcTag, Rfc3610.LastX, Rfc3610.Flags, Rfc3610.LengthField, KeyBlock, Rfc3610.S;
    RfcTagIs(E, nonce, header, payload);
    forall i: nat ensures KeyBlock(E, nonce, i) == Rfc3610.S(E, nonce, i) {
      KeyBlockIs(E, nonce, i);
    }
  }

  /** A header length for which the code agrees with the standard under every cipher. */
  ghost predicate FollowsRfc(n: nat) {
    forall E: Cipher, nonce: Nonce, header: seq<byte>, payload: seq<byte> ::
      |header| == n && |payload| < 65536 ==>
        Seal(E, nonce, header, payload, 4) == Rfc3610.Seal(E, nonce, header, payload)
  }

  /** The identity cipher, under which the chain is the plain sum of the blocks. */
  function Plain(b: Block): Block { b }

  lemma {:induction false} PlainMacOctet(blocks: seq<Block>, n: nat, k: nat, second: byte)
    requires 1 <= n <= |blocks| && k < 16
    requires forall i :: 1 <= i < n ==> blocks[i][k] == if i == 1 then second else 0
    ensures Mac(Plain, blocks, n)[k] == if n == 1 then blocks[0][k] else blocks[0][k] ^ second
  {
    if n > 1 {
      PlainMacOctet(blocks, n - 1, k, second);
      assert Mac(Plain, blocks, n) == Xor(Mac(Plain, blocks, n - 1), blocks[n - 1]);
    }
  }

  /** Octet k of the tag of an empty payload when only the second block reaches it. */
  lemma PlainTagOctet(first: Block, fields: seq<byte>, k: nat)
    requires k < 16 && k < |fields|
    requires forall i :: k < i < |fields| && i % 16 == k ==> fields[i] == 0
    ensures var b := [first] + Chunks(PadBlock(fields)) + Chunks(PadBlock([]));
            Mac(Plain, b, |b|)[k] == first[k] ^ fields[k]
  {
    var p := PadBlock(fields);
    var b := [first] + Chunks(p) + Chunks(PadBlock([]));
    forall i | 1 <= i < |b|
      ensures b[i][k] == if i == 1 then fields[k] else 0
    {
      assert b[i] == p[16 * (i - 1)..16 * (i - 1) + 16];
      var j := 16 * (i - 1) + k;
      assert b[i][k] == p[j];
      if j < |fields| {
        assert p[..|fields|][j] == fields[j];
      }
    }
    PlainMacOctet(b, |b|, k, fields[k]);
  }

  lemma TagsDiffer(nonce: Nonce, header: seq<byte>, k: nat)
    requires k < 4
    requires |header| < 0x1_0000_0000
    requires Tag(Plain, nonce, header, [])[k] != RfcTag(Plain, nonce, header, [])[k]
    ensures !FollowsRfc(|header|)
  {
    hide Tag, RfcTag, Ctr, CtrTag, Rfc3610.Seal;
    var t, u := Tag(Plain, nonce, header, [])[..4], RfcTag(Plain, nonce, header, [])[..4];
    assert t[k] != u[k];
    CtrTagTwice(Plain, nonce, t);
    CtrTagTwice(Plain, nonce, u);
    assert Ctr(Plain, nonce, []) == [];
    assert Seal(Plain, nonce, header, [], 4) == CtrTag(Plain, nonce, t);
    assert RfcSeal(Plain, nonce, header, []) == CtrTag(Plain, nonce, u);
    RfcSealIs(Plain, nonce, header, []);
  }

  /** An empty header is authenticated as if it were present. */
  lemma EmptyHeaderDiffers()
    ensures !FollowsRfc(0)
  {
    var nonce: Nonce := Zeros(13);
    var first := FirstBlock(AUTH_FLAGS, nonce, 0);
    assert U16B(0) + [] == U16B(0);
    PlainTagOctet(first, U16B(0), 0);
    assert RfcBlocks(nonce, [], [])[0][0] == RfcFlags(false);
    assert |RfcHeaderLength(0) + []| == 0;
    TagsDiffer(nonce, [], 0);
  }

  /** The third octet of the tag under the identity cipher when only length field and first header octet are set. */
  lemma PlainTagThird(first: Block, field: seq<byte>, header: seq<byte>)
    requires 2 <= |field| <= 6 && |header| > 0 && first[2] == 0
    requires forall i :: 1 <= i < |header| ==> header[i] == 0
    ensures var b := [first] + Chunks(PadBlock(field + header)) + Chunks(PadBlock([]));
            Mac(Plain, b, |b|)[2] == (field + header)[2]
  {
    var fields := field + header;
    forall i | 2 < i < |fields| && i % 16 == 2
      ensures fields[i] == 0
    {
      assert i >= 18;
      assert fields[i] == header[i - |field|];
    }
    PlainTagOctet(first, fields, 2);
  }

  /** A header of n octets in which only the first one is set. */
  function OneSet(first: byte, n: nat): (r: seq<byte>)
    requires n > 0
    ensures |r| == n && r[0] == first && forall i :: 1 <= i < n ==> r[i] == 0
  {
    [first] + Zeros(n - 1)
  }

  lemma ShortFieldTag(nonce: Nonce, first: byte, n: nat)
    requires nonce == Zeros(13) && n > 0
    ensures Tag(Plain, nonce, OneSet(first, n), [])[2] == first
  {
    hide U16B, OneSet, FirstBlock, Chunks, PadBlock, Mac;
    FirstOctet(AUTH_FLAGS, nonce, 0, 2);
    var header := OneSet(first, n);
    PlainTagThird(FirstBlock(AUTH_FLAGS, nonce, 0), U16B(n), header);
    assert (U16B(n) + header)[2] == header[0];
  }

  lemma LongFieldTag(nonce: Nonce, header: seq<byte>)
    requires nonce == Zeros(13) && 0xff00 <= |header| < 0x1_0000_0000
    requires forall i :: 1 <= i < |header| ==> header[i] == 0
    ensures RfcTag(Plain, nonce, header, [])[2] == U16B(|header| / 65536)[0]
  {
    hide U16B, FirstBlock, Chunks, PadBlock, Mac;
    FirstOctet(AUTH_FLAGS, nonce, 0, 2);
    var long := [0xff, 0xfe] + U16B(|header| / 65536) + U16B(|header|);
    assert long == RfcHeaderLength(|header|) && RfcFlags(true) == AUTH_FLAGS;
    PlainTagThird(FirstBlock(AUTH_FLAGS, nonce, 0), long, header);
    assert (long + header)[2] == long[2];
  }

  /** From 0xff00 octets on the standard asks for a longer length field, which the code does not write. */
  lemma LongHeaderDiffers(n: nat)
    requires 0xff00 <= n < 0x1_0000_0000
    ensures !FollowsRfc(n)
  {
    hide Tag, RfcTag, FollowsRfc, OneSet, U16B;
    var nonce: Nonce := Zeros(13);
    var high := U16B(n / 65536)[0];
    var header := OneSet(high ^ 1, n);
    ShortFieldTag(nonce, high ^ 1, n);
    LongFieldTag(nonce, header);
    Flip(high);
    TagsDiffer(nonce, header, 2);
  }

  lemma Flip(b: byte)
    ensures b ^ 1 != b
  {
  }

  /** The code follows the standard for all ciphers and messages exactly for these header lengths. */
  lemma FollowsRfcExactly(n: nat)
    requires n < 0x1_0000_0000
    ensures FollowsRfc(n) <==> 1 <= n < 0xff00
  {
    if n == 0 {
      EmptyHeaderDiffers();
    } else if n >= 0xff00 {
      LongHeaderDiffers(n);
    } else {
      forall E: Cipher, nonce: Nonce, header: seq<byte>, payload: seq<byte> | |header| == n && |payload| < 65536
        ensures Seal(E, nonce, header, payload, 4) == Rfc3610.Seal(E, nonce, header, payload)
      {
        RfcSealIs(E, nonce, header, payload);
        assert RfcFlags(true) == AUTH_FLAGS && RfcHeaderLength(n) == U16B(n);
        hide Ctr, CtrTag, Formatted, Mac, U16B, RfcHeaderLength, RfcFlags, Rfc3610.Seal;
      }
    }
  }
}
