/** The Matyas-Meyer-Oseas hash and the keyed hash of hash.cpp. */
module Hash {
  import opened Bytes
  import opened DataBuffer
  import Mmo

  type KeyedCipher = Mmo.KeyedCipher

  const ZERO: Block := [0, 0, 0, 0, 0, 0, 0, 0, 0, 0, 0, 0, 0, 0, 0, 0]

  // ----- the standard's form: chaining over a padded message

  function Step(E: KeyedCipher, hash: Block, m: Block): Block {
    Xor(E(hash, m), m)
  }

  /** Hash_0 = 0, Hash_j = E(Hash_j-1, M_j) ^ M_j over the first n blocks (section B.6 of ZigBee 05-3474). */
  function Chain(E: KeyedCipher, blocks: seq<Block>, n: nat): Block
    requires n <= |blocks|
  {
    if n == 0 then ZERO else Step(E, Chain(E, blocks, n - 1), blocks[n - 1])
  }

  /** One bit, zeros and the bit length in the last two octets of a message of the given number of blocks. */
  function PadTo(input: seq<byte>, blockCount: nat): (r: seq<byte>)
    requires |input| + 3 <= 16 * blockCount
    ensures |r| == 16 * blockCount
  {
    input + [0x80] + Zeros(16 * blockCount - |input| - 3) + U16B(8 * |input|)
  }

  /** The number of blocks that the code hashes. */
  function CodeBlockCount(n: nat): (c: nat)
    ensures n + 3 <= 16 * c
  {
    (n + 3) / 16 + 1
  }

  /** The fewest blocks that hold message, one bit and length field. */
  function StandardBlockCount(n: nat): (c: nat)
    ensures n + 3 <= 16 * c < n + 3 + 16
  {
    (n + 3 + 15) / 16
  }

  function Blocks(input: seq<byte>, blockCount: nat): (r: seq<Block>)
    requires |input| + 3 <= 16 * blockCount
    ensures |r| == blockCount
  {
    Chunks(PadTo(input, blockCount))
  }

  function HashOf(E: KeyedCipher, input: seq<byte>): Block {
    var c := CodeBlockCount(|input|);
    Chain(E, Blocks(input, c), c)
  }

  function StandardHash(E: KeyedCipher, input: seq<byte>): Block {
    var c := StandardBlockCount(|input|);
    Chain(E, Blocks(input, c), c)
  }

  /** HMAC of RFC 2104, section 2, with a key of one block. */
  function Hmac(E: KeyedCipher, key: Block, text: seq<byte>): Block {
    var inner := Xor(key, Fill(0x36));
    var outer := Xor(key, Fill(0x5c));
    HashOf(E, outer + HashOf(E, inner + text))
  }

  function Fill(b: byte): Block { [b, b, b, b, b, b, b, b, b, b, b, b, b, b, b, b] }

  // ----- the padding

  lemma OctetValue(x: nat)
    requires x < 256
    ensures (x as byte) as nat == x
  {
    if x < 16 {
    } else if x < 32 {
    } else if x < 48 {
    } else if x < 64 {
    } else if x < 80 {
    } else if x < 96 {
    } else if x < 112 {
    } else if x < 128 {
    } else if x < 144 {
    } else if x < 160 {
    } else if x < 176 {
    } else if x < 192 {
    } else if x < 208 {
    } else if x < 224 {
    } else if x < 240 {
    } else if x < 256 {
    }
  }

  lemma LengthField(a: nat, b: nat)
    requires U16B(a) == U16B(b)
    ensures a % 65536 == b % 65536
  {
    hide *;
    assert U16B(a)[0] == U16B(b)[0] && U16B(a)[1] == U16B(b)[1];
    Halves(a);
    Halves(b);
  }

  lemma Halves(a: nat)
    ensures a % 65536 == 256 * (U16B(a)[0] as nat) + (U16B(a)[1] as nat)
  {
    var high, low := (a / 256) % 256, a % 256;
    OctetValue(high);
    OctetValue(low);
    assert U16B(a)[0] as nat == high && U16B(a)[1] as nat == low;
    Modulo(a);
  }

  lemma Modulo(a: nat)
    ensures a % 65536 == 256 * ((a / 256) % 256) + a % 256
  {
    assert a / 256 == 256 * (a / 256 / 256) + (a / 256) % 256;
  }

  /** Different inputs of any lengths are padded differently. */
  lemma PaddingInjective(x: seq<byte>, y: seq<byte>)
    requires PadTo(x, CodeBlockCount(|x|)) == PadTo(y, CodeBlockCount(|y|))
    ensures x == y
  {
    hide U16B;
    var p, q := PadTo(x, CodeBlockCount(|x|)), PadTo(y, CodeBlockCount(|y|));
    assert p[|p| - 2..] == U16B(8 * |x|) && q[|q| - 2..] == U16B(8 * |y|);
    LengthField(8 * |x|, 8 * |y|);
    SameLength(|x|, |y|);
    assert p[..|x|] == x && q[..|y|] == y;
  }

  /** The block count leaves 16 candidates for the length, and the length field tells them apart. */
  lemma SameLength(m: nat, n: nat)
    requires CodeBlockCount(m) == CodeBlockCount(n) && (8 * m) % 65536 == (8 * n) % 65536
    ensures m == n
  {
    var x, y := 8 * m, 8 * n;
    var k := x / 65536 - y / 65536;
    assert x - y == 65536 * k;
    assert (m + 3) / 16 == (n + 3) / 16;
    assert -128 < x - y < 128;
  }

  lemma BlockCountsAgree(n: nat)
    ensures StandardBlockCount(n) == CodeBlockCount(n) - (if n % 16 == 13 then 1 else 0)
  {
  }

  // ----- the relation to the standard

  ghost predicate FollowsStandard(n: nat) {
    forall E: KeyedCipher, input: seq<byte> :: |input| == n ==> HashOf(E, input) == Mmo.Hash(E, input)
  }

  // ----- octet by octet

  /** The padded message is that of the standard. */
  lemma PaddedIs(input: seq<byte>, c: nat, k: nat)
    requires |input| + 3 <= 16 * c && k < 16 * c
    ensures PadTo(input, c)[k] == Mmo.Padded(input, c, k)
  {
    var n := |input|;
    if 16 * c - 2 <= k {
      assert PadTo(input, c)[k] == U16B(8 * n)[k - (16 * c - 2)];
    }
  }

  lemma {:induction false} ChainIs(E: KeyedCipher, input: seq<byte>, c: nat, i: nat)
    requires |input| + 3 <= 16 * c && i <= c
    ensures Chain(E, Blocks(input, c), i) == Mmo.H(E, input, c, i)
  {
    if i > 0 {
      ChainIs(E, input, c, i - 1);
      var m, p := Blocks(input, c)[i - 1], PadTo(input, c);
      forall j | 0 <= j < 16 ensures m[j] == Mmo.Padded(input, c, 16 * (i - 1) + j) {
        assert m[j] == p[16 * (i - 1) + j];
        PaddedIs(input, c, 16 * (i - 1) + j);
      }
      hide Blocks, PadTo, Mmo.Padded;
      assert m == Mmo.M(input, c, i - 1);
    }
  }

  /** For inputs of any length, the hash is the standard's chain over a padding to so many blocks. */
  lemma HashIs(E: KeyedCipher, input: seq<byte>)
    ensures HashOf(E, input) == Mmo.H(E, input, (|input| + 3) / 16 + 1, (|input| + 3) / 16 + 1)
  {
    hide Blocks, Chain, Mmo.H;
    ChainIs(E, input, CodeBlockCount(|input|), CodeBlockCount(|input|));
  }

  lemma StandardHashIs(E: KeyedCipher, input: seq<byte>)
    ensures StandardHash(E, input) == Mmo.Hash(E, input)
  {
    hide Blocks, Chain, Mmo.H;
    ChainIs(E, input, StandardBlockCount(|input|), StandardBlockCount(|input|));
  }

  lemma SameHash(E: KeyedCipher, input: seq<byte>)
    requires |input| % 16 != 13
    ensures HashOf(E, input) == Mmo.Hash(E, input)
  {
    BlockCountsAgree(|input|);
    StandardHashIs(E, input);
    hide Blocks, Chain, Mmo.Hash;
  }

  lemma MaskIs(key: Block, pad: byte)
    ensures Xor(key, Fill(pad)) == Mmo.Masked(key, pad)
  {
    FillAll(pad);
    hide Fill;
  }

  /** The keyed hash of one octet is HMAC over the standard's hash: neither of its two messages has 13 octets left over. */
  lemma KeyHashIs(E: KeyedCipher, key: Block, input: byte)
    ensures Hmac(E, key, [input]) == Mmo.Hmac(E, key, [input])
  {
    hide HashOf, Mmo.Hash, Fill, Xor, Mmo.Masked;
    MaskIs(key, 0x36);
    MaskIs(key, 0x5c);
    SameHash(E, Mmo.Masked(key, 0x36) + [input]);
    SameHash(E, Mmo.Masked(key, 0x5c) + Mmo.Hash(E, Mmo.Masked(key, 0x36) + [input]));
  }

  /** A cipher under which every block toggles one bit of the hash. */
  function Toggle(key: Block, m: Block): Block {
    Xor(m, key[0 := key[0] ^ 1])
  }

  lemma {:induction false} ToggleParity(blocks: seq<Block>, n: nat)
    requires n <= |blocks|
    ensures Chain(Toggle, blocks, n)[0] == if n % 2 == 0 then 0 else 1
  {
    if n > 0 {
      ToggleParity(blocks, n - 1);
      var h, m := Chain(Toggle, blocks, n - 1), blocks[n - 1];
      TwiceXor(m[0], h[0] ^ 1);
      assert Step(Toggle, h, m)[0] == (m[0] ^ (h[0] ^ 1)) ^ m[0];
    }
  }

  lemma TwiceXor(a: byte, b: byte)
    ensures (a ^ b) ^ a == b
  {
  }

  /** The code computes the standard's hash under every cipher unless the last block holds 13 octets of input. */
  lemma FollowsStandardExactly(n: nat)
    requires n < 8192
    ensures FollowsStandard(n) <==> n % 16 != 13
  {
    hide Blocks, Toggle, Chain, Mmo.Hash;
    BlockCountsAgree(n);
    if n % 16 == 13 {
      var input := Zeros(n);
      var c, d := CodeBlockCount(n), StandardBlockCount(n);
      ToggleParity(Blocks(input, c), c);
      ToggleParity(Blocks(input, d), d);
      StandardHashIs(Toggle, input);
      assert HashOf(Toggle, input)[0] != StandardHash(Toggle, input)[0];
    } else {
      forall E: KeyedCipher, input: seq<byte> | |input| == n ensures HashOf(E, input) == Mmo.Hash(E, input) {
        SameHash(E, input);
      }
    }
  }

  // ----- the methods

  /** Takes one block into the hash that is kept at o: encrypt under the old hash, then add the block. */
  method HashBlock(output: array<byte>, o: nat, cipherIn: array<byte>, E: KeyedCipher)
    requires o + 16 <= output.Length && cipherIn.Length == 16 && output != cipherIn
    modifies output
    ensures output[..] == Put(old(output[..]), o, Step(E, old(output[o..o + 16]), cipherIn[..]))
  {
    hide Put;
    ghost var m: Block := cipherIn[..];
    var block: Block := E(output[o..o + 16], cipherIn[..]);
    ghost var next := Step(E, output[o..o + 16], m);
    for j := 0 to 16
      invariant cipherIn[..] == m
      invariant forall k {:trigger output[k]} :: 0 <= k < output.Length ==>
        output[k] == if o <= k < o + j then next[k - o] else old(output[k])
    {
      output[o + j] := block[j] ^ cipherIn[j];
    }
    IsPut(output[..], old(output[..]), o, next);
  }

  lemma CompleteBlock(input: seq<byte>, i: nat)
    requires i % 16 == 0 && i + 16 <= |input|
    ensures i / 16 < CodeBlockCount(|input|) && Blocks(input, CodeBlockCount(|input|))[i / 16] == input[i..i + 16]
  {
    hide U16B;
    var p := PadTo(input, CodeBlockCount(|input|));
    assert Chunks(p)[i / 16] == p[i..i + 16];
    assert p[..|input|] == input;
    assert p[i..i + 16] == p[..|input|][i..i + 16];
  }

  /** The padded octets from the tail of the input on, and the blocks that they make. */
  lemma PaddedTail(input: seq<byte>, i: nat)
    requires i % 16 == 0 && i <= |input| < i + 16
    ensures var c := CodeBlockCount(|input|); var b, d, p := Blocks(input, c), input[i..], PadTo(input, c);
            && c == i / 16 + (if |d| < 13 then 1 else 2) && |p| == 16 * c
            && p[i..] == d + [0x80] + Zeros(16 * c - |input| - 3) + U16B(8 * |input|)
            && b[i / 16] == p[i..i + 16] && (|d| >= 13 ==> b[i / 16 + 1] == p[i + 16..i + 32])
  {
    hide U16B, Zeros;
    var p := PadTo(input, CodeBlockCount(|input|));
    assert Chunks(p)[i / 16] == p[i..i + 16];
  }

  /** The block or the two blocks that the tail of the input completes. */
  lemma TailBlocks(input: seq<byte>, i: nat)
    requires i % 16 == 0 && i <= |input| < i + 16
    ensures var b := Blocks(input, CodeBlockCount(|input|)); var n := i / 16; var d := input[i..];
            if |d| < 13 then |b| == n + 1 && b[n] == d + [0x80] + Zeros(13 - |d|) + U16B(8 * |input|)
            else |b| == n + 2 && b[n] == d + [0x80] + Zeros(15 - |d|) && b[n + 1] == Zeros(14) + U16B(8 * |input|)
  {
    PaddedTail(input, i);
    hide U16B, Blocks, PadTo, CodeBlockCount;
    var p, d := PadTo(input, CodeBlockCount(|input|)), input[i..];
    if |d| < 13 {
      assert p[i..i + 16] == p[i..];
    } else {
      assert p[i..i + 16] == p[i..][..16] == d + [0x80] + Zeros(15 - |d|);
      assert p[i + 16..i + 32] == p[i..][16..] == Zeros(14) + U16B(8 * |input|);
    }
  }

  /** Hashes the complete blocks of the input. */
  method HashComplete(output: array<byte>, o: nat, input: array<byte>, inputLength: nat, E: KeyedCipher) returns (i: nat)
    requires o + 16 <= output.Length && inputLength <= input.Length && output != input
    requires output[o..o + 16] == ZERO
    modifies output
    ensures i % 16 == 0 && i <= inputLength < i + 16
    ensures var b := Blocks(input[..inputLength], CodeBlockCount(inputLength));
            i / 16 <= |b| && output[..] == Put(old(output[..]), o, Chain(E, b, i / 16))
  {
    hide Put, Blocks, Step;
    ghost var a := input[..inputLength];
    ghost var b := Blocks(a, CodeBlockCount(inputLength));
    ghost var before := output[..];
    var cipherIn := new byte[16];
    i := 0;
    PutSame(before, o);
    while i + 16 <= inputLength
      invariant i % 16 == 0 && i <= inputLength
      invariant output[..] == Put(before, o, Chain(E, b, i / 16)) && output[o..o + 16] == Chain(E, b, i / 16)
    {
      ghost var n := i / 16;
      CompleteBlock(a, i);
      LoadBlock(cipherIn, input, i);
      assert input[i..i + 16] == a[i..i + 16];
      HashNext(output, o, cipherIn, E, b, n);
      PutAgain(before, o, Chain(E, b, n), Chain(E, b, n + 1));
      i := i + 16;
    }
  }

  method LoadBlock(cipherIn: array<byte>, input: array<byte>, i: nat)
    requires cipherIn.Length == 16 && cipherIn != input && i + 16 <= input.Length
    modifies cipherIn
    ensures cipherIn[..] == input[i..i + 16]
  {
    SetData(cipherIn, 0, 16, input, i);
  }

  lemma PutSame(s: seq<byte>, p: nat)
    requires p + 16 <= |s|
    ensures Put(s, p, s[p..p + 16]) == s
  {
  }

  lemma PutAgain(s: seq<byte>, p: nat, x: seq<byte>, y: seq<byte>)
    requires |x| == |y| && p + |x| <= |s|
    ensures Put(Put(s, p, x), p, y) == Put(s, p, y)
  {
  }

  /** The remaining octets, one bit and zeros. */
  method TailBlock(input: array<byte>, i: nat, inputLength: nat) returns (cipherIn: array<byte>)
    requires i <= inputLength < i + 16 && inputLength <= input.Length
    ensures fresh(cipherIn) && cipherIn.Length == 16
    ensures cipherIn[..] == input[i..inputLength] + [0x80] + Zeros(15 - (inputLength - i))
  {
    cipherIn := new byte[16];
    var j := inputLength - i;
    SetData(cipherIn, 0, j, input, i);
    assert cipherIn[..j] == input[i..inputLength];
    cipherIn[j] := 0x80;
    assert cipherIn[..j + 1] == input[i..inputLength] + [0x80];
    Pad(cipherIn, j + 1);
  }

  /** Hashes the remaining octets with one bit, padding and length, in one block or two. */
  method HashTail(output: array<byte>, o: nat, input: array<byte>, inputLength: nat, i: nat, E: KeyedCipher)
    requires o + 16 <= output.Length && inputLength <= input.Length && output != input
    requires i % 16 == 0 && i <= inputLength < i + 16
    requires output[o..o + 16] == Chain(E, Blocks(input[..inputLength], CodeBlockCount(inputLength)), i / 16)
    modifies output
    ensures output[..] == Put(old(output[..]), o, HashOf(E, input[..inputLength]))
  {
    hide Put, Blocks, Chain, U16B, Zeros;
    ghost var a := input[..inputLength];
    ghost var b := Blocks(a, CodeBlockCount(inputLength));
    ghost var d, n := a[i..], i / 16;
    TailBlocks(a, i);
    assert d == input[i..inputLength];
    var cipherIn := TailBlock(input, i, inputLength);
    if inputLength - i + 1 >= 14 {
      HashTwo(output, o, cipherIn, inputLength, E, b, n);
    } else {
      SetLength(cipherIn, inputLength, d + [0x80]);
      HashNext(output, o, cipherIn, E, b, n);
    }
    assert HashOf(E, a) == Chain(E, b, |b|);
  }

  /** Takes block n of a message into the hash. */
  method HashNext(output: array<byte>, o: nat, cipherIn: array<byte>, E: KeyedCipher, ghost b: seq<Block>, ghost n: nat)
    requires o + 16 <= output.Length && cipherIn.Length == 16 && output != cipherIn
    requires n < |b| && cipherIn[..] == b[n] && output[o..o + 16] == Chain(E, b, n)
    modifies output
    ensures output[..] == Put(old(output[..]), o, Chain(E, b, n + 1))
    ensures output[o..o + 16] == Chain(E, b, n + 1)
  {
    hide Put, Step;
    ghost var before := output[..];
    HashBlock(output, o, cipherIn, E);
    PutThere(before, o, Chain(E, b, n + 1));
    assert output[o..o + 16] == output[..][o..o + 16];
  }

  /** The length field does not fit behind the input: a block of zeros takes it. */
  method HashTwo(output: array<byte>, o: nat, cipherIn: array<byte>, inputLength: nat, E: KeyedCipher,
                 ghost b: seq<Block>, ghost n: nat)
    requires o + 16 <= output.Length && cipherIn.Length == 16 && output != cipherIn
    requires n + 2 == |b| && cipherIn[..] == b[n] && output[o..o + 16] == Chain(E, b, n)
    requires b[n + 1] == Zeros(14) + U16B(8 * inputLength)
    modifies output, cipherIn
    ensures output[..] == Put(old(output[..]), o, Chain(E, b, n + 2))
  {
    hide Put, Chain, U16B, Zeros;
    ghost var before := output[..];
    HashNext(output, o, cipherIn, E, b, n);
    Pad(cipherIn, 0);
    SetLength(cipherIn, inputLength, []);
    HashNext(output, o, cipherIn, E, b, n + 1);
    PutAgain(before, o, Chain(E, b, n + 1), Chain(E, b, n + 2));
  }

  /** Puts the length in bits at the end of the last block. */
  method SetLength(cipherIn: array<byte>, inputLength: nat, ghost data: seq<byte>)
    requires cipherIn.Length == 16 && |data| <= 14 && cipherIn[..] == data + Zeros(16 - |data|)
    modifies cipherIn
    ensures cipherIn[..] == data + Zeros(14 - |data|) + U16B(8 * inputLength)
  {
    hide U16B;
    SetU16B(cipherIn, 14, inputLength * 8);
  }

  /** The hash of the input, written to the output from o on. */
  method Hash(output: array<byte>, o: nat, input: array<byte>, inputLength: nat, E: KeyedCipher)
    requires o + 16 <= output.Length && inputLength <= input.Length && output != input
    modifies output
    ensures output[..] == Put(old(output[..]), o, HashOf(E, input[..inputLength]))
  {
    hide Put, Blocks, HashOf, Chain;
    ghost var before := output[..];
    for j := 0 to 16
      invariant forall k {:trigger output[k]} :: 0 <= k < output.Length ==>
        output[k] == if o <= k < o + j then 0 else before[k]
    {
      output[o + j] := 0;
    }
    IsPut(output[..], before, o, ZERO);
    assert output[o..o + 16] == ZERO;
    ghost var cleared := output[..];
    ghost var b := Blocks(input[..inputLength], CodeBlockCount(inputLength));
    var i := HashComplete(output, o, input, inputLength, E);
    PutThere(cleared, o, Chain(E, b, i / 16));
    assert output[o..o + 16] == output[..][o..o + 16];
    HashTail(output, o, input, inputLength, i, E);
    PutAgain(cleared, o, Chain(E, b, i / 16), HashOf(E, input[..inputLength]));
    PutAgain(before, o, ZERO, HashOf(E, input[..inputLength]));
  }

  /** Puts the key, added to a constant octet, in front of a buffer. */
  method MaskKey(m: array<byte>, key: Block, pad: byte)
    requires m.Length >= 16
    modifies m
    ensures m[..] == Xor(key, Fill(pad)) + old(m[16..])
  {
    ghost var masked := Xor(key, Fill(pad));
    FillAll(pad);
    hide Fill, Xor;
    for j := 0 to 16
      invariant forall k :: 0 <= k < m.Length ==> m[k] == if k < j then masked[k] else old(m[k])
    {
      m[j] := key[j] ^ pad;
    }
    assert m[..16] == masked;
    assert m[16..] == old(m[16..]);
    assert m[..] == m[..16] + m[16..];
  }

  lemma FillAll(b: byte)
    ensures forall k :: 0 <= k < 16 ==> Fill(b)[k] == b
  {
  }

  /** The keyed hash of one octet. */
  method KeyHash(output: array<byte>, key: Block, input: byte, E: KeyedCipher)
    requires output.Length == 16
    modifies output
    ensures output[..] == Hmac(E, key, [input]) == Mmo.Hmac(E, key, [input])
  {
    KeyHashIs(E, key, input);
    hide Mmo.Hmac;
    hide Put, HashOf, Xor, Fill;
    var M1 := new byte[17];
    M1[16] := input;
    MaskKey(M1, key, 0x36);
    assert M1[..17] == M1[..] == Xor(key, Fill(0x36)) + [input];
    var M2 := new byte[32];
    ghost var garbage := M2[..];
    Hash(M2, 16, M1, 17, E);
    ghost var inner := HashOf(E, Xor(key, Fill(0x36)) + [input]);
    PutThere(garbage, 16, inner);
    assert M2[16..] == M2[..][16..32] == inner;
    MaskKey(M2, key, 0x5c);
    assert M2[..32] == M2[..] == Xor(key, Fill(0x5c)) + inner;
    ghost var old16 := output[..];
    Hash(output, 0, M2, 32, E);
    PutThere(old16, 0, Hmac(E, key, [input]));
    assert output[..] == output[..][0..16];
  }
}
