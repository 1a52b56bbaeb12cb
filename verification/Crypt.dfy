/** The in-place sealing loops of crypt.cpp, proved against the block-list form of module Ccm. */
module Crypt {
  import opened Bytes
  import opened Ccm
  import opened DataBuffer

  /** Adds l octets of a key stream block: the inner loops of the counter mode. */
  method AddBlock(out: array<byte>, p: nat, input: array<byte>, c: nat, l: nat, Si: array<byte>)
    requires p + l <= out.Length && c + l <= input.Length && l <= Si.Length
    requires Si != out && Si != input
    requires out == input ==> p <= c
    modifies out
    ensures forall k {:trigger out[k]} :: 0 <= k < out.Length ==>
      out[k] == if p <= k < p + l then old(input[c + k - p]) ^ Si[k - p] else old(out[k])
  {
    ghost var was, stream := input[c..c + l], Si[..l];
    ghost var target := Xor(was, stream);
    for j := 0 to l
      invariant forall k {:trigger out[k]} :: 0 <= k < out.Length ==>
        out[k] == if p <= k < p + j then target[k - p] else old(out[k])
      invariant forall k :: c + j <= k < input.Length ==> input[k] == old(input[k])
    {
      assert was[j] == input[c + j] && stream[j] == Si[j];
      XorSwaps(Si[j], input[c + j]);
      out[p + j] := Si[j] ^ input[c + j];
    }
    assert forall j :: 0 <= j < l ==> was[j] == old(input[c + j]) && stream[j] == Si[j];
  }

  lemma XorSwaps(a: byte, b: byte)
    ensures a ^ b == b ^ a
  {
  }

  /** The key stream octets that block i covers. */
  lemma CtrStep(E: Cipher, nonce: Nonce, data: seq<byte>, i: nat, done: nat, j: nat)
    requires i >= 1 && done == 16 * (i - 1) && done + j < |data| && j < 16
    ensures Ctr(E, nonce, data)[done + j] == data[done + j] ^ KeyBlock(E, nonce, i)[j]
  {
    assert (done + j) / 16 + 1 == i && (done + j) % 16 == j;
  }

  /** The counter block A_0 with the position of the counter still open. */
  method CounterBlock(nonce: Nonce) returns (Ai: array<byte>)
    ensures fresh(Ai) && Ai.Length == 16 && Ai[..14] == [CTR_FLAGS] + nonce
  {
    Ai := new byte[16];
    Ai[0] := CTR_FLAGS;
    forall j | 0 <= j < 13 {
      Ai[1 + j] := nonce[j];
    }
  }

  /** Si = E(Ai) with the counter set in Ai. */
  method NextKeyBlock(Si: array<byte>, Ai: array<byte>, i: nat, nonce: Nonce, E: Cipher)
    requires Si != Ai && Si.Length == Ai.Length == 16 && Ai[..14] == [CTR_FLAGS] + nonce
    modifies Si, Ai
    ensures Ai[..14] == [CTR_FLAGS] + nonce && Si[..] == KeyBlock(E, nonce, i)
  {
    SetU16B(Ai, 14, i);
    assert Ai[..] == [CTR_FLAGS] + nonce + U16B(i);
    EncryptBlock(Si, Ai, E);
  }

  /** One turn of the counter mode loop: l octets of the stream from block i on. */
  method CtrTurn(out: array<byte>, p: nat, input: array<byte>, c: nat, l: nat, Ai: array<byte>, Si: array<byte>,
                 i: nat, nonce: Nonce, E: Cipher, ghost data: seq<byte>, ghost done: nat)
    requires p + l <= out.Length && c + l <= input.Length && l <= 16
    requires Si != Ai && Si.Length == Ai.Length == 16 && Ai[..14] == [CTR_FLAGS] + nonce
    requires {Ai, Si} !! {out, input}
    requires out == input ==> p <= c
    requires i >= 1 && done == 16 * (i - 1) && done + l <= |data|
    requires forall k {:trigger input[k]} :: c <= k < c + l ==> input[k] == data[done + (k - c)]
    modifies out, Ai, Si
    ensures Ai[..14] == [CTR_FLAGS] + nonce
    ensures forall k {:trigger out[k]} :: 0 <= k < out.Length ==>
      out[k] == if p <= k < p + l then Ctr(E, nonce, data)[done + (k - p)] else old(out[k])
  {
    hide Ctr, KeyBlock;
    NextKeyBlock(Si, Ai, i, nonce, E);
    forall j | 0 <= j < l
      ensures Ctr(E, nonce, data)[done + j] == input[c + j] ^ Si[j]
    {
      CtrStep(E, nonce, data, i, done, j);
      assert input[c + j] == data[done + j];
    }
    AddBlock(out, p, input, c, l, Si);
  }

  /**
   * Counter mode over length octets from c to p. Reading runs ahead of writing, so both may be in the same array as
   * long as the output does not overtake the input.
   */
  method ApplyCtr(out: array<byte>, p: nat, input: array<byte>, c: nat, length: nat, nonce: Nonce, E: Cipher)
    requires p + length <= out.Length && c + length <= input.Length
    requires out == input ==> p <= c
    modifies out
    ensures out[..] == Put(old(out[..]), p, Ctr(E, nonce, old(input[c..c + length])))
  {
    hide Ctr, KeyBlock, Put;
    var Ai := CounterBlock(nonce);
    var Si := new byte[16];
    ghost var data := input[c..c + length];
    ghost var stream := Ctr(E, nonce, data);
    var done, i := 0, 1;
    while done < length
      invariant 0 <= done <= length && i >= 1 && done == Min(length, 16 * (i - 1))
      invariant Ai[..14] == [CTR_FLAGS] + nonce
      invariant forall k {:trigger out[k]} :: 0 <= k < out.Length ==>
        out[k] == if p <= k < p + done then stream[k - p] else old(out[k])
      invariant forall k {:trigger input[k]} :: c + done <= k < c + length ==> input[k] == data[k - c]
    {
      var l := Min(length - done, 16);
      CtrTurn(out, p + done, input, c + done, l, Ai, Si, i, nonce, E, data, done);
      done, i := done + l, i + 1;
    }
    IsPut(out[..], old(out[..]), p, stream);
  }

  /** The front of S_0 added to an integrity code. */
  method ApplyTag(out: array<byte>, u: nat, input: array<byte>, t: nat, micLength: nat, nonce: Nonce, E: Cipher)
    requires u + micLength <= out.Length && t + micLength <= input.Length && micLength <= 16
    requires out == input ==> u <= t
    modifies out
    ensures out[..] == Put(old(out[..]), u, CtrTag(E, nonce, old(input[t..t + micLength])))
  {
    var Ai := CounterBlock(nonce);
    var Si := new byte[16];
    NextKeyBlock(Si, Ai, 0, nonce, E);
    AddBlock(out, u, input, t, micLength, Si);
    ghost var mask := CtrTag(E, nonce, old(input[t..t + micLength]));
    assert forall k :: 0 <= k < micLength ==> mask[k] == old(input[t + k]) ^ Si[k];
    IsPut(out[..], old(out[..]), u, mask);
  }

  // ----- the authenticated blocks, octet by octet

  function HeaderBlockCount(headerLength: nat): nat {
    (2 + headerLength + 15) / 16
  }

  /** Octet k of the length field, the header and the zeros behind it. */
  function HeaderOctet(header: seq<byte>, k: nat): byte {
    if k < 2 then U16B(|header|)[k] else if k < 2 + |header| then header[k - 2] else 0
  }

  function PayloadOctet(payload: seq<byte>, k: nat): byte {
    if k < |payload| then payload[k] else 0
  }

  ghost predicate HeaderLaid(blocks: seq<Block>, header: seq<byte>) {
    && 1 + HeaderBlockCount(|header|) <= |blocks|
    && forall n, j {:trigger blocks[n][j]} :: 1 <= n <= HeaderBlockCount(|header|) && 0 <= j < 16 ==>
         blocks[n][j] == HeaderOctet(header, 16 * (n - 1) + j)
  }

  ghost predicate PayloadLaid(blocks: seq<Block>, first: nat, payload: seq<byte>) {
    && first + (|payload| + 15) / 16 == |blocks|
    && forall n, j {:trigger blocks[n][j]} :: first <= n < |blocks| && 0 <= j < 16 ==>
         blocks[n][j] == PayloadOctet(payload, 16 * (n - first) + j)
  }

  lemma HeaderBlocksLaid(nonce: Nonce, header: seq<byte>, payload: seq<byte>)
    ensures AuthBlocks(nonce, header, payload)[0] == FirstBlock(AUTH_FLAGS, nonce, |payload|)
    ensures HeaderLaid(AuthBlocks(nonce, header, payload), header)
  {
    hide FirstBlock, U16B;
    var p := PadBlock(U16B(|header|) + header);
    var blocks := AuthBlocks(nonce, header, payload);
    assert |Chunks(p)| == HeaderBlockCount(|header|);
    forall n, j | 1 <= n < 1 + HeaderBlockCount(|header|) && 0 <= j < 16
      ensures blocks[n][j] == HeaderOctet(header, 16 * (n - 1) + j)
    {
      assert blocks[n] == Chunks(p)[n - 1];
      assert blocks[n][j] == p[16 * (n - 1) + j];
    }
  }

  lemma PayloadBlocksLaid(nonce: Nonce, header: seq<byte>, payload: seq<byte>)
    ensures PayloadLaid(AuthBlocks(nonce, header, payload), 1 + HeaderBlockCount(|header|), payload)
  {
    hide FirstBlock, U16B;
    var q := PadBlock(payload);
    var blocks := AuthBlocks(nonce, header, payload);
    var first := 1 + HeaderBlockCount(|header|);
    assert |Chunks(PadBlock(U16B(|header|) + header))| == HeaderBlockCount(|header|);
    assert |Chunks(q)| == (|payload| + 15) / 16;
    forall n, j | first <= n < |blocks| && 0 <= j < 16
      ensures blocks[n][j] == PayloadOctet(payload, 16 * (n - first) + j)
    {
      assert blocks[n] == Chunks(q)[n - first];
      assert blocks[n][j] == q[16 * (n - first) + j];
    }
  }

  // ----- the chain

  /** Adds a block that zeros complete and runs the cipher: one step of the chain. */
  method Absorb(Xi: array<byte>, length: nat, data: array<byte>, offset: nat, E: Cipher,
                ghost blocks: seq<Block>, ghost n: nat)
    requires Xi != data && Xi.Length == 16 && offset + length <= data.Length
    requires 1 <= n < |blocks| && Xi[..] == Mac(E, blocks, n)
    requires forall j :: 0 <= j < 16 ==> blocks[n][j] == if j < length then data[offset + j] else 0
    modifies Xi
    ensures Xi[..] == Mac(E, blocks, n + 1)
  {
    ghost var d := Clip(16, 0, data[offset..offset + length]);
    XorData(Xi, 0, length, data, offset);
    XorPadded(Mac(E, blocks, n), d, blocks[n]);
    EncryptBlock(Xi, Xi, E);
  }

  /** The length field and the front of the header are added separately. */
  lemma XorFirst(s: Block, field: seq<byte>, d: seq<byte>, block: Block)
    requires |field| == 2 && |d| <= 14
    requires forall j :: 0 <= j < 16 ==>
      block[j] == if j < 2 then field[j] else if j < 2 + |d| then d[j - 2] else 0
    ensures XorAt(XorAt(s, 0, field), 2, d) == Xor(s, block)
  {
    var x := XorAt(s, 0, field);
    var y := XorAt(x, 2, d);
    forall j | 0 <= j < 16
      ensures y[j] == s[j] ^ block[j]
    {
      assert x[j] == if j < 2 then s[j] ^ field[j] else s[j];
      assert y[j] == if 2 <= j < 2 + |d| then x[j] ^ d[j - 2] else x[j];
    }
  }

  /** X1 = E(X0 ^ B0), where X0 is zero. */
  method AuthenticateStart(nonce: Nonce, payloadLength: nat, E: Cipher) returns (Xi: array<byte>)
    ensures fresh(Xi) && Xi.Length == 16 && Xi[..] == E(FirstBlock(AUTH_FLAGS, nonce, payloadLength))
  {
    Xi := new byte[16];
    Xi[0] := AUTH_FLAGS;
    forall j | 0 <= j < 13 {
      Xi[1 + j] := nonce[j];
    }
    SetU16B(Xi, 14, payloadLength);
    assert Xi[..] == FirstBlock(AUTH_FLAGS, nonce, payloadLength);
    EncryptBlock(Xi, Xi, E);
  }

  /** X2 = E(X1 ^ B1) with the length field and up to 14 octets of the header. */
  method AuthenticateFirst(Xi: array<byte>, header: array<byte>, h: nat, headerLength: nat, E: Cipher, ghost blocks: seq<Block>)
    requires h + headerLength <= header.Length && Xi != header && Xi.Length == 16
    requires HeaderLaid(blocks, header[h..h + headerLength]) && Xi[..] == Mac(E, blocks, 1)
    modifies Xi
    ensures Xi[..] == Mac(E, blocks, 2)
  {
    ghost var a := header[h..h + headerLength];
    ghost var d := Clip(16, 2, a);
    ghost var x1 := Mac(E, blocks, 1);
    forall j | 0 <= j < 16
      ensures blocks[1][j] == if j < 2 then U16B(|a|)[j] else if j < 2 + |d| then d[j - 2] else 0
    {
      assert blocks[1][j] == HeaderOctet(a, 16 * (1 - 1) + j);
    }
    XorFirst(x1, U16B(|a|), d, blocks[1]);
    XorU16B(Xi, 0, headerLength);
    XorData(Xi, 2, headerLength, header, h);
    EncryptBlock(Xi, Xi, E);
  }

  /** Continues the chain over the remainder of the header. */
  method AuthenticateHeader(Xi: array<byte>, header: array<byte>, h: nat, headerLength: nat, E: Cipher, ghost blocks: seq<Block>)
    requires h + headerLength <= header.Length && Xi != header && Xi.Length == 16
    requires HeaderLaid(blocks, header[h..h + headerLength]) && Xi[..] == Mac(E, blocks, 2)
    modifies Xi
    ensures Xi[..] == Mac(E, blocks, 1 + HeaderBlockCount(headerLength))
  {
    hide Mac;
    ghost var a := header[h..h + headerLength];
    var position, remaining := h + 14, headerLength - 14;
    ghost var n := 2;
    while remaining > 0
      invariant n >= 2 && position == h + 16 * (n - 1) - 2 && remaining == headerLength - (16 * (n - 1) - 2)
      invariant remaining > -16
      invariant Xi[..] == Mac(E, blocks, n)
    {
      forall j | 0 <= j < 16
        ensures blocks[n][j] == if j < remaining then header[position + j] else 0
      {
        assert blocks[n][j] == HeaderOctet(a, 16 * (n - 1) + j);
      }
      Absorb(Xi, remaining, header, position, E, blocks, n);
      position, remaining, n := position + 16, remaining - 16, n + 1;
    }
  }

  /** Finishes the chain over the payload. */
  method AuthenticatePayload(Xi: array<byte>, message: array<byte>, m: nat, payloadLength: nat, E: Cipher,
                             ghost blocks: seq<Block>, ghost first: nat)
    requires m + payloadLength <= message.Length && Xi != message && Xi.Length == 16
    requires 1 <= first && PayloadLaid(blocks, first, message[m..m + payloadLength]) && Xi[..] == Mac(E, blocks, first)
    modifies Xi
    ensures Xi[..] == Mac(E, blocks, |blocks|)
  {
    hide Mac;
    ghost var b := message[m..m + payloadLength];
    var done := 0;
    ghost var n := first;
    while done < payloadLength
      invariant first <= n <= |blocks| && done == Min(16 * (n - first), payloadLength)
      invariant Xi[..] == Mac(E, blocks, n)
    {
      var l := Min(payloadLength - done, 16);
      forall j | 0 <= j < 16
        ensures blocks[n][j] == if j < l then message[m + done + j] else 0
      {
        assert blocks[n][j] == PayloadOctet(b, 16 * (n - first) + j);
      }
      Absorb(Xi, l, message, m + done, E, blocks, n);
      done, n := done + l, n + 1;
    }
  }

  lemma TagIsMac(E: Cipher, nonce: Nonce, header: seq<byte>, payload: seq<byte>)
    ensures var blocks := AuthBlocks(nonce, header, payload);
            Tag(E, nonce, header, payload) == Mac(E, blocks, |blocks|) && Mac(E, blocks, 1) == E(blocks[0])
  {
  }

  /** The CBC-MAC chain over header and payload; reads both buffers and leaves them unchanged. */
  method Authenticate(header: array<byte>, h: nat, headerLength: nat,
                      message: array<byte>, m: nat, payloadLength: nat, nonce: Nonce, E: Cipher)
    returns (Xi: array<byte>)
    requires h + headerLength <= header.Length && m + payloadLength <= message.Length
    ensures fresh(Xi) && Xi.Length == 16
    ensures Xi[..] == Tag(E, nonce, header[h..h + headerLength], message[m..m + payloadLength])
  {
    hide AuthBlocks, HeaderLaid, PayloadLaid, HeaderBlockCount, FirstBlock, Mac, Tag;
    ghost var a, b := header[h..h + headerLength], message[m..m + payloadLength];
    ghost var blocks := AuthBlocks(nonce, a, b);
    HeaderBlocksLaid(nonce, a, b);
    PayloadBlocksLaid(nonce, a, b);
    TagIsMac(E, nonce, a, b);
    Xi := AuthenticateStart(nonce, payloadLength, E);
    AuthenticateFirst(Xi, header, h, headerLength, E, blocks);
    AuthenticateHeader(Xi, header, h, headerLength, E, blocks);
    AuthenticatePayload(Xi, message, m, payloadLength, E, blocks, 1 + HeaderBlockCount(headerLength));
  }

  /** Seals a message: ciphertext and integrity code go to the result, which may be the message itself. */
  method Encrypt(result: array<byte>, r: nat, header: array<byte>, h: nat, headerLength: nat,
                 message: array<byte>, m: nat, payloadLength: nat, micLength: nat, nonce: Nonce, E: Cipher)
    requires h + headerLength <= header.Length && m + payloadLength <= message.Length
    requires r + payloadLength + micLength <= result.Length && micLength <= 16
    requires result == message ==> r <= m
    modifies result
    ensures result[..] == Put(old(result[..]), r,
                              Seal(E, nonce, old(header[h..h + headerLength]), old(message[m..m + payloadLength]), micLength))
  {
    hide Ctr, CtrTag, Tag, Put;
    ghost var payload := message[m..m + payloadLength];
    ghost var before := result[..];
    var Xi := Authenticate(header, h, headerLength, message, m, payloadLength, nonce, E);
    assert Xi[0..micLength] == Xi[..][..micLength];
    ApplyCtr(result, r, message, m, payloadLength, nonce, E);
    ApplyTag(result, r + payloadLength, Xi, 0, micLength, nonce, E);
    PutTwice(before, r, Ctr(E, nonce, payload), CtrTag(E, nonce, Xi[0..micLength]));
  }

  /** Compares the front of two buffers without stopping at the first difference. */
  method SameFront(T: array<byte>, X: array<byte>, micLength: nat) returns (ok: bool)
    requires micLength <= T.Length && micLength <= X.Length
    ensures ok == (T[..micLength] == X[..micLength])
  {
    var difference: byte := 0;
    for j := 0 to micLength
      invariant difference == 0 <==> T[..j] == X[..j]
    {
      Accumulate(difference, T[j], X[j]);
      assert T[..j + 1] == T[..j] + [T[j]] && X[..j + 1] == X[..j] + [X[j]];
      difference := difference | (T[j] ^ X[j]);
    }
    ok := difference == 0;
  }

  lemma Accumulate(d: byte, x: byte, y: byte)
    ensures (d | (x ^ y)) == 0 <==> d == 0 && x == y
  {
  }

  /** Opens a message; the result receives the payload also when the integrity code does not fit. */
  method Decrypt(result: array<byte>, r: nat, header: array<byte>, h: nat, headerLength: nat,
                 message: array<byte>, m: nat, payloadLength: nat, micLength: nat, nonce: Nonce, E: Cipher)
    returns (ok: bool)
    requires h + headerLength <= header.Length && m + payloadLength + micLength <= message.Length
    requires r + payloadLength <= result.Length && micLength <= 4
    requires result == message ==> r <= m
    requires result == header ==> h + headerLength <= r || r + payloadLength <= h
    modifies result
    ensures var sealed := old(message[m..m + payloadLength + micLength]);
            result[..] == Put(old(result[..]), r, Unseal(E, nonce, sealed, micLength))
            && ok == Accepts(E, nonce, old(header[h..h + headerLength]), sealed, micLength)
  {
    hide Ctr, CtrTag, Tag, Put;
    ghost var a := header[h..h + headerLength];
    ghost var sealed := message[m..m + payloadLength + micLength];
    ghost var before := result[..];
    ghost var payload := Unseal(E, nonce, sealed, micLength);
    var end := m + payloadLength;
    ghost var mic := message[end..end + micLength];
    assert sealed[..payloadLength] == message[m..end];
    assert sealed[payloadLength..] == mic;
    ApplyCtr(result, r, message, m, payloadLength, nonce, E);
    assert result[..] == Put(before, r, payload);
    if result == header {
      PutElsewhere(before, r, payload, h, h + headerLength);
    }
    assert header[h..h + headerLength] == a;
    if result == message {
      PutElsewhere(before, r, payload, end, end + micLength);
    }
    assert message[end..end + micLength] == mic;
    PutThere(before, r, payload);
    ok := Check(result, r, header, h, headerLength, message, end, payloadLength, micLength, nonce, E);
  }

  /** The authentication checking transformation on an already decrypted payload. */
  method Check(result: array<byte>, r: nat, header: array<byte>, h: nat, headerLength: nat,
               message: array<byte>, t: nat, payloadLength: nat, micLength: nat, nonce: Nonce, E: Cipher)
    returns (ok: bool)
    requires h + headerLength <= header.Length && r + payloadLength <= result.Length
    requires t + micLength <= message.Length && micLength <= 4
    ensures ok == (CtrTag(E, nonce, message[t..t + micLength])
                   == Tag(E, nonce, header[h..h + headerLength], result[r..r + payloadLength])[..micLength])
  {
    hide CtrTag, Tag, Put;
    var T := new byte[4];
    ghost var zero := T[..];
    ghost var mask := CtrTag(E, nonce, message[t..t + micLength]);
    ApplyTag(T, 0, message, t, micLength, nonce, E);
    PutThere(zero, 0, mask);
    var Xi := Authenticate(header, h, headerLength, result, r, payloadLength, nonce, E);
    assert T[..micLength] == T[..][0..0 + |mask|] == mask;
    assert Xi[..micLength] == Xi[..][..micLength];
    ok := SameFront(T, Xi, micLength);
  }
}
