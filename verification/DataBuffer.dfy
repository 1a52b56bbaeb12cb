/** The fixed-size buffers of DataBuffer.hpp as arrays, with the clipping of their bulk operations. */
module DataBuffer {
  import opened Bytes

  /** s with d written at the index. */
  function Put(s: seq<byte>, index: nat, d: seq<byte>): (r: seq<byte>)
    requires index + |d| <= |s|
    ensures |r| == |s|
  {
    s[..index] + d + s[index + |d|..]
  }

  lemma IsPut(r: seq<byte>, s: seq<byte>, index: nat, d: seq<byte>)
    requires |r| == |s| && index + |d| <= |s|
    requires forall k {:trigger r[k]} :: 0 <= k < |r| ==> r[k] == if index <= k < index + |d| then d[k - index] else s[k]
    ensures r == Put(s, index, d)
  {
  }

  lemma PutTwice(s: seq<byte>, p: nat, x: seq<byte>, y: seq<byte>)
    requires p + |x| + |y| <= |s|
    ensures Put(Put(s, p, x), p + |x|, y) == Put(s, p, x + y)
  {
  }

  lemma PutElsewhere(s: seq<byte>, p: nat, x: seq<byte>, i: nat, j: nat)
    requires p + |x| <= |s| && i <= j <= |s| && (j <= p || p + |x| <= i)
    ensures Put(s, p, x)[i..j] == s[i..j]
  {
  }

  lemma PutThere(s: seq<byte>, p: nat, x: seq<byte>)
    requires p + |x| <= |s|
    ensures Put(s, p, x)[p..p + |x|] == x
  {
  }

  /** s with d added modulo 2 at the index. */
  function XorAt(s: seq<byte>, index: nat, d: seq<byte>): (r: seq<byte>)
    requires index + |d| <= |s|
    ensures |r| == |s|
    ensures forall j {:trigger r[j]} :: 0 <= j < |s| ==> r[j] == if index <= j < index + |d| then s[j] ^ d[j - index] else s[j]
  {
    seq(|s|, j requires 0 <= j < |s| => if index <= j < index + |d| then s[j] ^ d[j - index] else s[j])
  }

  /** The octets that a bulk operation takes: as many as fit behind the index. */
  function Clip(size: nat, index: nat, data: seq<byte>): (r: seq<byte>)
    requires index <= size
    ensures index + |r| <= size && r <= data
  {
    data[..Min(size - index, |data|)]
  }

  method SetU16B(buffer: array<byte>, index: nat, value: nat)
    requires index + 2 <= buffer.Length
    modifies buffer
    ensures buffer[..] == Put(old(buffer[..]), index, U16B(value))
  {
    buffer[index] := ((value / 256) % 256) as byte;
    buffer[index + 1] := (value % 256) as byte;
  }

  method XorU16B(buffer: array<byte>, index: nat, value: nat)
    requires index + 2 <= buffer.Length
    modifies buffer
    ensures buffer[..] == XorAt(old(buffer[..]), index, U16B(value))
  {
    buffer[index] := buffer[index] ^ ((value / 256) % 256) as byte;
    buffer[index + 1] := buffer[index + 1] ^ (value % 256) as byte;
  }

  method SetData(buffer: array<byte>, index: nat, length: nat, data: array<byte>, offset: nat)
    requires index <= buffer.Length && buffer != data && offset + length <= data.Length
    modifies buffer
    ensures buffer[..] == Put(old(buffer[..]), index, Clip(buffer.Length, index, data[offset..offset + length]))
  {
    hide Put;
    var l := Min(buffer.Length - index, length);
    var it := 0;
    while it < l
      invariant 0 <= it <= l
      invariant forall k {:trigger buffer[k]} :: 0 <= k < buffer.Length ==>
        buffer[k] == if index <= k < index + it then data[offset + k - index] else old(buffer[k])
    {
      buffer[index + it] := data[offset + it];
      it := it + 1;
    }
    ghost var d := Clip(buffer.Length, index, data[offset..offset + length]);
    assert forall k :: 0 <= k < |d| ==> d[k] == data[offset + k];
    IsPut(buffer[..], old(buffer[..]), index, d);
  }

  method XorData(buffer: array<byte>, index: nat, length: nat, data: array<byte>, offset: nat)
    requires index <= buffer.Length && buffer != data && offset + length <= data.Length
    modifies buffer
    ensures buffer[..] == XorAt(old(buffer[..]), index, Clip(buffer.Length, index, data[offset..offset + length]))
  {
    hide Added;
    var l := Min(buffer.Length - index, length);
    ghost var was, d := buffer[..], Clip(buffer.Length, index, data[offset..offset + length]);
    ghost var target := AddedTarget(was, index, d);
    var it := 0;
    while it < l
      invariant 0 <= it <= l
      invariant forall k {:trigger buffer[k]} :: 0 <= k < buffer.Length ==>
        buffer[k] == if index <= k < index + it then target[k] else was[k]
    {
      AddedAt(target, was, index, d, it);
      buffer[index + it] := buffer[index + it] ^ data[offset + it];
      it := it + 1;
    }
    AddedElsewhere(target, was, index, d);
    assert buffer[..] == target;
  }

  ghost predicate Added(r: seq<byte>, s: seq<byte>, index: nat, d: seq<byte>)
    requires index + |d| <= |s|
  {
    r == XorAt(s, index, d)
  }

  ghost function AddedTarget(s: seq<byte>, index: nat, d: seq<byte>): (r: seq<byte>)
    requires index + |d| <= |s|
    ensures |r| == |s| && Added(r, s, index, d)
  {
    XorAt(s, index, d)
  }

  lemma AddedAt(r: seq<byte>, s: seq<byte>, index: nat, d: seq<byte>, it: nat)
    requires it < |d| && index + |d| <= |s| == |r| && Added(r, s, index, d)
    ensures r[index + it] == s[index + it] ^ d[it]
  {
  }

  lemma AddedElsewhere(r: seq<byte>, s: seq<byte>, index: nat, d: seq<byte>)
    requires index + |d| <= |s| && Added(r, s, index, d)
    ensures r == XorAt(s, index, d) && |r| == |s|
    ensures forall k :: 0 <= k < |s| && !(index <= k < index + |d|) ==> r[k] == s[k]
  {
  }

  /** Fills the buffer with zeros from the index on. */
  method Pad(buffer: array<byte>, index: nat)
    requires index <= buffer.Length
    modifies buffer
    ensures buffer[..] == old(buffer[..index]) + Zeros(buffer.Length - index)
  {
    var it := index;
    while it < buffer.Length
      invariant index <= it <= buffer.Length
      invariant forall j :: 0 <= j < buffer.Length ==>
        buffer[j] == if index <= j < it then 0 else old(buffer[j])
    {
      buffer[it] := 0;
      it := it + 1;
    }
  }

  /** Runs the cipher over one block; both buffers may be the same. */
  method EncryptBlock(out: array<byte>, input: array<byte>, E: Cipher)
    requires out.Length == input.Length == 16
    modifies out
    ensures out[..] == E(old(input[..]))
  {
    var block: Block := E(input[..]);
    forall j | 0 <= j < 16 {
      out[j] := block[j];
    }
  }

  /** Adding clipped data is adding the block that zeros complete. */
  lemma XorPadded(s: Block, d: seq<byte>, block: Block)
    requires |d| <= 16
    requires forall j :: 0 <= j < 16 ==> block[j] == if j < |d| then d[j] else 0
    ensures XorAt(s, 0, d) == Xor(s, block)
  {
  }
}
