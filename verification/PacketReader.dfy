/** The packet reader of RadioInterface.hpp and the two decryption stages of RadioInterface::receive. */
module PacketReader {
  import opened Bytes
  import opened Ccm
  import opened RadioFrame
  import Crypt
  import opened DataBuffer
  import opened Options

  class PacketReader {
    const packet: array<byte>
    var current: nat
    var end: nat
    var header: nat
    var message: nat

    ghost predicate Valid()
      reads this
    {
      current <= end <= packet.Length
    }

    /** What is left to read. */
    ghost function Rest(): (r: seq<byte>)
      requires Valid()
      reads this, packet
      ensures |r| == end - current
    {
      packet[current..end]
    }

    constructor (packet: array<byte>, current: nat, end: nat)
      requires current <= end <= packet.Length
      ensures Valid() && this.packet == packet && this.current == current && this.end == end
    {
      this.packet, this.current, this.end, header, message := packet, current, end, 0, 0;
    }

    /** Puts the level that the frame was sealed with back into the control octet. */
    method RestoreSecurityLevel()
      requires Valid() && current < end
      modifies packet
      ensures packet[..] == Restore(old(packet[..]), current)
    {
      packet[current] := packet[current] | LEVEL_ENC_MIC32;
    }

    /** Cuts off the integrity code and decrypts in place. */
    method Decrypt(nonce: Nonce, E: Cipher) returns (ok: bool)
      requires Valid() && header <= message && current == message && message + MIC_LENGTH <= end
      modifies this`end, packet
      ensures Valid() && end == old(end) - MIC_LENGTH
      ensures Rest() == Unseal(E, nonce, old(Rest()), MIC_LENGTH)
      ensures ok == Accepts(E, nonce, old(packet[header..message]), old(Rest()), MIC_LENGTH)
    {
      hide Ctr, Accepts, Put;
      end := end - MIC_LENGTH;
      ghost var before := packet[..];
      ghost var payload := Unseal(E, nonce, packet[message..end + MIC_LENGTH], MIC_LENGTH);
      ok := Crypt.Decrypt(packet, message, packet, header, message - header, packet, message, end - message,
                          MIC_LENGTH, nonce, E);
      PutThere(before, message, payload);
    }
  }

  /** The part of a buffer behind the restored control octet, and the header in front of it. */
  lemma RestoredParts(before: seq<byte>, start: nat, end: nat, i: nat, n: nat)
    requires start <= end <= |before| && i < n <= end - start
    ensures var s := before[start..end]; var after := Restore(before, start + i);
            after[start..start + n] == Restore(s, i)[..n] && after[start + n..end] == s[n..]
  {
    var s, after := before[start..end], Restore(before, start + i);
    assert forall k :: 0 <= k < |s| ==> after[start + k] == Restore(s, i)[k];
  }

  /** Decrypts one layer that starts at the header and whose control octet, already restored, is at the given offset. */
  method OpenLayerInPlace(r: PacketReader, E: Cipher, nonce: Nonce, ghost s: seq<byte>, ghost i: nat) returns (ok: bool)
    requires r.Valid() && r.header <= r.current == r.message && r.message + MIC_LENGTH <= r.end
    requires |s| == r.end - r.header && i < r.message - r.header
    requires r.packet[r.header..r.message] == Restore(s, i)[..r.message - r.header]
    requires r.Rest() == s[r.message - r.header..]
    modifies r`end, r.packet
    ensures r.Valid()
    ensures ok == OpenLayer(E, s, i, r.message - r.header, nonce).Some?
    ensures ok ==> r.Rest() == OpenLayer(E, s, i, r.message - r.header, nonce).value
  {
    hide Accepts, Unseal, Restore;
    ok := r.Decrypt(nonce, E);
  }

  /** Moves the cursor over the addressing fields of a network header; every relay of a source route takes two octets. */
  method SkipAddresses(r: PacketReader, frameControl: bv16)
    requires r.Valid() && NwkComplete(r.Rest()) && frameControl == GetU16L(r.Rest(), 0)
    modifies r`current
    ensures r.Valid() && r.current == old(r.current) + SecurityStart(old(r.Rest()))
  {
    hide Has, GetU16L;
    ghost var s, start := r.Rest(), r.current;
    r.current := r.current + 8;
    if Has(frameControl, NWK_DESTINATION) {
      r.current := r.current + 8;
    }
    if Has(frameControl, NWK_EXTENDED_SOURCE) {
      r.current := r.current + 8;
    }
    if Has(frameControl, NWK_SOURCE_ROUTE) {
      var relayCount := r.packet[r.current] as nat;
      assert s[r.current - start] == r.packet[r.current];
      r.current := r.current + 2;
      ghost var first := r.current;
      for i := 0 to relayCount
        invariant r.current == first + 2 * i
      {
        r.current := r.current + 2;
      }
    }
  }

  /**
   * The network stage from the frame control to the decrypted payload. It reports success exactly when OpenNwk
   * delivers a payload, which is then what is left to read.
   */
  method NwkStage(r: PacketReader, keys: Keys) returns (ok: bool, source: seq<byte>, counter: bv32)
    requires r.Valid() && NwkComplete(r.Rest())
    modifies r, r.packet
    ensures r.Valid() && |source| == 8
    ensures ok == OpenNwk(keys, old(r.Rest())).Some?
    ensures ok ==> var o := OpenNwk(keys, old(r.Rest())).value;
                   o.payload == r.Rest() && o.source == source && o.counter == counter
  {
    hide Has, GetU16L, GetU32L, SecurityStart, OpenLayer;
    ghost var s := r.Rest();
    ok, source, counter := false, Zeros(8), 0;
    r.header := r.current;
    var frameControl := GetU16L(r.packet[r.current..r.end], 0);
    SkipAddresses(r, frameControl);
    if !Has(frameControl, NWK_SECURITY) {
      return;
    }
    ghost var before, i := r.packet[..], r.current - r.header;
    assert before[r.header..r.end] == s;
    r.RestoreSecurityLevel();
    RestoredParts(before, r.header, r.end, i, i + 14);
    var control := r.packet[r.current];
    assert control == s[i] | LEVEL_ENC_MIC32;
    if control & KEY_MASK != KEY_NETWORK || control & EXTENDED_NONCE == 0 {
      return;
    }
    ok, source, counter := ReadSecured(r, keys.network, control, s, i);
  }

  /** Counter, extended source and key sequence number behind the control octet, then the layer itself. */
  method ReadSecured(r: PacketReader, E: Cipher, control: byte, ghost s: seq<byte>, ghost i: nat)
    returns (ok: bool, source: seq<byte>, counter: bv32)
    requires r.Valid() && r.header + i == r.current && r.current + 14 + MIC_LENGTH <= r.end && |s| == r.end - r.header
    requires r.packet[r.header..r.header + (i + 14)] == Restore(s, i)[..i + 14]
    requires r.packet[r.header + (i + 14)..r.end] == s[i + 14..]
    modifies r, r.packet
    ensures r.Valid() && |source| == 8
    ensures source == s[i + 5..i + 13] && counter == GetU32L(s, i + 1)
    ensures var o := OpenLayer(E, s, i, i + 14, NonceOf(source, counter, control));
            ok == o.Some? && (ok ==> r.Rest() == o.value)
  {
    hide OpenLayer, NonceOf, GetU32L, Restore;
    ghost var n := i + 14;
    BehindControl(s, i, n);
    assert r.packet[r.header + (i + 1)..r.header + n] == r.packet[r.header..r.header + n][i + 1..] == s[i + 1..n];
    assert r.packet[r.current + 1..r.current + 5] == s[i + 1..n][..4] == s[i + 1..i + 5];
    assert r.packet[r.current + 5..r.current + 13] == s[i + 1..n][4..12] == s[i + 5..i + 13];
    SliceU32L(s, i + 1);
    counter := GetU32L(r.packet[r.current + 1..r.current + 5], 0);
    source := r.packet[r.current + 5..r.current + 13];
    r.current := r.current + 14;
    r.message := r.current;
    ok := OpenLayerInPlace(r, E, NonceOf(source, counter, control), s, i);
  }

  /**
   * The application stage for command frames. It reports success exactly when OpenAps delivers a command, whose
   * octets are then what is left to read.
   */
  method ApsStage(r: PacketReader, keys: Keys, source: seq<byte>) returns (ok: bool, apsCounter: byte, secured: bool)
    requires r.Valid() && ApsComplete(r.Rest()) && |source| == 8
    modifies r, r.packet
    ensures r.Valid()
    ensures ok == OpenAps(keys, old(r.Rest()), source).Some?
    ensures ok ==> OpenAps(keys, old(r.Rest()), source).value == ApsOpened(apsCounter, secured, r.Rest())
  {
    hide GetU32L, OpenLayer, SelectKey, NonceOf;
    ghost var s := r.Rest();
    ok, apsCounter, secured := false, 0, false;
    r.header := r.current;
    var frameControl := r.packet[r.current];
    assert frameControl == s[0] && r.packet[r.current + 1] == s[1] && r.packet[r.current + 2] == s[2];
    if frameControl & APS_TYPE_MASK != APS_TYPE_COMMAND {
      return;
    }
    apsCounter := r.packet[r.current + 1];
    r.current := r.current + 2;
    if frameControl & APS_SECURITY == 0 {
      ok := true;
      return;
    }
    secured := true;
    ok := ApsSecuredStage(r, keys, source, s);
  }

  /** The secured part of the application stage, from the control octet on. */
  method ApsSecuredStage(r: PacketReader, keys: Keys, source: seq<byte>, ghost s: seq<byte>) returns (ok: bool)
    requires r.Valid() && r.header + 2 == r.current && r.packet[r.header..r.end] == s && ApsComplete(s) && |source| == 8
    requires s[0] & APS_TYPE_MASK == APS_TYPE_COMMAND && s[0] & APS_SECURITY != 0
    modifies r, r.packet
    ensures r.Valid() && ok == OpenAps(keys, s, source).Some?
    ensures ok ==> OpenAps(keys, s, source).value == ApsOpened(s[1], true, r.Rest())
  {
    hide GetU32L, OpenLayer, SelectKey, NonceOf;
    ok := false;
    ghost var before := r.packet[..];
    assert before[r.header..r.end] == s;
    r.RestoreSecurityLevel();
    var control := r.packet[r.current];
    assert control == s[2] | LEVEL_ENC_MIC32;
    RestoredParts(before, r.header, r.end, 2, ApsHeaderLength(s));
    if control & KEY_MASK == KEY_NETWORK {
      return;
    }
    ok := ReadApsSecured(r, SelectKey(keys, control), control, source, s);
  }

  lemma BehindControl(s: seq<byte>, i: nat, n: nat)
    requires i < n <= |s|
    ensures Restore(s, i)[..n][i + 1..] == s[i + 1..n]
  {
  }

  /** The application security header, with an extended source only if the control octet asks for it. */
  method ReadApsSecured(r: PacketReader, E: Cipher, control: byte, source: seq<byte>, ghost s: seq<byte>) returns (ok: bool)
    requires r.Valid() && r.header + 2 == r.current && |s| == r.end - r.header && |source| == 8 && |s| >= 3
    requires s[0] & APS_SECURITY != 0 && ApsHeaderLength(s) + MIC_LENGTH <= |s| && control == s[2] | LEVEL_ENC_MIC32
    requires r.packet[r.header..r.header + ApsHeaderLength(s)] == Restore(s, 2)[..ApsHeaderLength(s)]
    requires r.packet[r.header + ApsHeaderLength(s)..r.end] == s[ApsHeaderLength(s)..]
    modifies r, r.packet
    ensures r.Valid()
    ensures var n := ApsHeaderLength(s);
            var o := OpenLayer(E, s, 2, n, NonceOf(if n == 15 then s[7..15] else source, GetU32L(s, 3), control));
            ok == o.Some? && (ok ==> r.Rest() == o.value)
  {
    hide OpenLayer, NonceOf, GetU32L, Restore;
    ghost var n := ApsHeaderLength(s);
    BehindControl(s, 2, n);
    assert r.packet[r.header + 3..r.header + n] == r.packet[r.header..r.header + n][3..];
    var counter := GetU32L(r.packet[r.current + 1..r.current + 5], 0);
    assert n >= 7 && r.packet[r.header + 3..r.header + n] == s[3..n];
    assert r.packet[r.current + 1..r.current + 5] == r.packet[r.header + 3..r.header + n][..4];
    assert s[3..n][..4] == s[3..7];
    SliceU32L(s, 3);
    r.current := r.current + 5;
    var nonceSource := source;
    if control & EXTENDED_NONCE != 0 {
      nonceSource := r.packet[r.current..r.current + 8];
      assert n == 15 && r.packet[r.header + 3..r.header + n] == s[3..n];
      assert nonceSource == r.packet[r.header + 3..r.header + n][4..12];
      assert s[3..n][4..12] == s[7..15];
      r.current := r.current + 8;
    }
    r.message := r.current;
    ok := OpenLayerInPlace(r, E, NonceOf(nonceSource, counter, control), s, 2);
  }
}
