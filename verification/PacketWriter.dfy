/** The packet writer of RadioInterface.hpp and the write helpers of RadioInterface.cpp that build nested frames. */
module PacketWriter {
  import opened Bytes
  import opened Ccm
  import opened RadioFrame
  import Crypt
  import DataBuffer
  import opened Options

  /** Header, message and security fields that push() saves. */
  datatype WriterState = WriterState(header: nat, message: nat, securityControl: nat, securityCounter: bv32)

  /** Octet 0 of the packet holds the length, so position 0 serves as the null pointer. */
  class PacketWriter {
    const packet: array<byte>
    var current: nat
    var header: nat
    var message: nat
    var securityControl: nat
    var securityCounter: bv32

    /** There is always room for the send flags behind the packet. */
    ghost predicate Valid()
      reads this
    {
      1 <= current < packet.Length
    }

    ghost function Contents(): (r: seq<byte>)
      requires Valid()
      reads this, packet
      ensures |r| == current - 1
    {
      packet[1..current]
    }

    constructor (packet: array<byte>)
      requires packet.Length >= 2
      ensures Valid() && this.packet == packet && Contents() == [] && securityControl == 0
    {
      this.packet := packet;
      current, header, message, securityControl, securityCounter := 1, 0, 0, 0, 0;
    }

    method Data8(data: seq<byte>)
      requires Valid() && current + |data| < packet.Length
      modifies this`current, packet
      ensures Valid() && Contents() == old(Contents()) + data
    {
      for i := 0 to |data|
        invariant current == old(current) && 1 <= current + i < packet.Length
        invariant packet[1..current + i] == old(Contents()) + data[..i]
      {
        packet[current + i] := data[i];
        assert packet[1..current + i + 1] == packet[1..current + i] + [data[i]];
      }
      assert data[..|data|] == data;
      current := current + |data|;
    }

    method Security(control: byte, counter: bv32)
      requires Valid() && current + 5 < packet.Length
      modifies this`current, this`securityControl, this`securityCounter, packet
      ensures Valid() && Contents() == old(Contents()) + [control] + Bytes.U32L(counter)
      ensures securityControl == old(current) && securityCounter == counter
    {
      securityControl, securityCounter := current, counter;
      Data8([control]);
      Data8(Bytes.U32L(counter));
    }

    method Push() returns (s: WriterState)
      modifies this`securityControl
      ensures s == WriterState(header, message, old(securityControl), securityCounter) && securityControl == 0
    {
      s := WriterState(header, message, securityControl, securityCounter);
      securityControl := 0;
    }

    method Pop(s: WriterState)
      modifies this`header, this`message, this`securityControl, this`securityCounter
      ensures WriterState(header, message, securityControl, securityCounter) == s
    {
      header, message, securityControl, securityCounter := s.header, s.message, s.securityControl, s.securityCounter;
    }

    /** Seals in place what was written since the start of the message. */
    method Encrypt(nonce: Nonce, E: Cipher)
      requires Valid() && 1 <= header <= message <= current && current + MIC_LENGTH < packet.Length
      modifies this`current, packet
      ensures Valid() && current == old(current) + MIC_LENGTH
      ensures Contents() == old(packet[1..message])
                          + Seal(E, nonce, old(packet[header..message]), old(packet[message..current]), MIC_LENGTH)
    {
      hide Seal;
      ghost var sealed := Seal(E, nonce, packet[header..message], packet[message..current], MIC_LENGTH);
      ghost var before := packet[..];
      Crypt.Encrypt(packet, message, packet, header, message - header, packet, message, current - message,
                    MIC_LENGTH, nonce, E);
      DataBuffer.PutThere(before, message, sealed);
      DataBuffer.PutElsewhere(before, message, sealed, 1, message);
      current := current + MIC_LENGTH;
      assert packet[1..current] == packet[1..message] + packet[message..current];
    }

    /** Removes the level from the control octet of the finished layer. */
    method ClearSecurityLevel()
      requires Valid() && 1 <= securityControl < current
      modifies packet
      ensures Contents() == old(Contents())[securityControl - 1 := old(packet[securityControl]) & !LEVEL_MASK]
    {
      packet[securityControl] := packet[securityControl] & !LEVEL_MASK;
    }

    /** Writes the send flags behind the packet and its length, two checksum octets included, in front. */
    method Finish(sendFlags: byte)
      requires Valid()
      modifies packet
      ensures Contents() == old(Contents()) && packet[current] == sendFlags
      ensures packet[0] == ((|Contents()| + 2) % 256) as byte
    {
      packet[current] := sendFlags;
      packet[0] := ((current - 1 + 2) % 256) as byte;
    }
  }

  /** The frame control of network data: data, version 2, route discovery enabled, secured. */
  const NWK_DATA_CONTROL: bv16 := 0x0248

  /** The frame control of an application command: command, unicast, secured. */
  const APS_COMMAND_CONTROL: byte := 0x21

  /** Replacing inside the front part of a concatenation. */
  lemma UpdateFront(a: seq<byte>, header: seq<byte>, sealed: seq<byte>, i: nat, b: byte)
    requires i < |header|
    ensures (a + header + sealed)[|a| + i := b] == a + (header[i := b] + sealed)
  {
  }

  /** The counters and addresses of the interface that the write helpers use. */
  class RadioInterface {
    var macCounter: byte
    var nwkCounter: byte
    var apsCounter: byte
    var securityCounter: bv32
    const panId: bv16
    const longAddress: bv64
    const keys: Keys

    constructor (panId: bv16, longAddress: bv64, keys: Keys, securityCounter: bv32)
    {
      macCounter, nwkCounter, apsCounter := 0, 0, 0;
      this.securityCounter, this.panId, this.longAddress, this.keys := securityCounter, panId, longAddress, keys;
    }

    /** The header of ieee 802.15.4 in front of the network frame: data, acknowledged, short addresses in one pan. */
    static function IeeeHeader(macCounter: byte, panId: bv16, router: bv16): (r: seq<byte>)
      ensures |r| == 9
    {
      Bytes.U16L(0x8861) + [macCounter] + Bytes.U16L(panId) + Bytes.U16L(router) + Bytes.U16L(0)
    }

    /** Writes the headers up to the network payload; a secured frame takes the next security counter. */
    method WriteNwk(w: PacketWriter, frameControl: bv16, radius: byte, router: bv16, destination: bv16, longDestination: bv64)
      requires w.Valid() && w.current == 1 && w.securityControl == 0 && w.packet.Length > 48
      modifies this, w, w.packet
      ensures w.Valid() && w.header == 10 && w.message == w.current
      ensures var f := NwkFields(frameControl, destination, radius, old(nwkCounter), longDestination, longAddress,
                                 old(securityCounter));
              if Has(frameControl, NWK_SECURITY) then
                && w.Contents() == IeeeHeader(old(macCounter), panId, router) + NwkHeader(f)
                && w.securityControl == 10 + |NwkAddresses(f)| && w.securityCounter == f.counter
                && securityCounter == Next32(f.counter)
              else
                && w.Contents() == IeeeHeader(old(macCounter), panId, router) + NwkAddresses(f)
                && w.securityControl == 0 && securityCounter == f.counter
      ensures macCounter == Next8(old(macCounter)) && nwkCounter == Next8(old(nwkCounter))
      ensures apsCounter == old(apsCounter)
    {
      hide Next8, Next32, Has, U16L, U32L, U64L, IeeeHeader, NwkAddresses, SecurityHeader;
      var f := NwkFields(frameControl, destination, radius, nwkCounter, longDestination, longAddress, securityCounter);
      w.Data8(IeeeHeader(macCounter, panId, router));
      macCounter, nwkCounter := Next8(macCounter), Next8(nwkCounter);
      w.header := w.current;
      WriteNwkAddresses(w, f);
      if Has(frameControl, NWK_SECURITY) {
        securityCounter := Next32(securityCounter);
        WriteNwkSecurity(w, f);
        Regroup(IeeeHeader(old(macCounter), panId, router), NwkAddresses(f),
                SecurityHeader(NWK_CONTROL, f.counter, f.longSource), [0]);
      }
      w.message := w.current;
    }

    static method WriteNwkAddresses(w: PacketWriter, f: NwkFields)
      requires w.Valid() && w.current + 24 < w.packet.Length
      modifies w`current, w.packet
      ensures w.Valid() && w.Contents() == old(w.Contents()) + NwkAddresses(f)
    {
      hide U16L, U64L;
      w.Data8(Bytes.U16L(f.frameControl) + Bytes.U16L(f.destination) + Bytes.U16L(0) + [f.radius, f.sequence]);
      if Has(f.frameControl, NWK_DESTINATION) {
        w.Data8(Bytes.U64L(f.longDestination));
      }
      if Has(f.frameControl, NWK_EXTENDED_SOURCE) {
        w.Data8(Bytes.U64L(f.longSource));
      }
    }

    /** Security control, counter, extended source and key sequence number. */
    static method WriteNwkSecurity(w: PacketWriter, f: NwkFields)
      requires w.Valid() && w.current + 14 < w.packet.Length
      modifies w`current, w`securityControl, w`securityCounter, w.packet
      ensures w.Valid() && w.Contents() == old(w.Contents()) + (SecurityHeader(NWK_CONTROL, f.counter, f.longSource) + [0])
      ensures w.securityControl == old(w.current) && w.securityCounter == f.counter
    {
      hide U32L, U64L;
      w.Security(NWK_CONTROL, f.counter);
      w.Data8(Bytes.U64L(f.longSource));
      w.Data8([0]);
    }

    /** The application header up to the command octet, under the next security counter. */
    method WriteApsCommand(w: PacketWriter, keyType: byte, command: byte)
      requires w.Valid() && w.securityControl == 0 && w.current + 16 < w.packet.Length
      modifies this, w, w.packet
      ensures w.Valid() && w.header == old(w.current) && w.message == w.header + 15 && w.securityControl == w.header + 2
      ensures var f := ApsFields(APS_COMMAND_CONTROL, old(apsCounter), keyType, old(securityCounter), longAddress);
              w.Contents() == old(w.Contents()) + ApsHeader(f) + [command] && w.securityCounter == f.counter
      ensures apsCounter == Next8(old(apsCounter)) && securityCounter == Next32(old(securityCounter))
    {
      hide Next8, Next32, SecurityHeader, ApsControl;
      var f := ApsFields(APS_COMMAND_CONTROL, apsCounter, keyType, securityCounter, longAddress);
      w.header := w.current;
      w.Data8([APS_COMMAND_CONTROL, apsCounter]);
      apsCounter := Next8(apsCounter);
      WriteApsSecurity(w, f);
      securityCounter := Next32(securityCounter);
      w.message := w.current;
      w.Data8([command]);
    }

    /** Security control, counter and extended source. */
    static method WriteApsSecurity(w: PacketWriter, f: ApsFields)
      requires w.Valid() && w.current + 13 < w.packet.Length
      modifies w`current, w`securityControl, w`securityCounter, w.packet
      ensures w.Valid() && w.Contents() == old(w.Contents()) + SecurityHeader(ApsControl(f), f.counter, f.longSource)
      ensures w.securityControl == old(w.current) && w.securityCounter == f.counter
    {
      hide U32L, U64L, ApsControl;
      w.Security(ApsControl(f), f.counter);
      w.Data8(Bytes.U64L(f.longSource));
    }

    /** Seals the current layer and removes its level. */
    method SealLayer(w: PacketWriter)
      requires w.Valid() && 1 <= w.header <= w.securityControl < w.message <= w.current
      requires w.current + MIC_LENGTH < w.packet.Length
      modifies w`current, w.packet
      ensures w.Valid()
      ensures var control := old(w.packet[w.securityControl]);
              w.Contents() == old(w.packet[1..w.header])
                + Layer(SelectKey(keys, control), NonceOf(Bytes.U64L(longAddress), w.securityCounter, control),
                        old(w.packet[w.header..w.message]), w.securityControl - w.header, old(w.packet[w.message..w.current]))
    {
      hide Seal, NonceOf, SelectKey, U64L;
      var control := w.packet[w.securityControl];
      var nonce := NonceOf(Bytes.U64L(longAddress), w.securityCounter, control);
      ghost var front, header := w.packet[1..w.header], w.packet[w.header..w.message];
      ghost var sealed := Seal(SelectKey(keys, control), nonce, header, w.packet[w.message..w.current], MIC_LENGTH);
      assert w.packet[1..w.message] == front + header;
      w.Encrypt(nonce, SelectKey(keys, control));
      UpdateFront(front, header, sealed, w.securityControl - w.header, control & !LEVEL_MASK);
      assert w.packet[w.securityControl] == w.Contents()[w.securityControl - 1] == control;
      w.ClearSecurityLevel();
    }

    /** Seals the current layer, if it has security, and finishes the packet. */
    method WriteFooter(w: PacketWriter, sendFlags: byte)
      requires w.Valid()
      requires w.securityControl != 0 ==>
                 1 <= w.header <= w.securityControl < w.message <= w.current && w.current + MIC_LENGTH < w.packet.Length
      modifies w`current, w.packet
      ensures w.Valid() && w.packet[w.current] == sendFlags && w.packet[0] == ((|w.Contents()| + 2) % 256) as byte
      ensures if old(w.securityControl) == 0 then w.Contents() == old(w.Contents())
              else
                var control := old(w.packet[w.securityControl]);
                w.Contents() == old(w.packet[1..w.header])
                  + Layer(SelectKey(keys, control), NonceOf(Bytes.U64L(longAddress), w.securityCounter, control),
                          old(w.packet[w.header..w.message]), w.securityControl - w.header, old(w.packet[w.message..w.current]))
    {
      hide Layer, NonceOf, SelectKey, U64L;
      if w.securityControl != 0 {
        SealLayer(w);
      }
      w.Finish(sendFlags);
    }

    /** Finishes a layer whose parts are known. */
    method WriteLayer(w: PacketWriter, sendFlags: byte, ghost front: seq<byte>, ghost before: seq<byte>, ghost control: byte,
                      ghost rest: seq<byte>, ghost payload: seq<byte>)
      requires w.Valid() && w.current + MIC_LENGTH < w.packet.Length
      requires w.Contents() == front + (before + [control] + rest) + payload
      requires w.header == 1 + |front| && w.securityControl == w.header + |before| && w.message == w.securityControl + 1 + |rest|
      modifies w`current, w.packet
      ensures w.Valid() && w.packet[w.current] == sendFlags && w.packet[0] == ((|w.Contents()| + 2) % 256) as byte
      ensures w.Contents() == front
        + Layer(SelectKey(keys, control), NonceOf(Bytes.U64L(longAddress), w.securityCounter, control),
                before + [control] + rest, |before|, payload)
    {
      hide Layer, NonceOf, SelectKey, U64L;
      Parts(front, before + [control] + rest, payload);
      ghost var header := before + [control] + rest;
      Shift(w.packet[..], w.current, 1, w.header);
      Shift(w.packet[..], w.current, w.header, w.message);
      Shift(w.packet[..], w.current, w.message, w.current);
      assert w.packet[1..w.header] == front && w.packet[w.header..w.message] == header && w.packet[w.message..w.current] == payload;
      assert w.packet[w.securityControl] == w.packet[w.header..w.message][|before|] == control;
      WriteFooter(w, sendFlags);
    }

    static lemma Regroup(a: seq<byte>, b: seq<byte>, c: seq<byte>, d: seq<byte>)
      ensures a + b + (c + d) == a + (b + c + d)
    {
    }

    static lemma Shift(s: seq<byte>, end: nat, i: nat, j: nat)
      requires 1 <= i <= j <= end <= |s|
      ensures s[i..j] == s[1..end][i - 1..j - 1]
    {
      var t := s[1..end];
      forall k | 0 <= k < j - i
        ensures s[i..j][k] == t[i - 1..j - 1][k]
      {
        assert s[i..j][k] == s[i + k] == t[i + k - 1];
      }
    }

    static lemma Parts(a: seq<byte>, b: seq<byte>, c: seq<byte>)
      ensures (a + b + c)[..|a|] == a && (a + b + c)[|a|..|a| + |b|] == b && (a + b + c)[|a| + |b|..] == c
    {
      var s, t := a + b + c, b + c;
      assert s == a + t && t[..|b|] == b && t[|b|..] == c;
      assert s[|a|..] == t;
      assert s[|a|..|a| + |b|] == s[|a|..][..|b|] && s[|a| + |b|..] == s[|a|..][|b|..];
    }

    /** A secured application command behind what is already written. */
    method WriteSecuredCommand(w: PacketWriter, keyType: byte, command: byte, data: seq<byte>)
      requires w.Valid() && w.securityControl == 0 && w.current + 20 + |data| < w.packet.Length
      modifies this, w, w.packet
      ensures w.Valid() && w.securityControl == old(w.current) + 2
      ensures var aps := ApsFields(APS_COMMAND_CONTROL, old(apsCounter), keyType, old(securityCounter), longAddress);
              w.Contents() == old(w.Contents()) + ApsFrame(keys, aps, [command] + data)
      ensures apsCounter == Next8(old(apsCounter)) && securityCounter == Next32(old(securityCounter))
    {
      hide Next8, Next32, Layer, NonceOf, SelectKey, U32L, U64L;
      ghost var aps := ApsFields(APS_COMMAND_CONTROL, apsCounter, keyType, securityCounter, longAddress);
      ghost var front, content := w.Contents(), [command] + data;
      ghost var tail := U32L(aps.counter) + U64L(longAddress);
      assert ApsHeader(aps) == [aps.frameControl, aps.apsCounter] + [ApsControl(aps)] + tail;
      WriteApsCommand(w, keyType, command);
      w.Data8(data);
      assert w.Contents() == front + ApsHeader(aps) + content;
      WriteLayer(w, 0, front, [aps.frameControl, aps.apsCounter], ApsControl(aps), tail, content);
    }

    /** A secured application command inside a secured network frame, as it answers a key request. */
    method WriteNestedCommand(w: PacketWriter, keyType: byte, command: byte, data: seq<byte>, router: bv16,
                              destination: bv16, longDestination: bv64, sendFlags: byte)
      requires w.Valid() && w.current == 1 && w.securityControl == 0 && w.packet.Length > 72 + |data|
      modifies this, w, w.packet
      ensures w.Valid() && w.packet[w.current] == sendFlags && w.packet[0] == ((|w.Contents()| + 2) % 256) as byte
      ensures var nwk := NwkFields(NWK_DATA_CONTROL, destination, 30, old(nwkCounter), longDestination, longAddress,
                                   old(securityCounter));
              var aps := ApsFields(APS_COMMAND_CONTROL, old(apsCounter), keyType, Next32(old(securityCounter)), longAddress);
              w.Contents() == IeeeHeader(old(macCounter), panId, router) + NwkFrame(keys, nwk, ApsFrame(keys, aps, [command] + data))
      ensures securityCounter == Next32(Next32(old(securityCounter)))
    {
      hide Next8, Next32, Has, IeeeHeader, NwkAddresses, NwkHeader, NwkFrame, ApsFrame;
      assert Has(NWK_DATA_CONTROL, NWK_SECURITY) by {
        SecuredData();
      }
      ghost var nwk := NwkFields(NWK_DATA_CONTROL, destination, 30, nwkCounter, longDestination, longAddress, securityCounter);
      ghost var aps := ApsFields(APS_COMMAND_CONTROL, apsCounter, keyType, Next32(securityCounter), longAddress);
      ghost var ieee := IeeeHeader(macCounter, panId, router);
      WriteNwk(w, NWK_DATA_CONTROL, 30, router, destination, longDestination);
      assert w.Contents() == ieee + NwkHeader(nwk);
      var state := w.Push();
      WriteSecuredCommand(w, keyType, command, data);
      w.Pop(state);
      WriteNwkFooter(w, sendFlags, ieee, nwk, ApsFrame(keys, aps, [command] + data));
    }

    /** Finishes the network layer around its payload. */
    method WriteNwkFooter(w: PacketWriter, sendFlags: byte, ghost front: seq<byte>, ghost nwk: NwkFields, ghost payload: seq<byte>)
      requires w.Valid() && w.current + MIC_LENGTH < w.packet.Length
      requires nwk.longSource == longAddress && w.securityCounter == nwk.counter
      requires w.Contents() == front + NwkHeader(nwk) + payload
      requires w.header == 1 + |front| && w.securityControl == w.header + |NwkAddresses(nwk)|
      requires w.message == w.header + |NwkHeader(nwk)|
      modifies w`current, w.packet
      ensures w.Valid() && w.packet[w.current] == sendFlags && w.packet[0] == ((|w.Contents()| + 2) % 256) as byte
      ensures w.Contents() == front + NwkFrame(keys, nwk, payload)
    {
      hide NwkAddresses, Layer, NonceOf, SelectKey, U32L, U64L;
      ghost var tail := U32L(nwk.counter) + U64L(longAddress) + [0];
      assert NwkHeader(nwk) == NwkAddresses(nwk) + [NWK_CONTROL] + tail;
      NetworkKeySelected(keys);
      WriteLayer(w, sendFlags, front, NwkAddresses(nwk), NWK_CONTROL, tail, payload);
    }

    static lemma SecuredData()
      ensures Has(NWK_DATA_CONTROL, NWK_SECURITY)
    {
    }

    static lemma NetworkKeySelected(keys: Keys)
      ensures SelectKey(keys, NWK_CONTROL) == keys.network
    {
    }
  }

  /** What WriteNestedCommand hands to the radio is opened by the two stages to the command and its data. */
  lemma NestedCommandOpens(keys: Keys, nwk: NwkFields, aps: ApsFields, command: byte, data: seq<byte>)
    requires nwk.frameControl == NWK_DATA_CONTROL && aps.frameControl == APS_COMMAND_CONTROL
    requires aps.keyType in [KEY_LINK, KEY_KEY_TRANSPORT, KEY_KEY_LOAD]
    ensures var s := NwkFrame(keys, nwk, ApsFrame(keys, aps, [command] + data));
            && NwkComplete(s)
            && OpenNwk(keys, s).Some?
            && var inner := OpenNwk(keys, s).value;
               && ApsComplete(inner.payload)
               && OpenAps(keys, inner.payload, inner.source) == Some(ApsOpened(aps.apsCounter, true, [command] + data))
  {
    hide NwkFrame, ApsFrame, OpenNwk, OpenAps, NwkComplete, ApsComplete;
    NestedFrameOpens(keys, nwk, aps, [command] + data);
  }
}
