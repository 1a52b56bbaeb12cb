/** The octets of secured frames, written out as the ZigBee specification lays them out (sections 3.3.1 and 4.5 of 05-3474). */
module FrameOctets {
  import opened Bytes
  import opened Ccm
  import opened Options
  import opened RadioFrame
  import PacketWriter

  // ----- registers, the lowest octet first

  function Two(v: bv16): (r: seq<byte>)
    ensures |r| == 2
  {
    [(v & 0xff) as byte, (v >> 8) as byte]
  }

  function Four(v: bv32): (r: seq<byte>)
    ensures |r| == 4
  {
    [(v & 0xff) as byte, ((v >> 8) & 0xff) as byte, ((v >> 16) & 0xff) as byte, (v >> 24) as byte]
  }

  function Eight(v: bv64): (r: seq<byte>)
    ensures |r| == 8
  {
    Four((v & 0xffff_ffff) as bv32) + Four((v >> 32) as bv32)
  }

  lemma TwoIs(v: bv16)
    ensures U16L(v) == Two(v)
  {
  }

  lemma FourIs(v: bv32)
    ensures U32L(v) == Four(v)
  {
  }

  lemma EightIs(v: bv64)
    ensures U64L(v) == Eight(v)
  {
    FourIs((v & 0xffff_ffff) as bv32);
    FourIs((v >> 32) as bv32);
    hide Four, U32L;
  }

  /** The nonce: source address, frame counter and security control. */
  lemma NonceOctets(source: seq<byte>, counter: bv32, control: byte)
    requires |source| == 8
    ensures NonceOf(source, counter, control) == source + Four(counter) + [control]
  {
    FourIs(counter);
  }

  // ----- network frames

  /** Frame control, destination, source 0, radius and sequence number, and the long addresses that the frame control names. */
  function Addresses(f: NwkFields): seq<byte> {
    Two(f.frameControl) + Two(f.destination) + [0, 0] + [f.radius, f.sequence]
    + (if f.frameControl & 0x0800 != 0 then Eight(f.longDestination) else [])
    + (if f.frameControl & 0x1000 != 0 then Eight(f.longSource) else [])
  }

  lemma AddressesAre(f: NwkFields)
    ensures NwkAddresses(f) == Addresses(f)
  {
    hide U16L, U64L, Eight, Two;
    TwoIs(f.frameControl);
    TwoIs(f.destination);
    assert U16L(0) == [0, 0] by { TwoIs(0); ZeroIs(); }
    EightIs(f.longDestination);
    EightIs(f.longSource);
  }

  lemma ZeroIs()
    ensures Two(0) == [0, 0]
  {
  }

  /** Security control, frame counter and source address. */
  function Auxiliary(control: byte, counter: bv32, source: bv64): seq<byte> {
    [control] + Four(counter) + Eight(source)
  }

  lemma AuxiliaryIs(control: byte, counter: bv32, source: bv64)
    ensures SecurityHeader(control, counter, source) == Auxiliary(control, counter, source)
  {
    hide U32L, U64L, Four, Eight;
    FourIs(counter);
    EightIs(source);
  }

  /**
   * A network frame as it is sent: the security control without its level, key sequence number 0, and the payload sealed under
   * the network key with the security control 0x2d in nonce and header.
   */
  lemma NetworkFrameOctets(keys: Keys, f: NwkFields, payload: seq<byte>)
    ensures NwkFrame(keys, f, payload)
            == Addresses(f) + Auxiliary(0x28, f.counter, f.longSource) + [0]
               + Seal(keys.network, Eight(f.longSource) + Four(f.counter) + [0x2d],
                      Addresses(f) + Auxiliary(0x2d, f.counter, f.longSource) + [0], payload, 4)
  {
    hide NwkAddresses, Addresses, SecurityHeader, NonceOf, U64L, Seal, Four, Eight;
    AddressesAre(f);
    AuxiliaryIs(NWK_CONTROL, f.counter, f.longSource);
    EightIs(f.longSource);
    NonceOctets(U64L(f.longSource), f.counter, NWK_CONTROL);
    var before, after := Addresses(f), Four(f.counter) + Eight(f.longSource) + [0];
    assert NwkHeader(f) == before + [0x2d] + after;
    assert (before + [0x2d] + after)[|before| := 0x28] == before + [0x28] + after;
    assert before + [0x28] + after == before + Auxiliary(0x28, f.counter, f.longSource) + [0];
    assert before + [0x2d] + after == before + Auxiliary(0x2d, f.counter, f.longSource) + [0];
  }

  // ----- application frames

  /** The key that a security control selects. */
  lemma KeysSelected(keys: Keys)
    ensures SelectKey(keys, 0x25) == keys.link && SelectKey(keys, 0x2d) == keys.network
    ensures SelectKey(keys, 0x35) == keys.transport && SelectKey(keys, 0x3d) == keys.load
  {
  }

  lemma ControlWithoutLevel(f: ApsFields)
    ensures ApsControl(f) == 0x25 | f.keyType
    ensures f.keyType in [0x00, 0x10, 0x18] ==> (0x25 | f.keyType) & !LEVEL_MASK == 0x20 | f.keyType
  {
  }

  /**
   * An application command as it is sent: frame control and counter, the security control without its level, and the content
   * sealed under the key that the security control selects.
   */
  lemma CommandFrameOctets(keys: Keys, f: ApsFields, content: seq<byte>)
    requires f.keyType in [0x00, 0x10, 0x18]
    ensures ApsFrame(keys, f, content)
            == [f.frameControl, f.apsCounter] + Auxiliary(0x20 | f.keyType, f.counter, f.longSource)
               + Seal(if f.keyType == 0x00 then keys.link else if f.keyType == 0x10 then keys.transport else keys.load,
                      Eight(f.longSource) + Four(f.counter) + [0x25 | f.keyType],
                      [f.frameControl, f.apsCounter] + Auxiliary(0x25 | f.keyType, f.counter, f.longSource), content, 4)
  {
    ControlWithoutLevel(f);
    KeyOfType(keys, f.keyType);
    CommandLayer(SelectKey(keys, ApsControl(f)), f, 0x20 | f.keyType, content);
    hide Layer, SelectKey, ApsControl, Auxiliary, Seal, Four, Eight, NonceOf, U64L;
  }

  lemma CommandLayer(E: Cipher, f: ApsFields, wire: byte, content: seq<byte>)
    requires wire == ApsControl(f) & !LEVEL_MASK
    ensures Layer(E, NonceOf(U64L(f.longSource), f.counter, ApsControl(f)), ApsHeader(f), 2, content)
            == [f.frameControl, f.apsCounter] + Auxiliary(wire, f.counter, f.longSource)
               + Seal(E, Eight(f.longSource) + Four(f.counter) + [ApsControl(f)],
                      [f.frameControl, f.apsCounter] + Auxiliary(ApsControl(f), f.counter, f.longSource), content, 4)
  {
    hide SecurityHeader, NonceOf, U64L, Seal, Four, Eight, ApsControl;
    var control := ApsControl(f);
    AuxiliaryIs(control, f.counter, f.longSource);
    EightIs(f.longSource);
    NonceOctets(U64L(f.longSource), f.counter, control);
    var before, after := [f.frameControl, f.apsCounter], Four(f.counter) + Eight(f.longSource);
    assert ApsHeader(f) == before + [control] + after;
    assert (before + [control] + after)[2 := wire] == before + [wire] + after;
  }

  lemma KeyOfType(keys: Keys, keyType: byte)
    requires keyType in [0x00, 0x10, 0x18]
    ensures SelectKey(keys, 0x25 | keyType)
            == if keyType == 0x00 then keys.link else if keyType == 0x10 then keys.transport else keys.load
  {
  }

  // ----- what the receiver refuses

  /** A network frame without security, under another than the network key, or without its source address is dropped. */
  lemma NwkRefusals(keys: Keys, s: seq<byte>)
    requires NwkComplete(s)
    ensures s[1] & 0x02 == 0 ==> OpenNwk(keys, s) == None
    ensures var control := s[SecurityStart(s)]; (control & 0x18 != 0x08 || control & 0x20 == 0) ==> OpenNwk(keys, s) == None
  {
    hide SecurityStart, OpenLayer, GetU32L;
    SecurityBit(s);
    ControlBits(s[SecurityStart(s)]);
  }

  lemma SecurityBit(s: seq<byte>)
    requires |s| >= 2
    ensures s[1] & 0x02 == 0 ==> !Has(GetU16L(s, 0), NWK_SECURITY)
  {
  }

  lemma ControlBits(control: byte)
    ensures (control | LEVEL_ENC_MIC32) & KEY_MASK == control & 0x18
    ensures (control | LEVEL_ENC_MIC32) & EXTENDED_NONCE == control & 0x20
  {
  }

  /** An application frame that is no command, or claims the network key, is dropped; an unsecured command is taken as it is. */
  lemma ApsRefusals(keys: Keys, s: seq<byte>, source: seq<byte>)
    requires ApsComplete(s) && |source| == 8
    ensures s[0] & 0x03 != 0x01 ==> OpenAps(keys, s, source) == None
    ensures s[0] & 0x20 != 0 && s[2] & 0x18 == 0x08 ==> OpenAps(keys, s, source) == None
    ensures s[0] & 0x03 == 0x01 && s[0] & 0x20 == 0 ==> OpenAps(keys, s, source) == Some(ApsOpened(s[1], false, s[2..]))
  {
    hide OpenLayer, GetU32L;
    ControlBits(s[2]);
  }

  // ----- what a key request is answered with

  /** The header of ieee 802.15.4: data, acknowledged, short addresses in one pan, from address 0. */
  lemma IeeeHeaderOctets(macCounter: byte, panId: bv16, router: bv16)
    ensures PacketWriter.RadioInterface.IeeeHeader(macCounter, panId, router)
            == [0x61, 0x88, macCounter] + Two(panId) + Two(router) + [0, 0]
  {
    hide Two, U16L;
    TwoIs(panId);
    TwoIs(router);
    TwoIs(0x8861);
    TwoIs(0);
    LiteralRegisters();
  }

  lemma LiteralRegisters()
    ensures Two(0x8861) == [0x61, 0x88] && Two(0) == [0, 0] && Two(0x0248) == [0x48, 0x02]
  {
  }

  /** The network frame carries data with security and without long addresses; the command is unicast and secured. */
  lemma FrameControls()
    ensures PacketWriter.NWK_DATA_CONTROL == 0x0248 && PacketWriter.APS_COMMAND_CONTROL == 0x21
  {
  }

  /** Every secured layer takes a counter of its own: the next one, which wraps after 32 bits; sequence numbers wrap after 8. */
  lemma CountersAdvance(counter: bv32, other: bv32, sequence: byte)
    ensures Next32(counter) == if counter == 0xffff_ffff then 0 else counter + 1
    ensures Next32(counter) != counter
    ensures counter != other ==> Next32(counter) != Next32(other)
    ensures Next8(sequence) == if sequence == 0xff then 0 else sequence + 1
  {
  }

  /** The two layers of a nested command never share a nonce. */
  lemma LayersApart(source: bv64, counter: bv32, outer: byte, inner: byte)
    ensures NonceOf(U64L(source), counter, outer) != NonceOf(U64L(source), Next32(counter), inner)
  {
    hide NonceOf, U64L, Four, Next32;
    var next := Next32(counter);
    CountersAdvance(counter, counter, 0);
    NonceOctets(U64L(source), counter, outer);
    NonceOctets(U64L(source), next, inner);
    FourApart(counter, next);
    var a, b := U64L(source) + Four(counter) + [outer], U64L(source) + Four(next) + [inner];
    assert a[8..12] == Four(counter) && b[8..12] == Four(next);
  }

  lemma FourApart(a: bv32, b: bv32)
    ensures Four(a) == Four(b) ==> a == b
  {
    OctetsApart(a & 0xff, b & 0xff);
    OctetsApart((a >> 8) & 0xff, (b >> 8) & 0xff);
    OctetsApart((a >> 16) & 0xff, (b >> 16) & 0xff);
    OctetsApart(a >> 24, b >> 24);
  }

  lemma OctetsApart(a: bv32, b: bv32)
    requires a <= 0xff && b <= 0xff
    ensures a as byte == b as byte ==> a == b
  {
  }
}
