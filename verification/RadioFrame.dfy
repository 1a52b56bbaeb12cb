/**
 * Secured network and application frames as RadioInterface writes and reads them: the security level takes part in
 * sealing but is cleared in the transmitted control octet, and an application frame travels inside a network frame.
 */
module RadioFrame {
  import opened Bytes
  import opened Ccm
  import opened Options

  // ----- constants of zb.hpp

  const LEVEL_MASK: byte := 0x07
  const LEVEL_ENC_MIC32: byte := 0x05
  const KEY_MASK: byte := 0x18
  const KEY_LINK: byte := 0x00
  const KEY_NETWORK: byte := 0x08
  const KEY_KEY_TRANSPORT: byte := 0x10
  const KEY_KEY_LOAD: byte := 0x18
  const EXTENDED_NONCE: byte := 0x20

  const NWK_SECURITY: bv16 := 0x0200
  const NWK_SOURCE_ROUTE: bv16 := 0x0400
  const NWK_DESTINATION: bv16 := 0x0800
  const NWK_EXTENDED_SOURCE: bv16 := 0x1000

  const APS_TYPE_MASK: byte := 0x03
  const APS_TYPE_COMMAND: byte := 0x01
  const APS_SECURITY: byte := 0x20

  const MIC_LENGTH: nat := 4

  /** The expanded keys, each as the cipher it selects. */
  datatype Keys = Keys(network: Cipher, link: Cipher, transport: Cipher, load: Cipher)

  function NonceOf(source: seq<byte>, counter: bv32, control: byte): (n: Nonce)
    requires |source| == 8
  {
    source + U32L(counter) + [control]
  }

  function SelectKey(keys: Keys, control: byte): Cipher {
    if control & KEY_MASK == KEY_LINK then keys.link
    else if control & KEY_MASK == KEY_KEY_TRANSPORT then keys.transport
    else if control & KEY_MASK == KEY_KEY_LOAD then keys.load
    else keys.network
  }

  /** The flag is set in a network frame control. */
  predicate Has(frameControl: bv16, flag: bv16) {
    frameControl & flag != 0
  }

  // ----- the writing side

  /** A header followed by its sealed payload, with the security level removed from the control octet. */
  function Layer(E: Cipher, nonce: Nonce, header: seq<byte>, control: nat, payload: seq<byte>): (frame: seq<byte>)
    requires control < |header|
    ensures |frame| == |header| + |payload| + MIC_LENGTH
  {
    header[control := header[control] & !LEVEL_MASK] + Seal(E, nonce, header, payload, MIC_LENGTH)
  }

  datatype NwkFields = NwkFields(frameControl: bv16, destination: bv16, radius: byte, sequence: byte,
                                 longDestination: bv64, longSource: bv64, counter: bv32)

  const NWK_CONTROL: byte := LEVEL_ENC_MIC32 | KEY_NETWORK | EXTENDED_NONCE

  function NwkAddresses(f: NwkFields): (r: seq<byte>)
    ensures |r| == 8 + (if Has(f.frameControl, NWK_DESTINATION) then 8 else 0)
                     + (if Has(f.frameControl, NWK_EXTENDED_SOURCE) then 8 else 0)
  {
    U16L(f.frameControl) + U16L(f.destination) + U16L(0) + [f.radius, f.sequence]
      + (if Has(f.frameControl, NWK_DESTINATION) then U64L(f.longDestination) else [])
      + (if Has(f.frameControl, NWK_EXTENDED_SOURCE) then U64L(f.longSource) else [])
  }

  function SecurityHeader(control: byte, counter: bv32, source: bv64): (r: seq<byte>)
    ensures |r| == 13
  {
    [control] + U32L(counter) + U64L(source)
  }

  function NwkHeader(f: NwkFields): (r: seq<byte>)
    ensures |r| == |NwkAddresses(f)| + 14
  {
    NwkAddresses(f) + SecurityHeader(NWK_CONTROL, f.counter, f.longSource) + [0]
  }

  /** A network frame from its frame control to its integrity code. */
  function NwkFrame(keys: Keys, f: NwkFields, payload: seq<byte>): seq<byte> {
    Layer(keys.network, NonceOf(U64L(f.longSource), f.counter, NWK_CONTROL), NwkHeader(f), |NwkAddresses(f)|, payload)
  }

  datatype ApsFields = ApsFields(frameControl: byte, apsCounter: byte, keyType: byte, counter: bv32, longSource: bv64)

  function ApsControl(f: ApsFields): byte {
    LEVEL_ENC_MIC32 | f.keyType | EXTENDED_NONCE
  }

  function ApsHeader(f: ApsFields): (r: seq<byte>)
    ensures |r| == 15
  {
    [f.frameControl, f.apsCounter] + SecurityHeader(ApsControl(f), f.counter, f.longSource)
  }

  /** A secured application command; the content starts with the command octet. */
  function ApsFrame(keys: Keys, f: ApsFields, content: seq<byte>): (r: seq<byte>)
    ensures |r| == 15 + |content| + MIC_LENGTH
  {
    Layer(SelectKey(keys, ApsControl(f)), NonceOf(U64L(f.longSource), f.counter, ApsControl(f)), ApsHeader(f), 2, content)
  }

  // ----- the reading side

  function Restore(s: seq<byte>, i: nat): (r: seq<byte>)
    requires i < |s|
    ensures |r| == |s|
  {
    s[i := s[i] | LEVEL_ENC_MIC32]
  }

  /** Where the security header of a network frame starts. */
  function SecurityStart(s: seq<byte>): (i: nat)
    requires |s| >= 2
    ensures i >= 8
  {
    var frameControl := GetU16L(s, 0);
    var i := 8 + (if Has(frameControl, NWK_DESTINATION) then 8 else 0)
               + (if Has(frameControl, NWK_EXTENDED_SOURCE) then 8 else 0);
    if !Has(frameControl, NWK_SOURCE_ROUTE) then i
    else if i < |s| then i + 2 + 2 * (s[i] as nat)
    else i + 2
  }

  /** The octets that the network stage reads are all there. */
  predicate NwkComplete(s: seq<byte>) {
    |s| >= 2 && |s| >= SecurityStart(s) + 14 + MIC_LENGTH
  }

  datatype NwkOpened = NwkOpened(frameControl: bv16, source: seq<byte>, counter: bv32, payload: seq<byte>)

  /** Opens the layer whose control octet is at i and whose header has the given length. */
  function OpenLayer(E: Cipher, s: seq<byte>, i: nat, headerLength: nat, nonce: Nonce): (r: Option<seq<byte>>)
    requires i < headerLength && headerLength + MIC_LENGTH <= |s|
  {
    var header := Restore(s, i)[..headerLength];
    var sealed := s[headerLength..];
    if Accepts(E, nonce, header, sealed, MIC_LENGTH) then Some(Unseal(E, nonce, sealed, MIC_LENGTH)) else None
  }

  /** The network stage: nothing is delivered unless network key, extended nonce and integrity code are as required. */
  function OpenNwk(keys: Keys, s: seq<byte>): (r: Option<NwkOpened>)
    requires NwkComplete(s)
  {
    var frameControl := GetU16L(s, 0);
    var i := SecurityStart(s);
    var control := s[i] | LEVEL_ENC_MIC32;
    if !Has(frameControl, NWK_SECURITY) then None
    else if control & KEY_MASK != KEY_NETWORK then None
    else if control & EXTENDED_NONCE == 0 then None
    else
      var counter := GetU32L(s, i + 1);
      var source := s[i + 5..i + 13];
      match OpenLayer(keys.network, s, i, i + 14, NonceOf(source, counter, control))
      case None => None
      case Some(payload) => Some(NwkOpened(frameControl, source, counter, payload))
  }

  datatype ApsOpened = ApsOpened(apsCounter: byte, secured: bool, content: seq<byte>)

  function ApsHeaderLength(s: seq<byte>): (n: nat)
    requires |s| >= 3
  {
    if s[0] & APS_SECURITY == 0 then 2
    else if (s[2] | LEVEL_ENC_MIC32) & EXTENDED_NONCE == 0 then 7
    else 15
  }

  predicate ApsComplete(s: seq<byte>) {
    |s| >= 3 && |s| >= ApsHeaderLength(s) + (if s[0] & APS_SECURITY == 0 then 0 else MIC_LENGTH)
  }

  /** The application stage for command frames; the network stage provides the source for a short security header. */
  function OpenAps(keys: Keys, s: seq<byte>, source: seq<byte>): (r: Option<ApsOpened>)
    requires ApsComplete(s) && |source| == 8
  {
    if s[0] & APS_TYPE_MASK != APS_TYPE_COMMAND then None
    else if s[0] & APS_SECURITY == 0 then Some(ApsOpened(s[1], false, s[2..]))
    else
      var control := s[2] | LEVEL_ENC_MIC32;
      var counter := GetU32L(s, 3);
      var n := ApsHeaderLength(s);
      var nonceSource := if n == 15 then s[7..15] else source;
      if control & KEY_MASK == KEY_NETWORK then None
      else
        match OpenLayer(SelectKey(keys, control), s, 2, n, NonceOf(nonceSource, counter, control))
        case None => None
        case Some(content) => Some(ApsOpened(s[1], true, content))
  }

  // ----- opening undoes sealing

  lemma LevelRestored(control: byte)
    requires control & LEVEL_MASK == LEVEL_ENC_MIC32
    ensures (control & !LEVEL_MASK) | LEVEL_ENC_MIC32 == control
  {
  }

  lemma LayerOpens(E: Cipher, nonce: Nonce, header: seq<byte>, i: nat, payload: seq<byte>)
    requires i < |header| && header[i] & LEVEL_MASK == LEVEL_ENC_MIC32
    ensures OpenLayer(E, Layer(E, nonce, header, i, payload), i, |header|, nonce) == Some(payload)
  {
    var frame := Layer(E, nonce, header, i, payload);
    LevelRestored(header[i]);
    assert Restore(frame, i)[..|header|] == header;
    assert frame[|header|..] == Seal(E, nonce, header, payload, MIC_LENGTH);
    OpenSealed(E, nonce, header, payload, MIC_LENGTH);
  }

  /** The control octet and the fields behind it, at their places in a layer. */
  lemma SecurityFields(E: Cipher, nonce: Nonce, before: seq<byte>, control: byte, counter: bv32, source: bv64,
                       after: seq<byte>, payload: seq<byte>)
    requires control & LEVEL_MASK == LEVEL_ENC_MIC32
    ensures var header := before + SecurityHeader(control, counter, source) + after;
            var i := |before|;
            var frame := Layer(E, nonce, header, i, payload);
            && frame[..i] == before
            && header[i] == control && frame[i] | LEVEL_ENC_MIC32 == control
            && GetU32L(frame, i + 1) == counter
            && frame[i + 5..i + 13] == U64L(source)
  {
    hide U32L, U64L, GetU32L, Seal;
    var fields := SecurityHeader(control, counter, source);
    var header := before + fields + after;
    var i := |before|;
    var frame := Layer(E, nonce, header, i, payload);
    LevelRestored(control);
    assert header[i] == control && frame[i] == control & !LEVEL_MASK;
    assert frame[i + 1..i + 13] == header[i + 1..i + 13] == fields[1..];
    assert fields[1..] == U32L(counter) + U64L(source);
    assert frame[i + 1..i + 5] == frame[i + 1..i + 13][..4] == U32L(counter);
    assert frame[i + 5..i + 13] == frame[i + 1..i + 13][4..] == U64L(source);
    SliceU32L(frame, i + 1);
    ReadsBackU32L(counter);
  }

  /** The network layer around whatever comes before the security header. */
  function NwkLayer(keys: Keys, f: NwkFields, before: seq<byte>, payload: seq<byte>): (s: seq<byte>)
    ensures |s| == |before| + 14 + |payload| + MIC_LENGTH
  {
    Layer(keys.network, NonceOf(U64L(f.longSource), f.counter, NWK_CONTROL),
          before + SecurityHeader(NWK_CONTROL, f.counter, f.longSource) + [0], |before|, payload)
  }

  lemma NwkLayerOpens(keys: Keys, f: NwkFields, before: seq<byte>, payload: seq<byte>)
    requires var s := NwkLayer(keys, f, before, payload);
             GetU16L(s, 0) == f.frameControl && SecurityStart(s) == |before| && Has(f.frameControl, NWK_SECURITY)
    ensures var s := NwkLayer(keys, f, before, payload);
            NwkComplete(s)
            && OpenNwk(keys, s) == Some(NwkOpened(f.frameControl, U64L(f.longSource), f.counter, payload))
  {
    hide Layer, SecurityHeader, NonceOf, U64L, GetU32L, GetU16L, SecurityStart, OpenLayer, Has;
    var nonce := NonceOf(U64L(f.longSource), f.counter, NWK_CONTROL);
    SecurityFields(keys.network, nonce, before, NWK_CONTROL, f.counter, f.longSource, [0], payload);
    LayerOpens(keys.network, nonce, before + SecurityHeader(NWK_CONTROL, f.counter, f.longSource) + [0], |before|, payload);
  }

  lemma FrontKept(keys: Keys, f: NwkFields, before: seq<byte>, payload: seq<byte>)
    ensures NwkLayer(keys, f, before, payload)[..|before|] == before
  {
    hide SecurityHeader, NonceOf, U64L, Seal;
  }

  lemma StartIs(s: seq<byte>, frameControl: bv16, n: nat)
    requires 2 <= |s| && n < |s| && GetU16L(s, 0) == frameControl
    requires n == 8 + (if Has(frameControl, NWK_DESTINATION) then 8 else 0)
                    + (if Has(frameControl, NWK_EXTENDED_SOURCE) then 8 else 0)
    ensures SecurityStart(s) == if Has(frameControl, NWK_SOURCE_ROUTE) then n + 2 + 2 * (s[n] as nat) else n
  {
    hide GetU16L, Has;
  }

  /** The network stage delivers what was sealed by the network layer. */
  lemma NwkFrameOpens(keys: Keys, f: NwkFields, payload: seq<byte>)
    requires Has(f.frameControl, NWK_SECURITY) && !Has(f.frameControl, NWK_SOURCE_ROUTE)
    ensures var s := NwkFrame(keys, f, payload);
            NwkComplete(s)
            && OpenNwk(keys, s) == Some(NwkOpened(f.frameControl, U64L(f.longSource), f.counter, payload))
  {
    hide Layer, NwkAddresses, SecurityHeader, NonceOf, U64L, GetU16L, SecurityStart, OpenNwk, NwkComplete;
    var addresses := NwkAddresses(f);
    var s := NwkFrame(keys, f, payload);
    assert s == NwkLayer(keys, f, addresses, payload);
    FrontKept(keys, f, addresses, payload);
    FrameControlFirst(f, s);
    StartIs(s, f.frameControl, |addresses|);
    NwkLayerOpens(keys, f, addresses, payload);
  }

  /** So it does when relays have put a source route in front of the security header. */
  lemma RoutedFrameOpens(keys: Keys, f: NwkFields, index: byte, relays: seq<byte>, count: byte, payload: seq<byte>)
    requires Has(f.frameControl, NWK_SECURITY) && Has(f.frameControl, NWK_SOURCE_ROUTE) && |relays| == 2 * (count as nat)
    ensures var s := NwkLayer(keys, f, NwkAddresses(f) + [count, index] + relays, payload);
            NwkComplete(s)
            && OpenNwk(keys, s) == Some(NwkOpened(f.frameControl, U64L(f.longSource), f.counter, payload))
  {
    hide NwkLayer, NwkAddresses, U64L, GetU16L, SecurityStart, OpenNwk, NwkComplete, Has;
    var addresses := NwkAddresses(f);
    var before := addresses + [count, index] + relays;
    var s := NwkLayer(keys, f, before, payload);
    FrontKept(keys, f, before, payload);
    assert s[..|addresses|] == s[..|before|][..|addresses|] == addresses;
    FrameControlFirst(f, s);
    assert s[|addresses|] == s[..|before|][|addresses|] == count;
    StartIs(s, f.frameControl, |addresses|);
    NwkLayerOpens(keys, f, before, payload);
  }

  lemma FrameControlFirst(f: NwkFields, s: seq<byte>)
    requires |NwkAddresses(f)| <= |s| && s[..|NwkAddresses(f)|] == NwkAddresses(f)
    ensures GetU16L(s, 0) == f.frameControl
  {
    hide U16L, GetU16L;
    var before, register := NwkAddresses(f), U16L(f.frameControl);
    ReadsBackU16L(f.frameControl);
    assert before[0] == register[0] && before[1] == register[1];
    assert s[0] == s[..|before|][0] && s[1] == s[..|before|][1];
    SameU16L(s, register);
  }

  /** The application stage delivers what was sealed by the application layer. */
  lemma ApsFrameOpens(keys: Keys, f: ApsFields, content: seq<byte>, source: seq<byte>)
    requires f.keyType in [KEY_LINK, KEY_KEY_TRANSPORT, KEY_KEY_LOAD] && |source| == 8
    requires f.frameControl & APS_TYPE_MASK == APS_TYPE_COMMAND && f.frameControl & APS_SECURITY != 0
    ensures var s := ApsFrame(keys, f, content);
            ApsComplete(s) && OpenAps(keys, s, source) == Some(ApsOpened(f.apsCounter, true, content))
  {
    var control := ApsControl(f);
    var nonce := NonceOf(U64L(f.longSource), f.counter, control);
    var E := SelectKey(keys, control);
    var before := [f.frameControl, f.apsCounter];
    var s := ApsFrame(keys, f, content);
    KeyTypeKept(f.keyType);
    SecurityFields(E, nonce, before, control, f.counter, f.longSource, [], content);
    assert before + SecurityHeader(control, f.counter, f.longSource) + [] == ApsHeader(f);
    assert s[0] == s[..2][0] && s[1] == s[..2][1];
    LayerOpens(E, nonce, ApsHeader(f), 2, content);
  }

  /** Without an extended source the address of the network frame takes its place. */
  lemma ShortApsFrameOpens(keys: Keys, frameControl: byte, apsCounter: byte, keyType: byte, counter: bv32, content: seq<byte>,
                           source: seq<byte>)
    requires keyType in [KEY_LINK, KEY_KEY_TRANSPORT, KEY_KEY_LOAD] && |source| == 8
    requires frameControl & APS_TYPE_MASK == APS_TYPE_COMMAND && frameControl & APS_SECURITY != 0
    ensures var control := LEVEL_ENC_MIC32 | keyType;
            var s := Layer(SelectKey(keys, control), NonceOf(source, counter, control),
                           [frameControl, apsCounter, control] + U32L(counter), 2, content);
            ApsComplete(s) && OpenAps(keys, s, source) == Some(ApsOpened(apsCounter, true, content))
  {
    var control := LEVEL_ENC_MIC32 | keyType;
    ShortKeyType(keyType);
    LevelRestored(control);
    var header := [frameControl, apsCounter, control] + U32L(counter);
    var E, nonce := SelectKey(keys, control), NonceOf(source, counter, control);
    var s := Layer(E, nonce, header, 2, content);
    LayerOpens(E, nonce, header, 2, content);
    hide U32L, GetU32L, Seal, NonceOf, SelectKey, OpenLayer;
    assert s[2] | LEVEL_ENC_MIC32 == control;
    assert s[3..7] == header[3..7] == U32L(counter);
    SliceU32L(s, 3);
    ReadsBackU32L(counter);
    assert ApsHeaderLength(s) == 7;
  }

  lemma ShortKeyType(keyType: byte)
    requires keyType in [KEY_LINK, KEY_KEY_TRANSPORT, KEY_KEY_LOAD]
    ensures var control := LEVEL_ENC_MIC32 | keyType;
            control & KEY_MASK == keyType && control & LEVEL_MASK == LEVEL_ENC_MIC32 && control & EXTENDED_NONCE == 0
            && keyType != KEY_NETWORK
  {
  }

  lemma KeyTypeKept(keyType: byte)
    requires keyType in [KEY_LINK, KEY_KEY_TRANSPORT, KEY_KEY_LOAD]
    ensures var control := LEVEL_ENC_MIC32 | keyType | EXTENDED_NONCE;
            control & KEY_MASK == keyType && control & LEVEL_MASK == LEVEL_ENC_MIC32 && control & EXTENDED_NONCE != 0
  {
  }

  /**
   * An application command sealed inside a network frame comes out of the two stages as it went in, whatever the
   * keys, addresses, counters and contents are.
   */
  lemma NestedFrameOpens(keys: Keys, nwk: NwkFields, aps: ApsFields, content: seq<byte>)
    requires Has(nwk.frameControl, NWK_SECURITY) && !Has(nwk.frameControl, NWK_SOURCE_ROUTE)
    requires aps.keyType in [KEY_LINK, KEY_KEY_TRANSPORT, KEY_KEY_LOAD]
    requires aps.frameControl & APS_TYPE_MASK == APS_TYPE_COMMAND && aps.frameControl & APS_SECURITY != 0
    ensures var s := NwkFrame(keys, nwk, ApsFrame(keys, aps, content));
            && NwkComplete(s)
            && OpenNwk(keys, s).Some?
            && var inner := OpenNwk(keys, s).value;
               && inner.counter == nwk.counter && inner.source == U64L(nwk.longSource)
               && ApsComplete(inner.payload)
               && OpenAps(keys, inner.payload, inner.source) == Some(ApsOpened(aps.apsCounter, true, content))
  {
    NwkFrameOpens(keys, nwk, ApsFrame(keys, aps, content));
    ApsFrameOpens(keys, aps, content, U64L(nwk.longSource));
  }

  /** Whatever a stage accepts is, up to the level bits, the layer that its own payload seals to. */
  lemma OpenedLayerSeals(E: Cipher, s: seq<byte>, i: nat, headerLength: nat, nonce: Nonce)
    requires i < headerLength && headerLength + MIC_LENGTH <= |s|
    ensures OpenLayer(E, s, i, headerLength, nonce).Some? <==>
              exists payload :: Layer(E, nonce, Restore(s, i)[..headerLength], i, payload)
                             == s[i := (s[i] | LEVEL_ENC_MIC32) & !LEVEL_MASK]
  {
    hide Seal, Unseal, Accepts;
    var header, sealed := Restore(s, i)[..headerLength], s[headerLength..];
    var wire := s[i := (s[i] | LEVEL_ENC_MIC32) & !LEVEL_MASK];
    var front := header[i := header[i] & !LEVEL_MASK];
    assert wire[..headerLength] == front && wire[headerLength..] == sealed;
    SealOpened(E, nonce, header, sealed, MIC_LENGTH);
    if Accepts(E, nonce, header, sealed, MIC_LENGTH) {
      var payload := Unseal(E, nonce, sealed, MIC_LENGTH);
      assert Layer(E, nonce, header, i, payload) == front + sealed == wire;
    }
    forall payload | Layer(E, nonce, header, i, payload) == wire
      ensures Accepts(E, nonce, header, sealed, MIC_LENGTH)
    {
      assert Layer(E, nonce, header, i, payload)[headerLength..] == Seal(E, nonce, header, payload, MIC_LENGTH);
      OpenSealed(E, nonce, header, payload, MIC_LENGTH);
    }
  }
}
