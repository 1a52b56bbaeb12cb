/** PUBLISH packets and message ids of MQTT-SN, as mqttsn.hpp and MqttSnBroker.hpp write and read them. */
module MqttSn {
  import opened Options

  type Octet = x: int | 0 <= x < 0x100

  type Word = x: int | 0 <= x < 0x1_0000

  const PUBLISH: Octet := 0x0c

  const DUP: int := 0x80

  const NOT_SUBSCRIBED: int := 3

  const MAX_MESSAGE_LENGTH: int := 64

  /** Length, type, flags, topic id and message id come before the data. */
  const HEADER_LENGTH: int := 7

  datatype Publish = Publish(flags: Octet, topicId: Word, msgId: Word, data: seq<Octet>)

  function U16B(w: Word): (r: seq<Octet>)
    ensures |r| == 2
  {
    [w / 0x100, w % 0x100]
  }

  function GetU16B(s: seq<Octet>, i: nat): Word
    requires i + 2 <= |s|
  {
    var high, low: int := s[i], s[i + 1];
    high * 0x100 + low
  }

  /** Two bits, where 3 stands for -1. */
  function MakeQos(qos: int): Octet {
    (qos % 4) * 0x20
  }

  function GetQos(flags: Octet): (r: int)
    ensures -1 <= r <= 2
  {
    (flags / 0x20 + 1) % 4 - 1
  }

  function SetDup(flags: Octet): Octet {
    if flags < DUP then flags + DUP else flags
  }

  predicate IsDup(flags: Octet) {
    flags >= DUP
  }

  /** What is sent for a message: short enough for a length of one octet. */
  function Encode(p: Publish): (r: seq<Octet>)
    requires HEADER_LENGTH + |p.data| <= MAX_MESSAGE_LENGTH
    ensures |r| == HEADER_LENGTH + |p.data|
  {
    [HEADER_LENGTH + |p.data|, PUBLISH, p.flags] + U16B(p.topicId) + U16B(p.msgId) + p.data
  }

  /** The receiver: a length of one or three octets, then the type; a message that is cut off is dropped. */
  function Parse(m: seq<Octet>): Option<Publish>
    requires |m| >= 3
  {
    var begin, end := if m[0] == 1 then 3 else 1, if m[0] == 1 then GetU16B(m, 1) else m[0];
    if end > |m| || end < begin + 6 || m[begin] != PUBLISH then None
    else Some(Publish(m[begin + 1], GetU16B(m, begin + 2), GetU16B(m, begin + 4), m[begin + 6..end]))
  }

  lemma ReadsBack(w: Word)
    ensures GetU16B(U16B(w), 0) == w
  {
  }

  lemma ParseEncoded(p: Publish)
    requires HEADER_LENGTH + |p.data| <= MAX_MESSAGE_LENGTH
    ensures Parse(Encode(p)) == Some(p)
  {
    ReadsBack(p.topicId);
    ReadsBack(p.msgId);
    var m := Encode(p);
    assert m[3] == p.topicId / 0x100 && m[4] == p.topicId % 0x100 && m[5] == p.msgId / 0x100 && m[6] == p.msgId % 0x100;
    assert m[0] == |m| && m[7..m[0]] == p.data;
  }

  /** A retransmission keeps the quality of service, which excludes "not subscribed". */
  lemma QosSurvives(qos: int)
    requires 0 <= qos < NOT_SUBSCRIBED
    ensures GetQos(MakeQos(qos)) == GetQos(SetDup(MakeQos(qos))) == qos
    ensures !IsDup(MakeQos(qos)) && IsDup(SetDup(MakeQos(qos))) && SetDup(SetDup(MakeQos(qos))) == SetDup(MakeQos(qos))
  {
  }

  // ----- message ids

  /** The 16-bit id after the given one: the carry is added again. */
  function NextMsgId(id: Word): Word {
    var i := id + 1;
    (i + i / 0x1_0000) % 0x1_0000
  }

  /** The id after n draws. */
  function Draw(id: Word, n: nat): Word {
    if n == 0 then id else NextMsgId(Draw(id, n - 1))
  }

  lemma {:induction false} DrawAgain(id: Word, m: nat, n: nat)
    ensures Draw(Draw(id, m), n) == Draw(id, m + n)
  {
    if n > 0 {
      DrawAgain(id, m, n - 1);
    }
  }

  const PERIOD: int := 0xffff

  function Cycle(x: nat): (r: nat)
    ensures r < PERIOD
  {
    x % PERIOD
  }

  lemma CycleStep(x: nat)
    ensures Cycle(x + 1) == if Cycle(x) == PERIOD - 1 then 0 else Cycle(x) + 1
  {
    var q, r := x / PERIOD, x % PERIOD;
    assert x + 1 == q * PERIOD + (r + 1);
  }

  lemma CycleAgain(x: nat)
    ensures Cycle(x + PERIOD) == Cycle(x)
  {
    assert x == x / PERIOD * PERIOD + x % PERIOD;
  }

  lemma CycleApart(x: nat, y: nat)
    requires x < y < x + PERIOD
    ensures Cycle(x) != Cycle(y)
  {
    assert x == x / PERIOD * PERIOD + Cycle(x);
    assert y == y / PERIOD * PERIOD + Cycle(y);
    assert y - x == (y / PERIOD - x / PERIOD) * PERIOD + Cycle(y) - Cycle(x);
  }

  /** Drawn ids count from 1 to 65535. */
  lemma {:induction false} DrawCounts(id: Word, n: nat)
    requires n > 0
    ensures Draw(id, n) == Cycle(id + n - 1) + 1
  {
    hide Cycle;
    if n > 1 {
      DrawCounts(id, n - 1);
      CycleStep(id + n - 2);
    } else {
      assert Draw(id, 0) == id;
      First(id);
    }
  }

  lemma First(id: Word)
    ensures NextMsgId(id) == Cycle(id) + 1
  {
  }

  /** No id is 0, and of the ids drawn in any run, 65535 consecutive ones are distinct. */
  lemma IdsDistinct(id: Word, m: nat, n: nat)
    requires 0 < m < n < m + PERIOD
    ensures Draw(id, m) != 0 && Draw(id, m) != Draw(id, n)
  {
    hide Cycle;
    DrawCounts(id, m);
    DrawCounts(id, n);
    CycleApart(id + m - 1, id + n - 1);
  }

  /** No more than that: the ids repeat. */
  lemma IdsRepeat(id: Word, n: nat)
    requires n > 0
    ensures Draw(id, n + PERIOD) == Draw(id, n)
  {
    hide Cycle;
    DrawCounts(id, n);
    DrawCounts(id, n + PERIOD);
    CycleAgain(id + n - 1);
  }
}
