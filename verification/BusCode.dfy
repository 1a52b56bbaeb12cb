/** The unary code of the bus, on which zeros win, with the ids and addresses that are written in it. */
module BusCode {
  import opened Bytes

  /** What one octet of the arbitration part can hold. */
  type Value = v: bv8 | v <= 8

  const ID_LENGTH: nat := 11

  // ----- the code of a value

  /** As many ones as the value, from the top. */
  function Code(value: bv8): byte {
    if value < 8 then !(0xff >> value) else 0xff
  }

  /** The position of the lowest one, counted from the top. */
  function Count(b: byte): Value {
    if b == 0 then 0
    else if b & 0x7f == 0 then 1
    else if b & 0x3f == 0 then 2
    else if b & 0x1f == 0 then 3
    else if b & 0x0f == 0 then 4
    else if b & 0x07 == 0 then 5
    else if b & 0x03 == 0 then 6
    else if b & 0x01 == 0 then 7
    else 8
  }

  lemma CountShift(b: byte)
    requires b != 0
    ensures Count(b << 1) + 1 == Count(b) && Count(b << 1) < Count(b)
  {
  }

  method ReadArbiter(octet: byte) returns (count: bv8)
    ensures count == Count(octet)
  {
    hide Count;
    var value := octet;
    count := 0;
    while value > 0
      invariant count + Count(value) == Count(octet)
      decreases Count(value)
    {
      CountShift(value);
      count := count + 1;
      value := value << 1;
    }
    assert Count(0) == 0 by { CountZero(); }
  }

  lemma CountZero()
    ensures Count(0) == 0
  {
  }

  lemma CountCode(v: Value)
    ensures Count(Code(v)) == v
  {
  }

  /** The codes of all values. */
  lemma CodesAre()
    ensures [Code(0), Code(1), Code(2), Code(3), Code(4), Code(5), Code(6), Code(7), Code(8)]
            == [0x00, 0x80, 0xc0, 0xe0, 0xf0, 0xf8, 0xfc, 0xfe, 0xff]
  {
  }

  /** The wired-and of two writers. */
  function Both(a: byte, b: byte): byte { a & b }

  predicate NotAbove(a: Value, b: Value) { a <= b }

  function Least(a: Value, b: Value): Value {
    if a < b then a else b
  }

  /** Two writers of the wired-and bus: the lower value survives. */
  lemma AndIsLeast(a: Value, b: Value)
    ensures Both(Code(a), Code(b)) == Code(Least(a, b))
  {
  }

  // ----- arbitration

  ghost predicate AllOfLength(ms: seq<seq<Value>>, n: nat) {
    forall i :: 0 <= i < |ms| ==> |ms[i]| == n
  }

  /** The octet on the bus while all of these write their first one. */
  function Wire(ms: seq<seq<Value>>, n: nat): byte
    requires AllOfLength(ms, n) && n > 0
  {
    if ms == [] then 0xff else Both(Code(ms[0][0]), Wire(ms[1..], n))
  }

  /** Those who read back what they have written go on with their next octets. */
  function Survivors(ms: seq<seq<Value>>, n: nat, w: byte): (r: seq<seq<Value>>)
    requires AllOfLength(ms, n) && n > 0
    ensures AllOfLength(r, n - 1)
  {
    if ms == [] then []
    else (if Code(ms[0][0]) == w then [ms[0][1..]] else []) + Survivors(ms[1..], n, w)
  }

  /** What is on the bus when all begin to write at the same time. */
  function Arbitrate(ms: seq<seq<Value>>, n: nat): (r: seq<byte>)
    requires AllOfLength(ms, n)
    ensures |r| == n
    decreases n
  {
    if n == 0 then [] else [Wire(ms, n)] + Arbitrate(Survivors(ms, n, Wire(ms, n)), n - 1)
  }

  function Codes(m: seq<Value>): (r: seq<byte>)
    ensures |r| == |m|
  {
    if m == [] then [] else [Code(m[0])] + Codes(m[1..])
  }

  /** Lexicographic order of values. */
  predicate AtMost(a: seq<Value>, b: seq<Value>)
    requires |a| == |b|
  {
    a == [] || (NotAbove(a[0], b[0]) && (a[0] == b[0] ==> AtMost(a[1..], b[1..])))
  }

  lemma CodeInjective(a: Value, b: Value)
    requires Code(a) == Code(b)
    ensures a == b
  {
  }

  lemma LeastIsLeast(a: Value, b: Value, c: Value)
    ensures NotAbove(a, a) && NotAbove(Least(a, b), a) && NotAbove(Least(a, b), b)
    ensures NotAbove(b, c) ==> NotAbove(Least(a, b), c)
    ensures Least(a, b) == a || Least(a, b) == b
  {
  }

  /** The wire carries the code of the least value that is written. */
  lemma {:induction false} WireIsLeast(ms: seq<seq<Value>>, n: nat) returns (k: nat)
    requires AllOfLength(ms, n) && n > 0 && ms != []
    ensures k < |ms| && Wire(ms, n) == Code(ms[k][0])
    ensures forall i :: 0 <= i < |ms| ==> NotAbove(ms[k][0], ms[i][0])
  {
    hide Code, Both, Least, NotAbove;
    var first := ms[0][0];
    if |ms| == 1 {
      k := 0;
      assert Wire(ms[1..], n) == 0xff;
      AllOnes(Code(first));
      LeastIsLeast(first, first, first);
    } else {
      var j := WireIsLeast(ms[1..], n);
      var second := ms[1..][j][0];
      AndIsLeast(first, second);
      LeastIsLeast(first, second, second);
      k := if Least(first, second) == first then 0 else j + 1;
      forall i | 0 <= i < |ms| ensures NotAbove(ms[k][0], ms[i][0]) {
        LeastIsLeast(first, second, ms[i][0]);
        assert i > 0 ==> ms[i] == ms[1..][i - 1];
      }
    }
  }

  lemma AllOnes(b: byte)
    ensures Both(b, 0xff) == b
  {
  }

  lemma {:induction false} SurvivorsFrom(ms: seq<seq<Value>>, n: nat, w: byte, i: nat) returns (k: nat)
    requires AllOfLength(ms, n) && n > 0 && i < |Survivors(ms, n, w)|
    ensures k < |ms| && Code(ms[k][0]) == w && Survivors(ms, n, w)[i] == ms[k][1..]
  {
    hide Code;
    var first := Code(ms[0][0]) == w;
    if first && i == 0 {
      k := 0;
    } else {
      var j := SurvivorsFrom(ms[1..], n, w, if first then i - 1 else i);
      k := j + 1;
    }
  }

  lemma {:induction false} SurvivorsHave(ms: seq<seq<Value>>, n: nat, w: byte, k: nat) returns (i: nat)
    requires AllOfLength(ms, n) && n > 0 && k < |ms| && Code(ms[k][0]) == w
    ensures i < |Survivors(ms, n, w)| && Survivors(ms, n, w)[i] == ms[k][1..]
  {
    hide Code;
    if k == 0 {
      i := 0;
    } else {
      var j := SurvivorsHave(ms[1..], n, w, k - 1);
      i := if Code(ms[0][0]) == w then j + 1 else j;
    }
  }

  /** However many write, the bus carries the complete code of one of them, which is the lexicographically least. */
  lemma {:induction false} LeastSurvives(ms: seq<seq<Value>>, n: nat) returns (k: nat)
    requires AllOfLength(ms, n) && ms != []
    ensures k < |ms| && Arbitrate(ms, n) == Codes(ms[k])
    ensures forall i :: 0 <= i < |ms| ==> AtMost(ms[k], ms[i])
    decreases n
  {
    hide Code;
    if n == 0 {
      k := 0;
    } else {
      var w := Wire(ms, n);
      var rest := Survivors(ms, n, w);
      var least := WireIsLeast(ms, n);
      var _ := SurvivorsHave(ms, n, w, least);
      var j := LeastSurvives(rest, n - 1);
      k := SurvivorsFrom(ms, n, w, j);
      CodeInjective(ms[k][0], ms[least][0]);
      forall i | 0 <= i < |ms| ensures AtMost(ms[k], ms[i]) {
        if ms[i][0] == ms[k][0] {
          var t := SurvivorsHave(ms, n, w, i);
          assert AtMost(rest[j], rest[t]);
        }
      }
    }
  }

  /** There is only one such message. */
  lemma {:induction false} AtMostBoth(a: seq<Value>, b: seq<Value>)
    requires |a| == |b| && AtMost(a, b) && AtMost(b, a)
    ensures a == b
  {
    if a != [] {
      assert a[0] == b[0];
      AtMostBoth(a[1..], b[1..]);
      assert a == [a[0]] + a[1..] && b == [b[0]] + b[1..];
    }
  }

  // ----- ids

  /** The digits of an id to the base 8, plus one, the lowest first. */
  function Digits(id: bv32, n: nat): (r: seq<Value>)
    ensures |r| == n
    ensures forall i :: 0 <= i < n ==> r[i] != 0
    decreases n
  {
    if n == 0 then [] else [Digit(id)] + Digits(id >> 3, n - 1)
  }

  function Digit(id: bv32): (r: Value)
    ensures r != 0
  {
    ((id & 7) as bv8) + 1
  }

  /** Reads octets from the lowest digit on; a zero octet counts as -1. */
  function IdOf(codes: seq<byte>): bv32 {
    if codes == [] then 0 else Or(DigitOf(codes[0]), Up(IdOf(codes[1..])))
  }

  function Or(x: bv32, y: bv32): bv32 { x | y }

  function Up(x: bv32): bv32 { x << 3 }

  function DigitOf(code: byte): bv32 {
    (Count(code) as bv32) - 1
  }

  lemma DigitBack(id: bv32)
    ensures DigitOf(Code(Digit(id))) == id & 7
  {
    hide Code, Count;
    CountCode(Digit(id));
  }

  lemma LowAndRest(id: bv32)
    ensures Or(id & 7, Up(id >> 3)) == id
  {
  }

  /** The digit that is written at each place: three bits of the id, plus one. */
  function Bits(id: bv32, shift: bv32): bv8
    requires shift < 32
  {
    (((id >> shift) & 7) as bv8) + 1
  }

  lemma DigitAfter(id: bv32, n: nat, k: nat)
    requires k < n
    ensures Digits(id, n)[k] == Digit(Left(id, k))
    decreases k
  {
    hide Digit;
    if k > 0 {
      DigitAfter(id >> 3, n - 1, k - 1);
    }
  }

  function Down(x: bv32, shift: bv32): bv32
    requires shift < 32
  {
    x >> shift
  }

  lemma {:induction false} LeftStep(id: bv32, n: nat)
    ensures Left(id, n + 1) == Down(Left(id, n), 3)
    decreases n
  {
    if n == 0 {
      assert Left(id, 1) == Left(id >> 3, 0);
    } else {
      LeftStep(id >> 3, n - 1);
    }
  }

  lemma DownTwice(x: bv32, shift: bv32)
    requires shift <= 27
    ensures Down(Down(x, shift), 3) == Down(x, shift + 3)
  {
  }

  /** The first bit of each digit. */
  const PLACES: seq<bv32> := [0, 3, 6, 9, 12, 15, 18, 21, 24, 27, 30]

  lemma PlacesStep(n: nat)
    requires n < 11
    ensures PLACES[n] <= 30
    ensures n > 0 ==> PLACES[n - 1] <= 27 && PLACES[n] == PLACES[n - 1] + 3
  {
  }

  lemma {:induction false} Shifted(id: bv32, n: nat)
    requires n < 11
    ensures PLACES[n] < 32 && Left(id, n) == Down(id, PLACES[n])
    decreases n
  {
    hide Left, Down;
    PlacesStep(n);
    if n > 0 {
      LeftStep(id, n - 1);
      Shifted(id, n - 1);
      DownTwice(id, PLACES[n - 1]);
    } else {
      NotShifted(id);
    }
  }

  lemma NotShifted(id: bv32)
    ensures Left(id, 0) == Down(id, 0)
  {
  }

  lemma BitsAre(id: bv32, shift: bv32)
    requires shift < 32
    ensures Digit(Down(id, shift)) == Bits(id, shift)
  {
  }

  /** All eleven digits of an id, the lowest first. */
  lemma DigitsAre(id: bv32, k: nat)
    requires k < 11
    ensures PLACES[k] < 32 && Digits(id, 11)[k] == Bits(id, PLACES[k])
  {
    hide Left, Down, Digit, Digits, Bits;
    DigitAfter(id, 11, k);
    Shifted(id, k);
    BitsAre(id, PLACES[k]);
  }

  /** What is left of an id after n digits. */
  function Left(id: bv32, n: nat): bv32
    decreases n
  {
    if n == 0 then id else Left(id >> 3, n - 1)
  }

  lemma {:induction false} DigitsBack(id: bv32, n: nat)
    requires Left(id, n) == 0
    ensures IdOf(Codes(Digits(id, n))) == id
    decreases n
  {
    hide Code, Digit, DigitOf, Or, Up;
    if n > 0 {
      DigitsBack(id >> 3, n - 1);
      DigitBack(id);
      LowAndRest(id);
      assert Codes(Digits(id, n))[1..] == Codes(Digits(id >> 3, n - 1));
    }
  }

  lemma ElevenDigits(id: bv32)
    ensures Left(id, ID_LENGTH) == 0
  {
    assert Left(id, 11) == Left(id >> 3 >> 3, 9);
  }

  /** Every 32-bit id is read back. */
  lemma IdBack(id: bv32)
    ensures IdOf(Codes(Digits(id, ID_LENGTH))) == id
  {
    ElevenDigits(id);
    DigitsBack(id, ID_LENGTH);
  }

  lemma OrLaws(x: bv32, y: bv32, z: bv32)
    ensures Or(Or(x, y), z) == Or(x, Or(y, z)) && Or(0, x) == Or(x, 0) == x
    ensures Up(Or(x, y)) == Or(Up(x), Up(y)) && Up(0) == 0
  {
  }

  /** Shifted by i digits. */
  function Place(x: bv32, i: nat): bv32
    decreases i
  {
    if i == 0 then x else Place(Up(x), i - 1)
  }

  lemma {:induction false} PlaceOr(x: bv32, y: bv32, i: nat)
    ensures Place(Or(x, y), i) == Or(Place(x, i), Place(y, i)) && Place(0, i) == 0
    decreases i
  {
    hide Or, Up;
    if i > 0 {
      OrLaws(x, y, 0);
      PlaceOr(Up(x), Up(y), i - 1);
    }
  }

  method ReadId(data: array<byte>, at: nat) returns (id: bv32)
    requires at + ID_LENGTH <= data.Length
    ensures id == IdOf(data[at..at + ID_LENGTH])
  {
    hide Or, Up, DigitOf, Place;
    id := 0;
    ghost var all := IdOf(data[at..at + ID_LENGTH]);
    OrLaws(all, 0, 0);
    PlaceZero(all);
    for i := 0 to ID_LENGTH
      invariant Or(id, Place(IdOf(data[at + i..at + ID_LENGTH]), i)) == all
    {
      var count := ReadArbiter(data[at + i]);
      var digit := Decremented(count);
      ghost var rest := IdOf(data[at + i + 1..at + ID_LENGTH]);
      assert data[at + i..at + ID_LENGTH][1..] == data[at + i + 1..at + ID_LENGTH];
      DigitOfCount(data[at + i]);
      PlaceOr(digit, Up(rest), i);
      PlaceUp(rest, i);
      OrLaws(id, Place(digit, i), Place(rest, i + 1));
      id := Or(id, Place(digit, i));
    }
    assert data[at + ID_LENGTH..at + ID_LENGTH] == [];
    PlaceOr(0, 0, ID_LENGTH);
    OrLaws(id, 0, 0);
  }

  function Decremented(count: bv8): bv32 {
    (count as bv32) - 1
  }

  lemma DigitOfCount(code: byte)
    ensures DigitOf(code) == Decremented(Count(code))
  {
  }

  lemma PlaceZero(x: bv32)
    ensures Place(x, 0) == x
  {
  }

  lemma PlaceUp(x: bv32, i: nat)
    ensures Place(Up(x), i) == Place(x, i + 1)
  {
  }

  method WriteId(data: array<byte>, at: nat, id: bv32)
    requires at + ID_LENGTH <= data.Length
    modifies data
    ensures data[..] == old(data[..at]) + Codes(Digits(id, ID_LENGTH)) + old(data[at + ID_LENGTH..])
  {
    hide Code, Digit;
    ghost var codes := Codes(Digits(id, ID_LENGTH));
    var rest := id;
    for i := 0 to ID_LENGTH
      invariant forall k :: 0 <= k < at || at + ID_LENGTH <= k < data.Length ==> data[k] == old(data[k])
      invariant forall k :: at <= k < at + i ==> data[k] == codes[k - at]
      invariant codes[i..] == Codes(Digits(rest, ID_LENGTH - i))
    {
      data[at + i] := Code(Digit(rest));
      assert codes[i..][0] == codes[i] && codes[i..][1..] == codes[i + 1..];
      rest := rest >> 3;
    }
  }

  // ----- addresses

  /** An address takes two octets, a digit plus one and the rest. */
  function AddressCodes(address: bv8): (r: seq<byte>)
    ensures |r| == 2
  {
    [Code((address & 7) + 1), Code(address >> 3)]
  }

  function AddressOf(first: byte, second: byte): bv8 {
    (Count(first) - 1) | (Count(second) << 3)
  }

  /** An address is read back exactly if its rest fits into an octet. It never looks like an enumeration. */
  lemma AddressBackExactly(address: bv8)
    ensures AddressCodes(address)[0] != 0
    ensures AddressOf(AddressCodes(address)[0], AddressCodes(address)[1]) == address <==> address <= 71
  {
  }

  // ----- which messages win

  /** Devices that want to be commissioned send a zero and their id. */
  function Enumeration(id: bv32): (r: seq<Value>)
    ensures |r| == ID_LENGTH + 1
  {
    [0] + Digits(id, ID_LENGTH)
  }

  function Enumerations(ids: seq<bv32>): (r: seq<seq<Value>>)
    ensures |r| == |ids| && AllOfLength(r, ID_LENGTH + 1)
    ensures forall i :: 0 <= i < |ids| ==> r[i] == Enumeration(ids[i])
  {
    seq(|ids|, i requires 0 <= i < |ids| => Enumeration(ids[i]))
  }

  /** When devices enumerate at the same time, the master reads the id of the one with the least digits. */
  lemma EnumerationRead(ids: seq<bv32>) returns (k: nat)
    requires ids != []
    ensures k < |ids|
    ensures var read := Arbitrate(Enumerations(ids), ID_LENGTH + 1); read[0] == 0 && IdOf(read[1..]) == ids[k]
    ensures forall i :: 0 <= i < |ids| ==> AtMost(Digits(ids[k], ID_LENGTH), Digits(ids[i], ID_LENGTH))
  {
    var ms := Enumerations(ids);
    k := LeastSurvives(ms, ID_LENGTH + 1);
    assert ms[k][1..] == Digits(ids[k], ID_LENGTH);
    IdBack(ids[k]);
    forall i | 0 <= i < |ids| ensures AtMost(Digits(ids[k], ID_LENGTH), Digits(ids[i], ID_LENGTH)) {
      assert AtMost(ms[k], ms[i]);
      assert ms[i][1..] == Digits(ids[i], ID_LENGTH);
    }
  }

  /**
   * Two zeros of a commissioning message beat every enumeration, whose digits are not zero, and the zero of an enumeration
   * beats every address.
   */
  lemma Priorities(ms: seq<seq<Value>>, n: nat) returns (k: nat)
    requires AllOfLength(ms, n) && n >= 2 && ms != []
    ensures k < |ms| && Arbitrate(ms, n) == Codes(ms[k])
    ensures (exists i :: 0 <= i < |ms| && ms[i][0] == 0) ==> ms[k][0] == 0
    ensures (exists i :: 0 <= i < |ms| && ms[i][0] == 0 && ms[i][1] == 0) ==> ms[k][0] == 0 && ms[k][1] == 0
  {
    k := LeastSurvives(ms, n);
    forall i | 0 <= i < |ms|
      ensures ms[i][0] == 0 ==> ms[k][0] == 0
      ensures ms[i][0] == 0 && ms[i][1] == 0 ==> ms[k][0] == 0 && ms[k][1] == 0
    {
      var a, b := ms[k], ms[i];
      assert AtMost(a, b) && a[1..][0] == a[1] && b[1..][0] == b[1];
      assert a[0] == b[0] ==> AtMost(a[1..], b[1..]);
      assert AtMost(a[1..], b[1..]) ==> NotAbove(a[1], b[1]);
    }
  }
}
