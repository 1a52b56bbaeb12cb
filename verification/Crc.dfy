/** CRC-16/CCITT-FALSE of crc.cpp: a table of octets, against the division bit by bit. */
module Crc {
  import opened Bytes

  const POLYNOMIAL: bv16 := 0x1021

  // ----- the division

  /** One bit further: the register is shifted out, reduced by the polynomial. */
  function Divide(x: bv16): bv16 {
    if x & 0x8000 == 0 then x << 1 else (x << 1) ^ POLYNOMIAL
  }

  /** Polynomials over GF(2): addition, and multiplication by the variable. */
  function Sum(x: bv16, y: bv16): bv16 { x ^ y }

  function Double(x: bv16): bv16 { x << 1 }

  predicate Overflows(x: bv16) { x & 0x8000 != 0 }

  function Top(bit: bool): bv16 {
    if bit then 0x8000 else 0
  }

  /** The remainder after another bits of the message. */
  function Remainder(crc: bv16, bits: seq<bool>): bv16
    decreases |bits|
  {
    if bits == [] then crc else Remainder(Divide(Sum(crc, Top(bits[0]))), bits[1..])
  }

  /** The bits of an octet, the highest first. */
  function OctetBits(b: byte): (r: seq<bool>)
    ensures |r| == 8
  {
    [b & 0x80 != 0, b & 0x40 != 0, b & 0x20 != 0, b & 0x10 != 0, b & 8 != 0, b & 4 != 0, b & 2 != 0, b & 1 != 0]
  }

  function Bits(data: seq<byte>): (r: seq<bool>)
    ensures |r| == 8 * |data|
  {
    if data == [] then [] else OctetBits(data[0]) + Bits(data[1..])
  }

  // ----- the table

  const ROW_0: seq<bv16> :=
    [0x0000, 0x1021, 0x2042, 0x3063, 0x4084, 0x50a5, 0x60c6, 0x70e7, 0x8108, 0x9129, 0xa14a, 0xb16b, 0xc18c, 0xd1ad, 0xe1ce, 0xf1ef]

  const ROW_1: seq<bv16> :=
    [0x1231, 0x0210, 0x3273, 0x2252, 0x52b5, 0x4294, 0x72f7, 0x62d6, 0x9339, 0x8318, 0xb37b, 0xa35a, 0xd3bd, 0xc39c, 0xf3ff, 0xe3de]

  const ROW_2: seq<bv16> :=
    [0x2462, 0x3443, 0x0420, 0x1401, 0x64e6, 0x74c7, 0x44a4, 0x5485, 0xa56a, 0xb54b, 0x8528, 0x9509, 0xe5ee, 0xf5cf, 0xc5ac, 0xd58d]

  const ROW_3: seq<bv16> :=
    [0x3653, 0x2672, 0x1611, 0x0630, 0x76d7, 0x66f6, 0x5695, 0x46b4, 0xb75b, 0xa77a, 0x9719, 0x8738, 0xf7df, 0xe7fe, 0xd79d, 0xc7bc]

  const ROW_4: seq<bv16> :=
    [0x48c4, 0x58e5, 0x6886, 0x78a7, 0x0840, 0x1861, 0x2802, 0x3823, 0xc9cc, 0xd9ed, 0xe98e, 0xf9af, 0x8948, 0x9969, 0xa90a, 0xb92b]

  const ROW_5: seq<bv16> :=
    [0x5af5, 0x4ad4, 0x7ab7, 0x6a96, 0x1a71, 0x0a50, 0x3a33, 0x2a12, 0xdbfd, 0xcbdc, 0xfbbf, 0xeb9e, 0x9b79, 0x8b58, 0xbb3b, 0xab1a]

  const ROW_6: seq<bv16> :=
    [0x6ca6, 0x7c87, 0x4ce4, 0x5cc5, 0x2c22, 0x3c03, 0x0c60, 0x1c41, 0xedae, 0xfd8f, 0xcdec, 0xddcd, 0xad2a, 0xbd0b, 0x8d68, 0x9d49]

  const ROW_7: seq<bv16> :=
    [0x7e97, 0x6eb6, 0x5ed5, 0x4ef4, 0x3e13, 0x2e32, 0x1e51, 0x0e70, 0xff9f, 0xefbe, 0xdfdd, 0xcffc, 0xbf1b, 0xaf3a, 0x9f59, 0x8f78]

  const ROW_8: seq<bv16> :=
    [0x9188, 0x81a9, 0xb1ca, 0xa1eb, 0xd10c, 0xc12d, 0xf14e, 0xe16f, 0x1080, 0x00a1, 0x30c2, 0x20e3, 0x5004, 0x4025, 0x7046, 0x6067]

  const ROW_9: seq<bv16> :=
    [0x83b9, 0x9398, 0xa3fb, 0xb3da, 0xc33d, 0xd31c, 0xe37f, 0xf35e, 0x02b1, 0x1290, 0x22f3, 0x32d2, 0x4235, 0x5214, 0x6277, 0x7256]

  const ROW_A: seq<bv16> :=
    [0xb5ea, 0xa5cb, 0x95a8, 0x8589, 0xf56e, 0xe54f, 0xd52c, 0xc50d, 0x34e2, 0x24c3, 0x14a0, 0x0481, 0x7466, 0x6447, 0x5424, 0x4405]

  const ROW_B: seq<bv16> :=
    [0xa7db, 0xb7fa, 0x8799, 0x97b8, 0xe75f, 0xf77e, 0xc71d, 0xd73c, 0x26d3, 0x36f2, 0x0691, 0x16b0, 0x6657, 0x7676, 0x4615, 0x5634]

  const ROW_C: seq<bv16> :=
    [0xd94c, 0xc96d, 0xf90e, 0xe92f, 0x99c8, 0x89e9, 0xb98a, 0xa9ab, 0x5844, 0x4865, 0x7806, 0x6827, 0x18c0, 0x08e1, 0x3882, 0x28a3]

  const ROW_D: seq<bv16> :=
    [0xcb7d, 0xdb5c, 0xeb3f, 0xfb1e, 0x8bf9, 0x9bd8, 0xabbb, 0xbb9a, 0x4a75, 0x5a54, 0x6a37, 0x7a16, 0x0af1, 0x1ad0, 0x2ab3, 0x3a92]

  const ROW_E: seq<bv16> :=
    [0xfd2e, 0xed0f, 0xdd6c, 0xcd4d, 0xbdaa, 0xad8b, 0x9de8, 0x8dc9, 0x7c26, 0x6c07, 0x5c64, 0x4c45, 0x3ca2, 0x2c83, 0x1ce0, 0x0cc1]

  const ROW_F: seq<bv16> :=
    [0xef1f, 0xff3e, 0xcf5d, 0xdf7c, 0xaf9b, 0xbfba, 0x8fd9, 0x9ff8, 0x6e17, 0x7e36, 0x4e55, 0x5e74, 0x2e93, 0x3eb2, 0x0ed1, 0x1ef0]

  const TABLE: seq<seq<bv16>> :=
    [ROW_0, ROW_1, ROW_2, ROW_3, ROW_4, ROW_5, ROW_6, ROW_7, ROW_8, ROW_9, ROW_A, ROW_B, ROW_C, ROW_D, ROW_E, ROW_F]

  /** A value below 16 as an index. */
  function Nibble(x: byte): (r: nat)
    ensures r < 16
  {
    if x == 0 then 0
    else if x == 1 then 1
    else if x == 2 then 2
    else if x == 3 then 3
    else if x == 4 then 4
    else if x == 5 then 5
    else if x == 6 then 6
    else if x == 7 then 7
    else if x == 8 then 8
    else if x == 9 then 9
    else if x == 10 then 10
    else if x == 11 then 11
    else if x == 12 then 12
    else if x == 13 then 13
    else if x == 14 then 14
    else 15
  }

  function Entry(x: byte): bv16 {
    TABLE[Nibble(x >> 4)][Nibble(x & 15)]
  }

  function Divide8(x: bv16): bv16 {
    Divide(Divide(Divide(Divide(Divide(Divide(Divide(Divide(x))))))))
  }

  function High(x: byte): bv16 {
    (x as bv16) << 8
  }

  lemma Row0(x: byte)
    requires x < 0x10
    ensures ROW_0[Nibble(x & 15)] == Divide8(High(x)) && Nibble(x >> 4) == 0
  {
    hide TABLE;
  }

  lemma Row1(x: byte)
    requires 0x10 <= x < 0x20
    ensures ROW_1[Nibble(x & 15)] == Divide8(High(x)) && Nibble(x >> 4) == 1
  {
    hide TABLE;
  }

  lemma Row2(x: byte)
    requires 0x20 <= x < 0x30
    ensures ROW_2[Nibble(x & 15)] == Divide8(High(x)) && Nibble(x >> 4) == 2
  {
    hide TABLE;
  }

  lemma Row3(x: byte)
    requires 0x30 <= x < 0x40
    ensures ROW_3[Nibble(x & 15)] == Divide8(High(x)) && Nibble(x >> 4) == 3
  {
    hide TABLE;
  }

  lemma Row4(x: byte)
    requires 0x40 <= x < 0x50
    ensures ROW_4[Nibble(x & 15)] == Divide8(High(x)) && Nibble(x >> 4) == 4
  {
    hide TABLE;
  }

  lemma Row5(x: byte)
    requires 0x50 <= x < 0x60
    ensures ROW_5[Nibble(x & 15)] == Divide8(High(x)) && Nibble(x >> 4) == 5
  {
    hide TABLE;
  }

  lemma Row6(x: byte)
    requires 0x60 <= x < 0x70
    ensures ROW_6[Nibble(x & 15)] == Divide8(High(x)) && Nibble(x >> 4) == 6
  {
    hide TABLE;
  }

  lemma Row7(x: byte)
    requires 0x70 <= x < 0x80
    ensures ROW_7[Nibble(x & 15)] == Divide8(High(x)) && Nibble(x >> 4) == 7
  {
    hide TABLE;
  }

  lemma Row8(x: byte)
    requires 0x80 <= x < 0x90
    ensures ROW_8[Nibble(x & 15)] == Divide8(High(x)) && Nibble(x >> 4) == 8
  {
    hide TABLE;
  }

  lemma Row9(x: byte)
    requires 0x90 <= x < 0xa0
    ensures ROW_9[Nibble(x & 15)] == Divide8(High(x)) && Nibble(x >> 4) == 9
  {
    hide TABLE;
  }

  lemma RowA(x: byte)
    requires 0xa0 <= x < 0xb0
    ensures ROW_A[Nibble(x & 15)] == Divide8(High(x)) && Nibble(x >> 4) == 10
  {
    hide TABLE;
  }

  lemma RowB(x: byte)
    requires 0xb0 <= x < 0xc0
    ensures ROW_B[Nibble(x & 15)] == Divide8(High(x)) && Nibble(x >> 4) == 11
  {
    hide TABLE;
  }

  lemma RowC(x: byte)
    requires 0xc0 <= x < 0xd0
    ensures ROW_C[Nibble(x & 15)] == Divide8(High(x)) && Nibble(x >> 4) == 12
  {
    hide TABLE;
  }

  lemma RowD(x: byte)
    requires 0xd0 <= x < 0xe0
    ensures ROW_D[Nibble(x & 15)] == Divide8(High(x)) && Nibble(x >> 4) == 13
  {
    hide TABLE;
  }

  lemma RowE(x: byte)
    requires 0xe0 <= x < 0xf0
    ensures ROW_E[Nibble(x & 15)] == Divide8(High(x)) && Nibble(x >> 4) == 14
  {
    hide TABLE;
  }

  lemma RowF(x: byte)
    requires 0xf0 <= x
    ensures ROW_F[Nibble(x & 15)] == Divide8(High(x)) && Nibble(x >> 4) == 15
  {
    hide TABLE;
  }

  lemma TableEntry(x: byte)
    ensures Entry(x) == Divide8(High(x))
  {
    hide Nibble, Divide8, High;
    if x < 0x10 {
      Row0(x);
    } else if x < 0x20 {
      Row1(x);
    } else if x < 0x30 {
      Row2(x);
    } else if x < 0x40 {
      Row3(x);
    } else if x < 0x50 {
      Row4(x);
    } else if x < 0x60 {
      Row5(x);
    } else if x < 0x70 {
      Row6(x);
    } else if x < 0x80 {
      Row7(x);
    } else if x < 0x90 {
      Row8(x);
    } else if x < 0xa0 {
      Row9(x);
    } else if x < 0xb0 {
      RowA(x);
    } else if x < 0xc0 {
      RowB(x);
    } else if x < 0xd0 {
      RowC(x);
    } else if x < 0xe0 {
      RowD(x);
    } else if x < 0xf0 {
      RowE(x);
    } else {
      RowF(x);
    }
  }

  /** Each of the 256 entries is the remainder of its octet. */
  lemma EntryDivides(x: byte)
    ensures Entry(x) == Divide8(High(x)) == Remainder(0, OctetBits(x))
  {
    hide Entry, Divide8, OctetBits, High, Sum;
    TableEntry(x);
    EightBits(0, x);
    Vanishes(High(x), 0);
  }

  // ----- the division is linear and loses nothing

  lemma Groups(x: bv16, y: bv16, z: bv16)
    ensures Sum(Sum(x, y), z) == Sum(x, Sum(y, z))
  {
  }

  /** Sums of sums pair up either way. */
  lemma Exchange(x: bv16, p: bv16, y: bv16, q: bv16)
    ensures Sum(Sum(x, p), Sum(y, q)) == Sum(Sum(x, y), Sum(p, q))
  {
    calc {
      Sum(Sum(x, p), Sum(y, q));
      Sum(x ^ p, y ^ q);
      (x ^ p) ^ (y ^ q);
      (x ^ y) ^ (p ^ q);
      Sum(x ^ y, p ^ q);
      Sum(Sum(x, y), Sum(p, q));
    }
  }

  lemma Vanishes(x: bv16, y: bv16)
    ensures Sum(x, 0) == Sum(0, x) == x && Sum(x, x) == 0
    ensures Sum(x, y) == 0 <==> x == y
  {
  }

  lemma DoubleSum(x: bv16, y: bv16)
    ensures Double(Sum(x, y)) == Sum(Double(x), Double(y))
  {
    calc {
      Double(Sum(x, y));
      Double(x ^ y);
      (x ^ y) << 1;
      (x << 1) ^ (y << 1);
      Sum(x << 1, y << 1);
      Sum(Double(x), Double(y));
    }
  }

  lemma OverflowSum(x: bv16, y: bv16)
    ensures Overflows(Sum(x, y)) <==> Overflows(x) != Overflows(y)
  {
  }

  lemma Division(x: bv16)
    ensures Divide(x) == if Overflows(x) then Sum(Double(x), POLYNOMIAL) else Double(x)
  {
  }

  lemma DivideSum(x: bv16, y: bv16)
    ensures Divide(Sum(x, y)) == Sum(Divide(x), Divide(y))
  {
    hide *;
    Division(x);
    Division(y);
    Division(Sum(x, y));
    DoubleSum(x, y);
    OverflowSum(x, y);
    var p := if Overflows(x) then POLYNOMIAL else 0;
    var q := if Overflows(y) then POLYNOMIAL else 0;
    Vanishes(Double(x), 0);
    Vanishes(Double(y), 0);
    Vanishes(Double(Sum(x, y)), 0);
    Vanishes(POLYNOMIAL, 0);
    Exchange(Double(x), p, Double(y), q);
  }

  lemma DivideZero(x: bv16)
    ensures Divide(x) == 0 <==> x == 0
  {
  }

  /** Remainders of different registers and messages add up. */
  lemma {:induction false} RemainderSum(x: bv16, a: seq<bool>, y: bv16, b: seq<bool>)
    requires |a| == |b|
    ensures Sum(Remainder(x, a), Remainder(y, b)) == Remainder(Sum(x, y), Difference(a, b))
    decreases |a|
  {
    hide Divide, Sum, Top;
    if a != [] {
      var u, v := Divide(Sum(x, Top(a[0]))), Divide(Sum(y, Top(b[0])));
      assert Difference(a, b)[1..] == Difference(a[1..], b[1..]);
      RemainderSum(u, a[1..], v, b[1..]);
      DivideSum(Sum(x, Top(a[0])), Sum(y, Top(b[0])));
      TopSum(x, a[0], y, b[0]);
    }
  }

  function Difference(a: seq<bool>, b: seq<bool>): (r: seq<bool>)
    requires |a| == |b|
    ensures |r| == |a|
  {
    seq(|a|, i requires 0 <= i < |a| => a[i] != b[i])
  }

  lemma TopSum(x: bv16, a: bool, y: bv16, b: bool)
    ensures Sum(Sum(x, Top(a)), Sum(y, Top(b))) == Sum(Sum(x, y), Top(a != b))
  {
    Exchange(x, Top(a), y, Top(b));
    hide Sum;
    Vanishes(0x8000, 0);
    Vanishes(0, 0);
  }

  lemma {:induction false} Chained(crc: bv16, a: seq<bool>, b: seq<bool>)
    ensures Remainder(crc, a + b) == Remainder(Remainder(crc, a), b)
    decreases |a|
  {
    hide Divide, Sum, Top;
    if a == [] {
      assert a + b == b;
    } else {
      assert (a + b)[1..] == a[1..] + b;
      Chained(Divide(Sum(crc, Top(a[0]))), a[1..], b);
    }
  }

  /** Zeros keep a register that is not zero from becoming zero. */
  lemma {:induction false} ZerosKeep(crc: bv16, bits: seq<bool>)
    requires forall i :: 0 <= i < |bits| ==> !bits[i]
    ensures Remainder(crc, bits) == 0 <==> crc == 0
    decreases |bits|
  {
    hide Divide;
    if bits != [] {
      DivideZero(crc);
      assert Sum(crc, Top(false)) == crc;
      ZerosKeep(Divide(crc), bits[1..]);
    }
  }

  // ----- up to 16 bits at once

  function Half(x: bv16): bv16 { x >> 1 }

  predicate Even(x: bv16) { x & 1 == 0 }

  /** The bits at the top of a register. */
  function Aligned(bits: seq<bool>): bv16
    decreases |bits|
  {
    if bits == [] then 0 else Sum(Top(bits[0]), Half(Aligned(bits[1..])))
  }

  /** The lowest n bits are zero. */
  predicate Spaced(x: bv16, n: nat)
    decreases n
  {
    n == 0 || (Even(x) && Spaced(Half(x), n - 1))
  }

  lemma HalfSum(x: bv16, y: bv16)
    ensures Half(Sum(x, y)) == Sum(Half(x), Half(y))
    ensures Even(x) && Even(y) ==> Even(Sum(x, y))
  {
    calc {
      Half(Sum(x, y));
      Half(x ^ y);
      (x ^ y) >> 1;
      (x >> 1) ^ (y >> 1);
      Sum(x >> 1, y >> 1);
      Sum(Half(x), Half(y));
    }
  }

  lemma {:induction false} SpacedSum(x: bv16, y: bv16, n: nat)
    requires Spaced(x, n) && Spaced(y, n)
    ensures Spaced(Sum(x, y), n)
    decreases n
  {
    hide Half, Even, Sum;
    if n > 0 {
      HalfSum(x, y);
      SpacedSum(Half(x), Half(y), n - 1);
    }
  }

  lemma {:induction false} SpacedLess(x: bv16, n: nat, m: nat)
    requires Spaced(x, n) && m <= n
    ensures Spaced(x, m)
    decreases m
  {
    hide Half, Even;
    if m > 0 {
      SpacedLess(Half(x), n - 1, m - 1);
    }
  }

  lemma TopSpaced(bit: bool)
    ensures Spaced(Top(bit), 15)
  {
    if bit {
      assert Spaced(0x8000, 15);
    } else {
      ZeroSpaced(15);
    }
  }

  lemma {:induction false} ZeroSpaced(n: nat)
    ensures Spaced(0, n)
  {
    assert Half(0) == 0 && Even(0);
    if n > 0 {
      ZeroSpaced(n - 1);
    }
  }

  lemma {:induction false} AlignedSpaced(bits: seq<bool>)
    requires |bits| <= 16
    ensures Spaced(Aligned(bits), 16 - |bits|)
    decreases |bits|
  {
    hide Half, Even, Sum;
    if bits == [] {
      ZeroSpaced(16);
    } else {
      var rest := Aligned(bits[1..]);
      AlignedSpaced(bits[1..]);
      TopSpaced(bits[0]);
      SpacedLess(Top(bits[0]), 15, 16 - |bits|);
      SpacedSum(Top(bits[0]), Half(rest), 16 - |bits|);
    }
  }

  function DivideTimes(x: bv16, n: nat): bv16
    decreases n
  {
    if n == 0 then x else DivideTimes(Divide(x), n - 1)
  }

  lemma DivideHalf(x: bv16)
    requires Even(x)
    ensures Divide(Half(x)) == x
  {
  }

  /** Instead of bit by bit, up to 16 bits can enter the register first. */
  lemma {:induction false} EnterFirst(crc: bv16, bits: seq<bool>)
    requires |bits| <= 16
    ensures Remainder(crc, bits) == DivideTimes(Sum(crc, Aligned(bits)), |bits|)
    decreases |bits|
  {
    hide Half, Even, Sum, Divide, Top;
    if bits == [] {
      Vanishes(crc, 0);
    } else {
      var top, rest := Top(bits[0]), Aligned(bits[1..]);
      EnterFirst(Divide(Sum(crc, top)), bits[1..]);
      AlignedSpaced(bits[1..]);
      DivideHalf(rest);
      Groups(crc, top, Half(rest));
      DivideSum(Sum(crc, top), Half(rest));
    }
  }

  lemma {:induction false} DivideTimesZero(x: bv16, n: nat)
    ensures DivideTimes(x, n) == 0 <==> x == 0
    decreases n
  {
    hide Divide;
    DivideZero(x);
    if n > 0 {
      DivideTimesZero(Divide(x), n - 1);
    }
  }

  lemma TopAndHalf(bit: bool, x: bv16)
    requires Even(x)
    ensures Sum(Top(bit), Half(x)) == 0 <==> !bit && x == 0
  {
  }

  lemma {:induction false} AlignedZero(bits: seq<bool>)
    requires |bits| <= 16
    ensures Aligned(bits) == 0 <==> forall i :: 0 <= i < |bits| ==> !bits[i]
    decreases |bits|
  {
    hide Half, Even, Sum, Top;
    if bits != [] {
      AlignedSpaced(bits[1..]);
      TopAndHalf(bits[0], Aligned(bits[1..]));
      AlignedZero(bits[1..]);
    }
  }

  // ----- what the check detects

  lemma {:induction false} RegistersStayApart(x: bv16, y: bv16, bits: seq<bool>)
    requires x != y
    ensures Remainder(x, bits) != Remainder(y, bits)
  {
    hide Sum, Remainder, Divide;
    Vanishes(x, y);
    Vanishes(Remainder(x, bits), Remainder(y, bits));
    RemainderSum(x, bits, y, bits);
    ZerosKeep(Sum(x, y), Difference(bits, bits));
  }

  /** Messages that differ within 16 consecutive bits have different check values. */
  lemma BurstDetected(crc: bv16, before: seq<bool>, x: seq<bool>, y: seq<bool>, after: seq<bool>)
    requires |x| == |y| <= 16 && x != y
    ensures Remainder(crc, before + x + after) != Remainder(crc, before + y + after)
  {
    hide Sum, Remainder, Divide, Aligned, DivideTimes;
    var c := Remainder(crc, before);
    Chained(crc, before + x, after);
    Chained(crc, before, x);
    Chained(crc, before + y, after);
    Chained(crc, before, y);
    var d := Difference(x, y);
    var i :| 0 <= i < |x| && x[i] != y[i];
    assert d[i];
    RemainderSum(c, x, c, y);
    Vanishes(c, c);
    EnterFirst(0, d);
    Vanishes(Aligned(d), 0);
    AlignedZero(d);
    DivideTimesZero(Aligned(d), |d|);
    Vanishes(Remainder(c, x), Remainder(c, y));
    RegistersStayApart(Remainder(c, x), Remainder(c, y), after);
  }

  // ----- octets

  lemma AlignedFrom(bits: seq<bool>, k: nat)
    requires k < |bits|
    ensures Aligned(bits[k..]) == Sum(Top(bits[k]), Half(Aligned(bits[k + 1..])))
  {
    assert bits[k..][1..] == bits[k + 1..];
  }

  /** One more bit of an octet, in front of the lower ones. */
  lemma LowerBits(x: byte)
    ensures Sum(Top(x & 1 != 0), 0) == ((x & 1) as bv16) << 15
    ensures Sum(Top(x & 2 != 0), Half(((x & 1) as bv16) << 15)) == ((x & 3) as bv16) << 14
    ensures Sum(Top(x & 4 != 0), Half(((x & 3) as bv16) << 14)) == ((x & 7) as bv16) << 13
    ensures Sum(Top(x & 8 != 0), Half(((x & 7) as bv16) << 13)) == ((x & 15) as bv16) << 12
  {
  }

  lemma UpperBits(x: byte)
    ensures Sum(Top(x & 0x10 != 0), Half(((x & 15) as bv16) << 12)) == ((x & 0x1f) as bv16) << 11
    ensures Sum(Top(x & 0x20 != 0), Half(((x & 0x1f) as bv16) << 11)) == ((x & 0x3f) as bv16) << 10
    ensures Sum(Top(x & 0x40 != 0), Half(((x & 0x3f) as bv16) << 10)) == ((x & 0x7f) as bv16) << 9
    ensures Sum(Top(x & 0x80 != 0), Half(((x & 0x7f) as bv16) << 9)) == High(x)
  {
  }

  lemma AlignedLower(x: byte)
    ensures Aligned(OctetBits(x)[4..]) == ((x & 15) as bv16) << 12
  {
    hide Aligned, Sum, Top, Half;
    var bits := OctetBits(x);
    assert bits[8..] == [];
    AlignedZero(bits[8..]);
    HalfZero();
    AlignedFrom(bits, 7);
    AlignedFrom(bits, 6);
    AlignedFrom(bits, 5);
    AlignedFrom(bits, 4);
    LowerBits(x);
  }

  lemma AlignedMiddle(x: byte)
    ensures Aligned(OctetBits(x)[2..]) == ((x & 0x3f) as bv16) << 10
  {
    hide Aligned, Sum, Top, Half, High;
    var bits := OctetBits(x);
    AlignedLower(x);
    AlignedFrom(bits, 3);
    AlignedFrom(bits, 2);
    UpperBits(x);
  }

  lemma AlignedOctet(x: byte)
    ensures Aligned(OctetBits(x)) == High(x)
  {
    hide Aligned, Sum, Top, Half, High;
    var bits := OctetBits(x);
    assert bits[0..] == bits;
    AlignedMiddle(x);
    AlignedFrom(bits, 1);
    AlignedFrom(bits, 0);
    UpperBits(x);
  }

  lemma HalfZero()
    ensures Half(0) == 0
  {
  }

  lemma EightTimes(x: bv16)
    ensures DivideTimes(x, 8) == Divide8(x)
  {
    hide Divide;
    var x2 := Divide(Divide(x));
    var x4 := Divide(Divide(x2));
    var x6 := Divide(Divide(x4));
    assert DivideTimes(x, 8) == DivideTimes(x2, 6);
    assert DivideTimes(x2, 6) == DivideTimes(x4, 4);
    assert DivideTimes(x4, 4) == DivideTimes(x6, 2);
  }

  lemma EightBits(crc: bv16, x: byte)
    ensures Remainder(crc, OctetBits(x)) == Divide8(Sum(crc, High(x)))
  {
    hide Sum, Divide8, High, Aligned, Remainder;
    AlignedOctet(x);
    EnterFirst(crc, OctetBits(x));
    EightTimes(Sum(crc, High(x)));
  }

  lemma {:induction false} DivideTimesSum(x: bv16, y: bv16, n: nat)
    ensures DivideTimes(Sum(x, y), n) == Sum(DivideTimes(x, n), DivideTimes(y, n))
    decreases n
  {
    hide Sum, Divide;
    if n > 0 {
      DivideSum(x, y);
      DivideTimesSum(Divide(x), Divide(y), n - 1);
    }
  }

  lemma Divide8Sum(x: bv16, y: bv16)
    ensures Divide8(Sum(x, y)) == Sum(Divide8(x), Divide8(y))
  {
    hide Sum, Divide8, DivideTimes;
    EightTimes(x);
    EightTimes(y);
    EightTimes(Sum(x, y));
    DivideTimesSum(x, y, 8);
  }

  lemma {:induction false} BitsAppend(a: seq<byte>, b: seq<byte>)
    ensures Bits(a + b) == Bits(a) + Bits(b)
  {
    hide OctetBits;
    if a == [] {
      assert a + b == b;
    } else {
      assert (a + b)[1..] == a[1..] + b;
      BitsAppend(a[1..], b);
    }
  }

  lemma HighDiffers(x: byte, y: byte)
    requires x != y
    ensures High(x) != High(y)
  {
  }

  lemma OctetBitsDiffer(x: byte, y: byte)
    requires x != y
    ensures OctetBits(x) != OctetBits(y)
  {
    hide High, OctetBits, Aligned;
    AlignedOctet(x);
    AlignedOctet(y);
    HighDiffers(x, y);
  }

  lemma {:induction false} BitsDiffer(a: seq<byte>, b: seq<byte>)
    requires |a| == |b| && a != b
    ensures Bits(a) != Bits(b)
  {
    hide OctetBits;
    assert Bits(a)[..8] == OctetBits(a[0]) && Bits(b)[..8] == OctetBits(b[0]);
    assert Bits(a)[8..] == Bits(a[1..]) && Bits(b)[8..] == Bits(b[1..]);
    if a[0] != b[0] {
      OctetBitsDiffer(a[0], b[0]);
    } else {
      assert a == [a[0]] + a[1..] && b == [b[0]] + b[1..];
      BitsDiffer(a[1..], b[1..]);
    }
  }

  /** The check value of octets: the remainder of their bits. */
  function Check(crc: bv16, data: seq<byte>): bv16 {
    Remainder(crc, Bits(data))
  }

  /** Sections can be checked one after the other. */
  lemma CheckChained(crc: bv16, a: seq<byte>, b: seq<byte>)
    ensures Check(crc, a + b) == Check(Check(crc, a), b)
  {
    BitsAppend(a, b);
    Chained(crc, Bits(a), Bits(b));
  }

  /** Messages that differ in two adjacent octets at most have different check values. */
  lemma AdjacentOctetsDetected(crc: bv16, before: seq<byte>, x: seq<byte>, y: seq<byte>, after: seq<byte>)
    requires |x| == |y| <= 2 && x != y
    ensures Check(crc, before + x + after) != Check(crc, before + y + after)
  {
    hide Remainder, Bits;
    BitsDiffer(x, y);
    BitsAppend(before + x, after);
    BitsAppend(before, x);
    BitsAppend(before + y, after);
    BitsAppend(before, y);
    BurstDetected(crc, Bits(before), Bits(x), Bits(y), Bits(after));
  }

  // ----- the function

  function Low(crc: bv16): bv16 { crc & 0xff }

  function HighOctet(crc: bv16): byte { (crc >> 8) as byte }

  /** One turn of the loop: a look-up instead of eight divisions. */
  function Turn(crc: bv16, x: byte): bv16 {
    Entry(HighOctet(crc) ^ x) ^ (crc << 8)
  }

  lemma Parts(crc: bv16, x: byte)
    ensures Sum(crc, High(x)) == Sum(High(HighOctet(crc) ^ x), Low(crc))
  {
    calc {
      Sum(crc, High(x));
      Sum(crc, (x as bv16) << 8);
      crc ^ ((x as bv16) << 8);
      (((((crc >> 8) as byte) ^ x) as bv16) << 8) ^ (crc & 0xff);
      Sum((((((crc >> 8) as byte) ^ x)) as bv16) << 8, crc & 0xff);
      Sum(High(((crc >> 8) as byte) ^ x), crc & 0xff);
      Sum(High(HighOctet(crc) ^ x), Low(crc));
    }
  }

  lemma LowDivides(crc: bv16)
    ensures Divide8(Low(crc)) == crc << 8
  {
  }

  lemma TurnDivides(crc: bv16, x: byte)
    ensures Turn(crc, x) == Remainder(crc, OctetBits(x))
  {
    hide Divide8, OctetBits, Remainder, Entry, High, HighOctet;
    EightBits(crc, x);
    Parts(crc, x);
    var index := HighOctet(crc) ^ x;
    Divide8Sum(High(index), Low(crc));
    LowDivides(crc);
    EntryDivides(index);
  }

  /** The table-driven check value is the remainder of the division. */
  method Crc16(size: nat, data: array<byte>, crc: bv16) returns (r: bv16)
    requires size <= data.Length
    ensures r == Check(crc, data[..size])
  {
    hide Turn, OctetBits, Remainder, Bits;
    r := crc;
    EmptyCheck(crc);
    var i := 0;
    while i < size
      invariant 0 <= i <= size && r == Check(crc, data[..i])
    {
      OneMore(crc, data[..i], data[i]);
      assert data[..i] + [data[i]] == data[..i + 1];
      r := Turn(r, data[i]);
      i := i + 1;
    }
  }

  lemma EmptyCheck(crc: bv16)
    ensures Check(crc, []) == crc
  {
  }

  lemma OneMore(crc: bv16, data: seq<byte>, x: byte)
    ensures Check(crc, data + [x]) == Turn(Check(crc, data), x)
  {
    hide Turn, OctetBits;
    CheckChained(crc, data, [x]);
    assert Bits([x]) == OctetBits(x) + Bits([]) == OctetBits(x);
    TurnDivides(Check(crc, data), x);
  }

  lemma TurnsOfHello()
    ensures Turn(0xffff, 0x48) == 0x283c && Turn(0x283c, 0x65) == 0xa569 && Turn(0xa569, 0x6c) == 0x2165
    ensures Turn(0x2165, 0x6c) == 0xfc69 && Turn(0xfc69, 0x6f) == 0xdada && Turn(0xdada, 0x20) == 0x9455
  {
  }

  lemma TurnsOfWorld()
    ensures Turn(0x9455, 0x57) == 0xbc2f && Turn(0xbc2f, 0x6f) == 0xd41e && Turn(0xd41e, 0x72) == 0xcb2c
    ensures Turn(0xcb2c, 0x6c) == 0xe90d && Turn(0xe90d, 0x64) == 0x4d25 && Turn(0x4d25, 0x21) == 0x882a
  {
  }

  lemma OneFurther(s: seq<byte>, i: nat, before: bv16, after: bv16)
    requires i < |s| && Check(0xffff, s[..i]) == before && Turn(before, s[i]) == after
    ensures Check(0xffff, s[..i + 1]) == after
  {
    hide Turn, Check;
    assert s[..i + 1] == s[..i] + [s[i]];
    OneMore(0xffff, s[..i], s[i]);
  }

  /** The check value of "Hello World!" for the initial register 0xffff. */
  lemma HelloWorld()
    ensures Check(0xffff, [0x48, 0x65, 0x6c, 0x6c, 0x6f, 0x20, 0x57, 0x6f, 0x72, 0x6c, 0x64, 0x21]) == 0x882a
  {
    TurnsOfHello();
    TurnsOfWorld();
    hide Turn, Check;
    EmptyCheck(0xffff);
    var s: seq<byte> := [0x48, 0x65, 0x6c, 0x6c, 0x6f, 0x20, 0x57, 0x6f, 0x72, 0x6c, 0x64, 0x21];
    assert s[..0] == [];
    OneFurther(s, 0, 0xffff, 0x283c);
    OneFurther(s, 1, 0x283c, 0xa569);
    OneFurther(s, 2, 0xa569, 0x2165);
    OneFurther(s, 3, 0x2165, 0xfc69);
    OneFurther(s, 4, 0xfc69, 0xdada);
    OneFurther(s, 5, 0xdada, 0x9455);
    OneFurther(s, 6, 0x9455, 0xbc2f);
    OneFurther(s, 7, 0xbc2f, 0xd41e);
    OneFurther(s, 8, 0xd41e, 0xcb2c);
    OneFurther(s, 9, 0xcb2c, 0xe90d);
    OneFurther(s, 10, 0xe90d, 0x4d25);
    OneFurther(s, 11, 0x4d25, 0x882a);
    assert s[..12] == s;
  }
}
