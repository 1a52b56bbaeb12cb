/** The 32 bit millisecond clock: registers hold the time modulo 2^32, differences are signed. */
module SystemTime {

  const WRAP: int := 0x1_0000_0000
  const HALF: int := 0x8000_0000

  function Register(time: int): (r: int)
    ensures 0 <= r < WRAP
  {
    time % WRAP
  }

  /** The difference of two registers as a signed 32 bit number. */
  function Diff(a: int, b: int): (d: int)
    ensures -HALF <= d < HALF
  {
    var d := (a - b) % WRAP;
    if d < HALF then d else d - WRAP
  }

  /** Over less than 2^31 ms the registers measure the true time. */
  lemma DiffIsElapsed(a: int, b: int)
    requires -HALF <= a - b < HALF
    ensures Diff(Register(a), Register(b)) == a - b
    ensures Diff(Register(a), b) == a - b && Diff(a, Register(b)) == a - b
  {
    var x, y := Register(a), Register(b);
    var k := (b / WRAP) - (a / WRAP);
    assert x - y == a - b + WRAP * k;
    Periodic(a - b, k);
    Periodic(a - b, -(a / WRAP));
    Periodic(a - b, b / WRAP);
  }

  lemma Periodic(d: int, k: int)
    ensures (d + WRAP * k) % WRAP == d % WRAP
  {
    assert d == WRAP * (d / WRAP) + d % WRAP;
    assert d + WRAP * k == WRAP * (d / WRAP + k) + d % WRAP;
  }
}
