/** Millisecond clocks: the 32-bit wrapping clock of the C sources and the unbounded clock it stands for. */
module Clock {
  const U32: int := 0x1_0000_0000
  const HALF: int := 0x8000_0000

  type u32 = x: int | 0 <= x < 0x1_0000_0000

  datatype Clock = Wrapping | Unbounded

  /** A reading or a timer value as this clock stores it. */
  function Store(c: Clock, t: int): int {
    if c.Wrapping? then t % U32 else t
  }

  /** `t + ms` in the arithmetic of this clock. */
  function Plus(c: Clock, t: int, ms: int): int {
    Store(c, t + ms)
  }

  /** Is `a` after `b`? */
  predicate After(c: Clock, a: int, b: int) {
    if c.Wrapping? then TimeAfter(a, b) else a > b
  }

  /** Conversion to int32_t. */
  function ToInt32(x: int): (r: int)
    ensures -HALF <= r < HALF
  {
    var w := x % U32;
    if w >= HALF then w - U32 else w
  }

  /** UDSTimeAfter and the macro IsoTpTimeAfter. */
  predicate TimeAfter(a: int, b: int) {
    ToInt32(ToInt32(b) - ToInt32(a)) < 0
  }

  /** The readings are less than half a clock period apart. */
  predicate Near(a: int, b: int) {
    -HALF < a - b < HALF
  }

  lemma ModUnique(x: int, q: int, r: int)
    requires x == q * U32 + r && 0 <= r < U32
    ensures x % U32 == r
  {
    assert (x - r) == q * U32;
    assert x / U32 == q;
  }

  /** The C comparison depends only on the distance of the two readings, for every pair of readings. */
  lemma TimeAfterDistance(a: int, b: int)
    ensures TimeAfter(a % U32, b % U32) <==> 1 <= (a - b) % U32 <= HALF
  {
    var d := (a - b) % U32;
    var diff := ToInt32(b % U32) - ToInt32(a % U32);
    var k := Congruent(a, b, diff);
    if d == 0 {
      ModUnique(diff, k, 0);
    } else {
      ModUnique(diff, k - 1, U32 - d);
    }
  }

  /** Conversions to int32_t do not change the distance of two readings modulo 2^32. */
  lemma Congruent(a: int, b: int, diff: int) returns (k: int)
    requires diff == ToInt32(b % U32) - ToInt32(a % U32)
    ensures diff == k * U32 - (a - b) % U32
  {
    var x, y := a % U32, b % U32;
    ModUnique(x, 0, x);
    ModUnique(y, 0, y);
    var ci := if x >= HALF then 1 else 0;
    var cj := if y >= HALF then 1 else 0;
    k := a / U32 - b / U32 - (a - b) / U32 - cj + ci;
  }

  /** Less than half a period apart, the wrapping comparison is the true one. */
  lemma TimeAfterIsAfter(a: int, b: int)
    requires Near(a, b)
    ensures TimeAfter(a % U32, b % U32) <==> a > b
  {
    TimeAfterDistance(a, b);
    if a >= b {
      ModUnique(a - b, 0, a - b);
    } else {
      ModUnique(a - b, -1, a - b + U32);
    }
  }

  /** The bound is the best one: half a period apart or more, some pair is compared the wrong way round. */
  lemma HalfPeriodIsTooFar()
    ensures TimeAfter(0 % U32, HALF % U32) && TimeAfter(HALF % U32, 0 % U32)
  {
  }

  /** Storing before an addition changes nothing: (t mod 2^32 + ms) mod 2^32 is (t + ms) mod 2^32. */
  lemma StorePlus(t: int, ms: int)
    ensures Plus(Wrapping, Store(Wrapping, t), ms) == Store(Wrapping, Plus(Unbounded, t, ms))
  {
    var r := (t + ms) % U32;
    var q := (t + ms) / U32;
    ModUnique(t % U32 + ms, q - t / U32, r);
  }
}
