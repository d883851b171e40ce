/** Go's integer arithmetic and instants, as the agent uses them.

    An instant is a number of nanoseconds since the Unix epoch; int64 wrap-around is written
    out only where a timestamp is taken apart and put together again. */
module GoTime {
  const SECOND: int := 1_000_000_000
  const TWO_63: int := 0x8000_0000_0000_0000
  const TWO_64: int := 0x1_0000_0000_0000_0000

  predicate IsInt64(x: int) {
    -TWO_63 <= x < TWO_63
  }

  /** The int64 that keeps the low 64 bits of x. */
  function Wrap64(x: int): int {
    (x + TWO_63) % TWO_64 - TWO_63
  }

  /** Go's `/` truncates toward zero. */
  function TruncDiv(a: int, b: int): int
    requires b != 0
  {
    if a >= 0 then a / b else -((-a) / b)
  }

  /** Go's `%` takes the sign of the dividend. */
  function TruncMod(a: int, b: int): int
    requires b != 0
  {
    a - b * TruncDiv(a, b)
  }

  function Min(a: int, b: int): int {
    if a < b then a else b
  }

  function Max(a: int, b: int): int {
    if a < b then b else a
  }

  /** A time.Time: whole seconds since the epoch and the nanoseconds past them. */
  datatype Time = Time(sec: int, nsec: int)

  /** time.Unix brings nsec into [0, 1e9). */
  function Unix(sec: int, nsec: int): Time {
    if nsec < 0 || nsec >= SECOND then
      var n := TruncDiv(nsec, SECOND);
      var sec', nsec' := sec + n, nsec - n * SECOND;
      if nsec' < 0 then Time(sec' - 1, nsec' + SECOND) else Time(sec', nsec')
    else
      Time(sec, nsec)
  }

  /** Time.UnixNano in int64: both the product and the sum may wrap. */
  function UnixNano(t: Time): int {
    Wrap64(Wrap64(t.sec * SECOND) + t.nsec)
  }

  function UnixNano2Time(tstamp: int): Time {
    Unix(TruncDiv(tstamp, SECOND), TruncMod(tstamp, SECOND))
  }

  /** Time.Unix of an instant: the second it lies in, rounded down. */
  function UnixSec(ns: int): int {
    ns / SECOND
  }

  lemma WrapIsPeriodic(x: int, k: int)
    ensures Wrap64(x + k * TWO_64) == Wrap64(x)
  {
    assert (x + k * TWO_64 + TWO_63) % TWO_64 == (x + TWO_63) % TWO_64 by {
      ModPeriod(x + TWO_63, k, TWO_64);
    }
  }

  lemma ModPeriod(x: int, k: int, m: int)
    requires m > 0
    ensures (x + k * m) % m == x % m
  {
    var q, r := x / m, x % m;
    assert x == q * m + r;
    assert x + k * m == (q + k) * m + r by { assert (q + k) * m == q * m + k * m; }
    DivModUnique(x + k * m, m, q + k, r);
  }

  lemma DivModUnique(x: int, m: int, q: int, r: int)
    requires m > 0 && 0 <= r < m && x == q * m + r
    ensures x / m == q && x % m == r
  {
    var q', r' := x / m, x % m;
    assert (q' - q) * m == r - r';
    if q' != q {
      MulGe(if q' > q then q' - q else q - q', m);
    }
  }

  lemma MulGe(a: int, m: int)
    requires a >= 1 && m >= 0
    ensures a * m >= m
  {
    assert a * m == m + (a - 1) * m;
    assert (a - 1) * m >= 0;
  }

  /** Adding before wrapping or wrapping before adding makes no difference. */
  lemma WrapAdd(x: int, y: int)
    ensures Wrap64(Wrap64(x) + y) == Wrap64(x + y)
  {
    var k := (x + TWO_63) / TWO_64;
    assert Wrap64(x) == x - k * TWO_64;
    assert Wrap64(x) + y == (x + y) + (-k) * TWO_64;
    WrapIsPeriodic(x + y, -k);
  }

  /** Reading a timestamp and writing it again keeps the instant, for every int64,
      the negative ones included. */
  lemma TimestampRoundTrip(t: int)
    requires IsInt64(t)
    ensures var u := UnixNano2Time(t);
            0 <= u.nsec < SECOND && u.sec * SECOND + u.nsec == t && u.sec == UnixSec(t)
    ensures UnixNano(UnixNano2Time(t)) == t
  {
    var u := UnixNano2Time(t);
    assert 0 <= u.nsec < SECOND && u.sec * SECOND + u.nsec == t;
    WrapAdd(u.sec * SECOND, u.nsec);
  }
}
