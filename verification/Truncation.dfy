/** Rounding of instants to multiples of a tick (common/timingwheel/utils.go). */
module Truncation {

  /** The `%` of the source rounds the quotient toward zero, so the remainder has the sign of `x`. */
  function Rem(x: int, m: int): (r: int)
    requires m > 0
    ensures -m < r < m
  {
    if x >= 0 then x % m else -((-x) % m)
  }

  function Truncate(x: int, m: int): int {
    if m <= 0 then x else x - Rem(x, m)
  }

  predicate Divides(m: int, x: int)
    requires m > 0
  {
    x % m == 0
  }

  lemma MultipleMod(q: int, m: int)
    requires m > 0
    ensures (q * m) % m == 0 && (q * m) / m == q
  {
    ModUnique(q * m, q, 0, m);
  }

  /** Euclidean division is characterised by its quotient and remainder. */
  lemma ModUnique(x: int, q: int, r: int, m: int)
    requires m > 0 && x == q * m + r && 0 <= r < m
    ensures x / m == q && x % m == r
  {
    var q', r' := x / m, x % m;
    assert x == q' * m + r';
    assert (q - q') * m == r' - r;
    NoSmallMultiple(q - q', m);
  }

  lemma NoSmallMultiple(k: int, m: int)
    requires m > 0 && -m < k * m < m
    ensures k == 0
  {
    if k >= 1 { MulMono(1, k, m); }
    if k <= -1 { MulMono(k, -1, m); }
  }

  lemma MulMono(a: int, b: int, m: int)
    requires a <= b && m >= 0
    ensures a * m <= b * m
  {}

  /** For instants, truncation is the greatest multiple of the tick not above `x`. */
  lemma TruncateFloor(x: int, m: int)
    requires x >= 0 && m > 0
    ensures 0 <= Truncate(x, m) <= x < Truncate(x, m) + m
    ensures Divides(m, Truncate(x, m))
    ensures Truncate(x, m) == (x / m) * m
  {
    var q := x / m;
    DivMod(x, m);
    MultipleMod(q, m);
    if q < 0 { MulMono(q, -1, m); }
    MulMono(0, q, m);
  }

  /** Before the epoch it rounds up, toward zero; without a tick it leaves the instant as it is. */
  lemma TruncateToZero(x: int, m: int)
    ensures m <= 0 ==> Truncate(x, m) == x
    ensures x < 0 < m ==> x <= Truncate(x, m) < x + m && Truncate(x, m) <= 0 && Divides(m, Truncate(x, m))
  {
    if x < 0 < m {
      TruncateFloor(-x, m);
      MultipleMod(-((-x) / m), m);
    }
  }

  lemma DivMod(x: int, m: int)
    requires m > 0
    ensures x == (x / m) * m + x % m
  {}

  lemma TruncateUnique(x: int, m: int, y: int)
    requires m > 0 && 0 <= y <= x < y + m && Divides(m, y)
    ensures Truncate(x, m) == y
  {
    assert y == (y / m) * m;
    ModUnique(x, y / m, x - y, m);
  }

  /** Two multiples of m closer than m are equal. */
  lemma MultiplesApart(x: int, y: int, m: int)
    requires m > 0 && Divides(m, x) && Divides(m, y) && x < y
    ensures x + m <= y
  {
    var a, b := x / m, y / m;
    assert x == a * m && y == b * m;
    if b <= a { MulMono(b, a, m); }
    MulMono(a + 1, b, m);
    assert (a + 1) * m == a * m + m;
  }

  /** A multiple of a*b is a multiple of a. */
  lemma DividesFactor(a: int, b: int, x: int)
    requires a > 0 && b > 0 && a * b > 0 && Divides(a * b, x)
    ensures Divides(a, x)
  {
    var q := x / (a * b);
    assert x == q * (a * b);
    assert q * (a * b) == (q * b) * a;
    MultipleMod(q * b, a);
  }

  /** Truncating to a fine tick first does not change truncation to a coarse one. */
  lemma TruncateNested(x: int, fine: int, n: int)
    requires x >= 0 && fine > 0 && n > 0
    ensures fine * n > 0
    ensures Truncate(Truncate(x, fine), fine * n) == Truncate(x, fine * n)
    ensures Truncate(x, fine * n) <= Truncate(x, fine)
  {
    MulMono(1, n, fine);
    var coarse := fine * n;
    TruncateFloor(x, fine);
    TruncateFloor(x, coarse);
    var f, c := Truncate(x, fine), Truncate(x, coarse);
    DividesFactor(fine, n, c);
    if f < c {
      MultiplesApart(f, c, fine);
    }
    TruncateUnique(f, coarse, c);
  }

  /** An instant lies before the end of the slot starting at `c` iff its truncation is at most `c`. */
  lemma DueIff(x: int, m: int, c: int)
    requires m > 0 && c >= 0 && Divides(m, c)
    ensures x < c + m <==> Truncate(x, m) <= c
  {
    if x >= 0 {
      TruncateFloor(x, m);
      if Truncate(x, m) > c { MultiplesApart(c, Truncate(x, m), m); }
    } else {
      assert (-x) % m <= -x;
    }
  }

  /** Two slots within reach of one clock that share a bucket are the same slot: no bucket mixes timers of different slots. */
  lemma TruncateSlot(base: int, size: int, ct: int, x: int, y: int)
    requires base > 0 && size > 0
    requires ct >= 0 && ct <= x * base < ct + base * size && ct <= y * base < ct + base * size
    requires x % size == y % size
    ensures x == y
  {
    var d := x - y;
    assert d * base == x * base - y * base;
    ModDifference(x, y, size);
    var k := d / size;
    assert d == k * size;
    assert d * base == k * (base * size);
    MulMono(1, size, base);
    NoSmallMultiple(k, base * size);
  }

  lemma ModDifference(x: int, y: int, m: int)
    requires m > 0 && x % m == y % m
    ensures (x - y) % m == 0
  {
    var q := x / m - y / m;
    assert x == (x / m) * m + x % m && y == (y / m) * m + y % m;
    assert x - y == q * m;
    MultipleMod(q, m);
  }
}
