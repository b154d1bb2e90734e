/** Powers of two and remainders. */
module Numbers {

  function Pow2(n: nat): (p: nat)
    ensures p > 0
  {
    if n == 0 then 1 else 2 * Pow2(n - 1)
  }

  lemma {:induction false} Pow2Splits(m: nat, n: nat)
    ensures Pow2(m + n) == Pow2(m) * Pow2(n)
  {
    if m > 0 { Pow2Splits(m - 1, n); }
  }

  function Min(a: int, b: int): int {
    if a < b then a else b
  }

  lemma SmallMultiple(m: int, d: int)
    requires m > 0 && -m < m * d < m
    ensures d == 0
  {}

  /** Quotient and remainder are unique. */
  lemma ModUnique(x: int, m: int, q: int, r: int)
    requires m > 0 && x == m * q + r && 0 <= r < m
    ensures x % m == r && x / m == q
  {
    var d := x / m - q;
    assert x == m * (x / m) + x % m;
    assert m * d == r - x % m;
    SmallMultiple(m, d);
  }

  lemma ModShift(x: int, m: int, k: int)
    requires m > 0
    ensures (x + m * k) % m == x % m
  {
    assert x == m * (x / m) + x % m;
    ModUnique(x + m * k, m, x / m + k, x % m);
  }

  lemma ModAdd(x: int, y: int, m: int)
    requires m > 0
    ensures (x % m + y) % m == (x + y) % m
  {
    assert x + y == x % m + y + m * (x / m);
    ModShift(x % m + y, m, x / m);
  }

  /** A remainder modulo a multiple of m has the same remainder modulo m. */
  lemma ModMod(x: int, m: int, c: int)
    requires m > 0 && c > 0
    ensures m * c > 0 && (x % (m * c)) % m == x % m
  {
    var big := m * c;
    assert big > 0;
    var q := x / big;
    assert x == big * q + x % big;
    assert big * q == m * (c * q);
    ModShift(x % big, m, c * q);
  }

  /** Numbers less than m apart have different remainders. */
  lemma ModDistinct(i: int, j: int, m: int)
    requires m > 0 && i < j < i + m
    ensures i % m != j % m
  {
    assert i == m * (i / m) + i % m && j == m * (j / m) + j % m;
    var d := j / m - i / m;
    assert m * d == j - i + i % m - j % m;
    if d == 0 { assert m * d == 0; }
    if d == 1 { assert m * d == m; }
  }

  lemma ModHalf(x: nat, m: nat)
    requires m > 0
    ensures x % (2 * m) == 2 * ((x / 2) % m) + x % 2
  {
    var q, e := (x / 2) / m, (x / 2) % m;
    assert x / 2 == m * q + e;
    assert 2 * (m * q) == (2 * m) * q;
    ModUnique(x, 2 * m, q, 2 * e + x % 2);
  }

  /** A C int, 32-bit two's complement. */
  function Int32(x: int): (r: int)
    ensures -0x8000_0000 <= r <= 0x7FFF_FFFF
    ensures -0x8000_0000 <= x <= 0x7FFF_FFFF ==> r == x
  {
    (x + 0x8000_0000) % 0x1_0000_0000 - 0x8000_0000
  }

  /** C division, which truncates toward zero. */
  function Quotient(a: int, b: int): int
    requires b != 0
  {
    if a >= 0 then (if b > 0 then a / b else -(a / -b))
    else if b > 0 then -(-a / b) else -a / -b
  }
}
