/** Integer helpers: the C# remainder operator and the always-non-negative `Mod` built on it. */
module MathExtensions {

  /** C#'s `x % m`: truncated division, so the remainder takes the sign of `x`. */
  function CRem(x: int, m: int): (r: int)
    requires m != 0
    ensures x >= 0 ==> 0 <= r < Abs(m)
    ensures x < 0 ==> -Abs(m) < r <= 0
    ensures (x - r) % Abs(m) == 0
  {
    var s := Abs(x) % Abs(m);
    CRemBase(Abs(x), Abs(m));
    if x < 0 then -s else s
  }

  function Abs(x: int): (r: int)
    ensures r >= 0 && (r == x || r == -x)
  {
    if x < 0 then -x else x
  }

  /** `(x % m + m) % m` with C#'s remainder. For a positive modulus it is the
      Euclidean residue of `x`, which is what every tick computation relies on. */
  function Mod(x: int, m: int): (r: int)
    requires m != 0
    ensures m > 0 ==> r == x % m
    ensures m > 0 ==> 0 <= r < m
  {
    var inner := CRem(x, m);
    var res := CRem(inner + m, m);
    if m > 0 then
      ModOfCRemPlusModulus(x, m);
      res
    else
      res
  }

  /** The residue of `a` and that of `a - q*m` coincide. */
  lemma ModShift(a: int, m: int, q: int)
    requires m > 0
    ensures (a - m * q) % m == a % m
  {
    var r := a % m;
    var k := a / m;
    assert a == m * k + r;
    assert a - m * q == m * (k - q) + r;
    ModUnique(a - m * q, m, k - q, r);
  }

  /** A decomposition `a == m*q + r` with `0 <= r < m` fixes `a % m`. */
  lemma ModUnique(a: int, m: int, q: int, r: int)
    requires m > 0 && 0 <= r < m && a == m * q + r
    ensures a % m == r && a / m == q
  {
    var q', r' := a / m, a % m;
    assert a == m * q' + r';
    MulDistributes(m, q, q');
    assert m * (q - q') == r' - r;
    if q > q' {
      MulAtLeast(m, q - q');
    } else if q < q' {
      MulDistributes(m, q', q);
      MulAtLeast(m, q' - q);
    }
  }

  lemma MulDistributes(m: int, a: int, b: int)
    ensures m * (a - b) == m * a - m * b
  {
  }

  lemma MulAtLeast(m: int, k: int)
    requires m > 0 && k >= 1
    ensures m * k >= m
  {
    assert m * k == m + m * (k - 1);
  }

  lemma CRemBase(x: int, m: int)
    requires x >= 0 && m > 0
    ensures 0 <= x % m < m
    ensures (x - x % m) % m == 0
    ensures (-x + x % m) % m == 0
  {
    var q := x / m;
    assert x - x % m == m * q;
    ModUnique(m * q, m, q, 0);
    assert -x + x % m == m * (-q);
    ModUnique(m * (-q), m, -q, 0);
  }

  lemma ModOfCRemPlusModulus(x: int, m: int)
    requires m > 0
    ensures CRem(CRem(x, m) + m, m) == x % m
  {
    var inner := CRem(x, m);
    assert 0 < inner + m < 2 * m;
    // x and inner differ by a multiple of m, and so do x and inner + m
    var d := (x - inner) / m;
    assert x - inner == m * d;
    var e, r := (inner + m) / m, (inner + m) % m;
    assert inner + m == m * e + r;
    assert x == m * (d + e - 1) + r;
    ModUnique(x, m, d + e - 1, r);
  }

  lemma ModInRange(x: int, m: int)
    requires m > 0
    ensures 0 <= Mod(x, m) < m
  {
  }

  /** `Mod(x, m) - x` is a multiple of `m`. */
  lemma ModCongruent(x: int, m: int)
    requires m > 0
    ensures (Mod(x, m) - x) % m == 0
  {
    var q := x / m;
    assert Mod(x, m) - x == m * (-q);
    ModUnique(m * (-q), m, -q, 0);
  }

  lemma ModIdentity(x: int, m: int)
    requires 0 <= x < m
    ensures Mod(x, m) == x
  {
    ModUnique(x, m, 0, x);
  }

  lemma ModIdempotent(x: int, m: int)
    requires m > 0
    ensures Mod(Mod(x, m), m) == Mod(x, m)
  {
    ModIdentity(Mod(x, m), m);
  }
}
