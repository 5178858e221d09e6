/** Machine integers as bounded mathematical ones. */
module Words {
  const U32_MAX: nat := 0xffff_ffff
  const U64_MAX: nat := 0xffff_ffff_ffff_ffff
  const I64_MAX: int := 0x7fff_ffff_ffff_ffff

  type i64 = x: int | -0x8000_0000_0000_0000 <= x <= 0x7fff_ffff_ffff_ffff

  type byte = x: int | 0 <= x < 256

  type Bytes = seq<byte>

  /** Dividing twice is dividing by the product. */
  lemma DivideTwice(x: nat, m: nat, p: nat)
    requires m > 0 && p > 0
    ensures m * p > 0 && x / m / p == x / (m * p)
  {
    var a := x / m;
    var d := m * p;
    AtLeast(m, p);
    QuotientTwice(x, m, p, d, a, a / p, a % p);
  }

  lemma QuotientTwice(x: nat, m: nat, p: nat, d: nat, a: nat, q: nat, s: nat)
    requires m > 0 && d == m * p && d > 0 && a == x / m && a == p * q + s && s < p
    ensures x / d == q
  {
    TwoRests(x, m, p, q, s);
    QuotientIs(x, d, q, m * s + x % m);
  }

  lemma TwoRests(x: nat, m: nat, p: nat, q: nat, s: nat)
    requires m > 0 && x / m == p * q + s && s < p
    ensures x == (m * p) * q + (m * s + x % m) && m * s + x % m < m * p
  {
    var a := x / m;
    assert x == m * a + x % m;
    DistributeLeft(m, p * q, s);
    assert m * (p * q) == (m * p) * q;
    DistributeLeft(m, s, p - s);
    AtLeast(m, p - s);
  }

  lemma DistributeLeft(x: int, a: int, b: int)
    ensures x * (a + b) == x * a + x * b
  {
  }

  lemma QuotientIs(x: nat, d: nat, q: nat, rest: nat)
    requires d > 0 && x == d * q + rest && rest < d
    ensures x / d == q
  {
    var r := x / d;
    assert x == d * r + x % d;
    if r > q {
      DistributeLeft(d, q, r - q);
      AtLeast(d, r - q);
    } else if r < q {
      DistributeLeft(d, r, q - r);
      AtLeast(d, q - r);
    }
  }

  lemma AtLeast(d: nat, t: nat)
    requires t > 0
    ensures d * t >= d
  {
    assert d * t == d * (t - 1) + d;
    assert d * (t - 1) >= 0;
  }
}
