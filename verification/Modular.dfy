/** Congruences, with the modulus as a variable. */
module Modular {
  import opened Bytes

  ghost predicate Cong(a: int, b: int, m: int)
    requires m > 0
  {
    a % m == b % m
  }

  lemma ModUnique(a: int, m: int, q: int, r: int)
    requires 0 <= r < m && a == m * q + r
    ensures a % m == r && a / m == q
  {
    var d := q - a / m;
    assert m * d == a % m - r by {
      assert m * (a / m) + a % m == m * q + r;
      assert m * d == m * q - m * (a / m);
    }
    assert d >= 1 ==> m * d >= m;
    assert d <= -1 ==> m * d <= -m;
  }

  lemma ModShift(a: int, t: int, m: int)
    requires m > 0
    ensures Cong(a + m * t, a, m)
  {
    var q := a / m + t;
    assert a + m * t == m * q + a % m by {
      assert m * q == m * (a / m) + m * t;
    }
    ModUnique(a + m * t, m, q, a % m);
  }

  lemma CongMul(a: int, b: int, c: int, m: int)
    requires m > 0 && Cong(a, b, m)
    ensures Cong(a * c, b * c, m)
  {
    var qa, qb, r := a / m, b / m, a % m;
    ModShift(b * c, (qa - qb) * c, m);
    calc {
      a * c;
      (b + m * (qa - qb)) * c;
      b * c + m * (qa - qb) * c;
      b * c + m * ((qa - qb) * c);
    }
  }

  /** Reducing by a multiple of m first does not change the residue mod m. */
  lemma ModMod(a: int, m: int, n: int)
    requires m > 0 && n > 0
    ensures m * n > 0 && Cong(a % (m * n), a, m)
  {
    var q, r := a / (m * n), a % (m * n);
    assert a == r + m * (n * q) by {
      assert (m * n) * q == m * (n * q);
    }
    ModShift(r, n * q, m);
  }

  lemma {:induction false} PowPositive(b: nat, n: nat)
    requires b > 0
    ensures Pow(b, n) > 0
  {
    if n > 0 {
      PowPositive(b, n - 1);
    }
  }

  lemma {:induction false} PowSplit(b: nat, m: nat, n: nat)
    ensures Pow(b, m + n) == Pow(b, m) * Pow(b, n)
  {
    if m > 0 {
      PowSplit(b, m - 1, n);
      assert m + n - 1 == m - 1 + n;
      MulAssoc(b, Pow(b, m - 1), Pow(b, n));
    }
  }

  lemma MulAssoc(a: int, b: int, c: int)
    ensures a * (b * c) == (a * b) * c
  {
  }

  lemma TwoTo32()
    ensures Pow(2, 32) == 0x1_0000_0000
  {
    PowSplit(2, 16, 16);
    PowSplit(2, 8, 8);
    assert Pow(2, 8) == 256;
  }

  /** A residue mod 2^k of a 32-bit value survives reduction mod 2^32. */
  lemma Mod32(a: int, k: nat)
    requires k <= 32
    ensures Pow(2, k) > 0 && Cong(a % 0x1_0000_0000, a, Pow(2, k))
  {
    PowPositive(2, k);
    PowPositive(2, 32 - k);
    PowSplit(2, k, 32 - k);
    TwoTo32();
    ModMod(a, Pow(2, k), Pow(2, 32 - k));
  }
}
