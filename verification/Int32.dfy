/** The 32-bit `int` of the compiled language: wrap-around, and division that
    truncates toward zero as C and the JVM's `idiv`/`irem` do. */
module Int32 {

  const MIN := -0x8000_0000
  const MAX := 0x7fff_ffff

  predicate Fits(n: int) {
    MIN <= n <= MAX
  }

  /** The low 32 bits of `n`, read as a two's complement number. */
  function Wrap(n: int): (r: int)
    ensures Fits(r)
    ensures Fits(n) ==> r == n
  {
    (n + 0x8000_0000) % 0x1_0000_0000 - 0x8000_0000
  }

  function Abs(n: int): nat {
    if n < 0 then -n else n
  }

  function TruncDiv(a: int, b: int): int
    requires b != 0
  {
    var q := Abs(a) / Abs(b);
    if (a < 0) == (b < 0) then q else -q
  }

  function TruncRem(a: int, b: int): int
    requires b != 0
  {
    a - b * TruncDiv(a, b)
  }

  /** `n` and `Wrap(n)` differ by a multiple of 2^32 ... */
  lemma WrapCongruent(n: int) returns (q: int)
    ensures n == Wrap(n) + q * 0x1_0000_0000
  {
    q := (n + 0x8000_0000) / 0x1_0000_0000;
  }

  /** ... and numbers that differ by a multiple of 2^32 wrap to the same value. */
  lemma WrapShift(n: int, q: int)
    ensures Wrap(n + q * 0x1_0000_0000) == Wrap(n)
  {
    var a := (n + q * 0x1_0000_0000 + 0x8000_0000) % 0x1_0000_0000;
    var b := (n + 0x8000_0000) % 0x1_0000_0000;
    var qa := (n + q * 0x1_0000_0000 + 0x8000_0000) / 0x1_0000_0000;
    var qb := (n + 0x8000_0000) / 0x1_0000_0000;
    assert a - b == (q + qb - qa) * 0x1_0000_0000;
  }

  lemma Expand(x: int, y: int, p: int, q: int, m: int)
    ensures (x + p * m) * (y + q * m) == x * y + (x * q + p * y + p * q * m) * m
  {
    calc {
      (x + p * m) * (y + q * m);
    ==
      x * (y + q * m) + (p * m) * (y + q * m);
    ==
      x * y + x * (q * m) + (p * m) * y + (p * m) * (q * m);
    ==
      x * y + (x * q + p * y + p * q * m) * m;
    }
  }

  /** Wrapping may be postponed past `+`, `-` and `*`. */
  lemma WrapSum(a: int, b: int)
    ensures Wrap(Wrap(a) + Wrap(b)) == Wrap(a + b)
    ensures Wrap(Wrap(a) - Wrap(b)) == Wrap(a - b)
  {
    var p := WrapCongruent(a);
    var q := WrapCongruent(b);
    WrapShift(Wrap(a) + Wrap(b), p + q);
    WrapShift(Wrap(a) - Wrap(b), p - q);
  }

  lemma WrapProduct(a: int, b: int)
    ensures Wrap(Wrap(a) * Wrap(b)) == Wrap(a * b)
  {
    var p := WrapCongruent(a);
    var q := WrapCongruent(b);
    Expand(Wrap(a), Wrap(b), p, q, 0x1_0000_0000);
    WrapShift(Wrap(a) * Wrap(b), Wrap(a) * q + p * Wrap(b) + p * q * 0x1_0000_0000);
  }

  lemma {:induction false} ProductGrows(b: nat, k: nat)
    requires b > 0
    ensures b * k >= k
  {
    if k > 0 {
      ProductGrows(b, k - 1);
      assert b * k == b * (k - 1) + b;
    }
  }

  lemma DivBound(n: nat, b: nat)
    requires b > 0
    ensures 0 <= n / b <= n
  {
    var q, r := n / b, n % b;
    assert q >= 0;
    ProductGrows(b, q);
    assert n == b * q + r;
  }

  /** A quotient is no larger than its dividend. */
  lemma QuotientBound(a: int, b: int)
    requires b != 0
    ensures a >= 0 ==> -a <= TruncDiv(a, b) <= a
    ensures a < 0 ==> a <= TruncDiv(a, b) <= -a
  {
    DivBound(Abs(a), Abs(b));
  }

  lemma SmallMultiple(k: int, b: nat)
    ensures 0 - b < k * b < b ==> k == 0
  {
    if k >= 1 {
      ProductGrows(k, b);
    } else if k <= -1 {
      ProductGrows(-k, b);
      assert (-k) * b == -(k * b);
    }
  }

  lemma DivUnique(n: nat, b: nat, q: nat, r: nat)
    requires b > 0 && r < b && n == q * b + r
    ensures n / b == q && n % b == r
  {
    var k := n / b - q;
    assert n == (n / b) * b + n % b;
    assert k * b == r - n % b;
    SmallMultiple(k, b);
  }

  // ----- wide dividends -----

  lemma SameWrap(x: int, y: int)
    ensures Wrap(x) == Wrap(y) <==> (x - y) % 0x1_0000_0000 == 0
  {
    var p := WrapCongruent(x);
    var q := WrapCongruent(y);
    assert x - y == Wrap(x) - Wrap(y) + (p - q) * 0x1_0000_0000;
  }

  /** How often 2^32 is in what wrapping takes away. */
  function Excess(n: int): (m: int)
    ensures n == Wrap(n) + m * 0x1_0000_0000
  {
    (n - Wrap(n)) / 0x1_0000_0000
  }

  /** When a dividend may be wrapped before it is divided instead of afterwards. */
  predicate DividesAlike(a: int, b: int)
    requires b != 0
  {
    && Excess(a) % Abs(b) == 0
    && ((a < 0) == (Wrap(a) < 0) || Abs(Wrap(a)) % Abs(b) == 0)
  }

  /** The truncated quotient has the sign of the quotient, the remainder that of the dividend. */
  lemma TruncatedSigns(a: int, b: int)
    requires b != 0
    ensures var q: int, r: int := Abs(a) / Abs(b), Abs(a) % Abs(b);
            && TruncDiv(a, b) == (if (a < 0) == (b < 0) then q else -q)
            && TruncRem(a, b) == (if a < 0 then -r else r)
  {
    var n, d := Abs(a), Abs(b);
    var q: int := n / d;
    assert n == d * q + n % d;
    if (a < 0) == (b < 0) {
      assert b * q == if b < 0 then -(d * q) else d * q;
    } else {
      assert b * -q == if b < 0 then d * q else -(d * q);
    }
  }

  lemma Multiple(d: nat, j: int)
    requires d > 0
    ensures (d * j) % d == 0
  {
    if j >= 0 {
      DivUnique(d * j, d, j, 0);
    } else {
      assert d * j == -(d * -j);
      DivUnique(d * -j, d, -j, 0);
      var q, r := (d * j) / d, (d * j) % d;
      assert d * j == d * q + r;
      assert (j - q) * d == r;
      SmallMultiple(j - q, d);
    }
  }

  /** The quotients agree modulo 2^32 only if their difference is a multiple
      `b * k` of the excess, and then the remainders are the same. */
  lemma AlikeIfEqual(a: int, b: int, k: int)
    requires b != 0 && Fits(b) && TruncDiv(a, b) - TruncDiv(Wrap(a), b) == k * 0x1_0000_0000
    ensures Excess(a) == b * k && TruncRem(a, b) == TruncRem(Wrap(a), b)
  {
    var w, m := Wrap(a), Excess(a);
    TruncatedSigns(a, b);
    TruncatedSigns(w, b);
    var qa, qw := TruncDiv(a, b), TruncDiv(w, b);
    var ra, rw := TruncRem(a, b), TruncRem(w, b);
    hide TruncDiv, TruncRem, Wrap, Excess;
    assert a == b * qa + ra && w == b * qw + rw by { Parts(a, b); Parts(w, b); }
    assert b * qa - b * qw == b * (k * 0x1_0000_0000) by { Factor(b, qa, qw); }
    assert b * (k * 0x1_0000_0000) == (b * k) * 0x1_0000_0000 by { Regroup(b, k); }
    SmallMultiple(m - b * k, 0x1_0000_0000);
  }

  lemma Parts(a: int, b: int)
    requires b != 0
    ensures a == b * TruncDiv(a, b) + TruncRem(a, b)
  {
  }

  lemma Factor(b: int, x: int, y: int)
    ensures b * x - b * y == b * (x - y)
  {
  }

  lemma Regroup(b: int, k: int)
    ensures b * (k * 0x1_0000_0000) == (b * k) * 0x1_0000_0000
  {
  }

  /** If the divisor divides the excess, the quotients differ by the exact multiple. */
  lemma EqualIfAlike(a: int, b: int, k: int)
    requires b != 0 && Excess(a) == b * k
    requires (a < 0) == (Wrap(a) < 0) || TruncRem(Wrap(a), b) == 0
    ensures TruncDiv(a, b) - TruncDiv(Wrap(a), b) == k * 0x1_0000_0000
  {
    var w := Wrap(a);
    TruncatedSigns(a, b);
    TruncatedSigns(w, b);
    Parts(a, b);
    Parts(w, b);
    Regroup(b, k);
    hide TruncDiv, TruncRem, Wrap, Excess;
    QuotientsApart(b, TruncDiv(a, b), TruncRem(a, b), TruncDiv(w, b), TruncRem(w, b), k * 0x1_0000_0000);
  }

  lemma QuotientsApart(b: int, qa: int, ra: int, qw: int, rw: int, c: int)
    requires b != 0 && (b * qa + ra) - (b * qw + rw) == b * c
    requires Abs(rw - ra) < Abs(b)
    ensures qa - qw == c
  {
    var j := qa - qw - c;
    Factor(b, qa, qw);
    Factor(b, qa - qw, c);
    assert j * Abs(b) == if b < 0 then -(b * j) else b * j;
    SmallMultiple(j, Abs(b));
  }

  lemma DivisibleBy(b: int, m: int) returns (k: int)
    requires b != 0 && m % Abs(b) == 0
    ensures m == b * k
  {
    var q := m / Abs(b);
    assert m == Abs(b) * q;
    k := if b < 0 then -q else q;
  }

  lemma AlikeOnlyIf(a: int, b: int)
    requires b != 0 && Fits(b) && Wrap(TruncDiv(a, b)) == Wrap(TruncDiv(Wrap(a), b))
    ensures DividesAlike(a, b)
  {
    var w := Wrap(a);
    var x, y := TruncDiv(a, b), TruncDiv(w, b);
    SameWrap(x, y);
    TruncatedSigns(a, b);
    TruncatedSigns(w, b);
    hide TruncDiv, TruncRem, Wrap, Excess;
    var k := (x - y) / 0x1_0000_0000;
    AlikeIfEqual(a, b, k);
    SignedMultiple(b, k);
  }

  lemma AlikeIf(a: int, b: int)
    requires b != 0 && DividesAlike(a, b)
    ensures Wrap(TruncDiv(a, b)) == Wrap(TruncDiv(Wrap(a), b))
  {
    var k := DivisibleBy(b, Excess(a));
    TruncatedSigns(Wrap(a), b);
    hide TruncDiv, TruncRem, Wrap, Excess;
    EqualIfAlike(a, b, k);
    WrapShift(TruncDiv(Wrap(a), b), k);
  }

  /** Dividing in 64 bits and narrowing is dividing the narrowed dividend, if
      and only if the two are alike. */
  lemma DivisionNarrows(a: int, b: int)
    requires b != 0 && Fits(b)
    ensures Wrap(TruncDiv(a, b)) == Wrap(TruncDiv(Wrap(a), b)) <==> DividesAlike(a, b)
  {
    hide *;
    if Wrap(TruncDiv(a, b)) == Wrap(TruncDiv(Wrap(a), b)) {
      AlikeOnlyIf(a, b);
    }
    if DividesAlike(a, b) {
      AlikeIf(a, b);
    }
  }

  lemma SignedMultiple(b: int, k: int)
    requires b != 0
    ensures (b * k) % Abs(b) == 0
  {
    var j := if b < 0 then -k else k;
    assert b * k == Abs(b) * j;
    Multiple(Abs(b), j);
  }
}
