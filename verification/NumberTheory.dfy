// Elementary number theory behind the Paillier scheme: congruences, powers, the
// greatest common divisor and modular inverses.
module NumberTheory {
  import opened Wrappers

  // ---------- divisibility and congruence ----------

  predicate Divides(d: int, a: int)
    requires d > 0
  {
    a % d == 0
  }

  predicate Cong(a: int, b: int, m: int)
    requires m > 0
  {
    (a - b) % m == 0
  }

  lemma DivMod(a: int, d: int)
    requires d > 0
    ensures a == (a / d) * d + a % d && 0 <= a % d < d
  {
  }

  lemma MulMonotone(a: int, b: int, c: int)
    requires a <= b && 0 <= c
    ensures a * c <= b * c
  {
    assert (b - a) * c >= 0;
  }

  // The quotient and the remainder are the only pair with these bounds.
  lemma DivModUnique(a: int, d: int, q: int, r: int)
    requires d > 0 && a == q * d + r && 0 <= r < d
    ensures a / d == q && a % d == r
  {
    DivMod(a, d);
    var k := q - a / d;
    assert k * d == a % d - r by { assert k * d == q * d - (a / d) * d; }
    if k >= 1 { MulMonotone(1, k, d); }
    if k <= -1 { MulMonotone(k, -1, d); }
  }

  lemma DividesIntro(d: int, a: int, k: int)
    requires d > 0 && a == k * d
    ensures Divides(d, a) && a / d == k
  {
    DivModUnique(a, d, k, 0);
  }

  lemma DividesElim(d: int, a: int) returns (k: int)
    requires d > 0 && Divides(d, a)
    ensures a == k * d && k == a / d
  {
    DivMod(a, d);
    k := a / d;
  }

  lemma DividesMul(d: int, a: int, b: int)
    requires d > 0 && Divides(d, a)
    ensures Divides(d, a * b) && Divides(d, b * a)
  {
    var k := DividesElim(d, a);
    assert a * b == (k * b) * d;
    DividesIntro(d, a * b, k * b);
    assert a * b == b * a;
  }

  lemma DividesAdd(d: int, a: int, b: int)
    requires d > 0 && Divides(d, a) && Divides(d, b)
    ensures Divides(d, a + b) && Divides(d, a - b)
  {
    var k := DividesElim(d, a);
    var l := DividesElim(d, b);
    assert a + b == (k + l) * d;
    assert a - b == (k - l) * d;
    DividesIntro(d, a + b, k + l);
    DividesIntro(d, a - b, k - l);
  }

  lemma DividesSmall(d: int, a: int)
    requires d > 0 && Divides(d, a) && -d < a < d
    ensures a == 0
  {
    if a >= 0 { DivModUnique(a, d, 0, a); } else { DivModUnique(a, d, -1, a + d); }
  }

  lemma CongIntro(a: int, b: int, m: int, k: int)
    requires m > 0 && a == b + k * m
    ensures Cong(a, b, m)
  {
    DividesIntro(m, a - b, k);
  }

  lemma CongElim(a: int, b: int, m: int) returns (k: int)
    requires m > 0 && Cong(a, b, m)
    ensures a == b + k * m
  {
    k := DividesElim(m, a - b);
  }

  lemma CongRefl(a: int, m: int)
    requires m > 0
    ensures Cong(a, a, m)
  {
    CongIntro(a, a, m, 0);
  }

  lemma CongSym(a: int, b: int, m: int)
    requires m > 0 && Cong(a, b, m)
    ensures Cong(b, a, m)
  {
    var k := CongElim(a, b, m);
    assert b == a + (-k) * m;
    CongIntro(b, a, m, -k);
  }

  lemma CongTrans(a: int, b: int, c: int, m: int)
    requires m > 0 && Cong(a, b, m) && Cong(b, c, m)
    ensures Cong(a, c, m)
  {
    var k := CongElim(a, b, m);
    var l := CongElim(b, c, m);
    assert a == c + (k + l) * m;
    CongIntro(a, c, m, k + l);
  }

  lemma CongAdd(a: int, b: int, c: int, d: int, m: int)
    requires m > 0 && Cong(a, b, m) && Cong(c, d, m)
    ensures Cong(a + c, b + d, m) && Cong(a - c, b - d, m)
  {
    var k := CongElim(a, b, m);
    var l := CongElim(c, d, m);
    assert a + c == b + d + (k + l) * m;
    assert a - c == b - d + (k - l) * m;
    CongIntro(a + c, b + d, m, k + l);
    CongIntro(a - c, b - d, m, k - l);
  }

  lemma CongMul(a: int, b: int, c: int, d: int, m: int)
    requires m > 0 && Cong(a, b, m) && Cong(c, d, m)
    ensures Cong(a * c, b * d, m)
  {
    var k := CongElim(a, b, m);
    var l := CongElim(c, d, m);
    calc {
      a * c;
      (b + k * m) * (d + l * m);
      b * d + b * (l * m) + (k * m) * d + (k * m) * (l * m);
      { assert b * (l * m) == (b * l) * m; assert (k * m) * d == (k * d) * m;
        assert (k * m) * (l * m) == (k * (l * m)) * m; }
      b * d + (b * l) * m + (k * d) * m + (k * (l * m)) * m;
      b * d + (b * l + k * d + k * (l * m)) * m;
    }
    CongIntro(a * c, b * d, m, b * l + k * d + k * (l * m));
  }

  lemma CongScale(a: int, b: int, c: int, m: int)
    requires m > 0 && Cong(a, b, m)
    ensures Cong(a * c, b * c, m) && Cong(c * a, c * b, m)
  {
    CongRefl(c, m);
    CongMul(a, b, c, c, m);
    CongMul(c, c, a, b, m);
  }

  lemma CongMod(a: int, m: int)
    requires m > 0
    ensures Cong(a % m, a, m) && Cong(a, a % m, m) && 0 <= a % m < m
  {
    DivMod(a, m);
    CongIntro(a, a % m, m, a / m);
    CongSym(a, a % m, m);
  }

  // Congruent numbers are those with equal remainders.
  lemma CongIffMod(a: int, b: int, m: int)
    requires m > 0
    ensures Cong(a, b, m) <==> a % m == b % m
  {
    DivMod(a, m);
    DivMod(b, m);
    if Cong(a, b, m) {
      var k := CongElim(a, b, m);
      assert a == (b / m + k) * m + b % m;
      DivModUnique(a, m, b / m + k, b % m);
    }
    if a % m == b % m {
      assert a == b + (a / m - b / m) * m;
      CongIntro(a, b, m, a / m - b / m);
    }
  }

  lemma CongUnique(a: int, b: int, m: int)
    requires m > 0 && Cong(a, b, m) && 0 <= a < m && 0 <= b < m
    ensures a == b
  {
    DividesSmall(m, a - b);
  }

  // A congruence modulo a multiple of d holds modulo d.
  lemma CongDown(a: int, b: int, m: int, d: int)
    requires m > 0 && d > 0 && Divides(d, m) && Cong(a, b, m)
    ensures Cong(a, b, d)
  {
    var k := CongElim(a, b, m);
    var l := DividesElim(d, m);
    assert k * m == (k * l) * d;
    CongIntro(a, b, d, k * l);
  }

  // ---------- powers ----------

  function Pow(b: int, e: nat): int {
    if e == 0 then 1 else b * Pow(b, e - 1)
  }

  lemma {:induction false} PowAdd(b: int, e: nat, f: nat)
    ensures Pow(b, e + f) == Pow(b, e) * Pow(b, f)
  {
    if e > 0 {
      PowAdd(b, e - 1, f);
      calc {
        Pow(b, e + f);
        b * Pow(b, (e - 1) + f);
        b * (Pow(b, e - 1) * Pow(b, f));
        (b * Pow(b, e - 1)) * Pow(b, f);
      }
    }
  }

  lemma {:induction false} PowMul(b: int, e: nat, f: nat)
    ensures 0 <= e * f && Pow(b, e * f) == Pow(Pow(b, e), f)
  {
    if f == 0 {
      assert e * f == 0;
    } else {
      PowMul(b, e, f - 1);
      assert e * f == e + e * (f - 1);
      PowAdd(b, e, e * (f - 1));
    }
  }

  lemma {:induction false} PowDistrib(a: int, b: int, e: nat)
    ensures Pow(a * b, e) == Pow(a, e) * Pow(b, e)
  {
    if e > 0 {
      PowDistrib(a, b, e - 1);
      calc {
        Pow(a * b, e);
        (a * b) * (Pow(a, e - 1) * Pow(b, e - 1));
        (a * Pow(a, e - 1)) * (b * Pow(b, e - 1));
      }
    }
  }

  lemma {:induction false} PowOne(e: nat)
    ensures Pow(1, e) == 1
  {
    if e > 0 { PowOne(e - 1); }
  }

  lemma {:induction false} PowPositive(b: int, e: nat)
    requires b >= 1
    ensures Pow(b, e) >= 1
  {
    if e > 0 {
      PowPositive(b, e - 1);
      MulMonotone(1, b, Pow(b, e - 1));
    }
  }

  lemma {:induction false} PowMonotone(b: int, e: nat, f: nat)
    requires b >= 1 && e <= f
    ensures 1 <= Pow(b, e) <= Pow(b, f)
  {
    PowPositive(b, e);
    PowPositive(b, f - e);
    PowAdd(b, e, f - e);
    MulMonotone(1, Pow(b, f - e), Pow(b, e));
  }

  lemma {:induction false} CongPow(a: int, b: int, e: nat, m: int)
    requires m > 0 && Cong(a, b, m)
    ensures Cong(Pow(a, e), Pow(b, e), m)
  {
    if e == 0 {
      CongRefl(1, m);
    } else {
      CongPow(a, b, e - 1, m);
      CongMul(a, b, Pow(a, e - 1), Pow(b, e - 1), m);
    }
  }

  // ---------- greatest common divisor and inverses ----------

  datatype Bezout = Bezout(g: nat, x: int, y: int)

  // The extended Euclidean algorithm.
  function ExtGcd(a: nat, b: nat): (r: Bezout)
    ensures r.x * a + r.y * b == r.g
    decreases b
  {
    if b == 0 then
      Bezout(a, 1, 0)
    else
      var r := ExtGcd(b, a % b);
      assert r.x * b + r.y * (a % b) == r.g;
      assert a % b == a - (a / b) * b by { DivMod(a, b); }
      assert r.y * (a % b) == r.y * a - (r.y * (a / b)) * b by {
        assert r.y * (a - (a / b) * b) == r.y * a - r.y * ((a / b) * b);
        assert r.y * ((a / b) * b) == (r.y * (a / b)) * b;
      }
      assert (r.x - r.y * (a / b)) * b == r.x * b - (r.y * (a / b)) * b;
      Bezout(r.g, r.y, r.x - r.y * (a / b))
  }

  function Gcd(a: nat, b: nat): nat {
    ExtGcd(a, b).g
  }

  lemma {:induction false} GcdDivides(a: nat, b: nat)
    requires a > 0 || b > 0
    ensures Gcd(a, b) > 0 && Divides(Gcd(a, b), a) && Divides(Gcd(a, b), b)
    decreases b
  {
    var g := Gcd(a, b);
    if b == 0 {
      DividesIntro(a, a, 1);
      DividesIntro(a, 0, 0);
    } else {
      GcdDivides(b, a % b);
      DividesMul(g, b, a / b);
      DividesAdd(g, (a / b) * b, a % b);
      DivMod(a, b);
    }
  }

  predicate Coprime(a: nat, b: nat) {
    Gcd(a, b) == 1
  }

  // Being coprime is having an inverse.
  lemma CoprimeFromInverse(a: nat, b: nat, x: int)
    requires b > 1 && Cong(a * x, 1, b)
    ensures Coprime(a, b)
  {
    var k := CongElim(a * x, 1, b);
    var g := Gcd(a, b);
    GcdDivides(a, b);
    DividesMul(g, a, x);
    DividesMul(g, b, k);
    DividesAdd(g, a * x, k * b);
    assert Divides(g, 1);
    if g > 1 { DividesSmall(g, 1); }
  }

  lemma CoprimeDivisor(a: nat, n: nat, d: nat)
    requires n > 0 && d > 1 && Coprime(a, n) && Divides(d, n)
    ensures !Divides(d, a)
  {
    if Divides(d, a) {
      var r := ExtGcd(a, n);
      DividesMul(d, a, r.x);
      DividesMul(d, n, r.y);
      DividesAdd(d, r.x * a, r.y * n);
      DividesSmall(d, 1);
    }
  }

  // The inverse of a modulo m, when a and m are coprime.
  function ModInverse(a: nat, m: nat): (r: Option<nat>)
    requires m > 1
    ensures r.Some? <==> Coprime(a, m)
    ensures r.Some? ==> r.value < m && Cong(a * r.value, 1, m)
  {
    var r := ExtGcd(a, m);
    if r.g == 1 then
      InverseFromBezout(a, m, r.x, r.y);
      Some(r.x % m)
    else
      None
  }

  lemma InverseFromBezout(a: int, m: int, x: int, y: int)
    requires m > 0 && x * a + y * m == 1
    ensures 0 <= x % m < m && Cong(a * (x % m), 1, m)
  {
    CongMod(x, m);
    CongScale(x % m, x, a, m);
    assert a * x == 1 + (-y) * m;
    CongIntro(a * x, 1, m, -y);
    CongTrans(a * (x % m), a * x, 1, m);
  }

  lemma InverseUnique(a: int, x: int, y: int, m: int)
    requires m > 0 && Cong(a * x, 1, m) && Cong(a * y, 1, m)
    ensures Cong(x, y, m)
  {
    CongScale(a * y, 1, x, m);
    CongScale(a * x, 1, y, m);
    assert x * (a * y) == y * (a * x);
    CongSym(x * (a * y), x, m);
    CongTrans(x, x * (a * y), y, m);
  }

  // A unit can be cancelled.
  lemma CongCancel(u: int, v: int, a: int, b: int, m: int)
    requires m > 0 && Cong(u * v, 1, m) && Cong(u * a, u * b, m)
    ensures Cong(a, b, m)
  {
    CongScale(u * a, u * b, v, m);
    CongScale(u * v, 1, a, m);
    CongScale(u * v, 1, b, m);
    assert v * (u * a) == a * (u * v);
    assert v * (u * b) == b * (u * v);
    CongSym(a * (u * v), a, m);
    CongTrans(a, a * (u * v), b * (u * v), m);
    CongTrans(a, b * (u * v), b, m);
  }

  lemma Lcm(a: nat, b: nat) returns (k: nat, l: nat)
    requires a > 0 && b > 0
    ensures Gcd(a, b) > 0
    ensures (a * b) / Gcd(a, b) == k * a == l * b
    ensures 0 < k <= b && 0 < l <= a
  {
    var g := Gcd(a, b);
    GcdDivides(a, b);
    var bq := DividesElim(g, b);
    var aq := DividesElim(g, a);
    assert bq > 0 by { if bq <= 0 { MulMonotone(bq, 0, g); } }
    assert aq > 0 by { if aq <= 0 { MulMonotone(aq, 0, g); } }
    MulMonotone(1, g, bq);
    MulMonotone(1, g, aq);
    assert a * b == (bq * a) * g by { assert a * (bq * g) == (bq * a) * g; }
    assert a * b == (aq * b) * g by { assert (aq * g) * b == (aq * b) * g; }
    DividesIntro(g, a * b, bq * a);
    DividesIntro(g, a * b, aq * b);
    k, l := bq, aq;
  }

  // ---------- primes ----------

  ghost predicate Prime(p: nat) {
    p >= 2 && forall d: nat :: 2 <= d < p ==> !Divides(d, p)
  }

  lemma PrimeCoprime(p: nat, a: nat)
    requires Prime(p) && !Divides(p, a)
    ensures Coprime(a, p)
  {
    GcdDivides(a, p);
    var g := Gcd(a, p);
    var k := DividesElim(g, p);
    if k <= 0 { MulMonotone(k, 0, g); assert false; }
    MulMonotone(1, k, g);
    assert g <= p;
  }

  // Euclid's lemma.
  lemma PrimeDividesProduct(p: nat, a: nat, b: int)
    requires Prime(p) && Divides(p, a * b)
    ensures Divides(p, a) || Divides(p, b)
  {
    if !Divides(p, a) {
      PrimeCoprime(p, a);
      var r := ExtGcd(a, p);
      DividesMul(p, a * b, r.x);
      assert Divides(p, p) by { DividesIntro(p, p, 1); }
      DividesMul(p, p, r.y * b);
      DividesAdd(p, r.x * (a * b), (r.y * b) * p);
      assert r.x * (a * b) + (r.y * b) * p == (r.x * a + r.y * p) * b;
      assert (r.x * a + r.y * p) * b == b;
    }
  }

  lemma DistinctPrimes(p: nat, q: nat)
    requires Prime(p) && Prime(q) && p != q
    ensures !Divides(p, q) && !Divides(q, p)
  {
    if p < q {
      if Divides(q, p) { DividesSmall(q, p); }
    } else {
      if Divides(p, q) { DividesSmall(p, q); }
    }
  }

  // Two coprime moduli combine.
  lemma CongProduct(a: int, b: int, p: nat, q: nat)
    requires Prime(p) && Prime(q) && p != q && Cong(a, b, p) && Cong(a, b, q)
    ensures p * q > 0 && Cong(a, b, p * q)
  {
    MulMonotone(1, p, q);
    var k := CongElim(a, b, p);
    assert a - b == p * k;
    PrimeDividesProduct(q, p, k);
    DistinctPrimes(p, q);
    var l := DividesElim(q, k);
    assert k * p == l * (p * q) by { assert (l * q) * p == l * (p * q); }
    CongIntro(a, b, p * q, l);
  }
}
