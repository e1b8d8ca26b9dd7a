// Fermat's little theorem by the binomial theorem, and the two expansions modulo n^2
// that make (n+1) a logarithm base and n-th powers a blinding group.
module Fermat {
  import opened NumberTheory

  // ---------- binomial coefficients ----------

  // Pascal's triangle.
  function Choose(n: nat, k: nat): nat {
    if k == 0 then 1
    else if n == 0 then 0
    else Choose(n - 1, k - 1) + Choose(n - 1, k)
  }

  lemma {:induction false} ChooseAbove(n: nat, k: nat)
    requires k > n
    ensures Choose(n, k) == 0
  {
    if n > 0 {
      ChooseAbove(n - 1, k - 1);
      ChooseAbove(n - 1, k);
    }
  }

  lemma {:induction false} ChooseSelf(n: nat)
    ensures Choose(n, n) == 1
  {
    if n > 0 {
      ChooseSelf(n - 1);
      ChooseAbove(n - 1, n);
    }
  }

  // The absorption identity k * C(n, k) = n * C(n-1, k-1).
  lemma {:induction false} Absorb(n: nat, k: nat)
    requires n > 0 && k > 0
    ensures k * Choose(n, k) == n * Choose(n - 1, k - 1)
    decreases n
  {
    if n == 1 {
      if k > 1 { ChooseAbove(1, k); ChooseAbove(0, k - 1); }
    } else if k == 1 {
      Absorb(n - 1, 1);
    } else {
      Absorb(n - 1, k - 1);
      Absorb(n - 1, k);
      AbsorbAlgebra(n, k, Choose(n - 1, k - 1), Choose(n - 1, k), Choose(n - 2, k - 2), Choose(n - 2, k - 1));
    }
  }

  lemma AbsorbAlgebra(n: int, k: int, u: int, v: int, x: int, y: int)
    requires (k - 1) * u == (n - 1) * x && k * v == (n - 1) * y && u == x + y
    ensures k * (u + v) == n * u
  {
    assert k * (u + v) == (k - 1) * u + u + k * v;
    assert (n - 1) * x + (n - 1) * y == (n - 1) * u;
  }

  // The first j terms of the expansion of (a + 1)^n.
  function Terms(n: nat, a: nat, j: nat): nat {
    if j == 0 then 0 else PowPositiveOrZero(a, j - 1); Terms(n, a, j - 1) + Choose(n, j - 1) * Pow(a, j - 1)
  }

  lemma {:induction false} PowPositiveOrZero(a: nat, e: nat)
    ensures Pow(a, e) >= 0
  {
    if e > 0 { PowPositiveOrZero(a, e - 1); MulMonotone(0, a, Pow(a, e - 1)); }
  }

  lemma {:induction false} TermsStep(n: nat, a: nat, j: nat)
    ensures Terms(n + 1, a, j + 1) == Terms(n, a, j + 1) + a * Terms(n, a, j)
    decreases j
  {
    if j > 0 {
      TermsStep(n, a, j - 1);
      assert Terms(n + 1, a, j + 1) == Terms(n + 1, a, j) + Choose(n + 1, j) * Pow(a, j);
      assert Terms(n, a, j + 1) == Terms(n, a, j) + Choose(n, j) * Pow(a, j);
      assert Terms(n, a, j) == Terms(n, a, j - 1) + Choose(n, j - 1) * Pow(a, j - 1);
      TermsAlgebra(a, Choose(n, j - 1), Choose(n, j), Pow(a, j - 1), Terms(n, a, j - 1));
    } else {
      assert Terms(n + 1, a, 1) == 1 && Terms(n, a, 1) == 1;
    }
  }

  lemma TermsAlgebra(a: int, c: int, d: int, p: int, t: int)
    ensures (c + d) * (a * p) + a * t == d * (a * p) + a * (t + c * p)
  {
    assert (c + d) * (a * p) == c * (a * p) + d * (a * p);
    assert c * (a * p) == a * (c * p);
    assert a * (t + c * p) == a * t + a * (c * p);
  }

  // Past the row of the triangle there is nothing to add.
  lemma LastTerm(n: nat, a: nat)
    ensures Terms(n, a, n + 2) == Terms(n, a, n + 1)
  {
    hide Choose, Pow;
    ChooseAbove(n, n + 1);
    assert Choose(n, n + 1) * Pow(a, n + 1) == 0;
  }

  lemma {:induction false} BinomialTheorem(n: nat, a: nat)
    ensures Pow(a + 1, n) == Terms(n, a, n + 1)
  {
    if n > 0 {
      hide Terms, Choose;
      BinomialTheorem(n - 1, a);
      TermsStep(n - 1, a, n);
      LastTerm(n - 1, a);
      OneMore(a, Terms(n - 1, a, n));
    }
  }

  lemma OneMore(a: int, t: int)
    ensures (a + 1) * t == t + a * t
  {
  }

  // A prime divides every inner entry of its own row of Pascal's triangle.
  lemma PrimeDividesChoose(p: nat, k: nat)
    requires Prime(p) && 0 < k < p
    ensures Divides(p, Choose(p, k))
  {
    hide Choose, Divides, Prime;
    Absorb(p, k);
    DividesIntro(p, k * Choose(p, k), Choose(p - 1, k - 1));
    PrimeDividesProduct(p, k, Choose(p, k));
    if Divides(p, k) { DividesSmall(p, k); }
  }

  lemma {:induction false} InnerTermsVanish(p: nat, a: nat, j: nat)
    requires Prime(p) && 1 <= j <= p
    ensures Cong(Terms(p, a, j), 1, p)
  {
    if j == 1 {
      assert Terms(p, a, 1) == 1;
      CongRefl(1, p);
    } else {
      InnerTermsVanish(p, a, j - 1);
      PrimeDividesChoose(p, j - 1);
      var c := Choose(p, j - 1);
      var k := DividesElim(p, c);
      DividesMul(p, c, Pow(a, j - 1));
      CongIntroDiff(c * Pow(a, j - 1), p);
      CongAdd(Terms(p, a, j - 1), 1, c * Pow(a, j - 1), 0, p);
    }
  }

  lemma CongIntroDiff(x: int, p: int)
    requires p > 0 && Divides(p, x)
    ensures Cong(x, 0, p)
  {
    assert x - 0 == x;
  }

  // a^p is a modulo p, by induction on a.
  lemma {:induction false} FermatPower(p: nat, a: nat)
    requires Prime(p)
    ensures Cong(Pow(a, p), a, p)
    decreases a
  {
    if a == 0 {
      assert Pow(0, p) == 0 * Pow(0, p - 1) == 0;
      CongRefl(0, p);
    } else {
      FermatPower(p, a - 1);
      BinomialTheorem(p, a - 1);
      ChooseSelf(p);
      assert Terms(p, a - 1, p + 1) == Terms(p, a - 1, p) + Pow(a - 1, p);
      InnerTermsVanish(p, a - 1, p);
      CongAdd(Terms(p, a - 1, p), 1, Pow(a - 1, p), a - 1, p);
    }
  }

  // Fermat's little theorem.
  lemma FermatLittle(p: nat, a: nat)
    requires Prime(p) && !Divides(p, a)
    ensures Cong(Pow(a, p - 1), 1, p)
  {
    FermatPower(p, a);
    PrimeCoprime(p, a);
    var inv := ModInverse(a, p).value;
    assert a * Pow(a, p - 1) == Pow(a, p) && a * 1 == a;
    CongCancel(a, inv, Pow(a, p - 1), 1, p);
  }

  // Any multiple of p-1 is an exponent of the units modulo p.
  lemma FermatMultiple(p: nat, a: nat, k: nat)
    requires Prime(p) && !Divides(p, a)
    ensures k * (p - 1) >= 0 && Cong(Pow(a, k * (p - 1)), 1, p)
  {
    FermatLittle(p, a);
    PowMul(a, p - 1, k);
    assert (p - 1) * k == k * (p - 1);
    CongPow(Pow(a, p - 1), 1, k, p);
    PowOne(k);
  }

  // ---------- modulo n^2 ----------

  // (b + k n)^j = b^j + j k n b^(j-1) modulo n^2.
  lemma {:induction false} FirstOrder(b: int, k: int, n: nat, j: nat)
    requires n > 0 && j > 0
    ensures n * n > 0 && Cong(Pow(b + k * n, j), Pow(b, j) + j * k * n * Pow(b, j - 1), n * n)
  {
    MulMonotone(1, n, n);
    var m := n * n;
    if j == 1 {
      assert Pow(b + k * n, 1) == b + k * n && Pow(b, 1) == b && Pow(b, 0) == 1;
      CongRefl(b + k * n, m);
    } else {
      FirstOrder(b, k, n, j - 1);
      var p := Pow(b, j - 2);
      var prior := Pow(b, j - 1) + (j - 1) * k * n * p;
      CongScale(Pow(b + k * n, j - 1), prior, b + k * n, m);
      FirstOrderAlgebra(b, k, n, j, p);
      CongIntro((b + k * n) * prior, Pow(b, j) + j * k * n * Pow(b, j - 1), m, k * ((j - 1) * k) * p);
      CongTrans(Pow(b + k * n, j), (b + k * n) * prior, Pow(b, j) + j * k * n * Pow(b, j - 1), m);
    }
  }

  lemma FirstOrderAlgebra(b: int, k: int, n: int, j: int, p: int)
    ensures (b + k * n) * (b * p + (j - 1) * k * n * p)
         == b * (b * p) + j * k * n * (b * p) + (k * ((j - 1) * k) * p) * (n * n)
  {
    var c, q := (j - 1) * k, b * p;
    assert (b + k * n) * (q + c * n * p) == b * q + k * n * q + b * (c * n * p) + (k * n) * (c * n * p);
    assert b * (c * n * p) == c * n * q by { assert (c * n) * (b * p) == b * ((c * n) * p); }
    SquareAlgebra(k, c, p, n);
    assert k * n * q + c * n * q == (k * n + c * n) * q;
    assert k * n + c * n == (k + c) * n;
    assert k + c == j * k;
  }

  lemma SquareAlgebra(k: int, c: int, p: int, n: int)
    ensures (k * n) * (c * n * p) == (k * c * p) * (n * n)
  {
    calc {
      (k * n) * (c * n * p);
      k * (n * ((c * p) * n));
      k * ((c * p) * (n * n));
      (k * (c * p)) * (n * n);
      { assert k * (c * p) == k * c * p; }
      (k * c * p) * (n * n);
    }
  }

  // (1 + n)^k = 1 + k n modulo n^2.
  lemma OnePlusPower(n: nat, k: nat)
    requires n > 0
    ensures n * n > 0 && Cong(Pow(n + 1, k), 1 + k * n, n * n)
  {
    MulMonotone(1, n, n);
    if k == 0 {
      CongRefl(1, n * n);
    } else {
      FirstOrder(1, 1, n, k);
      PowOne(k);
      PowOne(k - 1);
      assert k * 1 * n * 1 == k * n;
    }
  }

  // Raising to the n-th power lifts a congruence from n to n^2.
  lemma LiftPower(a: int, b: int, n: nat)
    requires n > 0 && Cong(a, b, n)
    ensures n * n > 0 && Cong(Pow(a, n), Pow(b, n), n * n)
  {
    var k := CongElim(a, b, n);
    FirstOrder(b, k, n, n);
    var t := n * k * n * Pow(b, n - 1);
    assert t == (k * Pow(b, n - 1)) * (n * n);
    CongIntro(Pow(b, n) + t, Pow(b, n), n * n, k * Pow(b, n - 1));
    CongTrans(Pow(a, n), Pow(b, n) + t, Pow(b, n), n * n);
  }
}
