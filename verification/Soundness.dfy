// The equality proof against a dishonest prover: a commitment answers for a wrong amount under at
// most one digest, so the digest decides (internal/he/paillier.go).
module Soundness {
  import opened Wrappers
  import opened NumberTheory
  import opened Fermat
  import opened Paillier
  import opened Ledger

  // ----- powers modulo the square of one prime of the key -----

  // A key seen from one of its two primes.
  ghost predicate OneSide(k: Key, p: nat, q: nat) {
    && Prime(p) && Prime(q) && p != q && p > 2 && k.n == p * q && k.n2 == k.n * k.n && k.n > 1
    && k.lambda > 0 && Divides(p - 1, k.lambda) && Cong(k.lambda * k.mu, 1, k.n)
  }

  lemma BothSides(k: Key, p: nat, q: nat)
    requires FromPrimes(k, p, q) && p > 2 && q > 2
    ensures OneSide(k, p, q) && OneSide(k, q, p)
  {
    hide Divides, Cong, Prime;
    var a, b := LambdaMultiples(p, q, k.lambda);
    DividesIntro(p - 1, k.lambda, a);
    DividesIntro(q - 1, k.lambda, b);
    MulCommutes(p, q);
    MulMonotone(2, p, q);
  }

  // Every number that p does not divide vanishes under n and lambda together.
  lemma PowersVanish(k: Key, p: nat, q: nat, x: nat)
    requires OneSide(k, p, q) && k.n > 0 && !Divides(p, x)
    ensures p * p > 0 && Cong(Pow(Pow(x, k.n), k.lambda), 1, p * p)
  {
    hide Pow, Cong, Divides, Prime;
    var a := DividesElim(p - 1, k.lambda);
    if a < 0 { MulMonotone(a, -1, p - 1); }
    FermatMultiple(p, x, a);
    var y := Pow(x, k.lambda);
    LiftPower(y, 1, p);
    PowOne(p);
    CongPow(Pow(y, p), 1, q, p * p);
    PowOne(q);
    PowMul(y, p, q);
    PowSwap(x, k.n, k.lambda);
  }

  // A digest stands for itself, and zero for one.
  function Reading(d: nat): nat {
    if d == 0 then 1 else d
  }

  // By what the commitment is multiplied when sum - m is d.
  ghost function Factor(k: Key, r: int, d: int, e: nat): int
    requires k.n >= 0
  {
    Pow(Pow(r, k.n), e) * (1 + e * d * k.n)
  }

  // What an accepted transcript says modulo n^2.
  ghost predicate Answers(k: Key, r: int, d: int, a: int, z: int, e: nat) {
    k.n > 0 && k.n2 > 0 && Cong(Pow(z, k.n), Factor(k, r, d, e) * a, k.n2)
  }

  lemma AcceptedAnswers(h: Oracle, k: Key, sum: nat, m: nat, r: int, a: nat, z: nat)
    requires Valid(k) && k.n > 0 && k.n2 > 1 && Unit(k, r)
    requires VerifyEqual(h, k.n, k.n2, k.g, Cipher(k, sum, r), m, Proof(a, z))
    ensures 0 < a < k.n2 && Answers(k, r, sum - m, a, z, Reading(h(Cipher(k, sum, r), m, a)))
  {
    hide Pow, Cong, Cipher, Valid, Unit;
    KeySizes(k);
    var c := Cipher(k, sum, r);
    var d := h(c, m, a);
    DivModUnique(d, k.n, 0, d);
    var e := Reading(d);
    assert Challenge(h, k.n, c, m, a) == e;
    var inv := ModInverse(ModExp(k.g, m, k.n2), k.n2).value;
    UnblindedPower(k, sum, m, r, e, inv);
    var u := ModExp((c * inv) % k.n2, e, k.n2);
    var f := Factor(k, r, sum - m, e);
    CongScale(u, f, a, k.n2);
    CongMod(u * a, k.n2);
    CongSym(ModExp(z, k.n, k.n2), Pow(z, k.n), k.n2);
    CongTrans(Pow(z, k.n), ModExp(z, k.n, k.n2), u * a, k.n2);
    CongTrans(Pow(z, k.n), u * a, f * a, k.n2);
  }

  // ----- one of the two primes does not divide the commitment -----

  lemma FactorAvoids(k: Key, p: nat, q: nat, r: nat, d: int, e: nat)
    requires OneSide(k, p, q) && r > 0 && !Divides(p, r)
    ensures !Divides(p, Factor(k, r, d, e))
  {
    hide Pow, Divides;
    PowPositive(r, k.n);
    PowPositive(Pow(r, k.n), e);
    var x, w := Pow(Pow(r, k.n), e), 1 + e * d * k.n;
    if Divides(p, x * w) {
      PrimeDividesProduct(p, x, w);
      if Divides(p, x) {
        PrimeDividesPower(p, Pow(r, k.n), e);
        PrimeDividesPower(p, r, k.n);
      } else {
        MulAssoc(e * d, q, p);
        MulCommutes(p, q);
        DividesIntro(p, e * d * k.n, (e * d) * q);
        DividesAdd(p, w, e * d * k.n);
        DividesSmall(p, 1);
      }
    }
  }

  lemma PrimePart(k: Key, p: nat, q: nat)
    requires OneSide(k, p, q)
    ensures p > 0 && p * p > 0 && k.n2 > 0 && Divides(p, k.n2) && Divides(p * p, k.n2)
  {
    hide Divides;
    var n, n2 := p * q, (p * q) * (p * q);
    FourSwap(p, q, q, p);
    MulCommutes(p, q);
    MulMonotone(1, p, p);
    MulMonotone(1, q, q);
    MulMonotone(1, p * p, q * q);
    MulCommutes(p * p, q * q);
    MulAssoc(q * q, p, p);
    DividesIntro(p * p, n2, q * q);
    DividesIntro(p, n2, (q * q) * p);
  }

  // A response that p divides comes with a commitment that p divides twice.
  lemma TwiceDivides(k: Key, p: nat, q: nat, r: nat, d: int, a: nat, z: nat, e: nat)
    requires OneSide(k, p, q) && k.n >= 2 && r > 0 && !Divides(p, r) && Answers(k, r, d, a, z, e)
    ensures p * p > 0 && (Divides(p, z) ==> Divides(p * p, a)) && (Divides(p, a) ==> Divides(p, z))
  {
    hide Pow, Divides, Cong;
    PrimePart(k, p, q);
    FactorAvoids(k, p, q, r, d, e);
    var f := Factor(k, r, d, e);
    if Divides(p, a) {
      DividesMul(p, a, f);
      CongDown(Pow(z, k.n), f * a, k.n2, p);
      DividesAcross(p, Pow(z, k.n), f * a);
      PrimeDividesPower(p, z, k.n);
    }
    if Divides(p, z) {
      PowerTwice(p, z, k.n);
      CongDown(Pow(z, k.n), f * a, k.n2, p * p);
      CongSym(Pow(z, k.n), f * a, p * p);
      DividesAcross(p * p, f * a, Pow(z, k.n));
      SquareLeaves(p, f, a);
    }
  }

  lemma DividesAcross(m: int, a: int, b: int)
    requires m > 0 && Cong(a, b, m) && Divides(m, b)
    ensures Divides(m, a)
  {
    var j := CongElim(a, b, m);
    var l := DividesElim(m, b);
    assert a == (j + l) * m;
    DividesIntro(m, a, j + l);
  }

  lemma PowerTwice(p: nat, z: nat, n: nat)
    requires p > 0 && n >= 2 && Divides(p, z)
    ensures p * p > 0 && Divides(p * p, Pow(z, n))
  {
    var l := DividesElim(p, z);
    MulMonotone(1, p, p);
    FourSwap(l, p, p, l);
    MulCommutes(l, p);
    assert Pow(z, 2) == z * z by { assert Pow(z, 1) == z; }
    DividesIntro(p * p, z * z, l * l);
    PowAdd(z, 2, n - 2);
    DividesMul(p * p, z * z, Pow(z, n - 2));
  }

  lemma SquareLeaves(p: nat, f: int, a: nat)
    requires Prime(p) && p * p > 0 && !Divides(p, f) && Divides(p * p, f * a)
    ensures Divides(p * p, a)
  {
    hide Divides, Prime;
    var j := DividesElim(p * p, f * a);
    MulAssoc(j, p, p);
    DividesIntro(p, f * a, j * p);
    MulCommutes(f, a);
    PrimeDividesProduct(p, a, f);
    var b := DividesElim(p, a);
    MulAssoc(f, b, p);
    MulCancel(f * b, j * p, p);
    DividesIntro(p, f * b, j);
    assert b >= 0 by { if b < 0 { MulMonotone(b, -1, p); } }
    MulCommutes(f, b);
    PrimeDividesProduct(p, b, f);
    var l := DividesElim(p, b);
    MulAssoc(l, p, p);
    DividesIntro(p * p, a, l);
  }

  lemma BothSquares(p: nat, q: nat, a: nat)
    requires Prime(p) && Prime(q) && p != q && p * p > 0 && q * q > 0 && Divides(p * p, a) && Divides(q * q, a)
    ensures (p * q) * (p * q) > 0 && Divides((p * q) * (p * q), a)
  {
    hide Divides, Prime;
    DistinctPrimes(p, q);
    var b := DividesElim(p * p, a);
    MulCommutes(b, p * p);
    assert b >= 0 by { if b < 0 { MulMonotone(b, -1, p * p); } }
    if Divides(q, p * p) { PrimeDividesProduct(q, p, p); }
    SquareLeaves(q, p * p, b);
    var l := DividesElim(q * q, b);
    FourSwap(p, q, q, p);
    MulCommutes(p, q);
    MulMonotone(1, p * p, q * q);
    MulCommutes(p * p, q * q);
    MulAssoc(l, q * q, p * p);
    DividesIntro((p * q) * (p * q), a, l);
  }

  // An accepted commitment lies below n^2, so the squares of both primes cannot divide it.
  lemma SomePrimeCommits(k: Key, r: nat, d: int, a: nat, z: nat, e: nat) returns (p: nat, q: nat)
    requires Valid(k) && k.n > 0 && Unit(k, r) && 0 < a < k.n2 && Answers(k, r, d, a, z, e)
    ensures OneSide(k, p, q) && p >= TWO_384 && q >= TWO_384 && !Divides(p, a) && !Divides(p, r)
  {
    hide Answers, Divides, Cong, Sized;
    KeySizes(k);
    p, q :| FromPrimes(k, p, q) && Sized(p, q);
    SizedAbove(p, q);
    BothSides(k, p, q);
    UnitNotDivisible(k.n, p, q, r);
    MulCommutes(p, q);
    UnitNotDivisible(k.n, q, p, r);
    if Divides(p, a) {
      TwiceDivides(k, p, q, r, d, a, z, e);
      if Divides(q, a) {
        TwiceDivides(k, q, p, r, d, a, z, e);
        BothSquares(p, q, a);
        DividesSmall(k.n2, a);
      }
      p, q := q, p;
    }
  }

  // ----- raising to lambda -----

  // The answer to the lambda: the response and the blinding vanish, and what is left of the factor
  // is linear in the digest.
  lemma AnswerPower(k: Key, p: nat, q: nat, r: nat, d: int, a: nat, z: nat, e: nat)
    requires OneSide(k, p, q) && k.n >= 2 && r > 0 && !Divides(p, r) && !Divides(p, a)
    requires Answers(k, r, d, a, z, e)
    ensures p * p > 0 && Cong(Pow(a, k.lambda) * (1 + k.lambda * (e * d) * k.n), 1, p * p)
  {
    hide Pow, Divides, Cong, Prime;
    var s, l := p * p, k.lambda;
    PrimePart(k, p, q);
    TwiceDivides(k, p, q, r, d, a, z, e);
    if Divides(p, z) { Halves(p, a); }
    PowersVanish(k, p, q, z);
    PowersVanish(k, p, q, r);
    var f, t, w := Factor(k, r, d, e), Pow(Pow(r, k.n), e), 1 + e * d * k.n;
    CongDown(Pow(z, k.n), f * a, k.n2, s);
    CongPow(Pow(z, k.n), f * a, l, s);
    PowDistrib(f, a, l);
    PowDistrib(t, w, l);
    // the blinding
    PowSwap(Pow(r, k.n), e, l);
    CongPow(Pow(Pow(r, k.n), l), 1, e, s);
    PowOne(e);
    // the factor
    LinearPower(e * d, k.n, l, k.n2, s);
    CongMul(Pow(t, l), 1, Pow(w, l), 1 + l * (e * d) * k.n, s);
    CongScale(Pow(f, l), 1 + l * (e * d) * k.n, Pow(a, l), s);
    CongSym(Pow(f, l) * Pow(a, l), (1 + l * (e * d) * k.n) * Pow(a, l), s);
    CongSym(Pow(Pow(z, k.n), l), Pow(f * a, l), s);
    CongTrans((1 + l * (e * d) * k.n) * Pow(a, l), Pow(f * a, l), Pow(Pow(z, k.n), l), s);
    CongTrans((1 + l * (e * d) * k.n) * Pow(a, l), Pow(Pow(z, k.n), l), 1, s);
    MulCommutes(1 + l * (e * d) * k.n, Pow(a, l));
  }

  lemma Halves(p: nat, a: nat)
    requires p > 0 && p * p > 0 && Divides(p * p, a)
    ensures Divides(p, a)
  {
    var j := DividesElim(p * p, a);
    MulAssoc(j, p, p);
    DividesIntro(p, a, j * p);
  }

  lemma LinearPower(v: int, n: nat, l: nat, n2: nat, s: int)
    requires n > 0 && n2 == n * n && n2 > 0 && l > 0 && s > 0 && Divides(s, n2)
    ensures Cong(Pow(1 + v * n, l), 1 + l * v * n, s)
  {
    PowOne(l);
    PowOne(l - 1);
    FirstOrder(1, v, n, l);
    hide Pow, Cong, Divides;
    assert Pow(1, l) + l * v * n * Pow(1, l - 1) == 1 + l * v * n;
    CongDown(Pow(1 + v * n, l), 1 + l * v * n, n2, s);
  }

  // Two different digests would have to agree modulo the prime.
  lemma DigestsPart(k: Key, p: nat, q: nat, x: int, e1: nat, e2: nat, d: int)
    requires OneSide(k, p, q) && p >= TWO_384 && p * p > 0
    requires 1 <= e2 < e1 <= TWO_256 && -TWO_126 < d < TWO_126 && d != 0
    ensures !(Cong(x * (1 + k.lambda * (e1 * d) * k.n), 1, p * p) && Cong(x * (1 + k.lambda * (e2 * d) * k.n), 1, p * p))
  {
    hide Divides, Cong, Prime;
    var l, u := k.lambda, (e1 - e2) * d;
    var w1, w2 := 1 + l * (e1 * d) * k.n, 1 + l * (e2 * d) * k.n;
    if Cong(x * w1, 1, p * p) && Cong(x * w2, 1, p * p) {
      InverseUnique(x, w1, w2, p * p);
      var j := CongElim(w1, w2, p * p);
      DifferenceOfDigests(l, e1, e2, d, k.n);
      PrimeShare(l, u, p, q, j);
      DividesIntro(p, (l * q) * u, j);
      LambdaAvoids(k, p, q);
      PrimeDividesProduct(p, l * q, u);
      if Divides(p, l * q) { PrimeDividesProduct(p, l, q); }
      SmallProduct(e1 - e2, d);
      DividesSmall(p, u);
    }
  }

  lemma DifferenceOfDigests(l: int, e1: int, e2: int, d: int, n: int)
    ensures (1 + l * (e1 * d) * n) - (1 + l * (e2 * d) * n) == l * ((e1 - e2) * d) * n
  {
    assert l * (e1 * d) - l * (e2 * d) == l * ((e1 - e2) * d);
  }

  lemma PrimeShare(l: int, u: int, p: nat, q: nat, j: int)
    requires p > 0 && l * u * (p * q) == j * (p * p)
    ensures (l * q) * u == j * p
  {
    assert l * u * (p * q) == ((l * q) * u) * p;
    MulAssoc(j, p, p);
    MulCancel((l * q) * u, j * p, p);
  }

  lemma LambdaAvoids(k: Key, p: nat, q: nat)
    requires OneSide(k, p, q)
    ensures p > 0 && !Divides(p, k.lambda) && !Divides(p, q)
  {
    hide Divides, Cong;
    MulMonotone(2, p, q);
    CoprimeFromInverse(k.lambda, k.n, k.mu);
    MulCommutes(p, q);
    DividesIntro(p, k.n, q);
    CoprimeDivisor(k.lambda, k.n, p);
    DistinctPrimes(p, q);
  }

  // ----- the result -----

  // Whatever the commitment and the two responses, a wrong amount is not accepted under two
  // different digests. With the honest transcript, which every digest accepts for the amount that
  // the ciphertext holds, this says that the digest decides.
  lemma WrongAmountOneDigest(h1: Oracle, h2: Oracle, k: Key, sum: nat, m: nat, r: nat, a: nat, z1: nat, z2: nat)
    requires Valid(k) && k.n > 0 && k.n2 > 1 && Unit(k, r)
    requires sum != m && -TWO_126 < sum - m < TWO_126
    requires Reading(h1(Cipher(k, sum, r), m, a)) != Reading(h2(Cipher(k, sum, r), m, a))
    ensures !(VerifyEqual(h1, k.n, k.n2, k.g, Cipher(k, sum, r), m, Proof(a, z1))
              && VerifyEqual(h2, k.n, k.n2, k.g, Cipher(k, sum, r), m, Proof(a, z2)))
  {
    hide VerifyEqual, Cipher, Answers, Divides, Cong;
    var c, d := Cipher(k, sum, r), sum - m;
    var e1, e2 := Reading(h1(c, m, a)), Reading(h2(c, m, a));
    if VerifyEqual(h1, k.n, k.n2, k.g, c, m, Proof(a, z1)) && VerifyEqual(h2, k.n, k.n2, k.g, c, m, Proof(a, z2)) {
      KeySizes(k);
      AcceptedAnswers(h1, k, sum, m, r, a, z1);
      AcceptedAnswers(h2, k, sum, m, r, a, z2);
      var p, q := SomePrimeCommits(k, r, d, a, z1, e1);
      AnswerPower(k, p, q, r, d, a, z1, e1);
      AnswerPower(k, p, q, r, d, a, z2, e2);
      if e1 > e2 {
        DigestsPart(k, p, q, Pow(a, k.lambda), e1, e2, d);
      } else {
        DigestsPart(k, p, q, Pow(a, k.lambda), e2, e1, d);
      }
    }
  }

  // So for a ledger: whoever presents them, no commitment with its two responses is accepted under
  // two digests for an amount that the locks do not sum to.
  lemma WrongSumOneDigest(h1: Oracle, h2: Oracle, k: Key, ms: seq<int>, rs: seq<nat>, locks: seq<nat>, committed: int, a: nat, z1: nat, z2: nat)
    requires Valid(k) && k.n > 0 && k.n2 > 1 && Sealed(k, ms, rs, locks) && ms != []
    requires |ms| <= TWO_63 && 0 <= committed < TWO_63 && Total(ms) != committed
    ensures AggregateOf(k, locks).Ok?
    ensures Reading(h1(AggregateOf(k, locks).value, committed, a)) != Reading(h2(AggregateOf(k, locks).value, committed, a)) ==>
      !(Accepts(h1, k, AggregateOf(k, locks).value, committed, Proof(a, z1))
        && Accepts(h2, k, AggregateOf(k, locks).value, committed, Proof(a, z2)))
  {
    AggregateIsCipher(k, ms, rs, locks);
    PositiveTotal(ms, committed);
    hide AggregateOf, VerifyEqual, Valid, Unit, Cipher, Sealed;
    var sum := AggregateOf(k, locks).value;
    if Reading(h1(sum, committed, a)) != Reading(h2(sum, committed, a)) {
      WrongAmountOneDigest(h1, h2, k, Total(ms), committed, Blinding(k.n, rs), a, z1, z2);
    }
  }

  // ----- what a verifier checks -----

  // The claim's power and its inverse cancel under any exponent.
  lemma InversePowers(x: int, y: int, e: nat, m: int)
    requires m > 0 && Cong(x * y, 1, m)
    ensures Cong(Pow(x, e) * Pow(y, e), 1, m)
  {
    hide Cong, Pow;
    CongPow(x * y, 1, e, m);
    PowDistrib(x, y, e);
    PowOne(e);
  }

  // Multiplying both sides by the claim's power neither adds nor loses solutions.
  lemma ClearedIff(lhs: int, c: int, x: int, y: int, e: nat, a: int, m: int)
    requires m > 0 && Cong(x * y, 1, m)
    ensures Cong(lhs, Pow(c * y, e) * a, m) <==> Cong(lhs * Pow(x, e), Pow(c, e) * a, m)
  {
    hide Cong, Pow;
    InversePowers(x, y, e, m);
    PowDistrib(c, y, e);
    var p, q, ca := Pow(x, e), Pow(y, e), Pow(c, e) * a;
    assert (Pow(c, e) * q) * a == ca * q by { SwapFactors(Pow(c, e), q, a); MulCommutes(a, Pow(c, e)); }
    Cleared(lhs, ca, p, q, m);
  }

  lemma Cleared(lhs: int, rhs: int, p: int, q: int, m: int)
    requires m > 0 && Cong(p * q, 1, m)
    ensures Cong(lhs, rhs * q, m) <==> Cong(lhs * p, rhs, m)
  {
    hide Cong;
    CongScale(p * q, 1, rhs, m);
    CongScale(p * q, 1, lhs, m);
    MulCommutes(p, q);
    MulAssoc(rhs, q, p);
    MulAssoc(lhs, p, q);
    if Cong(lhs, rhs * q, m) {
      CongScale(lhs, rhs * q, p, m);
      CongTrans(lhs * p, (rhs * q) * p, rhs, m);
    }
    if Cong(lhs * p, rhs, m) {
      CongScale(lhs * p, rhs, q, m);
      CongSym((lhs * p) * q, lhs, m);
      CongTrans(lhs, (lhs * p) * q, rhs * q, m);
    }
  }

  // The public check, without inverses: the numbers are in range, and the response to the n times
  // the claim to the digest is the ciphertext to the digest times the commitment, modulo n^2.
  lemma AcceptedIff(h: Oracle, k: Key, ct: nat, m: int, a: nat, z: nat)
    requires Valid(k) && k.n > 0 && k.n2 > 1
    ensures VerifyEqual(h, k.n, k.n2, k.g, ct, m, Proof(a, z)) <==>
      && 0 < ct < k.n2 && 0 <= m < k.n && 0 < a < k.n2 && z < k.n
      && var e := Reading(h(ct, m, a));
         Cong(Pow(z, k.n) * Pow(Pow(k.g, m), e), Pow(ct, e) * a, k.n2)
  {
    hide Pow, Cong, Valid;
    if 0 < ct < k.n2 && 0 <= m < k.n && 0 < a < k.n2 && z < k.n {
      KeySizes(k);
      var d := h(ct, m, a);
      DivModUnique(d, k.n, 0, d);
      var e := Reading(d);
      var gm := ModExp(k.g, m, k.n2);
      ClaimInvertible(k, m);
      var inv := ModInverse(gm, k.n2).value;
      CongScale(gm, Pow(k.g, m), inv, k.n2);
      CongSym(gm * inv, Pow(k.g, m) * inv, k.n2);
      CongTrans(Pow(k.g, m) * inv, gm * inv, 1, k.n2);
      ClearedIff(Pow(z, k.n), ct, Pow(k.g, m), inv, e, a, k.n2);
      RightSide(ct, inv, e, a, k.n2);
      SidesAgree(ModExp(z, k.n, k.n2), Pow(z, k.n), ModExp((ct * inv) % k.n2, e, k.n2) * a, Pow(ct * inv, e) * a, k.n2);
    }
  }

  lemma ClaimInvertible(k: Key, m: nat)
    requires Valid(k) && k.n2 > 1
    ensures ModInverse(ModExp(k.g, m, k.n2), k.n2).Some?
  {
    hide Pow, Cong, Valid;
    var gm := ModExp(k.g, m, k.n2);
    GeneratorPower(k, m);
    CongScale(gm, Pow(k.g, m), 1 - m * k.n, k.n2);
    CongTrans(gm * (1 - m * k.n), Pow(k.g, m) * (1 - m * k.n), 1, k.n2);
    CoprimeFromInverse(gm, k.n2, 1 - m * k.n);
  }

  lemma RightSide(ct: nat, inv: nat, e: nat, a: nat, m: nat)
    requires m > 0
    ensures (ct * inv) % m >= 0 && Cong(ModExp((ct * inv) % m, e, m) * a, Pow(ct * inv, e) * a, m)
  {
    hide Pow, Cong;
    CongMod(ct * inv, m);
    var u := (ct * inv) % m;
    CongPow(u, ct * inv, e, m);
    CongTrans(ModExp(u, e, m), Pow(u, e), Pow(ct * inv, e), m);
    CongScale(ModExp(u, e, m), Pow(ct * inv, e), a, m);
  }

  lemma SidesAgree(lhs: nat, x: int, rhs: int, y: int, m: nat)
    requires m > 0 && lhs < m && Cong(lhs, x, m) && Cong(rhs, y, m)
    ensures lhs == rhs % m <==> Cong(x, y, m)
  {
    hide Cong;
    CongIffMod(lhs, rhs, m);
    DivModUnique(lhs, m, 0, lhs);
    CongSym(lhs, x, m);
    CongSym(rhs, y, m);
    if Cong(lhs, rhs, m) {
      CongTrans(x, lhs, rhs, m);
      CongTrans(x, rhs, y, m);
    }
    if Cong(x, y, m) {
      CongTrans(lhs, x, y, m);
      CongTrans(lhs, y, rhs, m);
    }
  }

  // The prover answers exactly for numbers in range, and what it sends is the commitment s^n and the
  // response r^e s.
  lemma ProvedIff(h: Oracle, k: Key, ct: nat, m: int, r: int, s: int)
    requires Valid(k) && k.n > 0 && k.n2 > 1
    ensures ProveEqual(h, k, ct, m, r, s).Ok? <==> 0 < ct < k.n2 && 0 <= m < k.n && 0 < r < k.n && 0 < s < k.n
    ensures ProveEqual(h, k, ct, m, r, s).Ok? ==>
      var proof := ProveEqual(h, k, ct, m, r, s).value;
      && proof.a < k.n2 && Cong(proof.a, Pow(s, k.n), k.n2)
      && proof.z < k.n && Cong(proof.z, Pow(r, Reading(h(ct, m, proof.a))) * s, k.n)
  {
    hide Pow, Cong, Valid;
    KeySizes(k);
    if ProveEqual(h, k, ct, m, r, s).Ok? {
      var proof := ProveEqual(h, k, ct, m, r, s).value;
      var d := h(ct, m, proof.a);
      DivModUnique(d, k.n, 0, d);
      var e := Reading(d);
      CongMod(ModExp(r, e, k.n) * s, k.n);
      CongScale(ModExp(r, e, k.n), Pow(r, e), s, k.n);
      CongTrans(proof.z, ModExp(r, e, k.n) * s, Pow(r, e) * s, k.n);
    }
  }

  // So for a ledger: there is a proof exactly for an aggregate and an amount in range and a nonzero
  // draw, when there are locks and their blinding factors do not multiply to zero.
  lemma ProofGivenIff(h: Oracle, k: Key, rs: seq<nat>, sum: nat, committed: int, s: int)
    requires Valid(k) && k.n > 0 && k.n2 > 1
    ensures ProofOf(h, k, rs, sum, committed, s).Ok? <==>
      && rs != [] && 0 < sum < k.n2 && 0 <= committed < k.n && 0 < s < k.n && 0 < Blinding(k.n, rs) < k.n
    ensures ProofOf(h, k, rs, sum, committed, s) == Err(ErrNoLocks) <==> rs == []
  {
    hide Valid, Pow, Cong, ProveEqual, Blinding;
    KeySizes(k);
    ProvedIff(h, k, sum, committed, Blinding(k.n, rs), s);
  }
}
