// Additive homomorphic encryption and the public equality proof (internal/he/paillier.go).
// Ciphertexts, commitments and responses are the numbers their byte strings denote; the
// random draws are parameters, and SHA-256 is an arbitrary function into 256-bit numbers.
module Paillier {
  import opened Wrappers
  import opened NumberTheory
  import opened Fermat

  const TWO_126: int := 0x4000000000000000_0000000000000000
  const TWO_256: int := 0x1_0000000000000000_0000000000000000_0000000000000000_0000000000000000
  const TWO_384: int :=
    0x1_0000000000000000_0000000000000000_0000000000000000_0000000000000000_0000000000000000_0000000000000000

  type Digest = d: nat | d < TWO_256
  type Oracle = (nat, nat, nat) -> Digest

  datatype Error = ErrKeyGen | ErrEnc | ErrDec | ErrAdd

  datatype Key = Key(n: nat, n2: nat, g: nat, lambda: nat, mu: nat)

  // The transcript on the wire: commitment and response.
  datatype Proof = Proof(a: nat, z: nat)

  // big.Int.Exp with a positive modulus.
  function ModExp(b: int, e: nat, m: nat): (r: nat)
    requires m > 0
    ensures r < m && Cong(r, Pow(b, e), m)
  {
    CongMod(Pow(b, e), m);
    Pow(b, e) % m
  }

  // ---------- keys ----------

  ghost predicate FromPrimes(k: Key, p: nat, q: nat) {
    && Prime(p) && Prime(q) && p != q
    && k.n == p * q
    && k.n2 == k.n * k.n
    && k.g == k.n + 1
    && k.lambda * Gcd(p - 1, q - 1) == (p - 1) * (q - 1)
    && 0 < k.lambda < k.n
    && 0 < k.mu < k.n
    && Cong(k.lambda * k.mu, 1, k.n)
  }

  // Both numbers have at least 512 bits.
  ghost predicate Sized(p: nat, q: nat) {
    exists b: nat :: b >= 511 && p >= Pow(2, b) && q >= Pow(2, b)
  }

  // A key some pair of primes of at least 512 bits generates.
  ghost predicate Valid(k: Key) {
    exists p: nat, q: nat :: FromPrimes(k, p, q) && Sized(p, q)
  }

  lemma PowTwo64()
    ensures Pow(2, 64) == 0x1_0000000000000000
  {
    assert Pow(2, 8) == 256;
    hide Pow;
    PowAdd(2, 8, 8);
    PowAdd(2, 16, 16);
    PowAdd(2, 32, 32);
  }

  lemma PowTwo384()
    ensures Pow(2, 384) == TWO_384
  {
    hide Pow;
    PowTwo64();
    PowAdd(2, 64, 64);
    PowAdd(2, 128, 128);
    PowAdd(2, 256, 128);
  }

  lemma SizedAbove(p: nat, q: nat)
    requires Sized(p, q)
    ensures p >= TWO_384 && q >= TWO_384
  {
    hide Pow;
    var b: nat :| b >= 511 && p >= Pow(2, b) && q >= Pow(2, b);
    PowTwo384();
    PowMonotone(2, 384, b);
  }

  lemma SizedMore(p: nat, q: nat)
    requires Sized(p, q)
    ensures p > 2 && q > 2
  {
    SizedAbove(p, q);
    hide Sized;
  }

  function LcmOf(a: nat, b: nat): nat
    requires a > 0 && b > 0
  {
    GcdDivides(a, b);
    QuotientNonNegative(a * b, Gcd(a, b));
    (a * b) / Gcd(a, b)
  }

  lemma QuotientNonNegative(a: int, d: int)
    requires d > 0 && a >= 0
    ensures a / d >= 0
  {
    DivMod(a, d);
    if a / d <= -1 { MulMonotone(a / d, -1, d); }
  }

  // The logarithm L(x) = (x - 1) / n.
  function L(x: nat, n: nat): int
    requires n > 0
  {
    (x - 1) / n
  }

  lemma LambdaFacts(p: nat, q: nat)
    requires p > 2 && q > 2
    ensures LcmOf(p - 1, q - 1) * Gcd(p - 1, q - 1) == (p - 1) * (q - 1)
    ensures 0 < LcmOf(p - 1, q - 1) < p * q
  {
    var k, l := Lcm(p - 1, q - 1);
    GcdDivides(p - 1, q - 1);
    DividesMul(Gcd(p - 1, q - 1), p - 1, q - 1);
    var t := DividesElim(Gcd(p - 1, q - 1), (p - 1) * (q - 1));
    MulMonotone(1, k, p - 1);
    MulMonotone(k, q - 1, p - 1);
    assert (p - 1) * (q - 1) == p * q - p - q + 1;
  }

  // L undoes g^lambda: the key generator's argument to the inverse is lambda itself.
  lemma LogOfGenerator(n: nat, x: nat)
    requires n > 1 && x < n
    ensures n * n > 0 && L(ModExp(n + 1, x, n * n), n) == x
  {
    hide Pow, Cong;
    ScaleBound(x, n);
    OnePlusPower(n, x);
    var r := ModExp(n + 1, x, n * n);
    CongTrans(r, Pow(n + 1, x), 1 + x * n, n * n);
    CongUnique(r, 1 + x * n, n * n);
    DivModUnique(x * n, n, x, 0);
  }

  // One iteration of the key generator on a pair of drawn primes.
  function KeyOf(p: nat, q: nat): (r: Option<Key>)
    requires p > 2 && q > 2
  {
    LambdaFacts(p, q);
    if p == q then None
    else
      var n := p * q;
      var lambda := LcmOf(p - 1, q - 1);
      match ModInverse(lambda, n)
      case None => None
      case Some(mu) => Some(Key(n, n * n, n + 1, lambda, mu))
  }

  lemma InverseNonZero(a: int, x: nat, m: nat)
    requires m > 1 && Cong(a * x, 1, m)
    ensures x != 0
  {
    if x == 0 {
      CongSym(0, 1, m);
      CongUnique(1, 0, m);
    }
  }

  lemma KeyOfValid(p: nat, q: nat)
    requires p > 2 && q > 2 && Prime(p) && Prime(q)
    ensures KeyOf(p, q).Some? <==> p != q && Coprime(LcmOf(p - 1, q - 1), p * q)
    ensures KeyOf(p, q).Some? ==> FromPrimes(KeyOf(p, q).value, p, q)
  {
    LambdaFacts(p, q);
    if KeyOf(p, q).Some? {
      var k := KeyOf(p, q).value;
      InverseNonZero(k.lambda, k.mu, k.n);
    }
  }

  // The key of the first usable pair among the primes drawn.
  function FirstKey(draws: seq<(nat, nat)>): Option<Key>
    requires forall d :: d in draws ==> d.0 > 2 && d.1 > 2
  {
    if draws == [] then None
    else if KeyOf(draws[0].0, draws[0].1).Some? then KeyOf(draws[0].0, draws[0].1)
    else FirstKey(draws[1..])
  }

  ghost predicate GivesKey(d: (nat, nat)) {
    d.0 > 2 && d.1 > 2 && d.0 != d.1 && Coprime(LcmOf(d.0 - 1, d.1 - 1), d.0 * d.1)
  }

  // The search ends at the first pair of distinct primes whose lambda is a unit, and nothing drawn
  // later can change its key.
  lemma {:induction false} FirstKeyIff(draws: seq<(nat, nat)>, more: seq<(nat, nat)>)
    requires forall d | d in draws || d in more :: d.0 > 2 && d.1 > 2 && Prime(d.0) && Prime(d.1)
    ensures FirstKey(draws).Some? <==> exists d :: d in draws && GivesKey(d)
    ensures FirstKey(draws).Some? ==> FirstKey(draws + more) == FirstKey(draws)
  {
    hide LcmOf, Coprime, Prime, KeyOf;
    if draws != [] {
      var d := draws[0];
      assert d in draws;
      KeyOfValid(d.0, d.1);
      assert (draws + more)[1..] == draws[1..] + more;
      FirstKeyIff(draws[1..], more);
      assert draws == [d] + draws[1..];
    }
  }

  // The size of each prime; small requests fall back to 2048 bits.
  function HalfBits(bits: int): (h: nat)
    ensures h >= 512
  {
    (if bits < 1024 then 2048 else bits) / 2
  }

  // What rand.Prime promises: primes of exactly the requested bit length.
  ghost predicate PrimeDraws(draws: seq<(nat, nat)>, half: nat)
    requires half > 0
  {
    forall d :: d in draws ==>
      && Prime(d.0) && Pow(2, half - 1) <= d.0 < Pow(2, half)
      && Prime(d.1) && Pow(2, half - 1) <= d.1 < Pow(2, half)
  }

  lemma PrimeDrawsLarge(draws: seq<(nat, nat)>, half: nat)
    requires half >= 512 && PrimeDraws(draws, half)
    ensures forall d :: d in draws ==> d.0 > 2 && d.1 > 2 && Sized(d.0, d.1)
  {
    hide Pow, Prime;
    forall d | d in draws ensures d.0 > 2 && d.1 > 2 && Sized(d.0, d.1) {
      var b: nat := half - 1;
      assert b >= 511 && d.0 >= Pow(2, b) && d.1 >= Pow(2, b);
      SizedMore(d.0, d.1);
    }
  }

  lemma MulStrict(p: int, q: int, h: int)
    requires 0 < p < h && 0 < q < h
    ensures p * q < h * h
  {
    MulMonotone(p, h, q);
    MulMonotone(q, h - 1, h);
    MulCommutes(h, q);
    assert (h - 1) * h == h * h - h;
  }

  lemma ModulusBelow(p: nat, q: nat, half: nat)
    requires 0 < p < Pow(2, half) && 0 < q < Pow(2, half)
    ensures p * q < Pow(2, 2 * half)
  {
    PowAdd(2, half, half);
    MulStrict(p, q, Pow(2, half));
  }

  lemma MulAtLeast(p: int, q: int, b: int)
    requires 0 < b <= p && b <= q
    ensures b * b <= p * q
  {
    MulMonotone(b, p, b);
    MulMonotone(b, q, p);
    MulCommutes(p, b);
    MulCommutes(p, q);
  }

  lemma ModulusAbove(p: nat, q: nat, half: nat)
    requires half > 0 && Pow(2, half - 1) <= p && Pow(2, half - 1) <= q
    ensures Pow(2, 2 * half - 2) <= p * q
  {
    hide Pow;
    PowPositive(2, half - 1);
    PowAdd(2, half - 1, half - 1);
    MulAtLeast(p, q, Pow(2, half - 1));
  }

  // The modulus of a key has the requested bits or one less, for an even number of them from 1024 on; a
  // smaller request counts as 2048.
  lemma KeyHasBits(bits: int, draws: seq<(nat, nat)>)
    requires PrimeDraws(draws, HalfBits(bits)) && (bits >= 1024 ==> bits % 2 == 0)
    ensures forall d :: d in draws ==> d.0 > 2 && d.1 > 2
    ensures FirstKey(draws).Some? ==>
      var size := if bits >= 1024 then bits else 2048;
      Pow(2, size - 2) <= FirstKey(draws).value.n < Pow(2, size)
  {
    PrimeDrawsLarge(draws, HalfBits(bits));
    var p, q := FirstKeyFrom(draws);
    if FirstKey(draws).Some? {
      hide Pow;
      ModulusBelow(p, q, HalfBits(bits));
      ModulusAbove(p, q, HalfBits(bits));
    }
  }

  lemma {:induction false} FirstKeyFrom(draws: seq<(nat, nat)>) returns (p: nat, q: nat)
    requires forall d :: d in draws ==> d.0 > 2 && d.1 > 2
    ensures FirstKey(draws).Some? ==> (p, q) in draws && FirstKey(draws).value.n == p * q
  {
    p, q := 0, 0;
    if draws != [] {
      if KeyOf(draws[0].0, draws[0].1).Some? {
        p, q := draws[0].0, draws[0].1;
      } else {
        p, q := FirstKeyFrom(draws[1..]);
      }
    }
  }

  // Key generation: draw prime pairs until one yields a key. Running out of randomness is
  // the source's reader failure.
  method NewPaillier(bits: int, draws: seq<(nat, nat)>) returns (r: Result<Key, Error>)
    requires PrimeDraws(draws, HalfBits(bits))
    ensures forall d :: d in draws ==> d.0 > 2 && d.1 > 2
    ensures r == match FirstKey(draws) case Some(k) => Ok(k) case None => Err(ErrKeyGen)
    ensures r.Ok? ==> Valid(r.value) && Pow(2, 2 * HalfBits(bits) - 2) <= r.value.n < Pow(2, 2 * HalfBits(bits))
  {
    PrimeDrawsLarge(draws, HalfBits(bits));
    var i := 0;
    while i < |draws|
      invariant 0 <= i <= |draws|
      invariant FirstKey(draws) == FirstKey(draws[i..])
    {
      var p, q := draws[i].0, draws[i].1;
      assert draws[i] in draws && draws[i..][1..] == draws[i + 1..];
      i := i + 1;
      KeyOfValid(p, q);
      if p == q {
        continue;
      }
      LambdaFacts(p, q);
      var n := p * q;
      var n2 := n * n;
      var lambda := LcmOf(p - 1, q - 1);
      var g := n + 1;
      LogOfGenerator(n, lambda);
      var x := ModExp(g, lambda, n2);
      var l := L(x, n);
      var mu := ModInverse(l, n);
      if mu.None? {
        continue;
      }
      ModulusBelow(p, q, HalfBits(bits));
      ModulusAbove(p, q, HalfBits(bits));
      return Ok(Key(n, n2, g, lambda, mu.value));
    }
    return Err(ErrKeyGen);
  }

  // ---------- encryption ----------

  ghost predicate Unit(k: Key, r: int)
    requires k.n > 0
  {
    0 < r < k.n && Coprime(r, k.n)
  }

  lemma KeySizes(k: Key)
    requires Valid(k)
    ensures k.n > 1 && k.n2 == k.n * k.n > k.n && k.g == k.n + 1 && k.n >= TWO_384
  {
    hide Sized;
    var p: nat, q: nat :| FromPrimes(k, p, q) && Sized(p, q);
    SizedAbove(p, q);
    KeyProducts(k, p, q);
  }

  lemma KeyProducts(k: Key, p: nat, q: nat)
    requires FromPrimes(k, p, q) && p > 2 && q > 2
    ensures k.n > 1 && k.n2 > k.n && k.n >= q
  {
    MulMonotone(2, p, q);
    MulMonotone(2, k.n, k.n);
  }

  function EncryptWithR(k: Key, m: int, r: int): Result<nat, Error>
    requires k.n2 > 0
  {
    if m < 0 || m >= k.n then Err(ErrEnc)
    else if r <= 0 || r >= k.n then Err(ErrEnc)
    else if Gcd(r, k.n) != 1 then Err(ErrEnc)
    else
      var gm := ModExp(k.g, m, k.n2);
      var rn := ModExp(r, k.n, k.n2);
      assert (gm * rn) % k.n2 >= 0;
      Ok((gm * rn) % k.n2)
  }

  function Add(k: Key, a: nat, b: nat): Result<nat, Error>
    requires k.n2 > 0
  {
    if a <= 0 || b <= 0 || a >= k.n2 || b >= k.n2 then Err(ErrAdd)
    else Ok((a * b) % k.n2)
  }

  function Decrypt(k: Key, c: nat): Result<nat, Error>
    requires k.n > 0 && k.n2 > 0
  {
    if c <= 0 || c >= k.n2 then Err(ErrDec)
    else
      var x := ModExp(c, k.lambda, k.n2);
      DivMod(L(x, k.n) * k.mu, k.n);
      Ok((L(x, k.n) * k.mu) % k.n)
  }

  // Addition takes any two numbers between zero and n^2, and multiplies them modulo n^2; decryption
  // takes any such number.
  lemma AddIff(k: Key, a: nat, b: nat)
    requires k.n > 0 && k.n2 > 0
    ensures Add(k, a, b).Ok? <==> 1 <= a <= k.n2 - 1 && 1 <= b <= k.n2 - 1
    ensures Add(k, a, b).Ok? ==> Add(k, a, b).value < k.n2 && Cong(Add(k, a, b).value, a * b, k.n2)
    ensures Decrypt(k, a).Ok? <==> 1 <= a <= k.n2 - 1
    ensures Decrypt(k, a).Ok? ==> Decrypt(k, a).value < k.n
  {
    hide Cong, ModExp, L;
    CongMod(a * b, k.n2);
  }

  // The ciphertext of m blinded by r, for any m.
  ghost function Cipher(k: Key, m: nat, r: int): (c: nat)
    requires k.n2 > 0
    ensures c < k.n2
  {
    CongMod(Pow(k.g, m) * Pow(r, k.n), k.n2);
    (Pow(k.g, m) * Pow(r, k.n)) % k.n2
  }

  lemma EncryptIsCipher(k: Key, m: int, r: int)
    requires Valid(k)
    ensures k.n2 > 0
    ensures EncryptWithR(k, m, r) == if 0 <= m < k.n && Unit(k, r) then Ok(Cipher(k, m, r)) else Err(ErrEnc)
  {
    KeySizes(k);
    if 0 <= m < k.n && Unit(k, r) {
      CongMul(ModExp(k.g, m, k.n2), Pow(k.g, m), ModExp(r, k.n, k.n2), Pow(r, k.n), k.n2);
      CongIffMod(ModExp(k.g, m, k.n2) * ModExp(r, k.n, k.n2), Pow(k.g, m) * Pow(r, k.n), k.n2);
    }
  }

  lemma CipherCong(k: Key, m: nat, r: int)
    requires k.n2 > 0
    ensures Cong(Cipher(k, m, r), Pow(k.g, m) * Pow(r, k.n), k.n2)
  {
    CongMod(Pow(k.g, m) * Pow(r, k.n), k.n2);
  }

  // The blinding factor r^n of a unit r has an inverse modulo n^2.
  lemma BlindingInverse(k: Key, r: int) returns (v: int)
    requires Valid(k) && Unit(k, r)
    ensures k.n2 > 0 && Cong(Pow(r, k.n) * v, 1, k.n2)
  {
    KeySizes(k);
    var w := ModInverse(r, k.n).value;
    LiftPower(r * w, 1, k.n);
    PowOne(k.n);
    PowDistrib(r, w, k.n);
    v := Pow(w, k.n);
  }

  lemma GeneratorPower(k: Key, m: nat)
    requires Valid(k)
    ensures k.n2 > 0 && Cong(Pow(k.g, m), 1 + m * k.n, k.n2)
    ensures Cong(Pow(k.g, m) * (1 - m * k.n), 1, k.n2)
  {
    KeySizes(k);
    OnePlusPower(k.n, m);
    CongScale(Pow(k.g, m), 1 + m * k.n, 1 - m * k.n, k.n2);
    var t := m * k.n;
    assert t * t == (m * m) * k.n2 by { assert (m * k.n) * (m * k.n) == (m * m) * (k.n * k.n) by { MulSwap(m, k.n); } }
    assert (1 + t) * (1 - t) == 1 - t * t;
    assert (1 + t) * (1 - t) == 1 + (-(m * m)) * k.n2;
    CongIntro((1 + t) * (1 - t), 1, k.n2, -(m * m));
    CongTrans(Pow(k.g, m) * (1 - t), (1 + t) * (1 - t), 1, k.n2);
  }

  lemma MulSwap(a: int, b: int)
    ensures (a * b) * (a * b) == (a * a) * (b * b)
  {
    calc {
      (a * b) * (a * b);
      a * (b * (a * b));
      a * (a * (b * b));
      (a * a) * (b * b);
    }
  }

  // A ciphertext with unit blinding is itself invertible, so never zero.
  lemma CipherNonZero(k: Key, m: nat, r: int)
    requires Valid(k) && Unit(k, r)
    ensures k.n2 > 0 && 0 < Cipher(k, m, r) < k.n2
  {
    KeySizes(k);
    var c := Cipher(k, m, r);
    if c == 0 {
      CipherCong(k, m, r);
      var v := BlindingInverse(k, r);
      GeneratorPower(k, m);
      var gm, rn, u := Pow(k.g, m), Pow(r, k.n), 1 - m * k.n;
      CongScale(c, gm * rn, v * u, k.n2);
      CongMul(gm * u, 1, rn * v, 1, k.n2);
      assert (gm * rn) * (v * u) == (gm * u) * (rn * v) by { FourSwap(gm, rn, v, u); }
      CongTrans(c * (v * u), (gm * rn) * (v * u), 1, k.n2);
      CongUnique(0, 1, k.n2);
    }
  }

  lemma FourSwap(a: int, b: int, c: int, d: int)
    ensures (a * b) * (c * d) == (a * d) * (b * c)
  {
    calc {
      (a * b) * (c * d);
      a * (b * (c * d));
      a * ((b * c) * d);
      a * (d * (b * c));
      (a * d) * (b * c);
    }
  }

  // Blinding factors may be reduced modulo n before or after the n-th power.
  lemma CipherReduce(k: Key, m: nat, r: int)
    requires Valid(k)
    ensures k.n2 > 0 && k.n > 0 && Cipher(k, m, r % k.n) == Cipher(k, m, r)
  {
    KeySizes(k);
    CongMod(r, k.n);
    LiftPower(r % k.n, r, k.n);
    CongScale(Pow(r % k.n, k.n), Pow(r, k.n), Pow(k.g, m), k.n2);
    CongIffMod(Pow(k.g, m) * Pow(r % k.n, k.n), Pow(k.g, m) * Pow(r, k.n), k.n2);
  }

  lemma UnitProduct(k: Key, r: int, s: int)
    requires Valid(k) && Unit(k, r) && Unit(k, s)
    ensures k.n > 0 && Unit(k, (r * s) % k.n)
  {
    KeySizes(k);
    var v, w := ModInverse(r, k.n).value, ModInverse(s, k.n).value;
    var t := (r * s) % k.n;
    CongMod(r * s, k.n);
    CongMul(r * v, 1, s * w, 1, k.n);
    FourSwap(r, v, w, s);
    assert (r * v) * (s * w) == (r * s) * (v * w) by { FourSwap(r, v, s, w); FourSwap(r, s, v, w); }
    CongScale(t, r * s, v * w, k.n);
    CongTrans(t * (v * w), (r * s) * (v * w), 1, k.n);
    CoprimeFromInverse(t, k.n, v * w);
    if t == 0 {
      CongUnique(0, 1, k.n);
    }
  }

  // Adding ciphertexts adds the plaintexts and multiplies the blinding factors.
  lemma AddHomomorphic(k: Key, m1: nat, r1: int, m2: nat, r2: int)
    requires Valid(k) && Unit(k, r1) && Unit(k, r2)
    ensures k.n2 > 0 && k.n > 0
    ensures Add(k, Cipher(k, m1, r1), Cipher(k, m2, r2)) == Ok(Cipher(k, m1 + m2, (r1 * r2) % k.n))
  {
    KeySizes(k);
    CipherNonZero(k, m1, r1);
    CipherNonZero(k, m2, r2);
    CipherCong(k, m1, r1);
    CipherCong(k, m2, r2);
    var a1, b1, a2, b2 := Pow(k.g, m1), Pow(r1, k.n), Pow(k.g, m2), Pow(r2, k.n);
    CongMul(Cipher(k, m1, r1), a1 * b1, Cipher(k, m2, r2), a2 * b2, k.n2);
    PowAdd(k.g, m1, m2);
    PowDistrib(r1, r2, k.n);
    assert (a1 * b1) * (a2 * b2) == (a1 * a2) * (b1 * b2) by { FourSwap(a1, b1, b2, a2); }
    CongIffMod(Cipher(k, m1, r1) * Cipher(k, m2, r2), (a1 * a2) * (b1 * b2), k.n2);
    CipherReduce(k, m1 + m2, r1 * r2);
  }

  // ---------- decryption ----------

  lemma UnitNotDivisible(n: nat, p: nat, q: nat, r: nat)
    requires Prime(p) && q > 0 && n == p * q && Coprime(r, n)
    ensures !Divides(p, r)
  {
    MulMonotone(1, q, p);
    DividesIntro(p, n, q);
    CoprimeDivisor(r, n, p);
  }

  lemma MulCommutes(a: int, b: int)
    ensures a * b == b * a
  {
  }

  // lambda is a common multiple of p-1 and q-1.
  lemma LambdaMultiples(p: nat, q: nat, lambda: nat) returns (a: nat, b: nat)
    requires p > 2 && q > 2 && lambda * Gcd(p - 1, q - 1) == (p - 1) * (q - 1)
    ensures lambda == a * (p - 1) == b * (q - 1)
  {
    GcdDivides(p - 1, q - 1);
    DividesIntro(Gcd(p - 1, q - 1), (p - 1) * (q - 1), lambda);
    a, b := Lcm(p - 1, q - 1);
  }

  // Carmichael: every unit to the lambda is one modulo n.
  lemma UnitOrder(k: Key, p: nat, q: nat, r: int)
    requires FromPrimes(k, p, q) && p > 2 && q > 2 && k.n > 0 && Unit(k, r)
    ensures Cong(Pow(r, k.lambda), 1, k.n)
  {
    var a, b := LambdaMultiples(p, q, k.lambda);
    UnitNotDivisible(k.n, p, q, r);
    MulCommutes(p, q);
    UnitNotDivisible(k.n, q, p, r);
    FermatMultiple(p, r, a);
    FermatMultiple(q, r, b);
    CongProduct(Pow(r, k.lambda), 1, p, q);
  }

  // Decryption recovers the plaintext modulo n, whatever unit blinds it.
  lemma DecryptCorrect(k: Key, m: nat, r: int)
    requires Valid(k) && Unit(k, r)
    ensures k.n > 0 && k.n2 > 0 && Decrypt(k, Cipher(k, m, r)) == Ok(m % k.n)
  {
    KeySizes(k);
    hide Sized;
    var p: nat, q: nat :| FromPrimes(k, p, q) && Sized(p, q);
    SizedMore(p, q);
    CipherNonZero(k, m, r);
    var c := Cipher(k, m, r);
    CipherCong(k, m, r);
    CongPow(c, Pow(k.g, m) * Pow(r, k.n), k.lambda, k.n2);
    PowDistrib(Pow(k.g, m), Pow(r, k.n), k.lambda);
    // the blinding factor disappears
    UnitOrder(k, p, q, r);
    PowMul(r, k.n, k.lambda);
    PowMul(r, k.lambda, k.n);
    assert k.n * k.lambda == k.lambda * k.n;
    LiftPower(Pow(r, k.lambda), 1, k.n);
    PowOne(k.n);
    // the generator leaves m * lambda
    PowMul(k.g, m, k.lambda);
    GeneratorPower(k, m * k.lambda);
    CongMul(Pow(k.g, m * k.lambda), 1 + (m * k.lambda) * k.n, Pow(Pow(r, k.n), k.lambda), 1, k.n2);
    assert Cong(Pow(c, k.lambda), 1 + (m * k.lambda) * k.n, k.n2) by {
      CongTrans(Pow(c, k.lambda), Pow(k.g, m * k.lambda) * Pow(Pow(r, k.n), k.lambda), (1 + (m * k.lambda) * k.n) * 1, k.n2);
    }
    DecryptLog(k, m, c);
  }

  lemma DecryptLog(k: Key, m: nat, c: nat)
    requires Valid(k) && k.n2 > 0 && k.n > 0 && 0 < c < k.n2
    requires m * k.lambda >= 0 && Cong(Pow(c, k.lambda), 1 + (m * k.lambda) * k.n, k.n2)
    ensures Decrypt(k, c) == Ok(m % k.n)
  {
    KeySizes(k);
    hide Sized;
    var p: nat, q: nat :| FromPrimes(k, p, q) && Sized(p, q);
    var v := m * k.lambda;
    var x := ModExp(c, k.lambda, k.n2);
    CongTrans(x, Pow(c, k.lambda), 1 + v * k.n, k.n2);
    LogOfResidue(k.n, k.n2, x, v);
    UndoLambda(k.n, m, k.lambda, k.mu, v % k.n);
  }

  // L takes a residue congruent to 1 + v n to v modulo n.
  lemma LogOfResidue(n: nat, n2: nat, x: nat, v: nat)
    requires n > 1 && n2 == n * n && n2 > 0 && x < n2 && Cong(x, 1 + v * n, n2)
    ensures L(x, n) == v % n
  {
    var w := v % n;
    CongMod(v, n);
    ScaleModulus(v, w, n, n2);
    CongRefl(1, n2);
    CongAdd(1, 1, v * n, w * n, n2);
    CongTrans(x, 1 + v * n, 1 + w * n, n2);
    ScaleBound(w, n);
    CongUnique(x, 1 + w * n, n2);
    DivModUnique(w * n, n, w, 0);
  }

  lemma ScaleModulus(a: int, b: int, n: int, n2: int)
    requires n > 0 && n2 == n * n && n2 > 0 && Cong(a, b, n)
    ensures Cong(a * n, b * n, n2)
  {
    var t := CongElim(a, b, n);
    assert (b + t * n) * n == b * n + (t * n) * n;
    MulAssoc(t, n, n);
    CongIntro(a * n, b * n, n2, t);
  }

  lemma ScaleBound(w: int, n: int)
    requires n > 1 && 0 <= w < n
    ensures 0 <= w * n && 1 + w * n < n * n
  {
    MulMonotone(w, n - 1, n);
    MulMonotone(0, w, n);
    assert (n - 1) * n == n * n - n;
  }

  lemma MulAssoc(a: int, b: int, c: int)
    ensures (a * b) * c == a * (b * c)
  {
  }

  // Multiplying by mu removes lambda.
  lemma UndoLambda(n: nat, m: nat, lambda: nat, mu: nat, w: nat)
    requires n > 0 && Cong(lambda * mu, 1, n) && m * lambda >= 0 && w == (m * lambda) % n
    ensures (w * mu) % n == m % n
  {
    CongMod(m * lambda, n);
    CongScale(w, m * lambda, mu, n);
    CongScale(lambda * mu, 1, m, n);
    MulAssoc(m, lambda, mu);
    CongTrans(w * mu, m * (lambda * mu), m * 1, n);
    CongIffMod(w * mu, m, n);
  }

  // ---------- the equality proof ----------

  // The Fiat-Shamir challenge: the hash modulo n, never zero.
  function Challenge(h: Oracle, n: nat, ct: nat, m: nat, a: nat): (e: nat)
    requires n > 0
    ensures 1 <= e <= TWO_256
  {
    DivMod(h(ct, m, a), n);
    QuotientNonNegative(h(ct, m, a), n);
    MulMonotone(0, h(ct, m, a) / n, n);
    var e := h(ct, m, a) % n;
    if e == 0 then 1 else e
  }

  // s is the prover's random draw.
  function ProveEqual(h: Oracle, k: Key, ct: nat, m: int, r: int, s: int): Result<Proof, Error>
    requires k.n > 0 && k.n2 > 0
  {
    if ct <= 0 || ct >= k.n2 then Err(ErrEnc)
    else if m < 0 || m >= k.n then Err(ErrEnc)
    else if r <= 0 || r >= k.n then Err(ErrEnc)
    else if s <= 0 || s >= k.n then Err(ErrEnc)
    else
      var a := ModExp(s, k.n, k.n2);
      var e := Challenge(h, k.n, ct, m, a);
      CongMod(ModExp(r, e, k.n) * s, k.n);
      Ok(Proof(a, (ModExp(r, e, k.n) * s) % k.n))
  }

  // Reads the public n, n2 and g only.
  function VerifyEqual(h: Oracle, n: nat, n2: nat, g: nat, ct: nat, m: int, proof: Proof): bool
    requires n > 0 && n2 > 1
  {
    if ct <= 0 || ct >= n2 then false
    else if m < 0 || m >= n then false
    else if proof.a <= 0 || proof.a >= n2 || proof.z >= n then false
    else
      var e := Challenge(h, n, ct, m, proof.a);
      var lhs := ModExp(proof.z, n, n2);
      var gm := ModExp(g, m, n2);
      match ModInverse(gm, n2)
      case None => false
      case Some(inv) =>
        var rhs := (ModExp((ct * inv) % n2, e, n2) * proof.a) % n2;
        lhs == rhs
  }

  lemma {:induction false} PrimeDividesPower(p: nat, a: nat, e: nat)
    requires Prime(p) && Divides(p, Pow(a, e))
    ensures Divides(p, a)
  {
    if e == 0 {
      DividesSmall(p, 1);
    } else {
      PrimeDividesProduct(p, a, Pow(a, e - 1));
      if !Divides(p, a) { PrimeDividesPower(p, a, e - 1); }
    }
  }

  // A draw in [1, n) avoids at least one of the two primes.
  lemma SomePrimeAvoids(k: Key, s: int) returns (p: nat, q: nat)
    requires Valid(k) && 0 < s < k.n
    ensures Prime(p) && p >= TWO_384 && q > 0 && k.n == p * q && !Divides(p, s)
  {
    hide Sized;
    p, q :| FromPrimes(k, p, q) && Sized(p, q);
    SizedAbove(p, q);
    if Divides(p, s) {
      if Divides(q, s) {
        assert s - 0 == s;
        CongProduct(s, 0, p, q);
        DividesSmall(p * q, s);
      }
      assert k.n == q * p;
      p, q := q, p;
    }
  }

  // The residue left over when the transcript's two sides are compared.
  ghost function Residue(k: Key, r: int, s: int, e: nat): int
    requires k.n >= 0
  {
    Pow(s, k.n) * Pow(Pow(r, k.n), e)
  }

  lemma PowSwap(b: int, e: nat, f: nat)
    ensures Pow(Pow(b, e), f) == Pow(Pow(b, f), e)
  {
    PowMul(b, e, f);
    PowMul(b, f, e);
    MulCommutes(e, f);
  }

  // What the verifier's left side amounts to.
  lemma ResponsePower(k: Key, r: int, s: int, e: nat)
    requires Valid(k) && k.n > 0 && k.n2 > 0
    ensures Cong(ModExp((ModExp(r, e, k.n) * s) % k.n, k.n, k.n2), Residue(k, r, s, e), k.n2)
  {
    KeySizes(k);
    var z := (ModExp(r, e, k.n) * s) % k.n;
    CongMod(ModExp(r, e, k.n) * s, k.n);
    CongScale(ModExp(r, e, k.n), Pow(r, e), s, k.n);
    CongTrans(z, ModExp(r, e, k.n) * s, Pow(r, e) * s, k.n);
    LiftPower(z, Pow(r, e) * s, k.n);
    PowDistrib(Pow(r, e), s, k.n);
    PowSwap(r, e, k.n);
    CongTrans(ModExp(z, k.n, k.n2), Pow(z, k.n), Pow(Pow(r, e) * s, k.n), k.n2);
    MulCommutes(Pow(Pow(r, e), k.n), Pow(s, k.n));
  }

  // The verifier's inverse of g^m is 1 - m n.
  lemma ClaimInverse(k: Key, m: nat, inv: nat)
    requires Valid(k) && k.n2 > 0 && Cong(ModExp(k.g, m, k.n2) * inv, 1, k.n2)
    ensures Cong(inv, 1 - m * k.n, k.n2)
  {
    hide Pow, Cong, Valid;
    CongScale(ModExp(k.g, m, k.n2), Pow(k.g, m), inv, k.n2);
    CongSym(ModExp(k.g, m, k.n2) * inv, Pow(k.g, m) * inv, k.n2);
    CongTrans(Pow(k.g, m) * inv, ModExp(k.g, m, k.n2) * inv, 1, k.n2);
    GeneratorPower(k, m);
    InverseUnique(Pow(k.g, m), inv, 1 - m * k.n, k.n2);
  }

  // Dividing the claim out of the ciphertext leaves r^n (1 + (sum - m) n).
  lemma Unblinded(k: Key, sum: nat, m: nat, r: int, inv: nat)
    requires Valid(k) && k.n2 > 0 && Cong(inv, 1 - m * k.n, k.n2)
    ensures k.n > 0 && Cong((Cipher(k, sum, r) * inv) % k.n2, Pow(r, k.n) * (1 + (sum - m) * k.n), k.n2)
  {
    KeySizes(k);
    hide Pow, Cong, Valid, Cipher;
    var c, g, rn := Cipher(k, sum, r), Pow(k.g, sum), Pow(r, k.n);
    var u, v, d := 1 + sum * k.n, 1 - m * k.n, 1 + (sum - m) * k.n;
    CipherCong(k, sum, r);
    CongMul(c, g * rn, inv, v, k.n2);
    GeneratorPower(k, sum);
    CongScale(g, u, rn * v, k.n2);
    MulAssoc(g, rn, v);
    CongTrans(c * inv, g * (rn * v), u * (rn * v), k.n2);
    ProductOfLogs(sum, m, k.n, rn);
    CongIntro(u * (rn * v), rn * d, k.n2, -(rn * (sum * m)));
    CongTrans(c * inv, u * (rn * v), rn * d, k.n2);
    CongMod(c * inv, k.n2);
    CongTrans((c * inv) % k.n2, c * inv, rn * d, k.n2);
  }

  // What the verifier's right side amounts to when the ciphertext holds sum.
  lemma UnblindedPower(k: Key, sum: nat, m: nat, r: int, e: nat, inv: nat)
    requires Valid(k) && k.n2 > 0 && e > 0
    requires Cong(ModExp(k.g, m, k.n2) * inv, 1, k.n2)
    ensures k.n > 0 && Cong(ModExp((Cipher(k, sum, r) * inv) % k.n2, e, k.n2),
                            Pow(Pow(r, k.n), e) * (1 + e * (sum - m) * k.n), k.n2)
  {
    KeySizes(k);
    ClaimInverse(k, m, inv);
    Unblinded(k, sum, m, r, inv);
    PowerOfLog((Cipher(k, sum, r) * inv) % k.n2, Pow(r, k.n), sum - m, k.n, e, k.n2);
  }

  lemma PowerOfLog(u: nat, rn: int, d: int, n: nat, e: nat, n2: nat)
    requires n > 0 && n2 == n * n && n2 > 0 && e > 0 && Cong(u, rn * (1 + d * n), n2)
    ensures Cong(ModExp(u, e, n2), Pow(rn, e) * (1 + e * d * n), n2)
  {
    PowOne(e);
    PowOne(e - 1);
    FirstOrder(1, d, n, e);
    hide Pow, Cong;
    var t, w := 1 + d * n, 1 + e * d * n;
    CongPow(u, rn * t, e, n2);
    PowDistrib(rn, t, e);
    assert Pow(1, e) + e * d * n * Pow(1, e - 1) == w;
    CongScale(Pow(t, e), w, Pow(rn, e), n2);
    CongTrans(Pow(u, e), Pow(rn, e) * Pow(t, e), Pow(rn, e) * w, n2);
    CongTrans(ModExp(u, e, n2), Pow(u, e), Pow(rn, e) * w, n2);
  }

  lemma ProductOfLogs(a: int, b: int, n: int, r: int)
    ensures (1 + a * n) * (r * (1 - b * n)) == r * (1 + (a - b) * n) + (-(r * (a * b))) * (n * n)
  {
    var x, y := a * n, b * n;
    assert x * y == (a * b) * (n * n) by { FourSwap(a, n, n, b); }
    calc {
      (1 + x) * (r * (1 - y));
      r * ((1 + x) * (1 - y));
      r * (1 + x - y - x * y);
      r * (1 + (x - y)) - r * (x * y);
      { assert r * (x * y) == (r * (a * b)) * (n * n); assert x - y == (a - b) * n; }
      r * (1 + (a - b) * n) - (r * (a * b)) * (n * n);
    }
  }

  lemma SwapFactors(x: int, t: int, y: int)
    ensures (x * t) * y == (y * x) * t
  {
  }

  // The honest transcript for claim m verifies exactly when n divides the discrepancy
  // times the blinding residue; when it does, no key secret was used.
  lemma TranscriptCondition(h: Oracle, k: Key, sum: nat, m: nat, r: int, s: int)
    requires Valid(k) && Unit(k, r) && m < k.n && 0 < s < k.n
    ensures k.n > 0 && k.n2 > 1
    ensures ProveEqual(h, k, Cipher(k, sum, r), m, r, s).Ok?
    ensures
      var proof := ProveEqual(h, k, Cipher(k, sum, r), m, r, s).value;
      var e := Challenge(h, k.n, Cipher(k, sum, r), m, proof.a);
      VerifyEqual(h, k.n, k.n2, k.g, Cipher(k, sum, r), m, proof)
      <==> Divides(k.n, Residue(k, r, s, e) * (e * (sum - m)))
  {
    hide Pow, Cong, Divides, Cipher, Valid;
    KeySizes(k);
    var c := Cipher(k, sum, r);
    CipherNonZero(k, sum, r);
    var proof := ProveEqual(h, k, c, m, r, s).value;
    CommitmentNonZero(k, s);
    var e := Challenge(h, k.n, c, m, proof.a);
    var gm := ModExp(k.g, m, k.n2);
    GeneratorPower(k, m);
    CongScale(gm, Pow(k.g, m), 1 - m * k.n, k.n2);
    CongTrans(gm * (1 - m * k.n), Pow(k.g, m) * (1 - m * k.n), 1, k.n2);
    CoprimeFromInverse(gm, k.n2, 1 - m * k.n);
    var inv := ModInverse(gm, k.n2).value;
    var lhs := ModExp(proof.z, k.n, k.n2);
    ResponsePower(k, r, s, e);
    UnblindedPower(k, sum, m, r, e, inv);
    var u := ModExp((c * inv) % k.n2, e, k.n2);
    var res, w := Residue(k, r, s, e), e * (sum - m);
    CongMul(u, Pow(Pow(r, k.n), e) * (1 + w * k.n), proof.a, Pow(s, k.n), k.n2);
    SwapFactors(Pow(Pow(r, k.n), e), 1 + w * k.n, Pow(s, k.n));
    CongMod(u * proof.a, k.n2);
    CompareSides(lhs, u * proof.a, res, w, k.n, k.n2);
  }

  // lhs = res and rhs = res (1 + w n) modulo n^2 agree exactly when n divides res w.
  lemma CompareSides(lhs: int, rhs: int, res: int, w: int, n: nat, n2: nat)
    requires n > 0 && n2 == n * n && n2 > 0 && 0 <= lhs < n2
    requires Cong(lhs, res, n2) && Cong(rhs, res * (1 + w * n), n2)
    ensures lhs == rhs % n2 <==> Divides(n, res * w)
  {
    hide Cong, Divides;
    CongIffMod(lhs, rhs, n2);
    DivModUnique(lhs, n2, 0, lhs);
    var t := res * w;
    assert res * (1 + w * n) == res + t * n by { assert res * (w * n) == t * n; }
    if Cong(lhs, rhs, n2) {
      CongSym(lhs, res, n2);
      CongTrans(res, lhs, rhs, n2);
      CongTrans(res, rhs, res + t * n, n2);
      CongSym(res, res + t * n, n2);
      var j := CongElim(res + t * n, res, n2);
      assert t * n == (j * n) * n;
      MulCancel(t, j * n, n);
      DividesIntro(n, t, j);
    }
    if Divides(n, t) {
      var j := DividesElim(n, t);
      assert t * n == j * n2;
      CongIntro(res + t * n, res, n2, j);
      CongTrans(rhs, res + t * n, res, n2);
      CongSym(rhs, res, n2);
      CongTrans(lhs, res, rhs, n2);
    }
  }

  lemma MulCancel(a: int, b: int, c: int)
    requires c > 0 && a * c == b * c
    ensures a == b
  {
    assert (a - b) * c == 0;
    if a > b { MulMonotone(1, a - b, c); }
    if a < b { MulMonotone(a - b, -1, c); }
  }

  lemma CommitmentNonZero(k: Key, s: int)
    requires Valid(k) && 0 < s < k.n
    ensures k.n2 > 0 && ModExp(s, k.n, k.n2) > 0
  {
    hide Pow, Divides;
    KeySizes(k);
    if ModExp(s, k.n, k.n2) == 0 {
      var p, q := SomePrimeAvoids(k, s);
      CongSym(0, Pow(s, k.n), k.n2);
      assert k.n2 == (q * k.n) * p by { assert (p * q) * k.n == (q * k.n) * p; }
      DividesIntro(p, k.n2, q * k.n);
      CongDown(Pow(s, k.n), 0, k.n2, p);
      PrimeDividesPower(p, s, k.n);
    }
  }

  // The gate: for every nonzero draw and every hash, the prover's own transcript for the
  // claimed amount verifies exactly when the ciphertext holds that amount.
  lemma TranscriptVerifiesIff(h: Oracle, k: Key, sum: nat, m: nat, r: int, s: int)
    requires Valid(k) && Unit(k, r) && 0 < s < k.n
    requires m < k.n && -TWO_126 < sum - m < TWO_126
    ensures k.n > 0 && k.n2 > 1
    ensures ProveEqual(h, k, Cipher(k, sum, r), m, r, s).Ok?
    ensures VerifyEqual(h, k.n, k.n2, k.g, Cipher(k, sum, r), m, ProveEqual(h, k, Cipher(k, sum, r), m, r, s).value)
            <==> sum == m
  {
    KeySizes(k);
    TranscriptCondition(h, k, sum, m, r, s);
    var proof := ProveEqual(h, k, Cipher(k, sum, r), m, r, s).value;
    var e := Challenge(h, k.n, Cipher(k, sum, r), m, proof.a);
    if sum == m {
      assert Residue(k, r, s, e) * (e * (sum - m)) == 0;
      DividesIntro(k.n, 0, 0);
    } else {
      DiscrepancySurvives(k, r, s, e, sum - m);
    }
  }

  // A nonzero discrepancy of fewer than 126 bits times a challenge of at most 256 bits is
  // not a multiple of a prime of 512 bits, and neither power in the residue is.
  lemma DiscrepancySurvives(k: Key, r: int, s: int, e: nat, d: int)
    requires Valid(k) && k.n > 0 && Unit(k, r) && 0 < s < k.n
    requires 1 <= e <= TWO_256 && -TWO_126 < d < TWO_126 && d != 0
    ensures !Divides(k.n, Residue(k, r, s, e) * (e * d))
  {
    var t := Residue(k, r, s, e) * (e * d);
    if Divides(k.n, t) {
      var p, q := SomePrimeAvoids(k, s);
      UnitNotDivisible(k.n, p, q, r);
      MulCommutes(p, q);
      DividesIntro(p, k.n, q);
      DividesTrans(p, k.n, t);
      ResidueAvoids(k, p, r, s, e);
      PrimeDividesProduct(p, Residue(k, r, s, e), e * d);
      SmallProduct(e, d);
      DividesSmall(p, e * d);
    }
  }

  lemma DividesTrans(p: int, n: int, t: int)
    requires p > 0 && n > 0 && Divides(p, n) && Divides(n, t)
    ensures Divides(p, t)
  {
    assert t - 0 == t;
    CongDown(t, 0, n, p);
  }

  lemma ResidueAvoids(k: Key, p: nat, r: int, s: int, e: nat)
    requires Prime(p) && r > 0 && s > 0 && !Divides(p, r) && !Divides(p, s)
    ensures Residue(k, r, s, e) >= 0 && !Divides(p, Residue(k, r, s, e))
  {
    PowPositive(s, k.n);
    PowPositive(r, k.n);
    PowPositive(Pow(r, k.n), e);
    MulMonotone(0, Pow(s, k.n), Pow(Pow(r, k.n), e));
    if Divides(p, Residue(k, r, s, e)) {
      PrimeDividesProduct(p, Pow(s, k.n), Pow(Pow(r, k.n), e));
      if Divides(p, Pow(s, k.n)) {
        PrimeDividesPower(p, s, k.n);
      } else {
        PrimeDividesPower(p, Pow(r, k.n), e);
        PrimeDividesPower(p, r, k.n);
      }
    }
  }

  lemma SmallProduct(e: nat, d: int)
    requires 1 <= e <= TWO_256 && -TWO_126 < d < TWO_126 && d != 0
    ensures e * d != 0 && -TWO_384 < e * d < TWO_384
  {
    var b := if d > 0 then d else -d;
    MulMonotone(1, e, b);
    MulMonotone(e, TWO_256, b);
    MulMonotone(b, TWO_126, TWO_256);
    assert TWO_126 * TWO_256 < TWO_384;
    assert e * d == if d > 0 then e * b else -(e * b);
  }
}
