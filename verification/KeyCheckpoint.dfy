// Private key checkpoints (internal/he/checkpoint.go).
module KeyCheckpoint {
  import opened Wrappers
  import opened NumberTheory
  import opened BigEndian
  import opened Paillier

  datatype KeyState = KeyState(n: seq<byte>, lambda: seq<byte>, mu: seq<byte>)

  datatype InvalidKey = InvalidKey

  function PrivateState(k: Key): KeyState {
    KeyState(Bytes(k.n), Bytes(k.lambda), Bytes(k.mu))
  }

  function RestorePrivate(s: KeyState): (r: Result<Key, InvalidKey>)
    ensures r.Ok? ==>
      var k := r.value;
      k.n > 1 && k.n2 == k.n * k.n && k.g == k.n + 1
      && 0 < k.lambda < k.n && 0 < k.mu < k.n && Cong(k.lambda * k.mu, 1, k.n)
  {
    if |s.n| < 128 || |s.n| > 1024 || |s.lambda| > |s.n| || |s.mu| > |s.n| then Err(InvalidKey)
    else
      var n, lambda, mu := SetBytes(s.n), SetBytes(s.lambda), SetBytes(s.mu);
      if n % 2 == 0 || lambda <= 0 || lambda >= n || mu <= 0 || mu >= n then Err(InvalidKey)
      else
        var inv := ModInverse(lambda, n);
        if inv.None? || inv.value != mu then Err(InvalidKey)
        else Ok(Key(n, n * n, n + 1, lambda, mu))
  }

  // A stored key is accepted exactly when its modulus is an odd number of 128 to 1024 bytes, the other
  // two have no more bytes, lie between zero and it, and are inverse to each other; the key is theirs.
  lemma RestoreIff(s: KeyState)
    ensures
      var n, lambda, mu := SetBytes(s.n), SetBytes(s.lambda), SetBytes(s.mu);
      && (RestorePrivate(s).Ok? <==>
            && 128 <= |s.n| <= 1024 && |s.lambda| <= |s.n| && |s.mu| <= |s.n| && n % 2 == 1
            && 1 <= lambda <= n - 1 && 1 <= mu <= n - 1 && Cong(lambda * mu, 1, n))
      && (RestorePrivate(s).Ok? ==> RestorePrivate(s).value == Key(n, n * n, n + 1, lambda, mu))
  {
    hide SetBytes, Cong;
    var n, lambda, mu := SetBytes(s.n), SetBytes(s.lambda), SetBytes(s.mu);
    if 0 < lambda < n && 0 < mu < n && Cong(lambda * mu, 1, n) {
      CoprimeFromInverse(lambda, n, mu);
      var inv := ModInverse(lambda, n).value;
      InverseUnique(lambda, inv, mu, n);
      CongUnique(inv, mu, n);
    }
  }

  lemma OddModulus(k: Key)
    requires Valid(k)
    ensures k.n % 2 == 1
  {
    hide Sized;
    var p: nat, q: nat :| FromPrimes(k, p, q) && Sized(p, q);
    SizedMore(p, q);
    assert !Divides(2, p) && !Divides(2, q);
    OddProduct(p, q);
  }

  lemma OddProduct(p: int, q: int)
    requires p % 2 == 1 && q % 2 == 1
    ensures (p * q) % 2 == 1
  {
    var a, b := p / 2, q / 2;
    assert p == 2 * a + 1 && q == 2 * b + 1;
    assert p * q == (2 * a * b + a + b) * 2 + 1;
    DivModUnique(p * q, 2, 2 * a * b + a + b, 1);
  }

  lemma ModulusBytes(k: Key)
    requires Valid(k)
    ensures |Bytes(k.n)| >= 128
  {
    assert Pow(2, 8) == 256;
    hide Pow, Prime, Cong;
    var p: nat, q: nat :| FromPrimes(k, p, q) && Sized(p, q);
    var b: nat :| b >= 511 && p >= Pow(2, b) && q >= Pow(2, b);
    BytesLength(k.n, 127);
    PowMul(2, 8, 127);
    PowMonotone(2, 1016, 2 * b);
    ModulusAbove(p, q, b + 1);
  }

  // A generated key comes back identical exactly when its modulus fits 1024 bytes.
  lemma KeyRoundTrip(k: Key)
    requires Valid(k)
    ensures RestorePrivate(PrivateState(k)) == Ok(k) <==> k.n < Pow(256, 1024)
    ensures k.n >= Pow(256, 1024) ==> RestorePrivate(PrivateState(k)).Err?
  {
    hide Pow, Cong, Coprime;
    KeySizes(k);
    BytesLength(k.n, 1024);
    SetBytesOfBytes(k.n);
    SetBytesOfBytes(k.lambda);
    SetBytesOfBytes(k.mu);
    BytesMonotone(k.lambda, k.n);
    BytesMonotone(k.mu, k.n);
    ModulusBytes(k);
    OddModulus(k);
    CoprimeFromInverse(k.lambda, k.n, k.mu);
    var inv := ModInverse(k.lambda, k.n).value;
    InverseUnique(k.lambda, inv, k.mu, k.n);
    CongUnique(inv, k.mu, k.n);
  }

  // Key generation with at most 8192 bits stays inside that limit.
  lemma GeneratedKeyRoundTrip(k: Key, bits: int)
    requires Valid(k) && k.n < Pow(2, 2 * HalfBits(bits)) && bits <= 8192
    ensures RestorePrivate(PrivateState(k)) == Ok(k)
  {
    PowMul(2, 8, 1024);
    assert Pow(2, 8) == 256;
    PowMonotone(2, 2 * HalfBits(bits), 8192);
    KeyRoundTrip(k);
  }
}
