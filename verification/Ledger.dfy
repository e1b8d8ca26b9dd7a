// The encrypted settlement ledger (internal/settle/encsum.go, internal/settle/checkpoint.go).
module Ledger {
  import opened Wrappers
  import opened NumberTheory
  import opened BigEndian
  import opened Paillier
  import KeyCheckpoint

  datatype LedgerError = ErrSumMismatch | ErrNoLocks | ErrBadSum | ErrBadLock | ErrCheckpoint | ErrHe(he: Error)

  const TWO_63: int := 0x8000000000000000

  // ---------- specification functions ----------

  // The first draw that is a unit.
  function FirstUnit(k: Key, draws: seq<nat>): Option<nat> {
    if draws == [] then None
    else if 0 < draws[0] < k.n && Coprime(draws[0], k.n) then Some(draws[0])
    else FirstUnit(k, draws[1..])
  }

  // The ciphertext and the blinding factor a successful seal produces.
  function SealOf(k: Key, amount: int, draws: seq<nat>): Result<(nat, nat), LedgerError>
    requires k.n2 > 0
  {
    if amount <= 0 then Err(ErrBadLock)
    else match FirstUnit(k, draws)
      case None => Err(ErrBadLock)
      case Some(r) =>
        match EncryptWithR(k, amount, r)
        case Err(_) => Err(ErrBadLock)
        case Ok(ct) => Ok((ct, r))
  }

  function AggregateOf(k: Key, sealed: seq<nat>): Result<nat, LedgerError>
    requires k.n2 > 0
  {
    if sealed == [] then Err(ErrNoLocks)
    else if |sealed| == 1 then Ok(sealed[0])
    else match AggregateOf(k, sealed[..|sealed| - 1])
      case Err(e) => Err(e)
      case Ok(sum) =>
        match Add(k, sum, sealed[|sealed| - 1])
        case Err(e) => Err(ErrHe(e))
        case Ok(c) => Ok(c)
  }

  function Blinding(n: nat, rs: seq<nat>): nat
    requires n > 0
  {
    if rs == [] then 1
    else
      DivMod(Blinding(n, rs[..|rs| - 1]) * rs[|rs| - 1], n);
      (Blinding(n, rs[..|rs| - 1]) * rs[|rs| - 1]) % n
  }

  function Total(ms: seq<int>): int {
    if ms == [] then 0 else Total(ms[..|ms| - 1]) + ms[|ms| - 1]
  }

  function ReleaseOf(k: Key, sealedSum: nat, committed: int): Result<int, LedgerError>
    requires k.n > 0 && k.n2 > 0
  {
    match Decrypt(k, sealedSum)
    case Err(e) => Err(ErrHe(e))
    case Ok(total) =>
      if total <= 0 then Err(ErrBadSum)
      else if total >= TWO_63 || total != committed then Err(ErrSumMismatch)
      else Ok(total)
  }

  function ProofOf(h: Oracle, k: Key, rs: seq<nat>, sealedSum: nat, committed: int, s: int): Result<Proof, LedgerError>
    requires k.n > 0 && k.n2 > 0
  {
    if rs == [] then Err(ErrNoLocks)
    else match Paillier.ProveEqual(h, k, sealedSum, committed, Blinding(k.n, rs), s)
      case Err(e) => Err(ErrHe(e))
      case Ok(proof) => Ok(proof)
  }

  function Accepts(h: Oracle, k: Key, sealedSum: nat, committed: int, proof: Proof): bool
    requires k.n > 0 && k.n2 > 1
  {
    Paillier.VerifyEqual(h, k.n, k.n2, k.g, sealedSum, committed, proof)
  }

  // ---------- the sealed relation ----------

  // locks[i] is the encryption of ms[i] blinded by the unit rs[i].
  ghost predicate Sealed(k: Key, ms: seq<int>, rs: seq<nat>, locks: seq<nat>)
    requires k.n > 0 && k.n2 > 0
  {
    && |ms| == |rs| == |locks|
    && forall i :: 0 <= i < |ms| ==> 0 < ms[i] < TWO_63 && Unit(k, rs[i]) && locks[i] == Cipher(k, ms[i], rs[i])
  }

  lemma {:induction false} TotalBounds(ms: seq<int>)
    requires forall i :: 0 <= i < |ms| ==> 0 < ms[i] < TWO_63
    ensures 0 <= Total(ms) <= |ms| * TWO_63 && (ms != [] ==> Total(ms) > 0)
  {
    if ms != [] { TotalBounds(ms[..|ms| - 1]); }
  }

  lemma {:induction false} TotalAppend(ms: seq<int>, m: int)
    ensures Total(ms + [m]) == Total(ms) + m
  {
    assert (ms + [m])[..|ms|] == ms;
  }

  lemma FirstUnitIsUnit(k: Key, draws: seq<nat>)
    requires k.n > 0 && FirstUnit(k, draws).Some?
    ensures Unit(k, FirstUnit(k, draws).value) && FirstUnit(k, draws).value in draws
  {
  }

  // A seal succeeds exactly when the amount is positive and a unit is drawn, and what it
  // returns is a fresh encryption of the amount.
  lemma SealCorrect(k: Key, amount: int, draws: seq<nat>)
    requires Valid(k) && amount < TWO_63
    ensures k.n > 0 && k.n2 > 0
    ensures SealOf(k, amount, draws).Ok? <==> amount > 0 && exists r :: r in draws && Unit(k, r)
    ensures SealOf(k, amount, draws).Ok? ==>
      var (ct, r) := SealOf(k, amount, draws).value; Unit(k, r) && ct == Cipher(k, amount, r)
    ensures SealOf(k, amount, draws).Err? ==> SealOf(k, amount, draws).error == ErrBadLock
  {
    KeySizes(k);
    NoUnit(k, draws);
    if FirstUnit(k, draws).Some? {
      FirstUnitIsUnit(k, draws);
      EncryptIsCipher(k, amount, FirstUnit(k, draws).value);
    }
  }

  lemma {:induction false} NoUnit(k: Key, draws: seq<nat>)
    requires k.n > 0
    ensures FirstUnit(k, draws).None? <==> forall r :: r in draws ==> !Unit(k, r)
  {
    if draws != [] {
      NoUnit(k, draws[1..]);
      assert draws[0] in draws;
      if FirstUnit(k, draws[1..]).Some? {
        var r :| r in draws[1..] && Unit(k, r);
        assert r in draws;
      }
      assert forall r :: r in draws ==> r == draws[0] || r in draws[1..];
    }
  }

  // The aggregate of the locks is, as a number, the encryption of the sum of the partials
  // under the product of the blinding factors reduced modulo n.
  lemma {:induction false} AggregateIsCipher(k: Key, ms: seq<int>, rs: seq<nat>, locks: seq<nat>)
    requires Valid(k) && k.n > 0 && k.n2 > 0 && Sealed(k, ms, rs, locks) && ms != []
    ensures Total(ms) >= 0 && Unit(k, Blinding(k.n, rs))
    ensures AggregateOf(k, locks) == Ok(Cipher(k, Total(ms), Blinding(k.n, rs)))
    decreases |ms|
  {
    hide Valid, Cipher;
    TotalBounds(ms);
    var j := |ms| - 1;
    if j == 0 {
      assert Total(ms) == Total([]) + ms[0] by { assert ms[..0] == []; }
      assert rs[..0] == [];
      DivModUnique(rs[0], k.n, 0, rs[0]);
    } else {
      hide Unit;
      AggregateIsCipher(k, ms[..j], rs[..j], locks[..j]);
      UnitProduct(k, Blinding(k.n, rs[..j]), rs[j]);
      AddHomomorphic(k, Total(ms[..j]), Blinding(k.n, rs[..j]), ms[j], rs[j]);
    }
  }

  // ---------- settlement ----------

  // Decrypting the aggregate yields the sum of the partials modulo n, so releasing
  // succeeds exactly for that amount.
  lemma ReleaseIff(k: Key, ms: seq<int>, rs: seq<nat>, locks: seq<nat>, committed: int)
    requires Valid(k) && k.n > 0 && k.n2 > 0 && Sealed(k, ms, rs, locks) && ms != []
    requires Total(ms) < k.n
    ensures AggregateOf(k, locks).Ok?
    ensures Decrypt(k, AggregateOf(k, locks).value) == Ok(Total(ms))
    ensures ReleaseOf(k, AggregateOf(k, locks).value, committed).Ok? <==> Total(ms) == committed < TWO_63
    ensures ReleaseOf(k, AggregateOf(k, locks).value, committed).Ok?
      ==> ReleaseOf(k, AggregateOf(k, locks).value, committed).value == committed
  {
    AggregateIsCipher(k, ms, rs, locks);
    DecryptCorrect(k, Total(ms), Blinding(k.n, rs));
    DivModUnique(Total(ms), k.n, 0, Total(ms));
    TotalBounds(ms);
  }

  // Whatever the number given as the aggregate, release succeeds exactly when it decrypts to the
  // committed amount, and that is positive and below 2^63.
  lemma ReleasedIff(k: Key, c: nat, committed: int)
    requires k.n > 0 && k.n2 > 0
    ensures ReleaseOf(k, c, committed).Ok? <==> 1 <= committed <= TWO_63 - 1 && Decrypt(k, c).Ok? && Decrypt(k, c).value == committed
    ensures ReleaseOf(k, c, committed) == Err(ErrBadSum) <==> Decrypt(k, c) == Ok(0)
  {
    hide Decrypt;
  }

  // Whatever the numbers given as locks, they are added up exactly when there are some and, if more
  // than one, each lies between zero and n^2 and no product on the way vanishes modulo n^2; and the
  // sum is their product modulo n^2.
  lemma {:induction false} AggregateIff(k: Key, sealed: seq<nat>)
    requires k.n > 0 && k.n2 > 0
    ensures AggregateOf(k, sealed).Ok? <==>
      && sealed != []
      && (|sealed| > 1 ==> forall i | 0 <= i < |sealed| :: 1 <= sealed[i] <= k.n2 - 1)
      && forall j | 2 <= j < |sealed| :: !Divides(k.n2, Product(sealed[..j]))
    ensures AggregateOf(k, sealed).Ok? ==> Cong(AggregateOf(k, sealed).value, Product(sealed), k.n2)
    ensures AggregateOf(k, sealed).Ok? && |sealed| > 1 ==> AggregateOf(k, sealed).value < k.n2
    ensures AggregateOf(k, sealed) == Err(ErrNoLocks) <==> sealed == []
  {
    hide Cong, Divides, Add;
    if sealed == [] {
    } else if |sealed| == 1 {
      assert Product(sealed[..0]) == 1;
      CongRefl(sealed[0], k.n2);
    } else {
      var n := |sealed| - 1;
      AggregateIff(k, sealed[..n]);
      assert forall j | 0 <= j <= n :: sealed[..n][..j] == sealed[..j];
      assert sealed[..n][..n] == sealed[..n];
      if AggregateOf(k, sealed[..n]).Ok? {
        var sum := AggregateOf(k, sealed[..n]).value;
        AddIff(k, sum, sealed[n]);
        if n == 1 {
          assert sum == sealed[0];
        } else {
          SmallVanishes(sum, Product(sealed[..n]), k.n2);
        }
        if Add(k, sum, sealed[n]).Ok? {
          CongScale(sum, Product(sealed[..n]), sealed[n], k.n2);
          CongTrans(Add(k, sum, sealed[n]).value, sum * sealed[n], Product(sealed), k.n2);
        }
      }
    }
  }

  function Product(s: seq<nat>): int {
    if s == [] then 1 else Product(s[..|s| - 1]) * s[|s| - 1]
  }

  lemma SmallVanishes(x: nat, y: int, m: nat)
    requires 0 < m && x < m && Cong(x, y, m)
    ensures x == 0 <==> Divides(m, y)
  {
    var q := CongElim(x, y, m);
    if x == 0 { DividesIntro(m, y, -q); }
    if Divides(m, y) {
      var d := DividesElim(m, y);
      assert x == m * (d + q);
      DividesIntro(m, x, d + q);
      if x != 0 { DividesSmall(m, x); }
    }
  }

  // The public proof accepts exactly the true sum, for every prover draw and every hash.
  lemma ProofIff(h: Oracle, k: Key, ms: seq<int>, rs: seq<nat>, locks: seq<nat>, committed: int, s: int)
    requires Valid(k) && k.n > 0 && k.n2 > 1 && Sealed(k, ms, rs, locks) && ms != []
    requires |ms| <= TWO_63 && 0 <= committed < TWO_63 && 0 < s < k.n
    ensures AggregateOf(k, locks).Ok?
    ensures ProofOf(h, k, rs, AggregateOf(k, locks).value, committed, s).Ok?
    ensures Accepts(h, k, AggregateOf(k, locks).value, committed,
                    ProofOf(h, k, rs, AggregateOf(k, locks).value, committed, s).value)
            <==> Total(ms) == committed
  {
    KeySizes(k);
    AggregateIsCipher(k, ms, rs, locks);
    TotalBounds(ms);
    MulMonotone(|ms|, TWO_63, TWO_63);
    PositiveTotal(ms, committed);
    TranscriptVerifiesIff(h, k, Total(ms), committed, Blinding(k.n, rs), s);
  }

  lemma PositiveTotal(ms: seq<int>, committed: int)
    requires ms != [] && |ms| <= TWO_63 && 0 <= committed < TWO_63
    requires forall i :: 0 <= i < |ms| ==> 0 < ms[i] < TWO_63
    ensures -TWO_126 < Total(ms) - committed < TWO_126
  {
    StrictTotal(ms);
    MulMonotone(|ms|, TWO_63, TWO_63 - 1);
    assert TWO_63 * (TWO_63 - 1) < TWO_126;
  }

  lemma {:induction false} StrictTotal(ms: seq<int>)
    requires forall i :: 0 <= i < |ms| ==> 0 < ms[i] < TWO_63
    ensures 0 <= Total(ms) <= |ms| * (TWO_63 - 1)
  {
    if ms != [] { StrictTotal(ms[..|ms| - 1]); }
  }

  // ---------- the mutable ledger ----------

  class EncryptedLedger {
    const p: Key
    var rs: seq<nat>

    constructor (p: Key)
      ensures this.p == p && rs == []
    {
      this.p := p;
      rs := [];
    }

    // Encrypts one partial amount. draws are the eight attempts at the prover's randomness;
    // a zero stands for a zero draw or a failed read.
    method SealLock(amount: int, draws: seq<nat>) returns (r: Result<nat, LedgerError>)
      requires p.n > 1 && p.n2 > 0 && |draws| == 8
      modifies this`rs
      ensures match SealOf(p, amount, draws)
        case Ok(sealed) => r == Ok(sealed.0) && rs == old(rs) + [sealed.1]
        case Err(e) => r == Err(e) && rs == old(rs)
    {
      if amount <= 0 {
        return Err(ErrBadLock);
      }
      var m := amount;
      var n := p.n;
      var attempt := 0;
      while attempt < 8
        invariant 0 <= attempt <= 8 && rs == old(rs)
        invariant amount < p.n ==> FirstUnit(p, draws) == FirstUnit(p, draws[attempt..])
      {
        var d := draws[attempt];
        assert draws[attempt..][1..] == draws[attempt + 1..];
        attempt := attempt + 1;
        if d == 0 {
          continue;
        }
        if Gcd(d, n) != 1 {
          continue;
        }
        var ct := EncryptWithR(p, m, d);
        if ct.Err? {
          continue;
        }
        rs := rs + [d];
        return Ok(ct.value);
      }
      return Err(ErrBadLock);
    }

    method Aggregate(sealed: seq<nat>) returns (r: Result<nat, LedgerError>)
      requires p.n2 > 0
      ensures r == AggregateOf(p, sealed)
    {
      if |sealed| == 0 {
        return Err(ErrNoLocks);
      }
      var sum := sealed[0];
      var i := 1;
      while i < |sealed|
        invariant 1 <= i <= |sealed|
        invariant AggregateOf(p, sealed[..i]) == Ok(sum)
      {
        assert sealed[..i + 1][..i] == sealed[..i];
        var next := Add(p, sum, sealed[i]);
        if next.Err? {
          AggregateFails(p, sealed, i + 1);
          return Err(ErrHe(next.error));
        }
        sum := next.value;
        i := i + 1;
      }
      assert sealed[..i] == sealed;
      return Ok(sum);
    }

    method Release(sealedSum: nat, committed: int) returns (r: Result<int, LedgerError>)
      requires p.n > 0 && p.n2 > 0
      ensures r == ReleaseOf(p, sealedSum, committed)
    {
      var total := Decrypt(p, sealedSum);
      if total.Err? {
        return Err(ErrHe(total.error));
      }
      if total.value <= 0 {
        return Err(ErrBadSum);
      }
      if total.value >= TWO_63 || total.value != committed {
        return Err(ErrSumMismatch);
      }
      return Ok(total.value);
    }

    method ProveEqual(h: Oracle, sealedSum: nat, committed: int, s: int) returns (proof: Result<Proof, LedgerError>)
      requires p.n > 1 && p.n2 > 0
      ensures proof == ProofOf(h, p, rs, sealedSum, committed, s)
    {
      if |rs| == 0 {
        return Err(ErrNoLocks);
      }
      var r := 1;
      var n := p.n;
      var i := 0;
      while i < |rs|
        invariant 0 <= i <= |rs| && r == Blinding(n, rs[..i])
      {
        assert rs[..i + 1][..i] == rs[..i];
        r := r * rs[i];
        DivMod(r, n);
        r := r % n;
        i := i + 1;
      }
      assert rs[..i] == rs;
      var out := Paillier.ProveEqual(h, p, sealedSum, committed, r, s);
      match out {
        case Err(e) => return Err(ErrHe(e));
        case Ok(t) => return Ok(t);
      }
    }

    // The answer is the same for every key with this public part, whatever its secrets.
    method VerifyEqual(h: Oracle, sealedSum: nat, committed: int, proof: Proof) returns (ok: bool)
      requires p.n > 0 && p.n2 > 1
      ensures ok == Accepts(h, p, sealedSum, committed, proof)
      ensures forall k: Key | k.n == p.n && k.n2 == p.n2 && k.g == p.g ::
        ok == Accepts(h, k, sealedSum, committed, proof)
    {
      ok := Paillier.VerifyEqual(h, p.n, p.n2, p.g, sealedSum, committed, proof);
    }

    // A copy whose blinding factors can change without touching this ledger.
    method Clone() returns (next: EncryptedLedger)
      ensures fresh(next) && next.p == p && next.rs == rs
    {
      next := new EncryptedLedger(p);
      var i := 0;
      while i < |rs|
        invariant 0 <= i <= |rs| && next.rs == rs[..i]
      {
        next.rs := next.rs + [rs[i]];
        i := i + 1;
      }
    }

    method PrivateState() returns (s: LedgerState)
      ensures s == StateOf(p, rs)
    {
      var randomness: seq<seq<byte>> := [];
      var i := 0;
      while i < |rs|
        invariant 0 <= i <= |rs| && randomness == RandomnessOf(rs[..i])
      {
        randomness := randomness + [Bytes(rs[i])];
        i := i + 1;
        assert rs[..i][..i - 1] == rs[..i - 1];
      }
      assert rs[..i] == rs;
      s := LedgerState(KeyCheckpoint.PrivateState(p), randomness);
    }
  }

  lemma {:induction false} AggregateFails(k: Key, sealed: seq<nat>, i: nat)
    requires k.n2 > 0 && 0 < i <= |sealed| && AggregateOf(k, sealed[..i]).Err?
    ensures AggregateOf(k, sealed) == AggregateOf(k, sealed[..i])
    decreases |sealed| - i
  {
    if i == |sealed| {
      assert sealed[..i] == sealed;
    } else {
      assert sealed[..i + 1][..i] == sealed[..i];
      AggregateFails(k, sealed, i + 1);
    }
  }

  // ---------- checkpoints ----------

  datatype LedgerState = LedgerState(key: KeyCheckpoint.KeyState, randomness: seq<seq<byte>>)

  function RandomnessOf(rs: seq<nat>): (r: seq<seq<byte>>)
    ensures |r| == |rs|
  {
    if rs == [] then [] else RandomnessOf(rs[..|rs| - 1]) + [Bytes(rs[|rs| - 1])]
  }

  function StateOf(k: Key, rs: seq<nat>): LedgerState {
    LedgerState(KeyCheckpoint.PrivateState(k), RandomnessOf(rs))
  }

  // The factor one checkpoint entry stands for, if it is acceptable.
  function FactorOf(k: Key, width: nat, b: seq<byte>): Option<nat> {
    if |b| > width then None
    else
      var r := SetBytes(b);
      if r <= 0 || r >= k.n || Gcd(r, k.n) != 1 then None else Some(r)
  }

  function FactorsOf(k: Key, width: nat, bs: seq<seq<byte>>): Option<seq<nat>> {
    if bs == [] then Some([])
    else match FactorsOf(k, width, bs[..|bs| - 1])
      case None => None
      case Some(rs) =>
        match FactorOf(k, width, bs[|bs| - 1])
        case None => None
        case Some(r) => Some(rs + [r])
  }

  // The key and factors a checkpoint restores to.
  function Restored(s: LedgerState): Result<(Key, seq<nat>), LedgerError> {
    match KeyCheckpoint.RestorePrivate(s.key)
    case Err(_) => Err(ErrCheckpoint)
    case Ok(k) =>
      if |s.randomness| > 128 then Err(ErrCheckpoint)
      else match FactorsOf(k, |s.key.n|, s.randomness)
        case None => Err(ErrCheckpoint)
        case Some(rs) => Ok((k, rs))
  }

  method RestorePrivate(s: LedgerState) returns (r: Result<EncryptedLedger, LedgerError>)
    ensures match Restored(s)
      case Err(e) => r == Err(e)
      case Ok(state) => r.Ok? && fresh(r.value) && r.value.p == state.0 && r.value.rs == state.1
  {
    var key := KeyCheckpoint.RestorePrivate(s.key);
    if key.Err? {
      return Err(ErrCheckpoint);
    }
    if |s.randomness| > 128 {
      return Err(ErrCheckpoint);
    }
    var k := key.value;
    var l := new EncryptedLedger(k);
    var i := 0;
    while i < |s.randomness|
      invariant 0 <= i <= |s.randomness| && fresh(l)
      invariant FactorsOf(k, |s.key.n|, s.randomness[..i]) == Some(l.rs)
    {
      var b := s.randomness[i];
      assert s.randomness[..i + 1][..i] == s.randomness[..i];
      var f := FactorOf(k, |s.key.n|, b);
      if f.None? {
        FactorsFail(k, |s.key.n|, s.randomness, i + 1);
        return Err(ErrCheckpoint);
      }
      l.rs := l.rs + [f.value];
      i := i + 1;
    }
    assert s.randomness[..i] == s.randomness;
    return Ok(l);
  }

  lemma {:induction false} FactorsFail(k: Key, width: nat, bs: seq<seq<byte>>, i: nat)
    requires i <= |bs| && FactorsOf(k, width, bs[..i]).None?
    ensures FactorsOf(k, width, bs).None?
    decreases |bs| - i
  {
    if i == |bs| {
      assert bs[..i] == bs;
    } else {
      assert bs[..i + 1][..i] == bs[..i];
      FactorsFail(k, width, bs, i + 1);
    }
  }

  lemma {:induction false} FactorsRoundTrip(k: Key, rs: seq<nat>)
    requires k.n > 0 && forall r :: r in rs ==> Unit(k, r)
    ensures FactorsOf(k, |Bytes(k.n)|, RandomnessOf(rs)) == Some(rs)
  {
    if rs != [] {
      var j := |rs| - 1;
      FactorsRoundTrip(k, rs[..j]);
      assert rs[j] in rs;
      FactorRoundTrip(k, rs[j]);
      FactorsStep(k, |Bytes(k.n)|, RandomnessOf(rs[..j]), Bytes(rs[j]), rs[..j], rs[j]);
      assert rs == rs[..j] + [rs[j]];
    }
  }

  lemma FactorsStep(k: Key, width: nat, bs: seq<seq<byte>>, b: seq<byte>, rs: seq<nat>, r: nat)
    requires FactorsOf(k, width, bs) == Some(rs) && FactorOf(k, width, b) == Some(r)
    ensures FactorsOf(k, width, bs + [b]) == Some(rs + [r])
  {
    assert (bs + [b])[..|bs|] == bs;
  }

  lemma FactorRoundTrip(k: Key, r: nat)
    requires k.n > 0 && Unit(k, r)
    ensures FactorOf(k, |Bytes(k.n)|, Bytes(r)) == Some(r)
  {
    SetBytesOfBytes(r);
    BytesMonotone(r, k.n);
  }

  // A stored ledger is accepted exactly when its key is, it has at most 128 factors, and each of them
  // is a unit in no more bytes than the modulus; and it is restored to that key and those factors.
  lemma RestoredIff(s: LedgerState)
    ensures
      var key := KeyCheckpoint.RestorePrivate(s.key);
      && (Restored(s).Ok? <==>
            && key.Ok? && |s.randomness| <= 128
            && forall i | 0 <= i < |s.randomness| :: |s.randomness[i]| <= |s.key.n| && Unit(key.value, SetBytes(s.randomness[i])))
      && (Restored(s).Ok? ==>
            var (k, rs) := Restored(s).value;
            k == key.value && |rs| == |s.randomness| && forall i | 0 <= i < |rs| :: rs[i] == SetBytes(s.randomness[i]))
  {
    var key := KeyCheckpoint.RestorePrivate(s.key);
    if key.Ok? { FactorsIff(key.value, |s.key.n|, s.randomness); }
  }

  lemma {:induction false} FactorsIff(k: Key, width: nat, bs: seq<seq<byte>>)
    requires k.n > 0
    ensures FactorsOf(k, width, bs).Some? <==> forall i | 0 <= i < |bs| :: |bs[i]| <= width && Unit(k, SetBytes(bs[i]))
    ensures FactorsOf(k, width, bs).Some? ==>
      var rs := FactorsOf(k, width, bs).value;
      |rs| == |bs| && forall i | 0 <= i < |bs| :: rs[i] == SetBytes(bs[i])
  {
    hide SetBytes;
    if bs != [] {
      var j := |bs| - 1;
      FactorsIff(k, width, bs[..j]);
      assert forall i | 0 <= i < j :: bs[..j][i] == bs[i];
      assert FactorOf(k, width, bs[j]).Some? <==> |bs[j]| <= width && Unit(k, SetBytes(bs[j]));
    }
  }

  // A ledger whose factors are units comes back whole exactly when its key does and it
  // holds at most 128 locks.
  lemma LedgerRoundTrip(k: Key, rs: seq<nat>)
    requires Valid(k) && k.n > 0 && forall r :: r in rs ==> Unit(k, r)
    ensures Restored(StateOf(k, rs)) == Ok((k, rs)) <==> k.n < Pow(256, 1024) && |rs| <= 128
  {
    KeyCheckpoint.KeyRoundTrip(k);
    FactorsRoundTrip(k, rs);
  }
}
