// The five step mappings bit by bit, in the words of sections 3.2.1 to 3.2.5 of FIPS 202.
module KeccakBits {
  import opened KeccakSpec

  // A[x, y, z].
  function A(a: Lanes, x: nat, y: nat, z: nat): bool
    requires x < 5 && y < 5 && z < 64
  {
    a[x + 5 * y].bits[z]
  }

  // The sum of the bits of a column.
  function C(a: Lanes, x: nat, z: nat): bool
    requires x < 5 && z < 64
  {
    A(a, x, 0, z) != (A(a, x, 1, z) != (A(a, x, 2, z) != (A(a, x, 3, z) != A(a, x, 4, z))))
  }

  lemma ParityBit(a: Lanes, x: nat, z: nat)
    requires x < 5 && z < 64
    ensures ColumnParity(a, x).bits[z] == C(a, x, z)
  {}

  lemma RotBit(a: Lane, k: nat, z: nat)
    requires k < 64 && z < 64
    ensures Rot(a, k).bits[z] == a.bits[(z - k) % 64]
  {}

  lemma ThetaAt(a: Lanes, x: nat, y: nat)
    requires x < 5 && y < 5
    ensures Theta(a)[x + 5 * y] == Xor(a[x + 5 * y], ThetaD(a, x))
  {
    hide Xor, ThetaD;
    assert (x + 5 * y) % 5 == x;
  }

  lemma ThetaDBit(a: Lanes, x: nat, z: nat)
    requires x < 5 && z < 64
    ensures ThetaD(a, x).bits[z] == (C(a, (x + 4) % 5, z) != C(a, (x + 1) % 5, (z + 63) % 64))
  {
    hide ColumnParity, Rot, C;
    var left, right := (x + 4) % 5, (x + 1) % 5;
    ParityBit(a, left, z);
    ParityBit(a, right, (z + 63) % 64);
    RotBit(ColumnParity(a, right), 1, z);
    assert (z - 1) % 64 == (z + 63) % 64;
  }

  lemma ThetaBit(a: Lanes, x: nat, y: nat, z: nat)
    requires x < 5 && y < 5 && z < 64
    ensures A(Theta(a), x, y, z) == (A(a, x, y, z) != (C(a, (x + 4) % 5, z) != C(a, (x + 1) % 5, (z + 63) % 64)))
  {
    hide Theta, ThetaD, C;
    ThetaAt(a, x, y);
    ThetaDBit(a, x, z);
  }

  lemma WalkTurns(t: nat, k: nat)
    requires t < 24 && 2 * k == (t + 1) * (t + 2)
    ensures Spot(t) < 25 && Offset(Spot(t)) == k % 64
  {
    WalkSpots(t);
    hide Spot, Offset;
    OffsetsFollowWalk(t);
    HalfWrapped((t + 1) * (t + 2), k);
  }

  lemma HalfWrapped(x: int, k: int)
    requires 2 * k == x
    ensures x / 2 % 64 == k % 64
  {
    assert x / 2 == k;
  }

  // The lane at spot t of the walk moves by (t + 1)(t + 2) / 2 places; lane 0 stays.
  lemma RhoBit(a: Lanes, t: nat, k: nat, z: nat)
    requires t < 24 && 2 * k == (t + 1) * (t + 2) && z < 64
    ensures Spot(t) < 25 && Rho(a)[Spot(t)].bits[z] == a[Spot(t)].bits[(z - k) % 64]
  {
    WalkTurns(t, k);
    hide Spot, Offset, Rho;
    RhoTurn(a, Spot(t), k, z);
  }

  lemma RhoTurn(a: Lanes, i: nat, k: int, z: nat)
    requires i < 25 && z < 64 && Offset(i) == k % 64
    ensures Rho(a)[i].bits[z] == a[i].bits[(z - k) % 64]
  {
    hide Offset, Rot, Rho;
    RotBit(a[i], Offset(i), z);
    RhoAt(a, i);
    Wrapped(z, k);
  }

  lemma RhoFirst(a: Lanes, z: nat)
    requires z < 64
    ensures Rho(a)[0].bits[z] == a[0].bits[z]
  {
    hide Rot;
    RotBit(a[0], 0, z);
    RhoAt(a, 0);
  }

  lemma RhoAt(a: Lanes, i: nat)
    requires i < 25
    ensures Rho(a)[i] == Rot(a[i], Offset(i))
  {
    hide Offset, Rot;
  }

  lemma Wrapped(z: int, k: int)
    ensures (z - k % 64) % 64 == (z - k) % 64
  {}

  lemma PiBit(a: Lanes, x: nat, y: nat, z: nat)
    requires x < 5 && y < 5 && z < 64
    ensures A(Pi(a), x, y, z) == A(a, (x + 3 * y) % 5, x, z)
  {
    assert (x + 5 * y) % 5 == x && (x + 5 * y) / 5 == y;
  }

  lemma ChiBit(a: Lanes, x: nat, y: nat, z: nat)
    requires x < 5 && y < 5 && z < 64
    ensures A(Chi(a), x, y, z) == (A(a, x, y, z) != (!A(a, (x + 1) % 5, y, z) && A(a, (x + 2) % 5, y, z)))
  {
    hide Chi;
    ChiAt(a, x, y);
  }

  // Bit 2^j - 1 of lane 0 is changed by rc(j + 7 i), the others of that lane and all other lanes are not.
  lemma IotaBit(a: Lanes, i: nat, x: nat, y: nat, z: nat)
    requires i < 24 && x < 5 && y < 5 && z < 64
    ensures A(Iota(a, RoundConstant(i)), x, y, z) == (A(a, x, y, z) != (x == 0 && y == 0 && Flips(i, z)))
  {
    hide Clock;
  }

  predicate Flips(i: nat, z: nat) {
    match z
    case 0 => Clock(7 * i).b0
    case 1 => Clock(7 * i + 1).b0
    case 3 => Clock(7 * i + 2).b0
    case 7 => Clock(7 * i + 3).b0
    case 15 => Clock(7 * i + 4).b0
    case 31 => Clock(7 * i + 5).b0
    case 63 => Clock(7 * i + 6).b0
    case _ => false
  }

  // States of which each is the five steps of the one before it, with the constants in their order,
  // are the states after so many rounds.
  lemma {:induction false} RoundsTrace(trace: seq<Lanes>, n: nat)
    requires n <= 24 && |trace| == 25
    requires forall i | 0 <= i < 24 :: trace[i + 1] == Iota(Chi(Pi(Rho(Theta(trace[i])))), RoundConstant(i))
    ensures Rounds(trace[0], n) == trace[n]
  {
    hide Iota, Chi, Pi, Rho, Theta, RoundConstant;
    if n > 0 {
      RoundsTrace(trace, n - 1);
      assert trace[(n - 1) + 1] == Iota(Chi(Pi(Rho(Theta(trace[n - 1])))), RoundConstant(n - 1));
    }
  }
}
