// Keccak-p[1600, 24] as sections 3.2 and 3.3 of FIPS 202 define it: lanes of 64 bits, lane
// (x, y) at index x + 5y.
module KeccakSpec {
  type Bits = s: seq<bool> | |s| == 64 witness seq(64, z => false)

  datatype Lane = Lane(bits: Bits)

  type Lanes = s: seq<Lane> | |s| == 25 witness seq(25, i => Lane(seq(64, z => false)))

  function Xor(a: Lane, b: Lane): Lane {
    Lane(seq(64, z requires 0 <= z < 64 => a.bits[z] != b.bits[z]))
  }

  function And(a: Lane, b: Lane): Lane {
    Lane(seq(64, z requires 0 <= z < 64 => a.bits[z] && b.bits[z]))
  }

  function Not(a: Lane): Lane {
    Lane(seq(64, z requires 0 <= z < 64 => !a.bits[z]))
  }

  // Rotation towards the high end.
  function Rot(a: Lane, k: nat): Lane
    requires k < 64
  {
    Lane(seq(64, z requires 0 <= z < 64 => a.bits[(z - k) % 64]))
  }

  function Xor5(a: Lane, b: Lane, c: Lane, d: Lane, e: Lane): Lane {
    Xor(Xor(Xor(Xor(a, b), c), d), e)
  }

  // Section 3.2.1.
  function ColumnParity(a: Lanes, x: nat): Lane
    requires x < 5
  {
    Xor5(a[x], a[x + 5], a[x + 10], a[x + 15], a[x + 20])
  }

  function ThetaD(a: Lanes, x: nat): Lane
    requires x < 5
  {
    Xor(ColumnParity(a, (x + 4) % 5), Rot(ColumnParity(a, (x + 1) % 5), 1))
  }

  function Theta(a: Lanes): Lanes {
    seq(25, i requires 0 <= i < 25 => Xor(a[i], ThetaD(a, i % 5)))
  }

  // Section 3.2.2, Table 2 modulo 64.
  function Offset(i: nat): (k: nat)
    ensures k < 64
  {
    match i
    case 0 => 0 case 1 => 1 case 2 => 62 case 3 => 28 case 4 => 27
    case 5 => 36 case 6 => 44 case 7 => 6 case 8 => 55 case 9 => 20
    case 10 => 3 case 11 => 10 case 12 => 43 case 13 => 25 case 14 => 39
    case 15 => 41 case 16 => 45 case 17 => 15 case 18 => 21 case 19 => 8
    case 20 => 18 case 21 => 2 case 22 => 61 case 23 => 56 case _ => 14
  }

  function Rho(a: Lanes): Lanes {
    seq(25, i requires 0 <= i < 25 => Rot(a[i], Offset(i)))
  }

  // Section 3.2.3.
  function PiLane(a: Lanes, x: nat, y: nat): Lane
    requires x < 5 && y < 5
  {
    a[(x + 3 * y) % 5 + 5 * x]
  }

  function Pi(a: Lanes): Lanes {
    seq(25, i requires 0 <= i < 25 => PiLane(a, i % 5, i / 5))
  }

  // Section 3.2.4.
  function ChiLane(a: Lanes, x: nat, y: nat): Lane
    requires x < 5 && y < 5
  {
    Xor(a[x + 5 * y], And(Not(a[(x + 1) % 5 + 5 * y]), a[(x + 2) % 5 + 5 * y]))
  }

  function Chi(a: Lanes): Lanes {
    seq(25, i requires 0 <= i < 25 => ChiLane(a, i % 5, i / 5))
  }

  // Section 3.2.5.
  function Iota(a: Lanes, rc: Lane): Lanes {
    a[0 := Xor(a[0], rc)]
  }

  // Section 3.2.5, Algorithm 5: a register of eight bits, shifted t times.
  datatype Register = Register(b0: bool, b1: bool, b2: bool, b3: bool, b4: bool, b5: bool, b6: bool, b7: bool)

  function Step(r: Register): Register {
    Register(r.b7, r.b0, r.b1, r.b2, r.b3 != r.b7, r.b4 != r.b7, r.b5 != r.b7, r.b6)
  }

  function Clock(t: nat): Register {
    if t == 0 then Register(true, false, false, false, false, false, false, false) else Step(Clock(t - 1))
  }

  // A lane whose bit 2^j - 1 is the j-th argument.
  function SevenBits(b0: bool, b1: bool, b2: bool, b3: bool, b4: bool, b5: bool, b6: bool): Lane {
    Lane(seq(64, z requires 0 <= z < 64 =>
      (z == 0 && b0) || (z == 1 && b1) || (z == 3 && b2) || (z == 7 && b3) || (z == 15 && b4) || (z == 31 && b5) || (z == 63 && b6)))
  }

  function RoundConstant(i: nat): Lane
    requires i < 24
  {
    SevenBits(Clock(7 * i).b0, Clock(7 * i + 1).b0, Clock(7 * i + 2).b0, Clock(7 * i + 3).b0,
              Clock(7 * i + 4).b0, Clock(7 * i + 5).b0, Clock(7 * i + 6).b0)
  }

  // Section 3.3.
  function Round(a: Lanes, rc: Lane): Lanes {
    Iota(Chi(Pi(Rho(Theta(a)))), rc)
  }

  // The first n rounds of Keccak-p[1600, 24]; all of them are Keccak-f[1600].
  function Rounds(a: Lanes, n: nat): Lanes
    requires n <= 24
  {
    if n == 0 then a else Round(Rounds(a, n - 1), RoundConstant(n - 1))
  }

  // Lane (x, y) of the state that chi reads.
  function From(a: Lanes, x: nat, y: nat): Lane
    requires x < 5 && y < 5
  {
    var x0 := (x + 3 * y) % 5;
    Rot(Xor(a[x0 + 5 * x], ThetaD(a, x0)), Offset(x0 + 5 * x))
  }

  lemma ChiAt(b: Lanes, x: nat, y: nat)
    requires x < 5 && y < 5
    ensures Chi(b)[x + 5 * y] == ChiLane(b, x, y)
  {
    hide ChiLane;
    var i := x + 5 * y;
    assert i % 5 == x && i / 5 == y;
  }

  lemma FromAt(a: Lanes, x: nat, y: nat)
    requires x < 5 && y < 5
    ensures Pi(Rho(Theta(a)))[x + 5 * y] == From(a, x, y)
  {
    hide Xor, Rot, ThetaD, PiLane;
    var i := x + 5 * y;
    assert i % 5 == x && i / 5 == y;
    assert Pi(Rho(Theta(a)))[i] == PiLane(Rho(Theta(a)), x, y);
    PiLaneAt(a, x, y);
  }

  lemma PiLaneAt(a: Lanes, x: nat, y: nat)
    requires x < 5 && y < 5
    ensures PiLane(Rho(Theta(a)), x, y) == From(a, x, y)
  {
    hide Xor, Rot, ThetaD;
    var x0 := (x + 3 * y) % 5;
    assert (x0 + 5 * x) % 5 == x0;
  }

  lemma RoundAt(a: Lanes, rc: Lane, x: nat, y: nat)
    requires x < 5 && y < 5
    ensures
      var v := Xor(From(a, x, y), And(Not(From(a, (x + 1) % 5, y)), From(a, (x + 2) % 5, y)));
      Round(a, rc)[x + 5 * y] == if x == 0 && y == 0 then Xor(v, rc) else v
  {
    hide Xor, And, Not, Chi, Pi, Rho, Theta, From;
    ChiAt(Pi(Rho(Theta(a))), x, y);
    FromAt(a, x, y);
    FromAt(a, (x + 1) % 5, y);
    FromAt(a, (x + 2) % 5, y);
  }

  // Section 3.2.2, Algorithm 1: the walk over the lanes that defines the offsets.
  function NextSpot(i: nat): nat {
    var x, y := i % 5, i / 5;
    y + 5 * ((2 * x + 3 * y) % 5)
  }

  function Spot(t: nat): nat {
    if t == 0 then 1 else NextSpot(Spot(t - 1))
  }

  function SpotTable(t: nat): nat {
    match t
    case 0 => 1
    case 1 => 10
    case 2 => 7
    case 3 => 11
    case 4 => 17
    case 5 => 18
    case 6 => 3
    case 7 => 5
    case 8 => 16
    case 9 => 8
    case 10 => 21
    case 11 => 24
    case 12 => 4
    case 13 => 15
    case 14 => 23
    case 15 => 19
    case 16 => 13
    case 17 => 12
    case 18 => 2
    case 19 => 20
    case 20 => 14
    case 21 => 22
    case 22 => 9
    case _ => 6
  }

  lemma SpotStep(t: nat)
    requires t < 23
    ensures NextSpot(SpotTable(t)) == SpotTable(t + 1)
  {
    hide NextSpot, SpotTable;
    if t < 12 { SpotStepFront(t); } else { SpotStepBack(t); }
  }

  lemma SpotStepFront(t: nat)
    requires t < 12
    ensures NextSpot(SpotTable(t)) == SpotTable(t + 1)
  {
    match t
    case 0 =>
    case 1 =>
    case 2 =>
    case 3 =>
    case 4 =>
    case 5 =>
    case 6 =>
    case 7 =>
    case 8 =>
    case 9 =>
    case 10 =>
    case _ =>
  }

  lemma SpotStepBack(t: nat)
    requires 12 <= t < 23
    ensures NextSpot(SpotTable(t)) == SpotTable(t + 1)
  {
    match t
    case 12 =>
    case 13 =>
    case 14 =>
    case 15 =>
    case 16 =>
    case 17 =>
    case 18 =>
    case 19 =>
    case 20 =>
    case 21 =>
    case _ =>
  }

  lemma OffsetStep(t: nat)
    requires t < 23
    ensures Offset(SpotTable(t + 1)) == (Offset(SpotTable(t)) + t + 2) % 64
  {
    match t
    case 0 =>
    case 1 =>
    case 2 =>
    case 3 =>
    case 4 =>
    case 5 =>
    case 6 =>
    case 7 =>
    case 8 =>
    case 9 =>
    case 10 =>
    case 11 =>
    case 12 =>
    case 13 =>
    case 14 =>
    case 15 =>
    case 16 =>
    case 17 =>
    case 18 =>
    case 19 =>
    case 20 =>
    case 21 =>
    case _ =>
  }

  lemma {:induction false} WalkSpots(t: nat)
    requires t < 24
    ensures Spot(t) == SpotTable(t)
  {
    hide NextSpot, SpotTable;
    if t > 0 {
      WalkSpots(t - 1);
      SpotStep(t - 1);
    } else {
      assert SpotTable(0) == 1 by { FirstSpot(); }
    }
  }

  lemma FirstSpot()
    ensures SpotTable(0) == 1 && Offset(SpotTable(0)) == 1
  {}

  // The table of offsets is the one the walk gives: (t + 1)(t + 2) / 2 modulo 64 at its spot t.
  lemma {:induction false} OffsetsFollowWalk(t: nat)
    requires t < 24
    ensures Offset(Spot(t)) == (t + 1) * (t + 2) / 2 % 64
  {
    hide Offset, SpotTable, Spot;
    WalkSpots(t);
    if t > 0 {
      OffsetsFollowWalk(t - 1);
      WalkSpots(t - 1);
      OffsetStep(t - 1);
      Triangle(t);
      ModAdd(t * (t + 1) / 2, t + 1);
    } else {
      FirstSpot();
    }
  }

  lemma ModAdd(p: nat, q: nat)
    ensures (p % 64 + q) % 64 == (p + q) % 64
  {}

  lemma Triangle(t: nat)
    requires t > 0
    ensures (t + 1) * (t + 2) / 2 == t * (t + 1) / 2 + t + 1
  {
    assert (t + 1) * (t + 2) == t * (t + 1) + 2 * (t + 1);
  }

  // The walk visits every lane but the first.
  lemma WalkCovers(i: nat)
    requires 0 < i < 25
    ensures exists t: nat | t < 24 :: Spot(t) == i
  {
    hide Spot;
    var t := Visit(i);
    WalkSpots(t);
    VisitSpot(i);
  }

  function Visit(i: nat): (t: nat)
    ensures t < 24
  {
    match i
    case 1 => 0
    case 2 => 18
    case 3 => 6
    case 4 => 12
    case 5 => 7
    case 6 => 23
    case 7 => 2
    case 8 => 9
    case 9 => 22
    case 10 => 1
    case 11 => 3
    case 12 => 17
    case 13 => 16
    case 14 => 20
    case 15 => 13
    case 16 => 8
    case 17 => 4
    case 18 => 5
    case 19 => 15
    case 20 => 19
    case 21 => 10
    case 22 => 21
    case 23 => 14
    case _ => 11
  }

  lemma VisitSpot(i: nat)
    requires 0 < i < 25
    ensures SpotTable(Visit(i)) == i
  {
    match i
    case 1 =>
    case 2 =>
    case 3 =>
    case 4 =>
    case 5 =>
    case 6 =>
    case 7 =>
    case 8 =>
    case 9 =>
    case 10 =>
    case 11 =>
    case 12 =>
    case 13 =>
    case 14 =>
    case 15 =>
    case 16 =>
    case 17 =>
    case 18 =>
    case 19 =>
    case 20 =>
    case 21 =>
    case 22 =>
    case 23 =>
    case _ =>
  }
}
