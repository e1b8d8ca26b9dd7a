// Section 3.2.5 of FIPS 202: the round constants come from a shift register, and the table of
// 64-bit words that the program carries is that sequence.
module RoundConstants {
  import opened KeccakSpec

  // A 64-bit word as a lane, least significant bit first.
  function Bit(v: bv64, z: nat): bool
    requires z < 64
  {
    (v >> (z as bv7)) & 1 == 1
  }

  function Word(v: bv64): Lane {
    Lane(seq(64, z requires 0 <= z < 64 => Bit(v, z)))
  }

  const RC: seq<bv64> := [
    0x0000000000000001, 0x0000000000008082, 0x800000000000808A, 0x8000000080008000,
    0x000000000000808B, 0x0000000080000001, 0x8000000080008081, 0x8000000000008009,
    0x000000000000008A, 0x0000000000000088, 0x0000000080008009, 0x000000008000000A,
    0x000000008000808B, 0x800000000000008B, 0x8000000000008089, 0x8000000000008003,
    0x8000000000008002, 0x8000000000000080, 0x000000000000800A, 0x800000008000000A,
    0x8000000080008081, 0x8000000000008080, 0x0000000080000001, 0x8000000080008008]

  // No bit of a constant lies outside the places 2^j - 1.
  ghost predicate Sparse(v: bv64) {
    v & 0x800000008000808B == v
  }

  lemma SetBits(v: bv64)
    requires Sparse(v)
    ensures Bit(v, 0) == (v & 1 != 0) && Bit(v, 1) == (v & 2 != 0) && Bit(v, 3) == (v & 8 != 0) && Bit(v, 7) == (v & 0x80 != 0)
    ensures Bit(v, 15) == (v & 0x8000 != 0) && Bit(v, 31) == (v & 0x80000000 != 0) && Bit(v, 63) == (v & 0x8000000000000000 != 0)
  {}

  ghost predicate Place(z: nat) {
    z == 0 || z == 1 || z == 3 || z == 7 || z == 15 || z == 31 || z == 63
  }

  lemma ClearBits1(v: bv64, z: nat)
    requires Sparse(v) && 2 <= z <= 19 && !Place(z)
    ensures !Bit(v, z)
  {
    match z
    case 2 =>
    case 4 =>
    case 5 =>
    case 6 =>
    case 8 =>
    case 9 =>
    case 10 =>
    case 11 =>
    case 12 =>
    case 13 =>
    case 14 =>
    case 16 =>
    case 17 =>
    case 18 =>
    case _ =>
  }

  lemma ClearBits2(v: bv64, z: nat)
    requires Sparse(v) && 20 <= z <= 35 && !Place(z)
    ensures !Bit(v, z)
  {
    match z
    case 20 =>
    case 21 =>
    case 22 =>
    case 23 =>
    case 24 =>
    case 25 =>
    case 26 =>
    case 27 =>
    case 28 =>
    case 29 =>
    case 30 =>
    case 32 =>
    case 33 =>
    case 34 =>
    case _ =>
  }

  lemma ClearBits3(v: bv64, z: nat)
    requires Sparse(v) && 36 <= z <= 50 && !Place(z)
    ensures !Bit(v, z)
  {
    match z
    case 36 =>
    case 37 =>
    case 38 =>
    case 39 =>
    case 40 =>
    case 41 =>
    case 42 =>
    case 43 =>
    case 44 =>
    case 45 =>
    case 46 =>
    case 47 =>
    case 48 =>
    case 49 =>
    case _ =>
  }

  lemma ClearBits4(v: bv64, z: nat)
    requires Sparse(v) && 51 <= z <= 62 && !Place(z)
    ensures !Bit(v, z)
  {
    match z
    case 51 =>
    case 52 =>
    case 53 =>
    case 54 =>
    case 55 =>
    case 56 =>
    case 57 =>
    case 58 =>
    case 59 =>
    case 60 =>
    case 61 =>
    case _ =>
  }

  lemma ClearBit(v: bv64, z: nat)
    requires Sparse(v) && z < 64 && !Place(z)
    ensures !Bit(v, z)
  {
    hide Bit, Sparse;
    if z <= 19 {
      ClearBits1(v, z);
    } else if z <= 35 {
      ClearBits2(v, z);
    } else if z <= 50 {
      ClearBits3(v, z);
    } else {
      ClearBits4(v, z);
    }
  }

  // A sparse word is the lane of its seven bits.
  lemma SparseWord(v: bv64)
    requires Sparse(v)
    ensures Word(v) ==
      SevenBits(v & 1 != 0, v & 2 != 0, v & 8 != 0, v & 0x80 != 0, v & 0x8000 != 0, v & 0x80000000 != 0, v & 0x8000000000000000 != 0)
  {
    SetBits(v);
    hide Bit, Sparse;
    var w := SevenBits(v & 1 != 0, v & 2 != 0, v & 8 != 0, v & 0x80 != 0, v & 0x8000 != 0, v & 0x80000000 != 0, v & 0x8000000000000000 != 0);
    forall z | 0 <= z < 64 ensures Word(v).bits[z] == w.bits[z] {
      if !Place(z) {
        ClearBit(v, z);
      }
    }
  }

  // Seven steps of the register give round i's bits and leave it where round i + 1 begins.
  lemma RoundBits(i: nat, r: Register)
    requires Clock(7 * i) == r && i < 24
    ensures
      var r1 := Step(r);
      var r2 := Step(r1);
      var r3 := Step(r2);
      var r4 := Step(r3);
      var r5 := Step(r4);
      var r6 := Step(r5);
      && RoundConstant(i) == SevenBits(r.b0, r1.b0, r2.b0, r3.b0, r4.b0, r5.b0, r6.b0)
      && Clock(7 * (i + 1)) == Step(r6)
  {
    hide Step, SevenBits;
    assert Clock(7 * i + 1) == Step(Clock(7 * i));
    assert Clock(7 * i + 2) == Step(Clock(7 * i + 1));
    assert Clock(7 * i + 3) == Step(Clock(7 * i + 2));
    assert Clock(7 * i + 4) == Step(Clock(7 * i + 3));
    assert Clock(7 * i + 5) == Step(Clock(7 * i + 4));
    assert Clock(7 * i + 6) == Step(Clock(7 * i + 5));
    assert Clock(7 * i + 7) == Step(Clock(7 * i + 6));
  }

  // The register at the start of each round.
  function Start(i: nat): Register {
    match i
    case 0 => Register(true, false, false, false, false, false, false, false)
    case 1 => Register(false, false, false, false, false, false, false, true)
    case 2 => Register(false, false, false, true, true, false, true, true)
    case 3 => Register(false, true, false, true, true, false, false, false)
    case 4 => Register(true, true, true, true, true, false, true, true)
    case 5 => Register(true, false, false, true, false, false, false, false)
    case 6 => Register(true, false, true, false, true, true, false, false)
    case 7 => Register(true, true, true, true, false, false, true, false)
    case 8 => Register(false, true, false, true, false, false, true, true)
    case 9 => Register(false, false, false, false, true, true, true, false)
    case 10 => Register(true, false, false, false, false, false, true, false)
    case 11 => Register(false, false, true, true, false, true, true, true)
    case 12 => Register(true, false, true, false, true, false, true, true)
    case 13 => Register(true, false, true, true, false, false, true, true)
    case 14 => Register(true, true, false, false, false, true, true, false)
    case 15 => Register(true, true, false, true, false, true, false, true)
    case 16 => Register(false, true, false, true, false, true, false, true)
    case 17 => Register(false, true, false, true, false, true, false, false)
    case 18 => Register(false, true, false, false, true, true, true, true)
    case 19 => Register(false, false, false, true, false, true, true, true)
    case 20 => Register(true, true, true, false, true, true, false, false)
    case 21 => Register(false, true, true, true, true, true, false, false)
    case 22 => Register(true, true, false, true, false, false, false, false)
    case 23 => Register(false, false, true, false, false, false, true, false)
    case _ => Register(false, true, true, true, false, false, false, true)
  }

  lemma {:induction false} Starts(i: nat)
    requires i <= 24
    ensures Clock(7 * i) == Start(i)
  {
    if i > 0 {
      Starts(i - 1);
      RoundBits(i - 1, Start(i - 1));
      StartSteps(i - 1);
    }
  }

  lemma StartSteps(i: nat)
    requires i < 24
    ensures Step(Step(Step(Step(Step(Step(Step(Start(i)))))))) == Start(i + 1)
  {
    match i
    case 0 =>
    case 1 =>
    case 2 =>
    case 3 =>
    case 4 =>
    case 5 =>
    case 6 =>
    case 7 =>
    case 8 =>
    case 9 =>
    case 10 =>
    case 11 =>
    case 12 =>
    case 13 =>
    case 14 =>
    case 15 =>
    case 16 =>
    case 17 =>
    case 18 =>
    case 19 =>
    case 20 =>
    case 21 =>
    case 22 =>
    case _ =>
  }

  // The table in the program is the sequence of the standard.
  lemma TableIsStandard(i: nat)
    requires i < 24
    ensures Word(RC[i]) == RoundConstant(i)
  {
    hide Word, SevenBits;
    Starts(i);
    RoundBits(i, Start(i));
    Agrees(i);
    SparseWord(RC[i]);
  }

  // The lane that round i adds, taken from the table.
  function TableLane(i: nat): (c: Lane)
    requires i < 24
    ensures c == RoundConstant(i)
  {
    TableIsStandard(i);
    Word(RC[i])
  }

  lemma Agrees(i: nat)
    requires i < 24
    ensures Sparse(RC[i])
    ensures
      var r := Start(i);
      var r1 := Step(r);
      var r2 := Step(r1);
      var r3 := Step(r2);
      var r4 := Step(r3);
      var r5 := Step(r4);
      var r6 := Step(r5);
      var v := RC[i];
      && (v & 1 != 0) == r.b0 && (v & 2 != 0) == r1.b0 && (v & 8 != 0) == r2.b0 && (v & 0x80 != 0) == r3.b0
      && (v & 0x8000 != 0) == r4.b0 && (v & 0x80000000 != 0) == r5.b0 && (v & 0x8000000000000000 != 0) == r6.b0
  {
    match i
    case 0 =>
    case 1 =>
    case 2 =>
    case 3 =>
    case 4 =>
    case 5 =>
    case 6 =>
    case 7 =>
    case 8 =>
    case 9 =>
    case 10 =>
    case 11 =>
    case 12 =>
    case 13 =>
    case 14 =>
    case 15 =>
    case 16 =>
    case 17 =>
    case 18 =>
    case 19 =>
    case 20 =>
    case 21 =>
    case 22 =>
    case _ =>
  }
}
