// The lane operations are those of the machine on 64-bit words: the exclusive-or, the AND, the OR,
// the NOT and the rotation to the left of the portable code and of the amd64 instructions
// (quarry/keccak/keccakf.go, quarry/keccak/keccakf_amd64.s), and its bytes are those of the word,
// lowest first (quarry/keccak/sha3.go).
module LaneWords {
  import opened KeccakSpec
  import opened RoundConstants
  import KeccakAsm
  import SpongeSpec

  // ----- bits of a word, at places that are words themselves -----

  function BitOf(v: bv64, z: bv7): bool
    requires z <= 64
  {
    (v >> z) & 1 == 1
  }

  lemma BitIs(v: bv64, z: nat)
    requires z < 64
    ensures (z as bv7) < 64 && Bit(v, z) == BitOf(v, z as bv7)
  {}

  lemma XorBit(v: bv64, w: bv64, z: bv7)
    requires z < 64
    ensures BitOf(v ^ w, z) == (BitOf(v, z) != BitOf(w, z))
  {}

  lemma AndBit(v: bv64, w: bv64, z: bv7)
    requires z < 64
    ensures BitOf(v & w, z) == (BitOf(v, z) && BitOf(w, z))
  {}

  lemma OrBit(v: bv64, w: bv64, z: bv7)
    requires z < 64
    ensures BitOf(v | w, z) == (BitOf(v, z) || BitOf(w, z))
  {}

  lemma NotBit(v: bv64, z: bv7)
    requires z < 64
    ensures BitOf(!v, z) == !BitOf(v, z)
  {}

  // ----- the bitwise operations -----

  lemma XorWord(v: bv64, w: bv64)
    ensures Word(v ^ w) == Xor(Word(v), Word(w))
  {
    hide Bit, BitOf;
    forall z | 0 <= z < 64 ensures Bit(v ^ w, z) == (Bit(v, z) != Bit(w, z)) {
      BitIs(v, z);
      BitIs(w, z);
      BitIs(v ^ w, z);
      XorBit(v, w, z as bv7);
    }
    assert Word(v ^ w).bits == Xor(Word(v), Word(w)).bits;
  }

  lemma AndWord(v: bv64, w: bv64)
    ensures Word(v & w) == And(Word(v), Word(w))
  {
    hide Bit, BitOf;
    forall z | 0 <= z < 64 ensures Bit(v & w, z) == (Bit(v, z) && Bit(w, z)) {
      BitIs(v, z);
      BitIs(w, z);
      BitIs(v & w, z);
      AndBit(v, w, z as bv7);
    }
    assert Word(v & w).bits == And(Word(v), Word(w)).bits;
  }

  lemma OrWord(v: bv64, w: bv64)
    ensures Word(v | w) == KeccakAsm.Or(Word(v), Word(w))
  {
    hide Bit, BitOf;
    forall z | 0 <= z < 64 ensures Bit(v | w, z) == (Bit(v, z) || Bit(w, z)) {
      BitIs(v, z);
      BitIs(w, z);
      BitIs(v | w, z);
      OrBit(v, w, z as bv7);
    }
    assert Word(v | w).bits == KeccakAsm.Or(Word(v), Word(w)).bits;
  }

  lemma NotWord(v: bv64)
    ensures Word(!v) == Not(Word(v))
  {
    hide Bit, BitOf;
    forall z | 0 <= z < 64 ensures Bit(!v, z) == !Bit(v, z) {
      BitIs(v, z);
      BitIs(!v, z);
      NotBit(v, z as bv7);
    }
    assert Word(!v).bits == Not(Word(v)).bits;
  }

  // ----- the two shifts, by ranges of their amount -----

  lemma LeftBit1(v: bv64, k: bv7, z: bv7)
    requires k <= z < 64 && k < 8
    ensures BitOf(v << k, z) == BitOf(v, z - k)
  {}

  lemma LeftBit2(v: bv64, k: bv7, z: bv7)
    requires k <= z < 64 && 8 <= k < 16
    ensures BitOf(v << k, z) == BitOf(v, z - k)
  {}

  lemma LeftBit3(v: bv64, k: bv7, z: bv7)
    requires k <= z < 64 && 16 <= k < 32
    ensures BitOf(v << k, z) == BitOf(v, z - k)
  {}

  lemma LeftBit4(v: bv64, k: bv7, z: bv7)
    requires k <= z < 64 && 32 <= k
    ensures BitOf(v << k, z) == BitOf(v, z - k)
  {}

  lemma LeftBit(v: bv64, k: bv7, z: bv7)
    requires k <= z < 64
    ensures BitOf(v << k, z) == BitOf(v, z - k)
  {
    hide BitOf;
    if k < 8 { LeftBit1(v, k, z); } else if k < 16 { LeftBit2(v, k, z); } else if k < 32 { LeftBit3(v, k, z); } else { LeftBit4(v, k, z); }
  }

  lemma LeftLow(v: bv64, k: bv7, z: bv7)
    requires z < k <= 64
    ensures !BitOf(v << k, z)
  {}

  lemma RightBit1(v: bv64, k: bv7, z: bv7)
    requires k < 64 && z < 64 && k + z < 64 && k < 8
    ensures BitOf(v >> k, z) == BitOf(v, z + k)
  {}

  lemma RightBit2(v: bv64, k: bv7, z: bv7)
    requires k < 64 && z < 64 && k + z < 64 && 8 <= k < 16
    ensures BitOf(v >> k, z) == BitOf(v, z + k)
  {}

  lemma RightBit3(v: bv64, k: bv7, z: bv7)
    requires k < 64 && z < 64 && k + z < 64 && 16 <= k < 32
    ensures BitOf(v >> k, z) == BitOf(v, z + k)
  {}

  lemma RightBit4(v: bv64, k: bv7, z: bv7)
    requires k < 64 && z < 64 && k + z < 64 && 32 <= k
    ensures BitOf(v >> k, z) == BitOf(v, z + k)
  {}

  lemma RightBit(v: bv64, k: bv7, z: bv7)
    requires k < 64 && z < 64 && k + z < 64
    ensures BitOf(v >> k, z) == BitOf(v, z + k)
  {
    hide BitOf;
    if k < 8 { RightBit1(v, k, z); } else if k < 16 { RightBit2(v, k, z); } else if k < 32 { RightBit3(v, k, z); } else { RightBit4(v, k, z); }
  }

  lemma RightHigh(v: bv64, k: bv7, z: bv7)
    requires k <= 64 && z < 64 && k + z >= 64
    ensures !BitOf(v >> k, z)
  {}

  // ----- rotation -----

  function Left(v: bv64, k: bv7): bv64
    requires k <= 64
  {
    v << k
  }

  function Right(v: bv64, k: bv7): bv64
    requires k <= 64
  {
    v >> k
  }

  // bits.RotateLeft64 and the instruction ROLQ.
  function RotateLeft(v: bv64, k: bv7): bv64
    requires k < 64
  {
    Left(v, k) | Right(v, 64 - k)
  }

  // The place a bit comes from.
  function Source(k: bv7, z: bv7): bv7
    requires k < 64 && z < 64
  {
    if k <= z then z - k else z + (64 - k)
  }

  lemma LeftPart(v: bv64, k: bv7, z: bv7)
    requires k < 64 && z < 64
    ensures Source(k, z) < 64 && BitOf(Left(v, k), z) == (k <= z && BitOf(v, Source(k, z)))
  {
    hide BitOf;
    if k <= z { LeftBit(v, k, z); } else { LeftLow(v, k, z); }
  }

  lemma RightAt(v: bv64, k: bv7, z: bv7)
    requires k <= 64 && z < 64
    ensures k + z < 64 ==> BitOf(Right(v, k), z) == BitOf(v, z + k)
    ensures k + z >= 64 ==> !BitOf(Right(v, k), z)
  {
    hide BitOf;
    if k == 64 || k + z >= 64 { RightHigh(v, k, z); } else { RightBit(v, k, z); }
  }

  lemma RightPart(v: bv64, k: bv7, z: bv7)
    requires k < 64 && z < 64
    ensures Source(k, z) < 64 && BitOf(Right(v, 64 - k), z) == (k > z && BitOf(v, Source(k, z)))
  {
    hide BitOf, Right;
    RightAt(v, 64 - k, z);
  }

  lemma RotateBit(v: bv64, k: bv7, z: bv7)
    requires k < 64 && z < 64
    ensures Source(k, z) < 64 && BitOf(RotateLeft(v, k), z) == BitOf(v, Source(k, z))
  {
    hide BitOf, Left, Right, Source;
    LeftPart(v, k, z);
    RightPart(v, k, z);
    OrBit(Left(v, k), Right(v, 64 - k), z);
  }

  lemma SourceBehind(z: bv7, k: bv7)
    requires k <= z < 64
    ensures Source(k, z) as nat == (z as nat) - (k as nat)
  {}

  lemma SourceAhead(z: bv7, k: bv7)
    requires z < k < 64
    ensures Source(k, z) as nat == (z as nat) - (k as nat) + 64
  {}

  lemma PlaceBound(z: bv7)
    requires z < 64
    ensures (z as nat) < 64
  {}

  lemma Within(s: nat, x: int)
    requires s < 64 && (s == x || s == x + 64)
    ensures s == x % 64
  {}

  lemma SourcePlace(k: bv7, z: bv7)
    requires k < 64 && z < 64
    ensures (z as nat) < 64 && Source(k, z) as nat == ((z as nat) - (k as nat)) % 64
  {
    PlaceBound(z);
    PlaceBound(Source(k, z));
    hide Source;
    if k <= z { SourceBehind(z, k); } else { SourceAhead(z, k); }
    Within(Source(k, z) as nat, (z as nat) - (k as nat));
  }

  lemma PlaceBack(z: nat)
    requires z < 64
    ensures (z as bv7) < 64 && (z as bv7) as nat == z
  {}

  lemma BitHere(v: bv64, z: bv7)
    requires z < 64
    ensures (z as nat) < 64 && Bit(v, z as nat) == BitOf(v, z)
  {}

  lemma RotatedBit(v: bv64, k: bv7, z: bv7, m: nat, q: nat)
    requires k < 64 && z < 64 && m == z as nat && q == Source(k, z) as nat
    ensures m < 64 && q < 64 && Bit(RotateLeft(v, k), m) == Bit(v, q)
  {
    RotateBit(v, k, z);
    assert Source(k, z) < 64;
    hide BitOf, Bit, RotateLeft, Source;
    BitHere(RotateLeft(v, k), z);
    BitHere(v, Source(k, z));
  }

  lemma SourceAt(k: bv7, z: bv7, n: nat, m: nat) returns (q: nat)
    requires k < 64 && z < 64 && n == k as nat && m == z as nat
    ensures q == Source(k, z) as nat && q == (m - n) % 64
  {
    hide Source;
    SourcePlace(k, z);
    q := Source(k, z) as nat;
    Wrapping(z as nat, k as nat, m, n);
  }

  lemma Wrapping(x: nat, y: nat, m: nat, n: nat)
    requires x == m && y == n
    ensures (x - y) % 64 == (m - n) % 64
  {}

  lemma RotAt(a: Lane, k: nat, z: nat)
    requires k < 64 && z < 64
    ensures Rot(a, k).bits[z] == a.bits[(z - k) % 64]
  {}

  lemma SameBits(a: Lane, b: Lane)
    requires forall z: nat | z < 64 :: a.bits[z] == b.bits[z]
    ensures a == b
  {
    assert a.bits == b.bits;
  }

  lemma WordAt(v: bv64, z: nat)
    requires z < 64
    ensures Word(v).bits[z] == Bit(v, z)
  {
    hide Bit;
  }

  lemma RotWordBit(v: bv64, k: bv7, z: bv7, n: nat, m: nat)
    requires k < 64 && z < 64 && n == k as nat && m == z as nat
    ensures n < 64 && m < 64 && Word(RotateLeft(v, k)).bits[m] == Rot(Word(v), n).bits[m]
  {
    hide Bit, RotateLeft, Word, Rot, Source;
    BitHere(v, k);
    var q := SourceAt(k, z, n, m);
    RotatedBit(v, k, z, m, q);
    RotatedLane(v, RotateLeft(v, k), n, m);
  }

  lemma RotatedLane(v: bv64, w: bv64, n: nat, m: nat)
    requires n < 64 && m < 64 && Bit(w, m) == Bit(v, (m - n) % 64)
    ensures Word(w).bits[m] == Rot(Word(v), n).bits[m]
  {
    hide Bit, Word, Rot;
    WordAt(w, m);
    RotAt(Word(v), n, m);
    WordAt(v, (m - n) % 64);
  }

  // Rotation of a lane is rotation of the word to the left, by every amount.
  lemma RotWord(v: bv64, k: bv7)
    requires k < 64
    ensures (k as nat) < 64 && Word(RotateLeft(v, k)) == Rot(Word(v), k as nat)
  {
    BitHere(v, k);
    hide Bit, BitOf, RotateLeft, Word, Rot;
    var w, l := Word(RotateLeft(v, k)), Rot(Word(v), k as nat);
    forall z: nat | z < 64 ensures w.bits[z] == l.bits[z] {
      PlaceBack(z);
      RotWordBit(v, k, z as bv7, k as nat, z);
    }
    SameBits(w, l);
  }

  // ----- bytes -----

  predicate Holds(b: bv8, m: bv8) {
    b & m != 0
  }

  // The bits of a byte, least significant first.
  function ByteBits(b: bv8): SpongeSpec.Byte {
    SpongeSpec.Byte(Holds(b, 1), Holds(b, 2), Holds(b, 4), Holds(b, 8), Holds(b, 16), Holds(b, 32), Holds(b, 64), Holds(b, 128))
  }

  function LowByte(v: bv64): bv8 {
    (v & 0xFF) as bv8
  }

  lemma LowBits(v: bv64)
    ensures ByteBits(LowByte(v)) ==
      SpongeSpec.Byte(BitOf(v, 0), BitOf(v, 1), BitOf(v, 2), BitOf(v, 3), BitOf(v, 4), BitOf(v, 5), BitOf(v, 6), BitOf(v, 7))
  {}

  lemma PlaceSum(y: bv7, i: bv7)
    requires y < 57 && i < 8
    ensures (y + i) as nat == (y as nat) + (i as nat)
  {}

  lemma ShiftedBit(v: bv64, y: bv7, i: bv7, n: nat)
    requires y < 57 && i < 8 && n == (y as nat) + (i as nat)
    ensures n < 64 && BitOf(Right(v, y), i) == Word(v).bits[n]
  {
    hide BitOf, Right, Word;
    RightAt(v, y, i);
    PlaceSum(y, i);
    BitHere(v, i + y);
    WordAt(v, n);
  }

  // A lane is written as the bytes of its word, the lowest first: what binary.LittleEndian writes.
  lemma LittleEndian(v: bv64, y: bv7, j: nat)
    requires y < 57 && j < 8 && (y as nat) == 8 * j
    ensures SpongeSpec.ByteOf(Word(v), j) == ByteBits(LowByte(Right(v, y)))
  {
    hide BitOf, Right, Word, ByteBits, LowByte;
    LowBits(Right(v, y));
    ShiftedBit(v, y, 0, 8 * j);
    ShiftedBit(v, y, 1, 8 * j + 1);
    ShiftedBit(v, y, 2, 8 * j + 2);
    ShiftedBit(v, y, 3, 8 * j + 3);
    ShiftedBit(v, y, 4, 8 * j + 4);
    ShiftedBit(v, y, 5, 8 * j + 5);
    ShiftedBit(v, y, 6, 8 * j + 6);
    ShiftedBit(v, y, 7, 8 * j + 7);
  }

  lemma MaskedXor(x: bv8, y: bv8, m: bv8)
    requires m & (m - 1) == 0
    ensures Holds(x ^ y, m) == (Holds(x, m) != Holds(y, m))
  {}

  lemma XorBytes(x: bv8, y: bv8)
    ensures ByteBits(x ^ y) == SpongeSpec.XorByte(ByteBits(x), ByteBits(y))
  {
    hide Holds;
    MaskedXor(x, y, 1);
    MaskedXor(x, y, 2);
    MaskedXor(x, y, 4);
    MaskedXor(x, y, 8);
    MaskedXor(x, y, 16);
    MaskedXor(x, y, 32);
    MaskedXor(x, y, 64);
    MaskedXor(x, y, 128);
  }
}
