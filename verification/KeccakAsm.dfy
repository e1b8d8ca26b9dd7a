// The amd64 permutation: each round reads one buffer and writes the other, with six words kept
// inverted in both, and carries partial column sums in registers from one round to the next.
module KeccakAsm {
  import opened KeccakSpec
  import opened RoundConstants
  import opened LaneLaws

  function Or(a: Lane, b: Lane): Lane {
    Lane(seq(64, z requires 0 <= z < 64 => a.bits[z] || b.bits[z]))
  }

  // ----- the inverted words -----

  predicate Inverted(i: nat) {
    i == 1 || i == 2 || i == 8 || i == 12 || i == 17 || i == 20
  }

  function Sign(negate: bool, a: Lane): Lane {
    if negate then Not(a) else a
  }

  // The state that a buffer stands for, and the buffer that holds a state.
  function Flip(s: Lanes): Lanes {
    seq(25, i requires 0 <= i < 25 => Sign(Inverted(i), s[i]))
  }

  lemma NotNot(a: Lane)
    ensures Not(Not(a)) == a
  {
    assert Not(Not(a)).bits == a.bits;
  }

  lemma FlipFlip(s: Lanes)
    ensures Flip(Flip(s)) == s
  {
    hide Not;
    forall i | 0 <= i < 25 ensures Flip(Flip(s))[i] == s[i] {
      NotNot(s[i]);
    }
  }

  lemma NotXor(a: Lane, b: Lane)
    ensures Xor(Not(a), b) == Not(Xor(a, b)) && Xor(a, Not(b)) == Not(Xor(a, b)) && Xor(Not(a), Not(b)) == Xor(a, b)
  {
    assert Xor(Not(a), b).bits == Not(Xor(a, b)).bits;
    assert Xor(a, Not(b)).bits == Not(Xor(a, b)).bits;
    assert Xor(Not(a), Not(b)).bits == Xor(a, b).bits;
  }

  lemma SignXor(p: bool, q: bool, a: Lane, b: Lane)
    ensures Xor(Sign(p, a), Sign(q, b)) == Sign(p != q, Xor(a, b))
  {
    hide Xor, Not;
    NotXor(a, b);
  }

  lemma SignRot(p: bool, a: Lane, k: nat)
    requires k < 64
    ensures Rot(Sign(p, a), k) == Sign(p, Rot(a, k))
  {
    assert Rot(Not(a), k).bits == Not(Rot(a, k)).bits;
  }

  lemma SignXor5(p: bool, q: bool, r: bool, u: bool, v: bool, a: Lane, b: Lane, c: Lane, d: Lane, e: Lane)
    ensures Xor5(Sign(p, a), Sign(q, b), Sign(r, c), Sign(u, d), Sign(v, e)) == Sign((((p != q) != r) != u) != v, Xor5(a, b, c, d, e))
  {
    hide Xor, Sign;
    SignXor(p, q, a, b);
    SignXor(p != q, r, Xor(a, b), c);
    SignXor((p != q) != r, u, Xor(Xor(a, b), c), d);
    SignXor(((p != q) != r) != u, v, Xor(Xor(Xor(a, b), c), d), e);
  }

  // Every column but the last holds an odd number of inverted words.
  lemma FlipParity(s: Lanes, x: nat)
    requires x < 5
    ensures ColumnParity(Flip(s), x) == Sign(x != 4, ColumnParity(s, x))
  {
    hide Xor5, Sign;
    SignXor5(Inverted(x), Inverted(x + 5), Inverted(x + 10), Inverted(x + 15), Inverted(x + 20), s[x], s[x + 5], s[x + 10], s[x + 15], s[x + 20]);
    assert x == 0 || x == 1 || x == 2 || x == 3 || x == 4;
  }

  lemma FlipTheta(s: Lanes, x: nat)
    requires x < 5
    ensures ThetaD(Flip(s), x) == Sign(x == 0 || x == 3, ThetaD(s, x))
  {
    hide ColumnParity, Flip, Sign, Xor, Rot;
    var l, r := (x + 4) % 5, (x + 1) % 5;
    FlipParity(s, l);
    FlipParity(s, r);
    SignRot(r != 4, ColumnParity(s, r), 1);
    SignXor(l != 4, r != 4, ColumnParity(s, l), Rot(ColumnParity(s, r), 1));
    assert x == 0 || x == 1 || x == 2 || x == 3 || x == 4;
  }

  // Whether the lane that chi reads at (x, y) is inverted in the registers.
  predicate Odd(x: nat, y: nat) {
    var c := (x + 3 * y) % 5;
    Inverted(c + 5 * x) != (c == 0 || c == 3)
  }

  lemma FlipFrom(s: Lanes, x: nat, y: nat)
    requires x < 5 && y < 5
    ensures From(s, x, y) == Sign(Odd(x, y), From(Flip(s), x, y))
  {
    hide Flip, ThetaD, Sign, Xor, Rot, Inverted, Offset;
    var t := Flip(s);
    var c := (x + 3 * y) % 5;
    var i := c + 5 * x;
    FlipFlip(s);
    FlipTheta(t, c);
    assert Flip(t)[i] == Sign(Inverted(i), t[i]) by { FlipAt(t, i); }
    SignXor(Inverted(i), c == 0 || c == 3, t[i], ThetaD(t, c));
    SignRot(Odd(x, y), Xor(t[i], ThetaD(t, c)), Offset(i));
  }

  lemma FlipAt(s: Lanes, i: nat)
    requires i < 25
    ensures Flip(s)[i] == Sign(Inverted(i), s[i])
  {}

  // Lane (x, y) of a round, as the destination buffer holds it.
  function Out(s: Lanes, rc: Lane, x: nat, y: nat): Lane
    requires x < 5 && y < 5
  {
    var t := Flip(s);
    var v := Xor(From(t, x, y), And(Not(From(t, (x + 1) % 5, y)), From(t, (x + 2) % 5, y)));
    Sign(Inverted(x + 5 * y), if x == 0 && y == 0 then Xor(v, rc) else v)
  }

  lemma OutIsRound(s: Lanes, rc: Lane, d: Lanes)
    requires forall x: nat, y: nat | x < 5 && y < 5 :: d[x + 5 * y] == Out(s, rc, x, y)
    ensures Flip(d) == Round(Flip(s), rc)
  {
    hide Xor, And, Not, From, Round, Inverted, Out;
    forall i | 0 <= i < 25 ensures Flip(d)[i] == Round(Flip(s), rc)[i] {
      var x, y := i % 5, i / 5;
      assert d[i] == Out(s, rc, x, y);
      OutAt(s, rc, x, y);
      FlipAt(d, i);
    }
  }

  lemma OutAt(s: Lanes, rc: Lane, x: nat, y: nat)
    requires x < 5 && y < 5
    ensures Sign(Inverted(x + 5 * y), Out(s, rc, x, y)) == Round(Flip(s), rc)[x + 5 * y]
  {
    hide Xor, And, Not, From, Round, Inverted, Flip;
    RoundAt(Flip(s), rc, x, y);
    var v := Round(Flip(s), rc)[x + 5 * y];
    NotNot(v);
  }

  // ----- the six parts of a round -----

  lemma AlgebraB(b0: Lane, b1: Lane, b2: Lane, b3: Lane, b4: Lane, rc: Lane)
    ensures Xor(Or(b1, Not(b2)), Xor(rc, Not(b0))) == Xor(Xor(b0, And(Not(b1), b2)), rc)
    ensures Xor(Or(Not(Not(b2)), Not(b3)), b1) == Not(Xor(b1, And(Not(b2), b3)))
    ensures Xor(And(Not(b3), b4), Not(b2)) == Not(Xor(b2, And(Not(b3), b4)))
    ensures Xor(Or(b4, Not(b0)), Not(b3)) == Xor(b3, And(Not(b4), b0))
    ensures Xor(And(Not(b0), b1), b4) == Xor(b4, And(Not(b0), b1))
  {
    assert (Xor(Or(b1, Not(b2)), Xor(rc, Not(b0)))).bits == (Xor(Xor(b0, And(Not(b1), b2)), rc)).bits;
    assert (Xor(Or(Not(Not(b2)), Not(b3)), b1)).bits == (Not(Xor(b1, And(Not(b2), b3)))).bits;
    assert (Xor(And(Not(b3), b4), Not(b2))).bits == (Not(Xor(b2, And(Not(b3), b4)))).bits;
    assert (Xor(Or(b4, Not(b0)), Not(b3))).bits == (Xor(b3, And(Not(b4), b0))).bits;
    assert (Xor(And(Not(b0), b1), b4)).bits == (Xor(b4, And(Not(b0), b1))).bits;
  }

  lemma FromB(s: Lanes)
    ensures From(s, 0, 0) == Rot(Xor(s[0], ThetaD(s, 0)), 0)
    ensures From(s, 1, 0) == Rot(Xor(s[6], ThetaD(s, 1)), 44)
    ensures From(s, 2, 0) == Rot(Xor(s[12], ThetaD(s, 2)), 43)
    ensures From(s, 3, 0) == Rot(Xor(s[18], ThetaD(s, 3)), 21)
    ensures From(s, 4, 0) == Rot(Xor(s[24], ThetaD(s, 4)), 14)
  {
    hide Xor, Rot, ThetaD;
  }

  lemma RowB(s: Lanes, rc: Lane)
    ensures Xor(Or(From(s, 1, 0), From(s, 2, 0)), Xor(rc, From(s, 0, 0))) == Out(s, rc, 0, 0)
    ensures Xor(Or(Not(From(s, 2, 0)), From(s, 3, 0)), From(s, 1, 0)) == Out(s, rc, 1, 0)
    ensures Xor(And(From(s, 3, 0), From(s, 4, 0)), From(s, 2, 0)) == Out(s, rc, 2, 0)
    ensures Xor(Or(From(s, 4, 0), From(s, 0, 0)), From(s, 3, 0)) == Out(s, rc, 3, 0)
    ensures Xor(And(From(s, 0, 0), From(s, 1, 0)), From(s, 4, 0)) == Out(s, rc, 4, 0)
  {
    hide Xor, And, Or, Not, Flip, From;
    var t := Flip(s);
    FlipFrom(s, 0, 0);
    FlipFrom(s, 1, 0);
    FlipFrom(s, 2, 0);
    FlipFrom(s, 3, 0);
    FlipFrom(s, 4, 0);
    AlgebraB(From(t, 0, 0), From(t, 1, 0), From(t, 2, 0), From(t, 3, 0), From(t, 4, 0), rc);
  }

  lemma AlgebraG(b0: Lane, b1: Lane, b2: Lane, b3: Lane, b4: Lane)
    ensures Xor(Or(b1, Not(b2)), Not(b0)) == Xor(b0, And(Not(b1), b2))
    ensures Xor(And(Not(b2), b3), b1) == Xor(b1, And(Not(b2), b3))
    ensures Xor(Or(b3, Not(b4)), Not(b2)) == Xor(b2, And(Not(b3), b4))
    ensures Xor(Or(b4, Not(b0)), b3) == Not(Xor(b3, And(Not(b4), b0)))
    ensures Xor(And(Not(b0), b1), b4) == Xor(b4, And(Not(b0), b1))
  {
    assert (Xor(Or(b1, Not(b2)), Not(b0))).bits == (Xor(b0, And(Not(b1), b2))).bits;
    assert (Xor(And(Not(b2), b3), b1)).bits == (Xor(b1, And(Not(b2), b3))).bits;
    assert (Xor(Or(b3, Not(b4)), Not(b2))).bits == (Xor(b2, And(Not(b3), b4))).bits;
    assert (Xor(Or(b4, Not(b0)), b3)).bits == (Not(Xor(b3, And(Not(b4), b0)))).bits;
    assert (Xor(And(Not(b0), b1), b4)).bits == (Xor(b4, And(Not(b0), b1))).bits;
  }

  lemma FromG(s: Lanes)
    ensures From(s, 0, 1) == Rot(Xor(s[3], ThetaD(s, 3)), 28)
    ensures From(s, 1, 1) == Rot(Xor(s[9], ThetaD(s, 4)), 20)
    ensures From(s, 2, 1) == Rot(Xor(s[10], ThetaD(s, 0)), 3)
    ensures From(s, 3, 1) == Rot(Xor(s[16], ThetaD(s, 1)), 45)
    ensures From(s, 4, 1) == Rot(Xor(s[22], ThetaD(s, 2)), 61)
  {
    hide Xor, Rot, ThetaD;
  }

  lemma RowG(s: Lanes, rc: Lane)
    ensures Xor(Or(From(s, 1, 1), From(s, 2, 1)), From(s, 0, 1)) == Out(s, rc, 0, 1)
    ensures Xor(And(From(s, 2, 1), From(s, 3, 1)), From(s, 1, 1)) == Out(s, rc, 1, 1)
    ensures Xor(Or(From(s, 3, 1), Not(From(s, 4, 1))), From(s, 2, 1)) == Out(s, rc, 2, 1)
    ensures Xor(Or(From(s, 4, 1), From(s, 0, 1)), From(s, 3, 1)) == Out(s, rc, 3, 1)
    ensures Xor(And(From(s, 0, 1), From(s, 1, 1)), From(s, 4, 1)) == Out(s, rc, 4, 1)
  {
    hide Xor, And, Or, Not, Flip, From;
    var t := Flip(s);
    FlipFrom(s, 0, 1);
    FlipFrom(s, 1, 1);
    FlipFrom(s, 2, 1);
    FlipFrom(s, 3, 1);
    FlipFrom(s, 4, 1);
    AlgebraG(From(t, 0, 1), From(t, 1, 1), From(t, 2, 1), From(t, 3, 1), From(t, 4, 1));
  }

  lemma AlgebraK(b0: Lane, b1: Lane, b2: Lane, b3: Lane, b4: Lane)
    ensures Xor(Or(b1, Not(b2)), Not(b0)) == Xor(b0, And(Not(b1), b2))
    ensures Xor(And(Not(b2), b3), b1) == Xor(b1, And(Not(b2), b3))
    ensures Xor(And(Not(b3), b4), Not(b2)) == Not(Xor(b2, And(Not(b3), b4)))
    ensures Xor(Or(b4, Not(b0)), Not(b3)) == Xor(b3, And(Not(b4), b0))
    ensures Xor(And(Not(b0), b1), b4) == Xor(b4, And(Not(b0), b1))
  {
    assert (Xor(Or(b1, Not(b2)), Not(b0))).bits == (Xor(b0, And(Not(b1), b2))).bits;
    assert (Xor(And(Not(b2), b3), b1)).bits == (Xor(b1, And(Not(b2), b3))).bits;
    assert (Xor(And(Not(b3), b4), Not(b2))).bits == (Not(Xor(b2, And(Not(b3), b4)))).bits;
    assert (Xor(Or(b4, Not(b0)), Not(b3))).bits == (Xor(b3, And(Not(b4), b0))).bits;
    assert (Xor(And(Not(b0), b1), b4)).bits == (Xor(b4, And(Not(b0), b1))).bits;
  }

  lemma FromK(s: Lanes)
    ensures From(s, 0, 2) == Rot(Xor(s[1], ThetaD(s, 1)), 1)
    ensures From(s, 1, 2) == Rot(Xor(s[7], ThetaD(s, 2)), 6)
    ensures From(s, 2, 2) == Rot(Xor(s[13], ThetaD(s, 3)), 25)
    ensures From(s, 3, 2) == Rot(Xor(s[19], ThetaD(s, 4)), 8)
    ensures From(s, 4, 2) == Rot(Xor(s[20], ThetaD(s, 0)), 18)
  {
    hide Xor, Rot, ThetaD;
  }

  lemma RowK(s: Lanes, rc: Lane)
    ensures Xor(Or(From(s, 1, 2), From(s, 2, 2)), From(s, 0, 2)) == Out(s, rc, 0, 2)
    ensures Xor(And(From(s, 2, 2), From(s, 3, 2)), From(s, 1, 2)) == Out(s, rc, 1, 2)
    ensures Xor(And(Not(From(s, 3, 2)), From(s, 4, 2)), From(s, 2, 2)) == Out(s, rc, 2, 2)
    ensures Xor(Or(From(s, 4, 2), From(s, 0, 2)), Not(From(s, 3, 2))) == Out(s, rc, 3, 2)
    ensures Xor(And(From(s, 0, 2), From(s, 1, 2)), From(s, 4, 2)) == Out(s, rc, 4, 2)
  {
    hide Xor, And, Or, Not, Flip, From;
    var t := Flip(s);
    FlipFrom(s, 0, 2);
    FlipFrom(s, 1, 2);
    FlipFrom(s, 2, 2);
    FlipFrom(s, 3, 2);
    FlipFrom(s, 4, 2);
    AlgebraK(From(t, 0, 2), From(t, 1, 2), From(t, 2, 2), From(t, 3, 2), From(t, 4, 2));
  }

  lemma AlgebraM(b0: Lane, b1: Lane, b2: Lane, b3: Lane, b4: Lane)
    ensures Xor(And(Not(b1), b2), b0) == Xor(b0, And(Not(b1), b2))
    ensures Xor(Or(b2, Not(b3)), Not(b1)) == Xor(b1, And(Not(b2), b3))
    ensures Xor(Or(Not(Not(b3)), Not(b4)), b2) == Not(Xor(b2, And(Not(b3), b4)))
    ensures Xor(And(Not(b4), b0), Not(Not(b3))) == Xor(b3, And(Not(b4), b0))
    ensures Xor(Or(Not(b1), b0), Not(b4)) == Xor(b4, And(Not(b0), b1))
  {
    assert (Xor(And(Not(b1), b2), b0)).bits == (Xor(b0, And(Not(b1), b2))).bits;
    assert (Xor(Or(b2, Not(b3)), Not(b1))).bits == (Xor(b1, And(Not(b2), b3))).bits;
    assert (Xor(Or(Not(Not(b3)), Not(b4)), b2)).bits == (Not(Xor(b2, And(Not(b3), b4)))).bits;
    assert (Xor(And(Not(b4), b0), Not(Not(b3)))).bits == (Xor(b3, And(Not(b4), b0))).bits;
    assert (Xor(Or(Not(b1), b0), Not(b4))).bits == (Xor(b4, And(Not(b0), b1))).bits;
  }

  lemma FromM(s: Lanes)
    ensures From(s, 0, 3) == Rot(Xor(s[4], ThetaD(s, 4)), 27)
    ensures From(s, 1, 3) == Rot(Xor(s[5], ThetaD(s, 0)), 36)
    ensures From(s, 2, 3) == Rot(Xor(s[11], ThetaD(s, 1)), 10)
    ensures From(s, 3, 3) == Rot(Xor(s[17], ThetaD(s, 2)), 15)
    ensures From(s, 4, 3) == Rot(Xor(s[23], ThetaD(s, 3)), 56)
  {
    hide Xor, Rot, ThetaD;
  }

  lemma RowM(s: Lanes, rc: Lane)
    ensures Xor(And(From(s, 1, 3), From(s, 2, 3)), From(s, 0, 3)) == Out(s, rc, 0, 3)
    ensures Xor(Or(From(s, 2, 3), From(s, 3, 3)), From(s, 1, 3)) == Out(s, rc, 1, 3)
    ensures Xor(Or(Not(From(s, 3, 3)), From(s, 4, 3)), From(s, 2, 3)) == Out(s, rc, 2, 3)
    ensures Xor(And(From(s, 4, 3), From(s, 0, 3)), Not(From(s, 3, 3))) == Out(s, rc, 3, 3)
    ensures Xor(Or(From(s, 1, 3), From(s, 0, 3)), From(s, 4, 3)) == Out(s, rc, 4, 3)
  {
    hide Xor, And, Or, Not, Flip, From;
    var t := Flip(s);
    FlipFrom(s, 0, 3);
    FlipFrom(s, 1, 3);
    FlipFrom(s, 2, 3);
    FlipFrom(s, 3, 3);
    FlipFrom(s, 4, 3);
    AlgebraM(From(t, 0, 3), From(t, 1, 3), From(t, 2, 3), From(t, 3, 3), From(t, 4, 3));
  }

  lemma AlgebraS(b0: Lane, b1: Lane, b2: Lane, b3: Lane, b4: Lane)
    ensures Xor(And(Not(b1), b2), Not(b0)) == Not(Xor(b0, And(Not(b1), b2)))
    ensures Xor(Or(b2, Not(b3)), Not(b1)) == Xor(b1, And(Not(b2), b3))
    ensures Xor(And(Not(b3), b4), b2) == Xor(b2, And(Not(b3), b4))
    ensures Xor(Or(b4, Not(b0)), Not(b3)) == Xor(b3, And(Not(b4), b0))
    ensures Xor(And(Not(b0), b1), b4) == Xor(b4, And(Not(b0), b1))
  {
    assert (Xor(And(Not(b1), b2), Not(b0))).bits == (Not(Xor(b0, And(Not(b1), b2)))).bits;
    assert (Xor(Or(b2, Not(b3)), Not(b1))).bits == (Xor(b1, And(Not(b2), b3))).bits;
    assert (Xor(And(Not(b3), b4), b2)).bits == (Xor(b2, And(Not(b3), b4))).bits;
    assert (Xor(Or(b4, Not(b0)), Not(b3))).bits == (Xor(b3, And(Not(b4), b0))).bits;
    assert (Xor(And(Not(b0), b1), b4)).bits == (Xor(b4, And(Not(b0), b1))).bits;
  }

  lemma FromS(s: Lanes)
    ensures From(s, 0, 4) == Rot(Xor(s[2], ThetaD(s, 2)), 62)
    ensures From(s, 1, 4) == Rot(Xor(s[8], ThetaD(s, 3)), 55)
    ensures From(s, 2, 4) == Rot(Xor(s[14], ThetaD(s, 4)), 39)
    ensures From(s, 3, 4) == Rot(Xor(s[15], ThetaD(s, 0)), 41)
    ensures From(s, 4, 4) == Rot(Xor(s[21], ThetaD(s, 1)), 2)
  {
    hide Xor, Rot, ThetaD;
  }

  lemma RowS(s: Lanes, rc: Lane)
    ensures Xor(And(Not(From(s, 1, 4)), From(s, 2, 4)), From(s, 0, 4)) == Out(s, rc, 0, 4)
    ensures Xor(Or(From(s, 2, 4), From(s, 3, 4)), Not(From(s, 1, 4))) == Out(s, rc, 1, 4)
    ensures Xor(And(From(s, 3, 4), From(s, 4, 4)), From(s, 2, 4)) == Out(s, rc, 2, 4)
    ensures Xor(Or(From(s, 4, 4), From(s, 0, 4)), From(s, 3, 4)) == Out(s, rc, 3, 4)
    ensures Xor(And(From(s, 0, 4), From(s, 1, 4)), From(s, 4, 4)) == Out(s, rc, 4, 4)
  {
    hide Xor, And, Or, Not, Flip, From;
    var t := Flip(s);
    FlipFrom(s, 0, 4);
    FlipFrom(s, 1, 4);
    FlipFrom(s, 2, 4);
    FlipFrom(s, 3, 4);
    FlipFrom(s, 4, 4);
    AlgebraS(From(t, 0, 4), From(t, 1, 4), From(t, 2, 4), From(t, 3, 4), From(t, 4, 4));
  }

  // The column sums that registers si, bp and r15 hold between rounds; dx and r8 hold the lowest
  // words of the two that are summed last.
  ghost predicate Sums(s: Lanes, si: Lane, bp: Lane, r15: Lane, dx: Lane, r8: Lane) {
    && si == ColumnParity(s, 0) && bp == ColumnParity(s, 1) && r15 == ColumnParity(s, 4)
    && dx == s[22] && r8 == s[23]
  }

  method Prepare(src: array<Lane>, si: Lane, bp: Lane, r15: Lane, dx0: Lane, r80: Lane)
    returns (bx: Lane, cx: Lane, dx: Lane, r8: Lane, r9: Lane, r13: Lane)
    requires src.Length == 25 && Sums(src[..], si, bp, r15, dx0, r80)
    ensures bx == ThetaD(src[..], 0) && cx == ThetaD(src[..], 1) && dx == ThetaD(src[..], 2)
    ensures r8 == ThetaD(src[..], 3) && Xor(r9, r13) == ThetaD(src[..], 4)
  {
    hide Xor, Rot;
    ghost var s: Lanes := src[..];
    var r12: Lane;
    dx, r8 := dx0, r80;
    bx := bp;
    bx := Rot(bx, 1);
    r12 := src[2];
    dx := Xor(dx, src[7]);
    bx := Xor(bx, r15);
    r12 := Xor(r12, src[12]);
    dx := Xor(dx, src[17]);
    r12 := Xor(r12, dx);
    cx := r12;
    cx := Rot(cx, 1);
    r13 := src[3];
    r8 := Xor(r8, src[8]);
    cx := Xor(cx, si);
    r13 := Xor(r13, src[13]);
    r8 := Xor(r8, src[18]);
    r13 := Xor(r13, r8);
    dx := r13;
    dx := Rot(dx, 1);
    r8 := r15;
    dx := Xor(dx, bp);
    r8 := Rot(r8, 1);
    r9 := si;
    r8 := Xor(r8, r12);
    r9 := Rot(r9, 1);

    LateSum(s[2], s[7], s[12], s[17], s[22]);
    LateSum(s[3], s[8], s[13], s[18], s[23]);
    XorCommutes(Rot(bp, 1), r15);
    XorCommutes(Rot(r12, 1), si);
    XorCommutes(Rot(r13, 1), bp);
    XorCommutes(Rot(r15, 1), r12);
    XorCommutes(r9, r13);
  }

  // The two sums that a round completes take their words in another order.
  lemma LateSum(a: Lane, b: Lane, c: Lane, d: Lane, e: Lane)
    ensures Xor(Xor(a, c), Xor(Xor(e, b), d)) == Xor5(a, b, c, d, e)
  {
    assert Xor(Xor(a, c), Xor(Xor(e, b), d)).bits == Xor5(a, b, c, d, e).bits;
  }

  ghost predicate Words(s: Lanes, bx: Lane, cx: Lane, dx: Lane, r8: Lane, r9: Lane) {
    bx == ThetaD(s, 0) && cx == ThetaD(s, 1) && dx == ThetaD(s, 2) && r8 == ThetaD(s, 3) && r9 == ThetaD(s, 4)
  }

  ghost predicate RowOut(s: Lanes, rc: Lane, y: nat, v0: Lane, v1: Lane, v2: Lane, v3: Lane, v4: Lane)
    requires y < 5
  {
    v0 == Out(s, rc, 0, y) && v1 == Out(s, rc, 1, y) && v2 == Out(s, rc, 2, y) && v3 == Out(s, rc, 3, y) && v4 == Out(s, rc, 4, y)
  }

  method ResultB(src: array<Lane>, dst: array<Lane>, bx: Lane, cx: Lane, dx: Lane, r8: Lane, r90: Lane, r130: Lane, rc: Lane)
    returns (si: Lane, bp: Lane, r15: Lane, r9: Lane)
    requires src.Length == 25 && dst.Length == 25 && src != dst
    requires Words(src[..], bx, cx, dx, r8, Xor(r90, r130))
    modifies dst
    ensures RowOut(src[..], rc, 0, dst[0], dst[1], dst[2], dst[3], dst[4])
    ensures forall i | 0 <= i < 25 && i / 5 != 0 :: dst[i] == old(dst[i])
    ensures si == dst[0] && bp == dst[1] && r15 == dst[4] && r9 == Xor(r90, r130)
  {
    hide Xor, And, Or, Not, Rot, ThetaD, From, Out;
    ghost var s: Lanes := src[..];
    r9 := r90;
    var r10: Lane, r11: Lane, r12: Lane, r14: Lane, ax: Lane;
    var r13 := r130;
    r10 := src[0];
    r11 := src[6];
    r9 := Xor(r9, r13);
    r12 := src[12];
    r13 := src[18];
    r14 := src[24];
    r11 := Xor(r11, cx);
    r11 := Rot(r11, 44);
    r12 := Xor(r12, dx);
    r10 := Xor(r10, bx);
    r12 := Rot(r12, 43);
    si := r11;
    ax := rc;
    si := Or(si, r12);
    ax := Xor(ax, r10);
    si := Xor(si, ax);
    dst[0] := si;
    r14 := Xor(r14, r9);
    r14 := Rot(r14, 14);
    r15 := r10;
    r15 := And(r15, r11);
    r15 := Xor(r15, r14);
    dst[4] := r15;
    r13 := Xor(r13, r8);
    r13 := Rot(r13, 21);
    ax := r13;
    ax := And(ax, r14);
    ax := Xor(ax, r12);
    dst[2] := ax;
    r12 := Not(r12);
    r14 := Or(r14, r10);
    r12 := Or(r12, r13);
    r14 := Xor(r14, r13);
    r12 := Xor(r12, r11);
    dst[3] := r14;
    dst[1] := r12;
    bp := r12;

    RotNone(Xor(s[0], ThetaD(s, 0)));
    FromB(s);
    RowB(s, rc);
  }

  method ResultG(src: array<Lane>, dst: array<Lane>, bx: Lane, cx: Lane, dx: Lane, r8: Lane, r9: Lane, si0: Lane, bp0: Lane, r150: Lane, ghost rc: Lane)
    returns (si: Lane, bp: Lane, r15: Lane)
    requires src.Length == 25 && dst.Length == 25 && src != dst
    requires Words(src[..], bx, cx, dx, r8, r9)
    modifies dst
    ensures RowOut(src[..], rc, 1, dst[5], dst[6], dst[7], dst[8], dst[9])
    ensures forall i | 0 <= i < 25 && i / 5 != 1 :: dst[i] == old(dst[i])
    ensures si == Xor(si0, dst[5]) && bp == Xor(bp0, dst[6]) && r15 == Xor(r150, dst[9])
  {
    hide Xor, And, Or, Not, Rot, ThetaD, From, Out;
    ghost var s: Lanes := src[..];
    si, bp, r15 := si0, bp0, r150;
    var r10: Lane, r11: Lane, r12: Lane, r13: Lane, r14: Lane, ax: Lane;
    r11 := src[9];
    r11 := Xor(r11, r9);
    r12 := src[10];
    r11 := Rot(r11, 20);
    r12 := Xor(r12, bx);
    r12 := Rot(r12, 3);
    r10 := src[3];
    ax := r11;
    ax := Or(ax, r12);
    r10 := Xor(r10, r8);
    r13 := src[16];
    r14 := src[22];
    r10 := Rot(r10, 28);
    ax := Xor(ax, r10);
    dst[5] := ax;
    si := Xor(si, ax);
    r13 := Xor(r13, cx);
    r13 := Rot(r13, 45);
    ax := r12;
    ax := And(ax, r13);
    ax := Xor(ax, r11);
    dst[6] := ax;
    bp := Xor(bp, ax);
    r14 := Xor(r14, dx);
    r14 := Rot(r14, 61);
    ax := r14;
    ax := Or(ax, r10);
    ax := Xor(ax, r13);
    dst[8] := ax;
    r10 := And(r10, r11);
    r10 := Xor(r10, r14);
    dst[9] := r10;
    r14 := Not(r14);
    r15 := Xor(r15, r10);
    r13 := Or(r13, r14);
    r13 := Xor(r13, r12);
    dst[7] := r13;

    FromG(s);
    RowG(s, rc);
  }

  method ResultK(src: array<Lane>, dst: array<Lane>, bx: Lane, cx: Lane, dx: Lane, r8: Lane, r9: Lane, si0: Lane, bp0: Lane, r150: Lane, ghost rc: Lane)
    returns (si: Lane, bp: Lane, r15: Lane)
    requires src.Length == 25 && dst.Length == 25 && src != dst
    requires Words(src[..], bx, cx, dx, r8, r9)
    modifies dst
    ensures RowOut(src[..], rc, 2, dst[10], dst[11], dst[12], dst[13], dst[14])
    ensures forall i | 0 <= i < 25 && i / 5 != 2 :: dst[i] == old(dst[i])
    ensures si == Xor(si0, dst[10]) && bp == Xor(bp0, dst[11]) && r15 == Xor(r150, dst[14])
  {
    hide Xor, And, Or, Not, Rot, ThetaD, From, Out;
    ghost var s: Lanes := src[..];
    si, bp, r15 := si0, bp0, r150;
    var r10: Lane, r11: Lane, r12: Lane, r13: Lane, r14: Lane, ax: Lane;
    r10 := src[1];
    r11 := src[7];
    r12 := src[13];
    r13 := src[19];
    r14 := src[20];
    r11 := Xor(r11, dx);
    r11 := Rot(r11, 6);
    r12 := Xor(r12, r8);
    r12 := Rot(r12, 25);
    ax := r11;
    ax := Or(ax, r12);
    r10 := Xor(r10, cx);
    r10 := Rot(r10, 1);
    ax := Xor(ax, r10);
    dst[10] := ax;
    si := Xor(si, ax);
    r13 := Xor(r13, r9);
    r13 := Rot(r13, 8);
    ax := r12;
    ax := And(ax, r13);
    ax := Xor(ax, r11);
    dst[11] := ax;
    bp := Xor(bp, ax);
    r14 := Xor(r14, bx);
    r14 := Rot(r14, 18);
    r13 := Not(r13);
    ax := r13;
    ax := And(ax, r14);
    ax := Xor(ax, r12);
    dst[12] := ax;
    ax := r14;
    ax := Or(ax, r10);
    ax := Xor(ax, r13);
    dst[13] := ax;
    r10 := And(r10, r11);
    r10 := Xor(r10, r14);
    dst[14] := r10;
    r15 := Xor(r15, r10);

    FromK(s);
    RowK(s, rc);
  }

  method ResultM(src: array<Lane>, dst: array<Lane>, bx: Lane, cx: Lane, dx: Lane, r8: Lane, r9: Lane, si0: Lane, bp0: Lane, r150: Lane, ghost rc: Lane)
    returns (si: Lane, bp: Lane, r15: Lane)
    requires src.Length == 25 && dst.Length == 25 && src != dst
    requires Words(src[..], bx, cx, dx, r8, r9)
    modifies dst
    ensures RowOut(src[..], rc, 3, dst[15], dst[16], dst[17], dst[18], dst[19])
    ensures forall i | 0 <= i < 25 && i / 5 != 3 :: dst[i] == old(dst[i])
    ensures si == Xor(si0, dst[15]) && bp == Xor(bp0, dst[16]) && r15 == Xor(r150, dst[19])
  {
    hide Xor, And, Or, Not, Rot, ThetaD, From, Out;
    ghost var s: Lanes := src[..];
    si, bp, r15 := si0, bp0, r150;
    var r10: Lane, r11: Lane, r12: Lane, r13: Lane, r14: Lane, ax: Lane;
    r11 := src[5];
    r11 := Xor(r11, bx);
    r12 := src[11];
    r11 := Rot(r11, 36);
    r12 := Xor(r12, cx);
    r10 := src[4];
    r12 := Rot(r12, 10);
    ax := r11;
    r13 := src[17];
    ax := And(ax, r12);
    r10 := Xor(r10, r9);
    r14 := src[23];
    r10 := Rot(r10, 27);
    ax := Xor(ax, r10);
    dst[15] := ax;
    si := Xor(si, ax);
    r13 := Xor(r13, dx);
    r13 := Rot(r13, 15);
    ax := r12;
    ax := Or(ax, r13);
    ax := Xor(ax, r11);
    dst[16] := ax;
    bp := Xor(bp, ax);
    r14 := Xor(r14, r8);
    r14 := Rot(r14, 56);
    r13 := Not(r13);
    ax := r13;
    ax := Or(ax, r14);
    ax := Xor(ax, r12);
    dst[17] := ax;
    r11 := Or(r11, r10);
    r11 := Xor(r11, r14);
    dst[19] := r11;
    r14 := And(r14, r10);
    r14 := Xor(r14, r13);
    dst[18] := r14;
    r15 := Xor(r15, r11);

    FromM(s);
    RowM(s, rc);
  }

  method ResultS(src: array<Lane>, dst: array<Lane>, bx0: Lane, cx0: Lane, dx0: Lane, r80: Lane, r90: Lane, si0: Lane, bp0: Lane, r150: Lane, ghost rc: Lane)
    returns (si: Lane, bp: Lane, r15: Lane, dx: Lane, r8: Lane)
    requires src.Length == 25 && dst.Length == 25 && src != dst
    requires Words(src[..], bx0, cx0, dx0, r80, r90)
    modifies dst
    ensures RowOut(src[..], rc, 4, dst[20], dst[21], dst[22], dst[23], dst[24])
    ensures forall i | 0 <= i < 25 && i / 5 != 4 :: dst[i] == old(dst[i])
    ensures si == Xor(si0, dst[20]) && bp == Xor(bp0, dst[21]) && r15 == Xor(r150, dst[24])
    ensures dx == dst[22] && r8 == dst[23]
  {
    hide Xor, And, Or, Not, Rot, ThetaD, From, Out;
    ghost var s: Lanes := src[..];
    si, bp, r15, dx, r8 := si0, bp0, r150, dx0, r80;
    var bx, cx, r9 := bx0, cx0, r90;
    var r10: Lane, r11: Lane, r12: Lane, r13: Lane, r14: Lane;
    r10 := src[2];
    r11 := src[8];
    r12 := src[14];
    r10 := Xor(r10, dx);
    r13 := src[15];
    r10 := Rot(r10, 62);
    r11 := Xor(r11, r8);
    r14 := src[21];
    r11 := Rot(r11, 55);
    r12 := Xor(r12, r9);
    r9 := r10;
    r14 := Xor(r14, cx);
    r14 := Rot(r14, 2);
    r9 := And(r9, r11);
    r9 := Xor(r9, r14);
    dst[24] := r9;
    r12 := Rot(r12, 39);
    r15 := Xor(r15, r9);
    r11 := Not(r11);
    r13 := Xor(r13, bx);
    bx := r11;
    bx := And(bx, r12);
    bx := Xor(bx, r10);
    dst[20] := bx;
    si := Xor(si, bx);
    r13 := Rot(r13, 41);
    cx := r12;
    cx := Or(cx, r13);
    cx := Xor(cx, r11);
    dst[21] := cx;
    bp := Xor(bp, cx);
    dx := r13;
    r8 := r14;
    dx := And(dx, r14);
    r8 := Or(r8, r10);
    dx := Xor(dx, r12);
    r8 := Xor(r8, r13);
    dst[22] := dx;
    dst[23] := r8;

    FromS(s);
    RowS(s, rc);
  }

  method AsmRound(src: array<Lane>, dst: array<Lane>, rc: Lane, si0: Lane, bp0: Lane, r150: Lane, dx0: Lane, r80: Lane)
    returns (si: Lane, bp: Lane, r15: Lane, dx: Lane, r8: Lane)
    requires src.Length == 25 && dst.Length == 25 && src != dst && Sums(src[..], si0, bp0, r150, dx0, r80)
    modifies dst
    ensures Flip(dst[..]) == Round(Flip(src[..]), rc)
    ensures Sums(dst[..], si, bp, r15, dx, r8)
  {
    hide Xor, Flip, Round, Out, ThetaD;
    var bx, cx, r9, r13;
    bx, cx, dx, r8, r9, r13 := Prepare(src, si0, bp0, r150, dx0, r80);
    si, bp, r15, r9 := ResultB(src, dst, bx, cx, dx, r8, r9, r13, rc);
    si, bp, r15 := ResultG(src, dst, bx, cx, dx, r8, r9, si, bp, r15, rc);
    si, bp, r15 := ResultK(src, dst, bx, cx, dx, r8, r9, si, bp, r15, rc);
    si, bp, r15 := ResultM(src, dst, bx, cx, dx, r8, r9, si, bp, r15, rc);
    si, bp, r15, dx, r8 := ResultS(src, dst, bx, cx, dx, r8, r9, si, bp, r15, rc);
    RowsAreRound(src[..], rc, dst[..]);
  }

  lemma RowsAreRound(s: Lanes, rc: Lane, d: Lanes)
    requires RowOut(s, rc, 0, d[0], d[1], d[2], d[3], d[4]) && RowOut(s, rc, 1, d[5], d[6], d[7], d[8], d[9])
    requires RowOut(s, rc, 2, d[10], d[11], d[12], d[13], d[14]) && RowOut(s, rc, 3, d[15], d[16], d[17], d[18], d[19])
    requires RowOut(s, rc, 4, d[20], d[21], d[22], d[23], d[24])
    ensures Flip(d) == Round(Flip(s), rc)
  {
    hide Out, Flip, Round;
    forall x: nat, y: nat | x < 5 && y < 5 ensures d[x + 5 * y] == Out(s, rc, x, y) {
      assert y == 0 || y == 1 || y == 2 || y == 3 || y == 4;
      assert x == 0 || x == 1 || x == 2 || x == 3 || x == 4;
    }
    OutIsRound(s, rc, d);
  }

  method Negate(a: array<Lane>)
    requires a.Length == 25
    modifies a
    ensures a[..] == Flip(old(a[..]))
  {
    hide Not;
    a[1] := Not(a[1]);
    a[2] := Not(a[2]);
    a[8] := Not(a[8]);
    a[12] := Not(a[12]);
    a[17] := Not(a[17]);
    a[20] := Not(a[20]);
  }

  method LoadSums(di: array<Lane>) returns (si: Lane, bp: Lane, r15: Lane, dx: Lane, r8: Lane)
    requires di.Length == 25
    ensures Sums(di[..], si, bp, r15, dx, r8)
  {
    hide Xor;
    si, bp, r15 := di[0], di[1], di[4];
    si := Xor(si, di[5]);
    bp := Xor(bp, di[6]);
    r15 := Xor(r15, di[9]);
    si := Xor(si, di[10]);
    bp := Xor(bp, di[11]);
    r15 := Xor(r15, di[14]);
    si := Xor(si, di[15]);
    bp := Xor(bp, di[16]);
    r15 := Xor(r15, di[19]);
    si := Xor(si, di[20]);
    bp := Xor(bp, di[21]);
    dx, r8 := di[22], di[23];
    r15 := Xor(r15, di[24]);
  }

  // The 24 rounds alternate between the caller's words and a buffer on the stack.
  method KeccakF1600(di: array<Lane>)
    requires di.Length == 25
    modifies di
    ensures di[..] == Rounds(old(di[..]), 24)
  {
    hide Flip, TableLane, Round, Sums, RoundConstant;
    Negate(di);
    FlipFlip(old(di[..]));
    var si, bp, r15, dx, r8 := LoadSums(di);
    var sp := new Lane[25];
    var i := 0;
    while i < 24
      invariant i <= 24 && i % 2 == 0 && sp != di
      invariant Flip(di[..]) == Rounds(old(di[..]), i)
      invariant Sums(di[..], si, bp, r15, dx, r8)
    {
      si, bp, r15, dx, r8 := AsmRound(di, sp, TableLane(i), si, bp, r15, dx, r8);
      si, bp, r15, dx, r8 := AsmRound(sp, di, TableLane(i + 1), si, bp, r15, dx, r8);
      i := i + 2;
    }
    Negate(di);
  }
}
