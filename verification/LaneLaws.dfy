// Exclusive-or of lanes is a commutative group, in the instances the rounds use.
module LaneLaws {
  import opened KeccakSpec

  lemma XorCommutes(a: Lane, b: Lane)
    ensures Xor(a, b) == Xor(b, a)
  {}

  lemma RotNone(a: Lane)
    ensures Rot(a, 0) == a
  {
    assert Rot(a, 0).bits == a.bits;
  }

  lemma XorSwaps(a: Lane, b: Lane, c: Lane)
    ensures Xor(Xor(a, b), c) == Xor(Xor(a, c), b)
  {}

  lemma Rotated(a: Lane, b: Lane, c: Lane, d: Lane, e: Lane)
    ensures Xor5(b, c, d, e, a) == Xor5(a, b, c, d, e)
  {
    hide Xor;
    XorSwaps(Xor(Xor(b, c), d), e, a);
    XorSwaps(Xor(b, c), d, a);
    XorSwaps(b, c, a);
    XorCommutes(a, b);
  }

  lemma Doubled(a: Lane, b: Lane, c: Lane, d: Lane, e: Lane)
    ensures Xor5(a, c, e, b, d) == Xor5(a, b, c, d, e)
  {
    hide Xor;
    XorSwaps(Xor(a, c), e, b);
    XorSwaps(a, c, b);
    XorSwaps(Xor(Xor(a, b), c), e, d);
  }

  // The sum of five lanes read from any one of them onwards.
  ghost predicate Cyclic(v: Lane, a: Lane, b: Lane, c: Lane, d: Lane, e: Lane) {
    && v == Xor5(a, b, c, d, e)
    && v == Xor5(b, c, d, e, a)
    && v == Xor5(c, d, e, a, b)
    && v == Xor5(d, e, a, b, c)
    && v == Xor5(e, a, b, c, d)
  }

  // Steps of one, two, three and four round a column give the same sum.
  lemma StepsAgree(a: Lane, b: Lane, c: Lane, d: Lane, e: Lane)
    ensures Cyclic(Xor5(a, b, c, d, e), a, b, c, d, e)
    ensures Cyclic(Xor5(a, b, c, d, e), a, c, e, b, d)
    ensures Cyclic(Xor5(a, b, c, d, e), a, e, d, c, b)
    ensures Cyclic(Xor5(a, b, c, d, e), a, d, b, e, c)
  {
    hide Xor5;
    AllRotations(a, b, c, d, e);
    Doubled(a, b, c, d, e);
    AllRotations(a, c, e, b, d);
    Doubled(a, c, e, b, d);
    AllRotations(a, e, d, c, b);
    Doubled(a, e, d, c, b);
    AllRotations(a, d, b, e, c);
  }

  lemma AllRotations(a: Lane, b: Lane, c: Lane, d: Lane, e: Lane)
    ensures Cyclic(Xor5(a, b, c, d, e), a, b, c, d, e)
  {
    hide Xor5;
    Rotated(a, b, c, d, e);
    Rotated(b, c, d, e, a);
    Rotated(c, d, e, a, b);
    Rotated(d, e, a, b, c);
  }
}
