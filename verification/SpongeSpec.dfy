// The sponge of section 4 of FIPS 202 over byte strings, and the byte-at-a-time machine that the
// streaming implementation advances in chunks.
module SpongeSpec {
  import opened KeccakSpec
  import opened NumberTheory

  // Bits of a byte, least significant first.
  datatype Byte = Byte(b0: bool, b1: bool, b2: bool, b3: bool, b4: bool, b5: bool, b6: bool, b7: bool)

  const ZERO := Byte(false, false, false, false, false, false, false, false)

  const LAST := Byte(false, false, false, false, false, false, false, true)

  function XorByte(a: Byte, b: Byte): Byte {
    Byte(a.b0 != b.b0, a.b1 != b.b1, a.b2 != b.b2, a.b3 != b.b3, a.b4 != b.b4, a.b5 != b.b5, a.b6 != b.b6, a.b7 != b.b7)
  }

  function BitAt(b: Byte, j: nat): bool
    requires j < 8
  {
    match j
    case 0 => b.b0
    case 1 => b.b1
    case 2 => b.b2
    case 3 => b.b3
    case 4 => b.b4
    case 5 => b.b5
    case 6 => b.b6
    case _ => b.b7
  }

  function BitsOf(s: seq<Byte>): seq<bool> {
    seq(8 * |s|, k requires 0 <= k < 8 * |s| => BitAt(s[k / 8], k % 8))
  }

  lemma BitsAt(s: seq<Byte>, j: nat, b: nat)
    requires j < |s| && b < 8
    ensures BitsOf(s)[8 * j + b] == BitAt(s[j], b)
  {
    hide BitAt;
    assert (8 * j + b) / 8 == j && (8 * j + b) % 8 == b;
  }

  // ----- section 3.1: the state as a string and as lanes -----

  type Block = s: seq<Byte> | |s| == 200 witness seq(200, i => ZERO)

  function LaneOf(s: seq<Byte>): Lane
    requires |s| == 8
  {
    Lane(BitsOf(s))
  }

  function ByteOf(l: Lane, j: nat): Byte
    requires j < 8
  {
    var k := 8 * j;
    Byte(l.bits[k], l.bits[k + 1], l.bits[k + 2], l.bits[k + 3], l.bits[k + 4], l.bits[k + 5], l.bits[k + 6], l.bits[k + 7])
  }

  function LanesOf(a: Block): Lanes {
    seq(25, i requires 0 <= i < 25 => LaneOf(a[8 * i..8 * i + 8]))
  }

  function BytesOf(l: Lanes): Block {
    seq(200, k requires 0 <= k < 200 => ByteOf(l[k / 8], k % 8))
  }

  lemma ByteOfLane(s: seq<Byte>, j: nat)
    requires |s| == 8 && j < 8
    ensures ByteOf(LaneOf(s), j) == s[j]
  {
    hide BitsOf;
    BitsAt(s, j, 0);
    BitsAt(s, j, 1);
    BitsAt(s, j, 2);
    BitsAt(s, j, 3);
    BitsAt(s, j, 4);
    BitsAt(s, j, 5);
    BitsAt(s, j, 6);
    BitsAt(s, j, 7);
  }

  lemma BytesOfLanes(a: Block)
    ensures BytesOf(LanesOf(a)) == a
  {
    hide LaneOf, ByteOf;
    forall k | 0 <= k < 200 ensures BytesOf(LanesOf(a))[k] == a[k] {
      var i := k / 8;
      ByteOfLane(a[8 * i..8 * i + 8], k % 8);
    }
  }

  lemma LaneOfBytes(l: Lane)
    ensures LaneOf(seq(8, j requires 0 <= j < 8 => ByteOf(l, j))) == l
  {
    var s := seq(8, j requires 0 <= j < 8 => ByteOf(l, j));
    forall k | 0 <= k < 64 ensures BitsOf(s)[k] == l.bits[k] {
      BitOfByte(l, k / 8, k % 8);
    }
    assert BitsOf(s) == l.bits;
  }

  lemma BitOfByte(l: Lane, j: nat, b: nat)
    requires j < 8 && b < 8
    ensures BitAt(ByteOf(l, j), b) == l.bits[8 * j + b]
  {}

  lemma LanesOfBytes(l: Lanes)
    ensures LanesOf(BytesOf(l)) == l
  {
    hide LaneOf, ByteOf;
    var a := BytesOf(l);
    forall i | 0 <= i < 25 ensures LanesOf(a)[i] == l[i] {
      var s := seq(8, j requires 0 <= j < 8 => ByteOf(l[i], j));
      forall j | 0 <= j < 8 ensures a[8 * i..8 * i + 8][j] == s[j] {
        assert (8 * i + j) / 8 == i && (8 * i + j) % 8 == j;
      }
      assert a[8 * i..8 * i + 8] == s;
      LaneOfBytes(l[i]);
    }
  }

  // Keccak-f[1600] on a state string.
  function Permuted(a: Block): Block {
    BytesOf(Rounds(LanesOf(a), 24))
  }

  // ----- section 4: the sponge, and section 5.1: its padding -----

  function XorAt(a: Block, n: nat, s: seq<Byte>): Block
    requires n + |s| <= 200
  {
    seq(200, i requires 0 <= i < 200 => if n <= i < n + |s| then XorByte(a[i], s[i - n]) else a[i])
  }

  function Zeros(k: nat): seq<Byte> {
    seq(k, i => ZERO)
  }

  // What completes a message of n bytes modulo the rate: the suffix with the first pad bit, zeros,
  // and the last pad bit, which share a byte when only one is left.
  function PadBytes(n: nat, ds: Byte, rate: nat): seq<Byte>
    requires n < rate
  {
    if n + 1 == rate then [XorByte(ds, LAST)] else [ds] + Zeros(rate - n - 2) + [LAST]
  }

  function Padded(m: seq<Byte>, ds: Byte, rate: nat): seq<Byte>
    requires rate > 0
  {
    m + PadBytes(|m| % rate, ds, rate)
  }

  function Absorb(a: Block, p: seq<Byte>, rate: nat): Block
    requires 0 < rate <= 200
    decreases |p|
  {
    if |p| < rate then a else Absorb(Permuted(XorAt(a, 0, p[..rate])), p[rate..], rate)
  }

  function Squeeze(a: Block, d: nat, rate: nat): seq<Byte>
    requires 0 < rate <= 200
    decreases d
  {
    if d <= rate then a[..d] else a[..rate] + Squeeze(Permuted(a), d - rate, rate)
  }

  // The hash of m: d bytes squeezed after the padded message is absorbed.
  function Hash(m: seq<Byte>, ds: Byte, rate: nat, d: nat): seq<Byte>
    requires 0 < rate <= 200
  {
    Squeeze(Absorb(Zeros(200), Padded(m, ds, rate), rate), d, rate)
  }

  // ----- the machine, one byte at a time -----

  datatype Core = Core(a: Block, n: nat)

  const INITIAL := Core(Zeros(200), 0)

  function Feed(c: Core, b: Byte, rate: nat): (r: Core)
    requires c.n < rate <= 200
    ensures r.n < rate
  {
    var x := c.a[c.n := XorByte(c.a[c.n], b)];
    if c.n + 1 == rate then Core(Permuted(x), 0) else Core(x, c.n + 1)
  }

  function FeedAll(c: Core, m: seq<Byte>, rate: nat): (r: Core)
    requires c.n < rate <= 200
    ensures r.n < rate
  {
    if m == [] then c else Feed(FeedAll(c, m[..|m| - 1], rate), m[|m| - 1], rate)
  }

  // A full output window is renewed only when the next byte is asked for.
  function Turned(c: Core, rate: nat): (r: Core)
    requires c.n <= rate && rate > 0
    ensures r.n < rate
  {
    if c.n == rate then Core(Permuted(c.a), 0) else c
  }

  function After(c: Core, k: nat, rate: nat): (r: Core)
    requires c.n <= rate <= 200 && rate > 0
    ensures r.n <= rate
  {
    if k == 0 then c else var t := Turned(After(c, k - 1, rate), rate); Core(t.a, t.n + 1)
  }

  function Drawn(c: Core, k: nat, rate: nat): (s: seq<Byte>)
    requires c.n <= rate <= 200 && rate > 0
    ensures |s| == k
  {
    if k == 0 then [] else var t := Turned(After(c, k - 1, rate), rate); Drawn(c, k - 1, rate) + [t.a[t.n]]
  }

  // Padding closes the absorbing phase.
  function Closed(c: Core, ds: Byte, rate: nat): (r: Core)
    requires c.n < 200 && 0 < rate <= 200
    ensures r.n == 0
  {
    var x := c.a[c.n := XorByte(c.a[c.n], ds)];
    Core(Permuted(x[rate - 1 := XorByte(x[rate - 1], LAST)]), 0)
  }

  // ----- the machine does what the standard says -----

  lemma {:induction false} FeedSplit(c: Core, m: seq<Byte>, p: seq<Byte>, rate: nat)
    requires c.n < rate <= 200
    ensures FeedAll(c, m + p, rate) == FeedAll(FeedAll(c, m, rate), p, rate)
  {
    hide Feed;
    if p == [] {
      assert m + p == m;
    } else {
      var q := p[..|p| - 1];
      assert (m + p)[..|m + p| - 1] == m + q;
      FeedSplit(c, m, q, rate);
    }
  }

  // A chunk that stays within the block is one exclusive-or.
  lemma {:induction false} FeedChunk(c: Core, s: seq<Byte>, rate: nat)
    requires c.n < rate <= 200 && c.n + |s| <= rate
    ensures FeedAll(c, s, rate) ==
      (var x := XorAt(c.a, c.n, s); if c.n + |s| == rate then Core(Permuted(x), 0) else Core(x, c.n + |s|))
  {
    hide Permuted, XorByte;
    if s == [] {
      assert XorAt(c.a, c.n, s) == c.a;
    } else {
      var t := s[..|s| - 1];
      FeedChunk(c, t, rate);
      var x := XorAt(c.a, c.n, t);
      var i := c.n + |t|;
      assert XorAt(c.a, c.n, s) == x[i := XorByte(x[i], s[|t|])];
    }
  }

  lemma XorAtIs(a: Block, n: nat, s: seq<Byte>, b: Block)
    requires n + |s| <= 200
    requires forall i | 0 <= i < 200 :: b[i] == if n <= i < n + |s| then XorByte(a[i], s[i - n]) else a[i]
    ensures b == XorAt(a, n, s)
    ensures s == [] ==> b == a
  {
    hide XorByte;
    assert s == [] ==> b == a;
  }

  // A chunk fed after others, likewise.
  lemma FeedMore(c: Core, done: seq<Byte>, s: seq<Byte>, rate: nat)
    requires c.n < rate <= 200 && FeedAll(c, done, rate).n + |s| <= rate
    ensures FeedAll(c, done + s, rate) ==
      (var d := FeedAll(c, done, rate);
       var x := XorAt(d.a, d.n, s); if d.n + |s| == rate then Core(Permuted(x), 0) else Core(x, d.n + |s|))
  {
    hide Permuted, XorAt, FeedAll;
    FeedChunk(FeedAll(c, done, rate), s, rate);
    FeedSplit(c, done, s, rate);
  }

  lemma {:induction false} FeedBlocks(a: Block, p: seq<Byte>, rate: nat)
    requires 0 < rate <= 200 && |p| % rate == 0
    ensures FeedAll(Core(a, 0), p, rate) == Core(Absorb(a, p, rate), 0)
    decreases |p|
  {
    hide Permuted, XorAt, Feed;
    WholeBlocks(|p|, rate);
    if p != [] {
      hide FeedAll;
      FeedBlock(a, p, rate);
      FeedBlocks(Permuted(XorAt(a, 0, p[..rate])), p[rate..], rate);
    }
  }

  lemma FeedBlock(a: Block, p: seq<Byte>, rate: nat)
    requires 0 < rate <= 200 && rate <= |p|
    ensures FeedAll(Core(a, 0), p, rate) == FeedAll(Core(Permuted(XorAt(a, 0, p[..rate])), 0), p[rate..], rate)
  {
    hide Permuted, XorAt, FeedAll;
    assert p == p[..rate] + p[rate..];
    FeedSplit(Core(a, 0), p[..rate], p[rate..], rate);
    FeedChunk(Core(a, 0), p[..rate], rate);
  }

  lemma ModLess(p: nat, r: nat)
    requires 0 < r <= p
    ensures (p - r) % r == p % r
  {
    var q := p / r;
    assert p - r == (q - 1) * r + p % r;
    DivModUnique(p - r, r, q - 1, p % r);
  }

  lemma WholeBlocks(n: nat, rate: nat)
    requires 0 < rate && n % rate == 0
    ensures n == 0 || (rate <= n && (n - rate) % rate == 0)
  {
    if n < rate {
      DivModUnique(n, rate, 0, n);
    } else {
      ModLess(n, rate);
    }
  }

  lemma {:induction false} FeedCount(m: seq<Byte>, rate: nat)
    requires 0 < rate <= 200
    ensures FeedAll(INITIAL, m, rate).n == |m| % rate
  {
    hide Permuted, XorByte;
    if m != [] {
      FeedCount(m[..|m| - 1], rate);
      ModNext(|m| - 1, rate);
    } else {
      assert 0 % rate == 0;
    }
  }

  lemma ModNext(p: nat, r: nat)
    requires r > 0
    ensures (p + 1) % r == if p % r + 1 == r then 0 else p % r + 1
  {
    var q, m := p / r, p % r;
    if m + 1 == r {
      assert p + 1 == (q + 1) * r;
      DivModUnique(p + 1, r, q + 1, 0);
    } else {
      DivModUnique(p + 1, r, q, m + 1);
    }
  }

  lemma XorZero(b: Byte)
    ensures XorByte(b, ZERO) == b
  {}

  lemma XorTwice(a: Byte, b: Byte, c: Byte)
    ensures XorByte(XorByte(a, b), c) == XorByte(a, XorByte(b, c))
  {}

  // The two exclusive-ors of the implementation feed exactly the padding.
  lemma PadIsFed(c: Core, ds: Byte, rate: nat)
    requires c.n < rate <= 200
    ensures Closed(c, ds, rate) == FeedAll(c, PadBytes(c.n, ds, rate), rate)
  {
    hide Permuted, XorByte;
    var p := PadBytes(c.n, ds, rate);
    FeedChunk(c, p, rate);
    var x := c.a[c.n := XorByte(c.a[c.n], ds)];
    var y := x[rate - 1 := XorByte(x[rate - 1], LAST)];
    XorTwice(c.a[c.n], ds, LAST);
    forall i | 0 <= i < 200 ensures XorAt(c.a, c.n, p)[i] == y[i] {
      XorZero(c.a[i]);
    }
    assert XorAt(c.a, c.n, p) == y;
  }

  // Absorbing byte by byte and closing is absorbing the padded message block by block.
  lemma ClosedIsAbsorbed(m: seq<Byte>, ds: Byte, rate: nat)
    requires 0 < rate <= 200
    ensures Closed(FeedAll(INITIAL, m, rate), ds, rate) == Core(Absorb(Zeros(200), Padded(m, ds, rate), rate), 0)
  {
    hide Closed, Absorb, FeedAll;
    FeedCount(m, rate);
    var c := FeedAll(INITIAL, m, rate);
    var p := PadBytes(c.n, ds, rate);
    PadIsFed(c, ds, rate);
    FeedSplit(INITIAL, m, p, rate);
    assert (|m| + |p|) % rate == 0 by {
      var q := |m| / rate;
      assert |m| + |p| == (q + 1) * rate;
      DivModUnique(|m| + |p|, rate, q + 1, 0);
    }
    FeedBlocks(Zeros(200), m + p, rate);
  }

  lemma {:induction false} DrawSplit(c: Core, j: nat, k: nat, rate: nat)
    requires c.n <= rate <= 200 && rate > 0
    ensures After(c, j + k, rate) == After(After(c, j, rate), k, rate)
    ensures Drawn(c, j + k, rate) == Drawn(c, j, rate) + Drawn(After(c, j, rate), k, rate)
  {
    hide Turned;
    if k > 0 {
      DrawSplit(c, j, k - 1, rate);
    }
  }

  // Within one window the output is the state itself.
  lemma {:induction false} DrawChunk(c: Core, k: nat, rate: nat)
    requires c.n + k <= rate <= 200 && rate > 0
    ensures After(c, k, rate) == Core(c.a, c.n + k)
    ensures Drawn(c, k, rate) == c.a[c.n..c.n + k]
  {
    hide Permuted;
    if k > 0 {
      DrawChunk(c, k - 1, rate);
      assert c.a[c.n..c.n + k] == c.a[c.n..c.n + k - 1] + [c.a[c.n + k - 1]];
    }
  }

  lemma TurnedSame(c: Core, k: nat, rate: nat)
    requires c.n <= rate <= 200 && rate > 0 && k > 0
    ensures After(Turned(c, rate), k, rate) == After(c, k, rate)
    ensures Drawn(Turned(c, rate), k, rate) == Drawn(c, k, rate)
    decreases k
  {
    if k > 1 {
      TurnedSame(c, k - 1, rate);
    } else {
      assert After(Turned(c, rate), 0, rate) == Turned(c, rate);
      assert After(c, 0, rate) == c;
    }
  }

  lemma {:induction false} DrawnIsSqueezed(a: Block, d: nat, rate: nat)
    requires 0 < rate <= 200
    ensures Drawn(Core(a, 0), d, rate) == Squeeze(a, d, rate)
    decreases d
  {
    hide After, Drawn, Permuted;
    var c := Core(a, 0);
    if d <= rate {
      DrawChunk(c, d, rate);
    } else {
      DrawSplit(c, rate, d - rate, rate);
      DrawChunk(c, rate, rate);
      TurnedSame(Core(a, rate), d - rate, rate);
      DrawnIsSqueezed(Permuted(a), d - rate, rate);
    }
  }

  // Everything together: write m, close, draw d bytes, and the result is the standard's hash.
  lemma MachineIsHash(m: seq<Byte>, ds: Byte, rate: nat, d: nat)
    requires 0 < rate <= 200
    ensures Drawn(Closed(FeedAll(INITIAL, m, rate), ds, rate), d, rate) == Hash(m, ds, rate, d)
  {
    hide Absorb, Squeeze, Drawn, Closed, FeedAll;
    ClosedIsAbsorbed(m, ds, rate);
    DrawnIsSqueezed(Absorb(Zeros(200), Padded(m, ds, rate), rate), d, rate);
  }

  // ----- the padding, bit by bit -----

  // Section 5.1: pad10*1(x, m).
  function Pad101(x: nat, m: int): seq<bool>
    requires x > 0
  {
    [true] + seq((-m - 2) % x, i => false) + [true]
  }

  const KECCAK := Byte(true, false, false, false, false, false, false, false)

  lemma PadLength(m: nat, rate: nat)
    requires rate > 0
    ensures (-(8 * m) - 2) % (8 * rate) == 8 * (rate - m % rate) - 2
  {
    var q, n, x := m / rate, m % rate, 8 * rate;
    var v := 8 * (rate - n) - 2;
    assert -(8 * m) - 2 == -(q + 1) * x + v;
    DivModUnique(-(8 * m) - 2, x, -(q + 1), v);
  }

  // For the legacy Keccak domain byte the padded bytes are the message bits and pad10*1.
  lemma PadIsStandard(m: seq<Byte>, rate: nat)
    requires rate > 0
    ensures BitsOf(Padded(m, KECCAK, rate)) == BitsOf(m) + Pad101(8 * rate, 8 * |m|)
  {
    var n := |m| % rate;
    var p := PadBytes(n, KECCAK, rate);
    PadLength(|m|, rate);
    BitsSplit(m, p);
    PadBits(n, rate);
  }

  lemma BitsSplit(m: seq<Byte>, p: seq<Byte>)
    ensures BitsOf(m + p) == BitsOf(m) + BitsOf(p)
  {
    hide BitAt;
    forall k | 0 <= k < 8 * |m + p| ensures BitsOf(m + p)[k] == (BitsOf(m) + BitsOf(p))[k] {
      if k >= 8 * |m| {
        var j := k - 8 * |m|;
        assert k / 8 == j / 8 + |m| && k % 8 == j % 8;
      }
    }
  }

  lemma PadBits(n: nat, rate: nat)
    requires n < rate
    ensures BitsOf(PadBytes(n, KECCAK, rate)) == [true] + seq(8 * (rate - n) - 2, i => false) + [true]
  {
    var p := PadBytes(n, KECCAK, rate);
    var e := [true] + seq(8 * (rate - n) - 2, i => false) + [true];
    forall k | 0 <= k < 8 * |p| ensures BitsOf(p)[k] == e[k] {
      var i, b := k / 8, k % 8;
      assert k == 8 * i + b;
      PadBit(p[i], b, i == 0, i == |p| - 1);
    }
    assert BitsOf(p) == e;
  }

  lemma PadBit(v: Byte, b: nat, first: bool, last: bool)
    requires b < 8
    requires v == XorByte(if first then KECCAK else ZERO, if last then LAST else ZERO)
    ensures BitAt(v, b) == ((first && b == 0) || (last && b == 7))
  {}
}
