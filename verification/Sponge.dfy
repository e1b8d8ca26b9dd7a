// The streaming hash state: bytes are absorbed and squeezed through a window of the state, in
// chunks as large as the caller and the window allow.
module Sponge {
  import opened KeccakSpec
  import opened SpongeSpec
  import opened NumberTheory
  import opened Wrappers
  import KeccakF

  // ----- bytes and small numbers -----

  function Half(v: nat): nat {
    v / 2
  }

  function Odd(v: nat): bool {
    v % 2 == 1
  }

  function ByteOfNat(v: nat): Byte {
    var v1 := Half(v);
    var v2 := Half(v1);
    var v3 := Half(v2);
    var v4 := Half(v3);
    var v5 := Half(v4);
    var v6 := Half(v5);
    Byte(Odd(v), Odd(v1), Odd(v2), Odd(v3), Odd(v4), Odd(v5), Odd(v6), Odd(Half(v6)))
  }

  function Weight(b: bool): nat {
    if b then 1 else 0
  }

  function Eight(w0: nat, w1: nat, w2: nat, w3: nat, w4: nat, w5: nat, w6: nat, w7: nat): nat {
    w0 + 2 * (w1 + 2 * (w2 + 2 * (w3 + 2 * (w4 + 2 * (w5 + 2 * (w6 + 2 * w7))))))
  }

  function NatOfByte(b: Byte): (v: nat)
    ensures v < 256
  {
    Eight(Weight(b.b0), Weight(b.b1), Weight(b.b2), Weight(b.b3), Weight(b.b4), Weight(b.b5), Weight(b.b6), Weight(b.b7))
  }

  lemma NatRoundTrip(v: nat)
    requires v < 256
    ensures NatOfByte(ByteOfNat(v)) == v
  {
    hide Half, Odd, Weight, Eight;
    var v1, w0 := HalfOdd(v, 128);
    var v2, w1 := HalfOdd(v1, 64);
    var v3, w2 := HalfOdd(v2, 32);
    var v4, w3 := HalfOdd(v3, 16);
    var v5, w4 := HalfOdd(v4, 8);
    var v6, w5 := HalfOdd(v5, 4);
    var v7, w6 := HalfOdd(v6, 2);
    LowHalf(v7);
    Horner(v, v1, v2, v3, v4, v5, v6, v7, w0, w1, w2, w3, w4, w5, w6);
  }

  lemma Horner(v: nat, v1: nat, v2: nat, v3: nat, v4: nat, v5: nat, v6: nat, v7: nat,
    w0: nat, w1: nat, w2: nat, w3: nat, w4: nat, w5: nat, w6: nat)
    requires v == 2 * v1 + w0 && v1 == 2 * v2 + w1 && v2 == 2 * v3 + w2 && v3 == 2 * v4 + w3
    requires v4 == 2 * v5 + w4 && v5 == 2 * v6 + w5 && v6 == 2 * v7 + w6
    ensures v == Eight(w0, w1, w2, w3, w4, w5, w6, v7)
  {}

  lemma LowHalf(v: nat)
    requires v < 2
    ensures v == Weight(Odd(v))
  {}

  lemma HalfOdd(v: nat, m: nat) returns (h: nat, w: nat)
    requires v < 2 * m
    ensures h == Half(v) && w == Weight(Odd(v)) && v == 2 * h + w && h < m
  {
    h, w := Half(v), Weight(Odd(v));
  }

  lemma HalfStep(b: bool, x: nat)
    ensures Half(Weight(b) + 2 * x) == x && Odd(Weight(b) + 2 * x) == b
  {}

  lemma NatOfByteIs(b: Byte)
    ensures NatOfByte(b) == Weight(b.b0) + 2 * (Weight(b.b1) + 2 * (Weight(b.b2) + 2 * (Weight(b.b3) + 2 * (Weight(b.b4)
      + 2 * (Weight(b.b5) + 2 * (Weight(b.b6) + 2 * Weight(b.b7)))))))
  {
    hide Weight;
  }

  lemma ByteRoundTrip(b: Byte)
    ensures ByteOfNat(NatOfByte(b)) == b
  {
    hide Half, Odd, Weight, NatOfByte;
    NatOfByteIs(b);
    var x7 := Weight(b.b7);
    var x6 := Weight(b.b6) + 2 * x7;
    var x5 := Weight(b.b5) + 2 * x6;
    var x4 := Weight(b.b4) + 2 * x5;
    var x3 := Weight(b.b3) + 2 * x4;
    var x2 := Weight(b.b2) + 2 * x3;
    var x1 := Weight(b.b1) + 2 * x2;
    HalfStep(b.b0, x1);
    HalfStep(b.b1, x2);
    HalfStep(b.b2, x3);
    HalfStep(b.b3, x4);
    HalfStep(b.b4, x5);
    HalfStep(b.b5, x6);
    HalfStep(b.b6, x7);
    HalfStep(b.b7, 0);
  }

  // ----- serialized form -----

  const SHA3 := Byte(false, true, true, false, false, false, false, false)
  const SHAKE := Byte(true, true, true, true, true, false, false, false)
  const CSHAKE := Byte(false, false, true, false, false, false, false, false)

  // The four identifiers share three letters; the last byte names the family.
  function Magic(ds: Byte): Option<seq<Byte>> {
    var sha := [ByteOfNat(0x73), ByteOfNat(0x68), ByteOfNat(0x61)];
    if ds == SHA3 then Some(sha + [ByteOfNat(8)])
    else if ds == SHAKE then Some(sha + [ByteOfNat(9)])
    else if ds == CSHAKE then Some(sha + [ByteOfNat(10)])
    else if ds == KECCAK then Some(sha + [ByteOfNat(11)])
    else None
  }

  const MARSHALED := 207

  // What a state is apart from its fixed parameters.
  datatype Snapshot = Snapshot(core: Core, squeezing: bool)

  datatype Failure = BadLength | BadIdentifier | BadFunction | BadState

  function Serialized(s: Snapshot, rate: nat, magic: seq<Byte>): seq<Byte> {
    magic + [ByteOfNat(rate)] + s.core.a + [ByteOfNat(s.core.n), ByteOfNat(if s.squeezing then 1 else 0)]
  }

  // The checks and the fields of a serialized state, in the order they are read.
  function Parsed(b: seq<Byte>, rate: nat, ds: Byte): Result<Snapshot, Failure> {
    if |b| != MARSHALED then Err(BadLength)
    else if Magic(ds) != Some(b[..4]) then Err(BadIdentifier)
    else if NatOfByte(b[4]) != rate then Err(BadFunction)
    else if NatOfByte(b[205]) > rate || NatOfByte(b[206]) > 1 then Err(BadState)
    else Ok(Snapshot(Core(b[5..205], NatOfByte(b[205])), NatOfByte(b[206]) == 1))
  }

  lemma SerializedParses(s: Snapshot, rate: nat, ds: Byte)
    requires Magic(ds).Some? && s.core.n <= rate <= 200
    ensures Parsed(Serialized(s, rate, Magic(ds).value), rate, ds) == Ok(s)
  {
    hide ByteOfNat, NatOfByte;
    var b := Serialized(s, rate, Magic(ds).value);
    NatRoundTrip(rate);
    NatRoundTrip(s.core.n);
    NatRoundTrip(if s.squeezing then 1 else 0);
    assert b[..4] == Magic(ds).value;
    assert b[5..205] == s.core.a;
  }

  // Exactly the serialized forms are read, each as what it is the form of.
  lemma ParsedIff(b: seq<Byte>, s: Snapshot, rate: nat, ds: Byte)
    requires rate <= 200
    ensures Parsed(b, rate, ds) == Ok(s) <==> Magic(ds).Some? && s.core.n <= rate && b == Serialized(s, rate, Magic(ds).value)
  {
    hide ByteOfNat, NatOfByte;
    if Magic(ds).Some? && s.core.n <= rate && b == Serialized(s, rate, Magic(ds).value) {
      SerializedParses(s, rate, ds);
    }
    if Parsed(b, rate, ds) == Ok(s) {
      ByteRoundTrip(b[4]);
      ByteRoundTrip(b[205]);
      ByteRoundTrip(b[206]);
      assert Magic(ds) == Some(b[..4]);
      hide Magic;
      assert b == b[..4] + [b[4]] + b[5..205] + [b[205], b[206]];
    }
  }

  // So a state is read only by a hash of its own family and rate.
  lemma OnlyItsOwn(s: Snapshot, rate: nat, ds: Byte, other: nat, ds': Byte)
    requires rate <= 200 && other <= 200 && s.core.n <= rate && Magic(ds).Some?
    ensures Parsed(Serialized(s, rate, Magic(ds).value), other, ds') ==
      if ds' != ds then Err(BadIdentifier) else if other != rate then Err(BadFunction) else Ok(s)
  {
    hide ByteOfNat, NatOfByte, Magic;
    Identifiers(ds);
    Identifiers(ds');
    var b := Serialized(s, rate, Magic(ds).value);
    NatRoundTrip(rate);
    SerializedParses(s, rate, ds);
    assert b[..4] == Magic(ds).value;
    assert b[4] == ByteOfNat(rate);
  }

  // The four families have the domain bytes 6, 31, 4 and 1.
  lemma DomainBytes()
    ensures NatOfByte(SHA3) == 6 && NatOfByte(SHAKE) == 31 && NatOfByte(CSHAKE) == 4 && NatOfByte(KECCAK) == 1
  {}

  // Their identifiers are "sha" and a byte from 8 to 11, in this order.
  lemma Identifiers(ds: Byte)
    ensures Magic(ds).Some? <==> ds in {SHA3, SHAKE, CSHAKE, KECCAK}
    ensures Magic(ds).Some? ==>
      var id := Magic(ds).value;
      && |id| == 4 && NatOfByte(id[0]) == 's' as int && NatOfByte(id[1]) == 'h' as int && NatOfByte(id[2]) == 'a' as int
      && NatOfByte(id[3]) == if ds == SHA3 then 8 else if ds == SHAKE then 9 else if ds == CSHAKE then 10 else 11
  {
    hide ByteOfNat, NatOfByte;
    NatRoundTrip('s' as int);
    NatRoundTrip('h' as int);
    NatRoundTrip('a' as int);
    NatRoundTrip(8);
    NatRoundTrip(9);
    NatRoundTrip(10);
    NatRoundTrip(11);
  }

  // An absorbing state whose window is full: the writer would have permuted it.
  predicate Overfull(s: Snapshot, rate: nat) {
    !s.squeezing && s.core.n == rate
  }

  // A serialized state of this kind is accepted, although no state in use is ever written so.
  lemma OverfullIsAccepted(a: Block, rate: nat, ds: Byte) returns (b: seq<Byte>)
    requires Magic(ds).Some? && rate <= 200
    ensures Parsed(b, rate, ds) == Ok(Snapshot(Core(a, rate), false)) && Overfull(Parsed(b, rate, ds).value, rate)
  {
    hide ByteOfNat, NatOfByte;
    b := Serialized(Snapshot(Core(a, rate), false), rate, Magic(ds).value);
    SerializedParses(Snapshot(Core(a, rate), false), rate, ds);
  }

  // Exactly the accepted strings with a zero direction and the rate as position are such states;
  // every other accepted state is one that is in use.
  lemma AcceptedIsUsableIff(b: seq<Byte>, rate: nat, ds: Byte)
    requires Parsed(b, rate, ds).Ok?
    ensures
      var s := Parsed(b, rate, ds).value;
      && s.core.n <= rate
      && (Overfull(s, rate) <==> NatOfByte(b[206]) == 0 && NatOfByte(b[205]) == rate)
      && (s.squeezing || s.core.n < rate <==> !Overfull(s, rate))
  {
    hide NatOfByte, Magic;
  }

  // All output from here on: the next k bytes.
  ghost function Output(s: Snapshot, ds: Byte, rate: nat, k: nat): seq<Byte>
    requires 0 < rate <= 200 && s.core.n <= rate && (s.squeezing || s.core.n < rate)
  {
    Drawn(if s.squeezing then s.core else Closed(s.core, ds, rate), k, rate)
  }

  class State {
    const a: array<Byte>
    var n: nat
    const rate: nat
    const dsbyte: Byte
    const outputLen: nat
    var squeezing: bool

    ghost predicate Valid()
      reads this
    {
      a.Length == 200 && 0 < rate <= 200 && n <= rate && (squeezing || n < rate)
    }

    // Also after an overfull state was read back.
    ghost predicate Readable()
      reads this
    {
      a.Length == 200 && 0 < rate <= 200 && n <= rate && (squeezing || n < 200)
    }

    ghost function Now(): Core
      reads this, a
      requires a.Length == 200
    {
      Core(a[..], n)
    }

    constructor (rate: nat, outputLen: nat, dsbyte: Byte)
      requires 0 < rate <= 200
      ensures Valid() && fresh(a) && Now() == INITIAL && !squeezing
      ensures this.rate == rate && this.outputLen == outputLen && this.dsbyte == dsbyte
    {
      a := new Byte[200](i => ZERO);
      this.rate, this.outputLen, this.dsbyte := rate, outputLen, dsbyte;
      n := 0;
      squeezing := false;
      new;
      assert a[..] == Zeros(200);
    }

    method Reset()
      requires a.Length == 200 && 0 < rate <= 200
      modifies this, a
      ensures Valid() && Now() == INITIAL && !squeezing
    {
      for i := 0 to 200
        invariant n == old(n) && squeezing == old(squeezing)
        invariant forall j | 0 <= j < i :: a[j] == ZERO
      {
        a[i] := ZERO;
      }
      squeezing := false;
      n := 0;
      assert a[..] == Zeros(200);
    }

    method Permute()
      requires a.Length == 200
      modifies `n, a
      ensures Now() == Core(Permuted(old(a[..])), 0)
    {
      hide LaneOf, ByteOf, Round, RoundConstant, Rounds;
      var s: Block := a[..];
      var words := new Lane[25](i requires 0 <= i < 25 => LaneOf(s[8 * i..8 * i + 8]));
      assert words[..] == LanesOf(s);
      KeccakF.KeccakF1600(words);
      n := 0;
      var w: Lanes := words[..];
      forall k | 0 <= k < 200 {
        a[k] := ByteOf(w[k / 8], k % 8);
      }
      assert a[..] == BytesOf(w);
    }

    // The first byte of the padding goes where the position says, in an overfull state outside
    // the window.
    method PadAndPermute()
      requires Readable() && !squeezing
      modifies this, a
      ensures Valid() && squeezing && Now() == Closed(old(Now()), dsbyte, rate)
    {
      hide Permuted, XorByte;
      a[n] := XorByte(a[n], dsbyte);
      a[rate - 1] := XorByte(a[rate - 1], LAST);
      Permute();
      squeezing := true;
    }

    // An overfull state is permuted before anything is absorbed.
    method Write(p: seq<Byte>) returns (count: nat)
      requires a.Length == 200 && 0 < rate <= 200 && n <= rate && !squeezing
      modifies `n, a
      ensures count == |p| && (old(n) < rate || p != [] ==> Valid())
      ensures Now() == if p == [] then old(Now()) else FeedAll(Turned(old(Now()), rate), p, rate)
    {
      hide Permuted, XorByte, FeedAll, XorAt;
      count := |p|;
      var rest := p;
      ghost var done: seq<Byte> := [];
      ghost var c0 := Turned(Now(), rate);
      FeedNothing(c0, rate);
      while |rest| > 0
        invariant n <= rate && done + rest == p
        invariant n == rate ==> done == [] && Now() == old(Now())
        invariant n < rate ==> Now() == FeedAll(c0, done, rate)
        invariant p == [] ==> Now() == old(Now())
        decreases |rest|, if n == rate then 1 else 0
      {
        var x := if rate - n < |rest| then rate - n else |rest|;
        ghost var c := Now();
        var s: Block := a[..];
        forall i | n <= i < n + x {
          a[i] := XorByte(s[i], rest[i - n]);
        }
        XorAtIs(c.a, c.n, rest[..x], a[..]);
        if n < rate {
          FeedMore(c0, done, rest[..x], rate);
        } else {
          assert a[..] == c.a;
        }
        n := n + x;
        done, rest := done + rest[..x], rest[x..];
        if n == rate {
          Permute();
        }
      }
      assert done == p;
    }

    method Read(size: nat) returns (out: seq<Byte>)
      requires Readable()
      modifies this, a
      ensures Valid() && squeezing
      ensures
        var c := if old(squeezing) then old(Now()) else Closed(old(Now()), dsbyte, rate);
        out == Drawn(c, size, rate) && Now() == After(c, size, rate)
    {
      hide Permuted, XorByte, Closed, Drawn, After;
      if !squeezing {
        PadAndPermute();
      }
      ghost var c := Now();
      out := [];
      assert Drawn(c, 0, rate) == [] && After(c, 0, rate) == c by { DrawNothing(c, rate); }
      while |out| < size
        invariant Valid() && squeezing && |out| <= size
        invariant out == Drawn(c, |out|, rate) && Now() == After(c, |out|, rate)
      {
        ghost var k, c1 := |out|, Now();
        if n == rate {
          Permute();
        }
        ghost var c2 := Now();
        var left := size - |out|;
        var x := if rate - n < left then rate - n else left;
        DrawChunk(c2, x, rate);
        TurnedSame(c1, x, rate);
        DrawSplit(c, k, x, rate);
        out := out + a[n..n + x];
        n := n + x;
      }
    }

    method Clone() returns (ret: State)
      requires a.Length == 200 && 0 < rate <= 200
      ensures fresh(ret) && fresh(ret.a) && ret.a.Length == 200 && ret.Now() == Now() && ret.squeezing == squeezing
      ensures ret.rate == rate && ret.dsbyte == dsbyte && ret.outputLen == outputLen
    {
      ret := new State(rate, outputLen, dsbyte);
      forall i | 0 <= i < 200 {
        ret.a[i] := a[i];
      }
      ret.n, ret.squeezing := n, squeezing;
      assert ret.a[..] == a[..];
    }

    // The hash of everything written so far; the state itself is left as it was.
    method Sum(prefix: seq<Byte>) returns (r: seq<Byte>)
      requires Readable() && !squeezing
      ensures r == prefix + Drawn(Closed(Now(), dsbyte, rate), outputLen, rate)
      ensures forall m :: Now() == FeedAll(INITIAL, m, rate) ==> r == prefix + Hash(m, dsbyte, rate, outputLen)
    {
      hide Drawn, Closed, FeedAll, Hash, After;
      var dup := Clone();
      var hash := dup.Read(dup.outputLen);
      r := prefix + hash;
      forall m | Now() == FeedAll(INITIAL, m, rate) ensures r == prefix + Hash(m, dsbyte, rate, outputLen) {
        MachineIsHash(m, dsbyte, rate, outputLen);
      }
    }

    method AppendBinary(prefix: seq<Byte>) returns (b: seq<Byte>)
      requires a.Length == 200 && Magic(dsbyte).Some?
      ensures b == prefix + Serialized(Snapshot(Now(), squeezing), rate, Magic(dsbyte).value)
    {
      hide ByteOfNat, Magic;
      b := prefix + Magic(dsbyte).value;
      b := b + [ByteOfNat(rate)];
      b := b + a[..];
      b := b + [ByteOfNat(n), ByteOfNat(if squeezing then 1 else 0)];
    }

    // On success the state is the one read; a bad position or direction leaves the bytes replaced.
    method UnmarshalBinary(b: seq<Byte>) returns (err: Option<Failure>)
      requires a.Length == 200
      modifies this, a
      ensures Parsed(b, rate, dsbyte).Err? <==> err.Some?
      ensures err.Some? ==> err.value == Parsed(b, rate, dsbyte).error
      ensures err.None? ==> Snapshot(Now(), squeezing) == Parsed(b, rate, dsbyte).value
      ensures err.None? && 0 < rate <= 200 ==> (Valid() <==> !(NatOfByte(b[206]) == 0 && NatOfByte(b[205]) == rate))
      ensures err.Some? ==> squeezing == old(squeezing)
      ensures err.Some? && err.value != BadState ==> Now() == old(Now())
      ensures err == Some(BadState) ==> a[..] == b[5..205]
      ensures err == Some(BadState) ==> n == if NatOfByte(b[205]) > rate then old(n) else NatOfByte(b[205])
    {
      hide NatOfByte, Magic;
      if |b| != MARSHALED {
        return Some(BadLength);
      }
      if Magic(dsbyte) != Some(b[..4]) {
        return Some(BadIdentifier);
      }
      if NatOfByte(b[4]) != rate {
        return Some(BadFunction);
      }
      forall i | 0 <= i < 200 {
        a[i] := b[5 + i];
      }
      assert a[..] == b[5..205];
      var position, direction := NatOfByte(b[205]), NatOfByte(b[206]);
      if position > rate {
        return Some(BadState);
      }
      n := position;
      if direction != 0 && direction != 1 {
        return Some(BadState);
      }
      squeezing := direction == 1;
      return None;
    }
  }

  lemma FeedNothing(c: Core, rate: nat)
    requires c.n < rate <= 200
    ensures FeedAll(c, [], rate) == c
  {}

  lemma DrawNothing(c: Core, rate: nat)
    requires c.n <= rate <= 200 && rate > 0
    ensures Drawn(c, 0, rate) == [] && After(c, 0, rate) == c
  {}

  method NewLegacyKeccak256() returns (d: State)
    ensures fresh(d) && fresh(d.a) && d.Valid() && d.Now() == INITIAL && !d.squeezing
    ensures d.rate == 136 && d.outputLen == 32 && d.dsbyte == KECCAK
  {
    d := new State((1600 - 512) / 8, 32, KECCAK);
  }

  method NewLegacyKeccak512() returns (d: State)
    ensures fresh(d) && fresh(d.a) && d.Valid() && d.Now() == INITIAL && !d.squeezing
    ensures d.rate == 72 && d.outputLen == 64 && d.dsbyte == KECCAK
  {
    d := new State((1600 - 1024) / 8, 64, KECCAK);
  }

  // ----- streaming refines one shot -----

  function Joined(parts: seq<seq<Byte>>): seq<Byte> {
    if parts == [] then [] else Joined(parts[..|parts| - 1]) + parts[|parts| - 1]
  }

  // ----- the sponge as the picture of section 4 -----

  // The states of a sponge: from zeros each block is absorbed and the state permuted, and then it is
  // permuted again for every further block of output.
  ghost predicate Sponging(trace: seq<Block>, blocks: seq<seq<Byte>>, rate: nat)
    requires rate <= 200
  {
    && |trace| > |blocks| && trace[0] == Zeros(200) && (forall i | 0 <= i < |blocks| :: |blocks[i]| == rate)
    && (forall i | 0 <= i < |blocks| :: trace[i + 1] == Permuted(XorAt(trace[i], 0, blocks[i])))
    && (forall i | |blocks| <= i < |trace| - 1 :: trace[i + 1] == Permuted(trace[i]))
  }

  lemma {:induction false} AbsorbsBlocks(trace: seq<Block>, blocks: seq<seq<Byte>>, rate: nat, k: nat)
    requires 0 < rate <= 200 && Sponging(trace, blocks, rate) && k <= |blocks|
    ensures |Joined(blocks[..k])| % rate == 0
    ensures Absorb(trace[0], Joined(blocks[..k]), rate) == trace[k]
  {
    hide Permuted, XorAt;
    if k == 0 {
    } else {
      AbsorbsBlocks(trace, blocks, rate, k - 1);
      assert blocks[..k][..k - 1] == blocks[..k - 1];
      var p := Joined(blocks[..k - 1]);
      assert Joined(blocks[..k]) == p + blocks[k - 1];
      AbsorbMore(trace[0], p, blocks[k - 1], rate);
      assert trace[(k - 1) + 1] == Permuted(XorAt(trace[k - 1], 0, blocks[k - 1]));
    }
  }

  lemma {:induction false} AbsorbMore(a: Block, p: seq<Byte>, b: seq<Byte>, rate: nat)
    requires 0 < rate <= 200 && |b| == rate && |p| % rate == 0
    ensures |p + b| % rate == 0 && Absorb(a, p + b, rate) == Permuted(XorAt(Absorb(a, p, rate), 0, b))
    decreases |p|
  {
    hide Permuted, XorAt;
    if p == [] {
      assert p + b == b && b[..rate] == b && b[rate..] == [];
      DivModUnique(rate, rate, 1, 0);
    } else {
      OneBlockLess(|p|, rate);
      assert (p + b)[..rate] == p[..rate] && (p + b)[rate..] == p[rate..] + b;
      AbsorbMore(Permuted(XorAt(a, 0, p[..rate])), p[rate..], b, rate);
      OneBlockMore(|p[rate..] + b|, rate);
    }
  }

  lemma OneBlockLess(n: nat, rate: nat)
    requires rate > 0 && n > 0 && n % rate == 0
    ensures n >= rate && (n - rate) % rate == 0
  {
    DivMod(n, rate);
    if n < rate { DivModUnique(n, rate, 0, n); }
    assert n - rate == (n / rate - 1) * rate;
    DivModUnique(n - rate, rate, n / rate - 1, 0);
  }

  lemma OneBlockMore(n: nat, rate: nat)
    requires rate > 0
    ensures (n + rate) % rate == n % rate && (n + rate) / rate == n / rate + 1
  {
    DivMod(n, rate);
    assert n + rate == (n / rate + 1) * rate + n % rate;
    DivModUnique(n + rate, rate, n / rate + 1, n % rate);
  }

  lemma {:induction false} SqueezesBlocks(trace: seq<Block>, d: nat, rate: nat, q: nat, z: nat, j: nat)
    requires 0 < rate <= 200 && z < rate && q < |trace| && j == q * rate + z < d
    requires forall i | 0 <= i < |trace| - 1 :: trace[i + 1] == Permuted(trace[i])
    ensures |Squeeze(trace[0], d, rate)| == d && Squeeze(trace[0], d, rate)[j] == trace[q][z]
    decreases q
  {
    hide Permuted;
    if q == 0 {
      SqueezeLength(trace[0], d, rate);
    } else {
      assert j - rate == (q - 1) * rate + z;
      MulMonotone(0, q - 1, rate);
      SqueezesBlocks(trace[1..], d - rate, rate, q - 1, z, j - rate);
    }
  }

  lemma {:induction false} SqueezeLength(a: Block, d: nat, rate: nat)
    requires 0 < rate <= 200
    ensures |Squeeze(a, d, rate)| == d
    decreases d
  {
    hide Permuted;
    if d > rate { SqueezeLength(Permuted(a), d - rate, rate); }
  }

  // So the hash of a message is read from these states: its byte z of block q is byte z of the state
  // that is permuted q times after the blocks of the padded message have been absorbed in turn.
  lemma HashIsSponge(m: seq<Byte>, ds: Byte, rate: nat, d: nat, trace: seq<Block>, blocks: seq<seq<Byte>>, q: nat, z: nat, j: nat)
    requires 0 < rate <= 200 && Sponging(trace, blocks, rate) && Joined(blocks) == Padded(m, ds, rate)
    requires z < rate && |blocks| + q < |trace| && j == q * rate + z < d
    ensures |Hash(m, ds, rate, d)| == d && Hash(m, ds, rate, d)[j] == trace[|blocks| + q][z]
  {
    hide Permuted, XorAt, Padded, Squeeze, Absorb, Joined;
    AbsorbsBlocks(trace, blocks, rate, |blocks|);
    assert blocks[..|blocks|] == blocks;
    SqueezesBlocks(trace[|blocks|..], d, rate, q, z, j);
  }

  // The state after one Write per part.
  function Written(c: Core, parts: seq<seq<Byte>>, rate: nat): (r: Core)
    requires c.n < rate <= 200
    ensures r.n < rate
  {
    if parts == [] then c else FeedAll(Written(c, parts[..|parts| - 1], rate), parts[|parts| - 1], rate)
  }

  lemma {:induction false} AnySplitOfWrites(parts: seq<seq<Byte>>, rate: nat)
    requires 0 < rate <= 200
    ensures Written(INITIAL, parts, rate) == FeedAll(INITIAL, Joined(parts), rate)
  {
    hide FeedAll;
    if parts == [] {
      FeedNothing(INITIAL, rate);
    } else {
      var front := parts[..|parts| - 1];
      AnySplitOfWrites(front, rate);
      FeedSplit(INITIAL, Joined(front), parts[|parts| - 1], rate);
    }
  }

  // The outputs of one Read per size, put together.
  function ReadParts(c: Core, sizes: seq<nat>, rate: nat): seq<Byte>
    requires c.n <= rate <= 200 && rate > 0
    decreases |sizes|
  {
    if sizes == [] then [] else Drawn(c, sizes[0], rate) + ReadParts(After(c, sizes[0], rate), sizes[1..], rate)
  }

  function Total(sizes: seq<nat>): nat {
    if sizes == [] then 0 else sizes[0] + Total(sizes[1..])
  }

  lemma {:induction false} AnySplitOfReads(c: Core, sizes: seq<nat>, rate: nat)
    requires c.n <= rate <= 200 && rate > 0
    ensures ReadParts(c, sizes, rate) == Drawn(c, Total(sizes), rate)
    decreases |sizes|
  {
    hide Drawn, After;
    if sizes == [] {
      DrawNothing(c, rate);
    } else {
      AnySplitOfReads(After(c, sizes[0], rate), sizes[1..], rate);
      DrawSplit(c, sizes[0], Total(sizes[1..]), rate);
    }
  }

  // However the message is cut and however the output is read, the bytes are the standard's.
  lemma StreamingIsHash(parts: seq<seq<Byte>>, sizes: seq<nat>, ds: Byte, rate: nat)
    requires 0 < rate <= 200
    ensures ReadParts(Closed(Written(INITIAL, parts, rate), ds, rate), sizes, rate) == Hash(Joined(parts), ds, rate, Total(sizes))
  {
    hide Closed, Hash, Drawn, FeedAll, Written, ReadParts;
    AnySplitOfWrites(parts, rate);
    AnySplitOfReads(Closed(Written(INITIAL, parts, rate), ds, rate), sizes, rate);
    MachineIsHash(Joined(parts), ds, rate, Total(sizes));
  }

  // A state that is serialized and read back gives the same output ever after.
  // In the middle of a message: what was written before and after the state went through its serialized
  // form is hashed as one message.
  lemma HashAcrossRoundTrip(m: seq<Byte>, rest: seq<Byte>, ds: Byte, rate: nat, k: nat)
    requires 0 < rate <= 200 && Magic(ds).Some?
    ensures
      var t := Parsed(Serialized(Snapshot(FeedAll(INITIAL, m, rate), false), rate, Magic(ds).value), rate, ds);
      && t.Ok? && !t.value.squeezing && t.value.core.n < rate
      && Output(Snapshot(FeedAll(t.value.core, rest, rate), false), ds, rate, k) == Hash(m + rest, ds, rate, k)
  {
    SerializedParses(Snapshot(FeedAll(INITIAL, m, rate), false), rate, ds);
    FeedSplit(INITIAL, m, rest, rate);
    MachineIsHash(m + rest, ds, rate, k);
  }

  lemma SameOutputAfterRoundTrip(s: Snapshot, ds: Byte, rate: nat, k: nat)
    requires 0 < rate <= 200 && s.core.n <= rate && (s.squeezing || s.core.n < rate) && Magic(ds).Some?
    ensures
      var t := Parsed(Serialized(s, rate, Magic(ds).value), rate, ds);
      t.Ok? && t.value == s && Output(t.value, ds, rate, k) == Output(s, ds, rate, k)
  {
    SerializedParses(s, rate, ds);
  }
}
