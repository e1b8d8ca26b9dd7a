// The portable permutation: 24 rounds in place, four to a loop iteration, each leaving its result
// in a different arrangement of the same 25 words.
module KeccakF {
  import opened KeccakSpec
  import opened LaneLaws
  import opened RoundConstants

  // Go's a &^ b.
  function AndNot(a: Lane, b: Lane): Lane {
    And(Not(b), a)
  }

  // ----- the arrangement of the words -----

  function Move(x: nat, y: nat): (r: nat)
    requires x < 5 && y < 5
    ensures r < 5
  {
    var v := x + 2 * y;
    if v < 5 then v else if v < 10 then v - 5 else v - 10
  }

  // The row in which row y of the standard state's column x is stored after k rounds.
  function StoredRow(k: nat, x: nat, y: nat): (r: nat)
    requires x < 5 && y < 5
    ensures r < 5
  {
    if k == 0 then y else StoredRow(k - 1, x, Move(x, y))
  }

  // The standard state, read from the words as they are stored after k rounds.
  function Layout(k: nat, a: Lanes): Lanes {
    seq(25, i requires 0 <= i < 25 => a[i % 5 + 5 * StoredRow(k, i % 5, i / 5)])
  }

  lemma LayoutAt(k: nat, a: Lanes, x: nat, y: nat)
    requires x < 5 && y < 5
    ensures Layout(k, a)[x + 5 * y] == a[x + 5 * StoredRow(k, x, y)]
  {
    hide StoredRow;
    var i := x + 5 * y;
    assert i % 5 == x && i / 5 == y;
  }

  lemma MoveApart(x: nat, y: nat, z: nat)
    requires x < 5 && y < 5 && z < 5 && y != z
    ensures Move(x, y) != Move(x, z)
  {}

  lemma {:induction false} RowsApart(k: nat, x: nat, y: nat, z: nat)
    requires x < 5 && y < 5 && z < 5 && y != z
    ensures StoredRow(k, x, y) != StoredRow(k, x, z)
  {
    hide Move;
    if k > 0 {
      MoveApart(x, y, z);
      RowsApart(k - 1, x, Move(x, y), Move(x, z));
    }
  }

  lemma MoveStep(x: nat, y: nat) returns (q: int)
    requires x < 5 && y < 5
    ensures Move(x, y) == x + 2 * y - 5 * q
  {
    q := if x + 2 * y < 5 then 0 else if x + 2 * y < 10 then 1 else 2;
  }

  // Four moves add fifteen columns and fifteen rows, a multiple of five.
  lemma FourSteps(x: int, y: int, m1: int, m2: int, m3: int, m4: int, q1: int, q2: int, q3: int, q4: int)
    requires m1 == x + 2 * y - 5 * q1 && m2 == x + 2 * m1 - 5 * q2 && m3 == x + 2 * m2 - 5 * q3 && m4 == x + 2 * m3 - 5 * q4
    ensures m4 - y == 5 * (3 * x + 3 * y - 8 * q1 - 4 * q2 - 2 * q3 - q4)
  {}

  lemma NearMultiple(a: int, b: int, k: int)
    requires 0 <= a < 5 && 0 <= b < 5 && a - b == 5 * k
    ensures a == b
  {}

  lemma MoveFour(x: nat, y: nat)
    requires x < 5 && y < 5
    ensures Move(x, Move(x, Move(x, Move(x, y)))) == y
  {
    hide Move;
    var m1 := Move(x, y);
    var m2 := Move(x, m1);
    var m3 := Move(x, m2);
    var q1 := MoveStep(x, y);
    var q2 := MoveStep(x, m1);
    var q3 := MoveStep(x, m2);
    var q4 := MoveStep(x, m3);
    FourSteps(x, y, m1, m2, m3, Move(x, m3), q1, q2, q3, q4);
    NearMultiple(Move(x, m3), y, 3 * x + 3 * y - 8 * q1 - 4 * q2 - 2 * q3 - q4);
  }

  lemma StoredRows(x: nat, y: nat)
    requires x < 5 && y < 5
    ensures StoredRow(0, x, y) == y
    ensures StoredRow(1, x, y) == Move(x, y)
    ensures StoredRow(2, x, y) == Move(x, Move(x, y))
    ensures StoredRow(3, x, y) == Move(x, Move(x, Move(x, y)))
    ensures StoredRow(4, x, y) == y
  {
    hide Move;
    MoveFour(x, y);
    var m := Move(x, y);
    var m2 := Move(x, m);
    var m3 := Move(x, m2);
    assert StoredRow(1, x, y) == StoredRow(0, x, m);
    assert StoredRow(2, x, y) == StoredRow(1, x, m) == StoredRow(0, x, m2);
    assert StoredRow(3, x, y) == StoredRow(2, x, m) == StoredRow(1, x, m2);
    assert StoredRow(4, x, y) == StoredRow(3, x, m) == StoredRow(2, x, m2) == StoredRow(1, x, m3);
  }

  // After every fourth round the words are back in standard order.
  lemma FourRoundsReturn(a: Lanes)
    ensures Layout(0, a) == a && Layout(4, a) == a
  {
    hide StoredRow;
    forall i | 0 <= i < 25 ensures Layout(0, a)[i] == a[i] && Layout(4, a)[i] == a[i] {
      StoredRows(i % 5, i / 5);
    }
  }

  // Theta's column sums do not see the arrangement.
  lemma {:induction false} ColumnLayout(k: nat, a: Lanes, x: nat)
    requires x < 5
    ensures ColumnParity(Layout(k, a), x) == ColumnParity(a, x)
  {
    if k == 0 {
      FourRoundsReturn(a);
    } else {
      ColumnLayout(k - 1, a, x);
      ColumnMoved(k - 1, a, x);
    }
  }

  lemma ColumnMoved(k: nat, a: Lanes, x: nat)
    requires x < 5
    ensures ColumnParity(Layout(k + 1, a), x) == ColumnParity(Layout(k, a), x)
  {
    hide Xor5, Layout;
    MovedAt(k, a, x, 0);
    MovedAt(k, a, x, 1);
    MovedAt(k, a, x, 2);
    MovedAt(k, a, x, 3);
    MovedAt(k, a, x, 4);
    var b := Layout(k, a);
    StepsAgree(b[x], b[x + 5], b[x + 10], b[x + 15], b[x + 20]);
    assert x == 0 || x == 1 || x == 2 || x == 3 || x == 4;
  }

  lemma MovedAt(k: nat, a: Lanes, x: nat, y: nat)
    requires x < 5 && y < 5
    ensures Layout(k + 1, a)[x + 5 * y] == Layout(k, a)[x + 5 * Move(x, y)]
  {
    hide Layout;
    LayoutAt(k + 1, a, x, y);
    LayoutAt(k, a, x, Move(x, y));
  }

  lemma ThetaLayout(k: nat, a: Lanes, x: nat)
    requires x < 5
    ensures ThetaD(Layout(k, a), x) == ThetaD(a, x)
  {
    hide Layout, ColumnParity, Xor, Rot;
    ColumnLayout(k, a, (x + 4) % 5);
    ColumnLayout(k, a, (x + 1) % 5);
  }

  // ----- one group of a round -----

  datatype Five = Five(v0: nat, v1: nat, v2: nat, v3: nat, v4: nat)

  datatype Words = Words(v0: Lane, v1: Lane, v2: Lane, v3: Lane, v4: Lane)

  function Pick(w: Words, x: nat): Lane
    requires x < 5
  {
    match x
    case 0 => w.v0
    case 1 => w.v1
    case 2 => w.v2
    case 3 => w.v3
    case _ => w.v4
  }

  // The five words of group y in the order chi takes them.
  function Spin(y: nat, w: Words): Words {
    match y
    case 0 => w
    case 1 => Words(w.v3, w.v4, w.v0, w.v1, w.v2)
    case 2 => Words(w.v1, w.v2, w.v3, w.v4, w.v0)
    case 3 => Words(w.v4, w.v0, w.v1, w.v2, w.v3)
    case _ => Words(w.v2, w.v3, w.v4, w.v0, w.v1)
  }

  // A word on its way from theta to chi.
  function Turned(v: Lane, d: Lane, k: nat): Lane
    requires k < 64
  {
    Rot(Xor(v, d), k)
  }

  function ChiOf(b0: Lane, b1: Lane, b2: Lane): Lane {
    Xor(b0, AndNot(b2, b1))
  }

  predicate Positions(p: Five) {
    p.v0 < 25 && p.v1 < 25 && p.v2 < 25 && p.v3 < 25 && p.v4 < 25
  }

  predicate Amounts(r: Five) {
    r.v0 < 64 && r.v1 < 64 && r.v2 < 64 && r.v3 < 64 && r.v4 < 64
  }

  // The words after group y, which reads p, mixes in d, turns by r, and writes p again.
  ghost function PlaneOf(a: Lanes, y: nat, p: Five, d: Words, r: Five): Lanes
    requires Positions(p) && Amounts(r)
  {
    var b := Spin(y, Words(Turned(a[p.v0], d.v0, r.v0), Turned(a[p.v1], d.v1, r.v1), Turned(a[p.v2], d.v2, r.v2),
                           Turned(a[p.v3], d.v3, r.v3), Turned(a[p.v4], d.v4, r.v4)));
    a[p.v0 := ChiOf(b.v0, b.v1, b.v2)][p.v1 := ChiOf(b.v1, b.v2, b.v3)][p.v2 := ChiOf(b.v2, b.v3, b.v4)]
     [p.v3 := ChiOf(b.v3, b.v4, b.v0)][p.v4 := ChiOf(b.v4, b.v0, b.v1)]
  }

  // The fifteen statements that every group of every round repeats with its own positions and turns.
  method Plane(a: array<Lane>, y: nat, p: Five, d: Words, r: Five)
    requires a.Length == 25 && Positions(p) && Amounts(r)
    modifies a
    ensures a[..] == PlaneOf(old(a[..]), y, p, d, r)
  {
    hide Xor, Rot, AndNot, Spin;
    var t := Xor(a[p.v0], d.v0);
    var w0 := Rot(t, r.v0);
    t := Xor(a[p.v1], d.v1);
    var w1 := Rot(t, r.v1);
    t := Xor(a[p.v2], d.v2);
    var w2 := Rot(t, r.v2);
    t := Xor(a[p.v3], d.v3);
    var w3 := Rot(t, r.v3);
    t := Xor(a[p.v4], d.v4);
    var w4 := Rot(t, r.v4);
    var bc := Spin(y, Words(w0, w1, w2, w3, w4));
    a[p.v0] := Xor(bc.v0, AndNot(bc.v2, bc.v1));
    a[p.v1] := Xor(bc.v1, AndNot(bc.v3, bc.v2));
    a[p.v2] := Xor(bc.v2, AndNot(bc.v4, bc.v3));
    a[p.v3] := Xor(bc.v3, AndNot(bc.v0, bc.v4));
    a[p.v4] := Xor(bc.v4, AndNot(bc.v1, bc.v0));
  }

  // ----- a group is a row of the round -----

  // The column from which pi brings lane (x, y).
  function Column(x: nat, y: nat): (c: nat)
    requires x < 5 && y < 5
    ensures c < 5
  {
    var v := x + 3 * y;
    if v < 5 then v else if v < 10 then v - 5 else if v < 15 then v - 10 else v - 15
  }

  lemma ColumnIs(x: nat, y: nat)
    requires x < 5 && y < 5
    ensures Column(x, y) == (x + 3 * y) % 5 && Move(Column(x, y), y) == x
  {}

  lemma SpinAt(y: nat, w: Words, x: nat)
    requires x < 5 && y < 5
    ensures Pick(Spin(y, w), x) == Pick(w, Column(x, y))
  {}

  // The word of column x in group y of the round after k rounds.
  function Slot(k: nat, y: nat, x: nat): (i: nat)
    requires x < 5 && y < 5
    ensures i < 25
  {
    x + 5 * StoredRow(k + 1, x, y)
  }

  function Turn(y: nat, x: nat): (r: nat)
    requires x < 5 && y < 5
    ensures r < 64
  {
    Offset(x + 5 * Move(x, y))
  }

  function Slots(k: nat, y: nat): (p: Five)
    requires y < 5
    ensures Positions(p)
  {
    Five(Slot(k, y, 0), Slot(k, y, 1), Slot(k, y, 2), Slot(k, y, 3), Slot(k, y, 4))
  }

  function Turns(y: nat): (r: Five)
    requires y < 5
    ensures Amounts(r)
  {
    Five(Turn(y, 0), Turn(y, 1), Turn(y, 2), Turn(y, 3), Turn(y, 4))
  }

  function ThetaWords(s: Lanes): Words {
    Words(ThetaD(s, 0), ThetaD(s, 1), ThetaD(s, 2), ThetaD(s, 3), ThetaD(s, 4))
  }

  // The lane that chi reads at (x, y), from the words s stored in the arrangement of k rounds.
  function Fetched(k: nat, s: Lanes, x: nat, y: nat): Lane
    requires x < 5 && y < 5
  {
    var c := Column(x, y);
    Turned(s[Slot(k, y, c)], ThetaD(s, c), Turn(y, c))
  }

  // Lane (x, y) after chi.
  function RowLane(k: nat, s: Lanes, x: nat, y: nat): Lane
    requires x < 5 && y < 5
  {
    ChiOf(Fetched(k, s, x, y), Fetched(k, s, (x + 1) % 5, y), Fetched(k, s, (x + 2) % 5, y))
  }

  // Rows below y of the result are in place, first the lane e; the others still hold s.
  ghost predicate Progress(k: nat, y: nat, s: Lanes, e: Lane, t: Lanes) {
    forall x: nat, z: nat | x < 5 && z < 5 :: t[Slot(k, z, x)] ==
      (if y <= z then s[Slot(k, z, x)] else if x == 0 && z == 0 then e else RowLane(k, s, x, z))
  }

  lemma FetchedPick(k: nat, y: nat, s: Lanes, e: Lane, t: Lanes, w: Words, x: nat)
    requires x < 5 && y < 5 && Progress(k, y, s, e, t)
    requires forall c: nat | c < 5 :: Pick(w, c) == Turned(t[Slot(k, y, c)], ThetaD(s, c), Turn(y, c))
    ensures Pick(Spin(y, w), x) == Fetched(k, s, x, y)
  {
    hide Slot, Column, RowLane, Pick, Spin, ThetaD, Turn, Turned;
    SpinAt(y, w, x);
  }

  lemma PlaneRow(k: nat, y: nat, s: Lanes, e: Lane, t: Lanes, x: nat)
    requires x < 5 && y < 5 && Progress(k, y, s, e, t)
    ensures PlaneOf(t, y, Slots(k, y), ThetaWords(s), Turns(y))[Slot(k, y, x)] == RowLane(k, s, x, y)
  {
    hide Progress, Turned, ChiOf, ThetaD, Turn, Fetched, Spin, StoredRow;
    var p, d, r := Slots(k, y), ThetaWords(s), Turns(y);
    var w := Words(Turned(t[p.v0], d.v0, r.v0), Turned(t[p.v1], d.v1, r.v1), Turned(t[p.v2], d.v2, r.v2),
                   Turned(t[p.v3], d.v3, r.v3), Turned(t[p.v4], d.v4, r.v4));
    FetchedPick(k, y, s, e, t, w, x);
    FetchedPick(k, y, s, e, t, w, (x + 1) % 5);
    FetchedPick(k, y, s, e, t, w, (x + 2) % 5);
  }

  lemma PlaneOthers(k: nat, y: nat, t: Lanes, d: Words, x: nat, z: nat)
    requires x < 5 && y < 5 && z < 5 && z != y
    ensures PlaneOf(t, y, Slots(k, y), d, Turns(y))[Slot(k, z, x)] == t[Slot(k, z, x)]
  {
    hide Turned, ChiOf, Turns, Spin, StoredRow;
    RowsApart(k + 1, x, y, z);
  }

  lemma PlaneProgress(k: nat, y: nat, s: Lanes, e: Lane, t: Lanes)
    requires y < 5 && Progress(k, y, s, e, t)
    requires y > 0 || e == RowLane(k, s, 0, 0)
    ensures Progress(k, y + 1, s, e, PlaneOf(t, y, Slots(k, y), ThetaWords(s), Turns(y)))
  {
    hide Slot, PlaneOf, RowLane, Slots, Turns, ThetaWords;
    var u := PlaneOf(t, y, Slots(k, y), ThetaWords(s), Turns(y));
    forall x: nat, z: nat | x < 5 && z < 5
      ensures u[Slot(k, z, x)] ==
        (if y + 1 <= z then s[Slot(k, z, x)] else if x == 0 && z == 0 then e else RowLane(k, s, x, z))
    {
      if z == y {
        PlaneRow(k, y, s, e, t, x);
      } else {
        PlaneOthers(k, y, t, ThetaWords(s), x, z);
      }
    }
  }

  lemma Begin(k: nat, s: Lanes)
    ensures Progress(k, 0, s, RowLane(k, s, 0, 0), s)
  {
    hide RowLane, Slot;
  }

  lemma IotaProgress(k: nat, s: Lanes, rc: Lane, t: Lanes, u: Lanes)
    requires Progress(k, 1, s, RowLane(k, s, 0, 0), t) && u == t[0 := Xor(t[0], rc)]
    ensures u[0] == Xor(RowLane(k, s, 0, 0), rc)
    ensures Progress(k, 1, s, u[0], u)
  {
    hide RowLane, Xor, Slot;
    FirstWord(k);
    assert t[Slot(k, 0, 0)] == RowLane(k, s, 0, 0);
    forall x: nat, z: nat | x < 5 && z < 5 && (x != 0 || z != 0) ensures u[Slot(k, z, x)] == t[Slot(k, z, x)] {
      OtherWord(k, x, z);
    }
  }

  lemma {:induction false} FirstWord(k: nat)
    ensures Slot(k, 0, 0) == 0
  {
    if k > 0 {
      FirstWord(k - 1);
    }
  }

  lemma OtherWord(k: nat, x: nat, y: nat)
    requires x < 5 && y < 5 && (x != 0 || y != 0)
    ensures Slot(k, y, x) != 0
  {
    FirstWord(k);
    if x == 0 {
      RowsApart(k + 1, 0, 0, y);
    }
  }

  lemma RoundDone(k: nat, s: Lanes, rc: Lane, t: Lanes)
    requires Progress(k, 5, s, Xor(RowLane(k, s, 0, 0), rc), t)
    ensures Layout(k + 1, t) == Round(Layout(k, s), rc)
  {
    hide RowLane, Layout, Round, Slot, Xor;
    forall i | 0 <= i < 25 ensures Layout(k + 1, t)[i] == Round(Layout(k, s), rc)[i] {
      LaneDone(k, s, rc, t, i % 5, i / 5);
    }
  }

  lemma LaneDone(k: nat, s: Lanes, rc: Lane, t: Lanes, x: nat, y: nat)
    requires x < 5 && y < 5 && Progress(k, 5, s, Xor(RowLane(k, s, 0, 0), rc), t)
    ensures Layout(k + 1, t)[x + 5 * y] == Round(Layout(k, s), rc)[x + 5 * y]
  {
    hide Layout, Round, Xor, And, Not, Turned, From, Fetched;
    LayoutAt(k + 1, t, x, y);
    assert t[Slot(k, y, x)] == if x == 0 && y == 0 then Xor(RowLane(k, s, 0, 0), rc) else RowLane(k, s, x, y);
    RoundAt(Layout(k, s), rc, x, y);
    FetchedIs(k, s, x, y);
    FetchedIs(k, s, (x + 1) % 5, y);
    FetchedIs(k, s, (x + 2) % 5, y);
  }

  lemma FetchedIs(k: nat, s: Lanes, x: nat, y: nat)
    requires x < 5 && y < 5
    ensures From(Layout(k, s), x, y) == Fetched(k, s, x, y)
  {
    hide Layout, ThetaD, Xor, Rot, Column, Move, Slot, StoredRow, Offset;
    var c := Column(x, y);
    ColumnIs(x, y);
    SlotIs(k, c, y);
    LayoutAt(k, s, c, x);
    ThetaLayout(k, s, c);
  }

  lemma SlotIs(k: nat, c: nat, y: nat)
    requires c < 5 && y < 5
    ensures Slot(k, y, c) == c + 5 * StoredRow(k, c, Move(c, y))
  {}

  // ----- the four rounds of an iteration -----

  lemma TurnTable1()
    ensures Turns(0) == Five(0, 44, 43, 21, 14)
    ensures Turns(1) == Five(3, 45, 61, 28, 20)
    ensures Turns(2) == Five(18, 1, 6, 25, 8)
  {}

  lemma TurnTable2()
    ensures Turns(3) == Five(36, 10, 15, 56, 27)
    ensures Turns(4) == Five(41, 2, 62, 55, 39)
  {}

  lemma ThetaFormula(s: Lanes)
    ensures
      var c0, c1, c2 := Xor5(s[0], s[5], s[10], s[15], s[20]), Xor5(s[1], s[6], s[11], s[16], s[21]), Xor5(s[2], s[7], s[12], s[17], s[22]);
      var c3, c4 := Xor5(s[3], s[8], s[13], s[18], s[23]), Xor5(s[4], s[9], s[14], s[19], s[24]);
      ThetaWords(s) ==
      Words(Xor(c4, Rot(c1, 1)), Xor(c0, Rot(c2, 1)), Xor(c1, Rot(c3, 1)), Xor(c2, Rot(c4, 1)), Xor(c3, Rot(c0, 1)))
  {
    hide Xor5, Xor, Rot;
  }

  lemma SlotTable1()
    ensures Slots(0, 0) == Five(0, 6, 12, 18, 24)
    ensures Slots(0, 1) == Five(10, 16, 22, 3, 9)
    ensures Slots(0, 2) == Five(20, 1, 7, 13, 19)
    ensures Slots(0, 3) == Five(5, 11, 17, 23, 4)
    ensures Slots(0, 4) == Five(15, 21, 2, 8, 14)
  {}

  lemma SlotTable2()
    ensures Slots(1, 0) == Five(0, 16, 7, 23, 14)
    ensures Slots(1, 1) == Five(20, 11, 2, 18, 9)
    ensures Slots(1, 2) == Five(15, 6, 22, 13, 4)
    ensures Slots(1, 3) == Five(10, 1, 17, 8, 24)
    ensures Slots(1, 4) == Five(5, 21, 12, 3, 19)
  {}

  lemma SlotTable3()
    ensures Slots(2, 0) == Five(0, 11, 22, 8, 19)
    ensures Slots(2, 1) == Five(15, 1, 12, 23, 9)
    ensures Slots(2, 2) == Five(5, 16, 2, 13, 24)
    ensures Slots(2, 3) == Five(20, 6, 17, 3, 14)
    ensures Slots(2, 4) == Five(10, 21, 7, 18, 4)
  {}

  lemma SlotTable4()
    ensures Slots(3, 0) == Five(0, 1, 2, 3, 4)
    ensures Slots(3, 1) == Five(5, 6, 7, 8, 9)
    ensures Slots(3, 2) == Five(10, 11, 12, 13, 14)
    ensures Slots(3, 3) == Five(15, 16, 17, 18, 19)
    ensures Slots(3, 4) == Five(20, 21, 22, 23, 24)
  {}

  method Round1(a: array<Lane>, rc: Lane)
    requires a.Length == 25
    modifies a
    ensures Layout(1, a[..]) == Round(Layout(0, old(a[..])), rc)
  {
    hide *;
    ghost var s: Lanes := a[..];
    ThetaFormula(s);
    TurnTable1();
    TurnTable2();
    SlotTable1();
    Begin(0, s);
    var bc0 := Xor5(a[0], a[5], a[10], a[15], a[20]);
    var bc1 := Xor5(a[1], a[6], a[11], a[16], a[21]);
    var bc2 := Xor5(a[2], a[7], a[12], a[17], a[22]);
    var bc3 := Xor5(a[3], a[8], a[13], a[18], a[23]);
    var bc4 := Xor5(a[4], a[9], a[14], a[19], a[24]);
    var d := Words(Xor(bc4, Rot(bc1, 1)), Xor(bc0, Rot(bc2, 1)), Xor(bc1, Rot(bc3, 1)), Xor(bc2, Rot(bc4, 1)), Xor(bc3, Rot(bc0, 1)));

    Plane(a, 0, Five(0, 6, 12, 18, 24), d, Five(0, 44, 43, 21, 14));
    PlaneProgress(0, 0, s, RowLane(0, s, 0, 0), s);
    ghost var t0: Lanes := a[..];
    a[0] := Xor(a[0], rc);
    IotaProgress(0, s, rc, t0, a[..]);
    ghost var e, t1: Lanes := a[0], a[..];

    Plane(a, 1, Five(10, 16, 22, 3, 9), d, Five(3, 45, 61, 28, 20));
    PlaneProgress(0, 1, s, e, t1);
    ghost var t2: Lanes := a[..];

    Plane(a, 2, Five(20, 1, 7, 13, 19), d, Five(18, 1, 6, 25, 8));
    PlaneProgress(0, 2, s, e, t2);
    ghost var t3: Lanes := a[..];

    Plane(a, 3, Five(5, 11, 17, 23, 4), d, Five(36, 10, 15, 56, 27));
    PlaneProgress(0, 3, s, e, t3);
    ghost var t4: Lanes := a[..];

    Plane(a, 4, Five(15, 21, 2, 8, 14), d, Five(41, 2, 62, 55, 39));
    PlaneProgress(0, 4, s, e, t4);

    RoundDone(0, s, rc, a[..]);
  }

  method Round2(a: array<Lane>, rc: Lane)
    requires a.Length == 25
    modifies a
    ensures Layout(2, a[..]) == Round(Layout(1, old(a[..])), rc)
  {
    hide *;
    ghost var s: Lanes := a[..];
    ThetaFormula(s);
    TurnTable1();
    TurnTable2();
    SlotTable2();
    Begin(1, s);
    var bc0 := Xor5(a[0], a[5], a[10], a[15], a[20]);
    var bc1 := Xor5(a[1], a[6], a[11], a[16], a[21]);
    var bc2 := Xor5(a[2], a[7], a[12], a[17], a[22]);
    var bc3 := Xor5(a[3], a[8], a[13], a[18], a[23]);
    var bc4 := Xor5(a[4], a[9], a[14], a[19], a[24]);
    var d := Words(Xor(bc4, Rot(bc1, 1)), Xor(bc0, Rot(bc2, 1)), Xor(bc1, Rot(bc3, 1)), Xor(bc2, Rot(bc4, 1)), Xor(bc3, Rot(bc0, 1)));

    Plane(a, 0, Five(0, 16, 7, 23, 14), d, Five(0, 44, 43, 21, 14));
    PlaneProgress(1, 0, s, RowLane(1, s, 0, 0), s);
    ghost var t0: Lanes := a[..];
    a[0] := Xor(a[0], rc);
    IotaProgress(1, s, rc, t0, a[..]);
    ghost var e, t1: Lanes := a[0], a[..];

    Plane(a, 1, Five(20, 11, 2, 18, 9), d, Five(3, 45, 61, 28, 20));
    PlaneProgress(1, 1, s, e, t1);
    ghost var t2: Lanes := a[..];

    Plane(a, 2, Five(15, 6, 22, 13, 4), d, Five(18, 1, 6, 25, 8));
    PlaneProgress(1, 2, s, e, t2);
    ghost var t3: Lanes := a[..];

    Plane(a, 3, Five(10, 1, 17, 8, 24), d, Five(36, 10, 15, 56, 27));
    PlaneProgress(1, 3, s, e, t3);
    ghost var t4: Lanes := a[..];

    Plane(a, 4, Five(5, 21, 12, 3, 19), d, Five(41, 2, 62, 55, 39));
    PlaneProgress(1, 4, s, e, t4);

    RoundDone(1, s, rc, a[..]);
  }

  method Round3(a: array<Lane>, rc: Lane)
    requires a.Length == 25
    modifies a
    ensures Layout(3, a[..]) == Round(Layout(2, old(a[..])), rc)
  {
    hide *;
    ghost var s: Lanes := a[..];
    ThetaFormula(s);
    TurnTable1();
    TurnTable2();
    SlotTable3();
    Begin(2, s);
    var bc0 := Xor5(a[0], a[5], a[10], a[15], a[20]);
    var bc1 := Xor5(a[1], a[6], a[11], a[16], a[21]);
    var bc2 := Xor5(a[2], a[7], a[12], a[17], a[22]);
    var bc3 := Xor5(a[3], a[8], a[13], a[18], a[23]);
    var bc4 := Xor5(a[4], a[9], a[14], a[19], a[24]);
    var d := Words(Xor(bc4, Rot(bc1, 1)), Xor(bc0, Rot(bc2, 1)), Xor(bc1, Rot(bc3, 1)), Xor(bc2, Rot(bc4, 1)), Xor(bc3, Rot(bc0, 1)));

    Plane(a, 0, Five(0, 11, 22, 8, 19), d, Five(0, 44, 43, 21, 14));
    PlaneProgress(2, 0, s, RowLane(2, s, 0, 0), s);
    ghost var t0: Lanes := a[..];
    a[0] := Xor(a[0], rc);
    IotaProgress(2, s, rc, t0, a[..]);
    ghost var e, t1: Lanes := a[0], a[..];

    Plane(a, 1, Five(15, 1, 12, 23, 9), d, Five(3, 45, 61, 28, 20));
    PlaneProgress(2, 1, s, e, t1);
    ghost var t2: Lanes := a[..];

    Plane(a, 2, Five(5, 16, 2, 13, 24), d, Five(18, 1, 6, 25, 8));
    PlaneProgress(2, 2, s, e, t2);
    ghost var t3: Lanes := a[..];

    Plane(a, 3, Five(20, 6, 17, 3, 14), d, Five(36, 10, 15, 56, 27));
    PlaneProgress(2, 3, s, e, t3);
    ghost var t4: Lanes := a[..];

    Plane(a, 4, Five(10, 21, 7, 18, 4), d, Five(41, 2, 62, 55, 39));
    PlaneProgress(2, 4, s, e, t4);

    RoundDone(2, s, rc, a[..]);
  }

  method Round4(a: array<Lane>, rc: Lane)
    requires a.Length == 25
    modifies a
    ensures Layout(4, a[..]) == Round(Layout(3, old(a[..])), rc)
  {
    hide *;
    ghost var s: Lanes := a[..];
    ThetaFormula(s);
    TurnTable1();
    TurnTable2();
    SlotTable4();
    Begin(3, s);
    var bc0 := Xor5(a[0], a[5], a[10], a[15], a[20]);
    var bc1 := Xor5(a[1], a[6], a[11], a[16], a[21]);
    var bc2 := Xor5(a[2], a[7], a[12], a[17], a[22]);
    var bc3 := Xor5(a[3], a[8], a[13], a[18], a[23]);
    var bc4 := Xor5(a[4], a[9], a[14], a[19], a[24]);
    var d := Words(Xor(bc4, Rot(bc1, 1)), Xor(bc0, Rot(bc2, 1)), Xor(bc1, Rot(bc3, 1)), Xor(bc2, Rot(bc4, 1)), Xor(bc3, Rot(bc0, 1)));

    Plane(a, 0, Five(0, 1, 2, 3, 4), d, Five(0, 44, 43, 21, 14));
    PlaneProgress(3, 0, s, RowLane(3, s, 0, 0), s);
    ghost var t0: Lanes := a[..];
    a[0] := Xor(a[0], rc);
    IotaProgress(3, s, rc, t0, a[..]);
    ghost var e, t1: Lanes := a[0], a[..];

    Plane(a, 1, Five(5, 6, 7, 8, 9), d, Five(3, 45, 61, 28, 20));
    PlaneProgress(3, 1, s, e, t1);
    ghost var t2: Lanes := a[..];

    Plane(a, 2, Five(10, 11, 12, 13, 14), d, Five(18, 1, 6, 25, 8));
    PlaneProgress(3, 2, s, e, t2);
    ghost var t3: Lanes := a[..];

    Plane(a, 3, Five(15, 16, 17, 18, 19), d, Five(36, 10, 15, 56, 27));
    PlaneProgress(3, 3, s, e, t3);
    ghost var t4: Lanes := a[..];

    Plane(a, 4, Five(20, 21, 22, 23, 24), d, Five(41, 2, 62, 55, 39));
    PlaneProgress(3, 4, s, e, t4);

    RoundDone(3, s, rc, a[..]);
  }

  lemma FourMore(a: Lanes, i: nat)
    requires i + 4 <= 24
    ensures
      var b := Round(Round(Rounds(a, i), RoundConstant(i)), RoundConstant(i + 1));
      Rounds(a, i + 4) == Round(Round(b, RoundConstant(i + 2)), RoundConstant(i + 3))
  {
    hide Round, RoundConstant;
    assert Rounds(a, i + 1) == Round(Rounds(a, i), RoundConstant(i));
    assert Rounds(a, i + 2) == Round(Rounds(a, i + 1), RoundConstant(i + 1));
    assert Rounds(a, i + 3) == Round(Rounds(a, i + 2), RoundConstant(i + 2));
  }

  // Six iterations of four rounds.
  method KeccakF1600(a: array<Lane>)
    requires a.Length == 25
    modifies a
    ensures a[..] == Rounds(old(a[..]), 24)
  {
    hide Layout, TableLane, Round, RoundConstant;
    var i := 0;
    while i < 24
      invariant i <= 24 && i % 4 == 0
      invariant a[..] == Rounds(old(a[..]), i)
    {
      ghost var s0: Lanes := a[..];
      FourRoundsReturn(s0);
      Round1(a, TableLane(i));
      Round2(a, TableLane(i + 1));
      Round3(a, TableLane(i + 2));
      Round4(a, TableLane(i + 3));
      ghost var s4: Lanes := a[..];
      FourRoundsReturn(s4);
      FourMore(old(a[..]), i);
      i := i + 4;
    }
  }
}
