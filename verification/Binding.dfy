// What a receipt hash commits to: the joined text that is hashed can be taken apart again, so the
// last hash of a chain fixes the agreement's identifier and its whole history.
module Binding {
  // ----- the hash functions, as parameters -----

  // The hex text of the SHA-256 of a string.
  ghost predicate HexHash(h: string -> string) {
    forall x: string :: h(x) != "" && '|' !in h(x)
  }

  // No two of these strings collide.
  ghost predicate CollisionFree(h: string -> string, s: set<string>) {
    forall x, y | x in s && y in s && h(x) == h(y) :: x == y
  }

  // The text of an instant: injective and free of the separators.
  ghost predicate TimeText(f: int -> string) {
    && (forall t: int :: '|' !in f(t) && '\0' !in f(t))
    && (forall t: int, u: int | f(t) == f(u) :: t == u)
  }

  // ----- decimal numbers -----

  function Digit(d: nat): char
    requires d < 10
  {
    '0' + d as char
  }

  function Decimal(n: nat): (s: string)
    ensures s != "" && forall c | c in s :: '0' <= c <= '9'
  {
    if n < 10 then [Digit(n)] else Decimal(n / 10) + [Digit(n % 10)]
  }

  function Signed(n: int): string {
    if n < 0 then "-" + Decimal(-n) else Decimal(n)
  }

  lemma DecimalLength(n: nat)
    ensures |Decimal(n)| == 1 <==> n < 10
  {}

  lemma {:induction false} DecimalInjective(m: nat, n: nat)
    requires Decimal(m) == Decimal(n)
    ensures m == n
  {
    var s := Decimal(m);
    DecimalLength(m);
    DecimalLength(n);
    if m < 10 {
      assert s[0] == Digit(m) && Decimal(n)[0] == Digit(n);
    } else {
      assert Decimal(m / 10) == s[..|s| - 1] == Decimal(n / 10);
      assert Digit(m % 10) == s[|s| - 1] == Digit(n % 10);
      DecimalInjective(m / 10, n / 10);
    }
  }

  lemma SignedInjective(m: int, n: int)
    requires Signed(m) == Signed(n)
    ensures m == n
  {
    SignedSign(m);
    SignedSign(n);
    if m < 0 {
      assert Decimal(-m) == Signed(m)[1..] == Signed(n)[1..] == Decimal(-n);
      DecimalInjective(-m, -n);
    } else {
      DecimalInjective(m, n);
    }
  }

  lemma SignedSign(n: int)
    ensures Signed(n) != "" && (Signed(n)[0] == '-' <==> n < 0)
  {
    if n >= 0 {
      var s := Decimal(n);
      assert s[0] in s;
    }
  }

  // The number that decimal digits stand for.
  function Reading(s: string): int {
    if s == "" then 0 else 10 * Reading(s[..|s| - 1]) + (s[|s| - 1] as int - '0' as int)
  }

  lemma {:induction false} DecimalReads(n: nat)
    ensures Reading(Decimal(n)) == n
  {
    var s := Decimal(n);
    if n >= 10 {
      assert s[..|s| - 1] == Decimal(n / 10) && s[|s| - 1] == Digit(n % 10);
      DecimalReads(n / 10);
    } else {
      assert s[..0] == "";
    }
  }

  lemma SignedReads(n: int)
    ensures if n < 0 then Signed(n)[..1] == "-" && Reading(Signed(n)[1..]) == -n else Reading(Signed(n)) == n
  {
    DecimalReads(if n < 0 then -n else n);
  }

  lemma SignedPlain(n: int, c: char)
    requires c == '|' || c == '\0'
    ensures c !in Signed(n)
  {}

  // ----- taking joined text apart -----

  lemma FrontOverlap(a: string, x: string, b: string, y: string, c: char)
    requires a + [c] + x == b + [c] + y
    ensures |a| < |b| ==> b[|a|] == c
  {
    var s := a + [c] + x;
    assert s[|a|] == c;
    assert |a| < |b| ==> s[|a|] == b[|a|];
  }

  lemma FirstField(a: string, x: string, b: string, y: string, c: char)
    requires a + [c] + x == b + [c] + y && c !in a && c !in b
    ensures a == b && x == y
  {
    FrontOverlap(a, x, b, y, c);
    FrontOverlap(b, y, a, x, c);
    assert |a| == |b|;
    var s := a + [c] + x;
    assert a == s[..|a|] == b;
    assert x == s[|a| + 1..] == y;
  }

  lemma BackOverlap(x: string, a: string, y: string, b: string, c: char)
    requires x + [c] + a == y + [c] + b
    ensures |a| < |b| ==> b[|b| - 1 - |a|] == c
  {
    var s := x + [c] + a;
    var n := |s|;
    assert s[n - 1 - |a|] == c;
    assert |a| < |b| ==> s[n - 1 - |a|] == b[|b| - 1 - |a|];
  }

  lemma LastField(x: string, a: string, y: string, b: string, c: char)
    requires x + [c] + a == y + [c] + b && c !in a && c !in b
    ensures a == b && x == y
  {
    BackOverlap(x, a, y, b, c);
    BackOverlap(y, b, x, a, c);
    assert |a| == |b|;
    var s := x + [c] + a;
    assert x == s[..|x|] == y;
    assert a == s[|x| + 1..] == b;
  }

  // ----- receipts -----

  datatype Receipt = Receipt(seqNo: int, at: int, action: string, actor: string, note: string, prevHash: string, hash: string)

  function Preimage(f: int -> string, id: string, r: Receipt): string {
    id + "|" + (Signed(r.seqNo) + "|" + (f(r.at) + "|" + (r.action + "|" + (r.actor + "|" + (r.note + "|" + r.prevHash)))))
  }

  // The fields whose text may hold the separator, and must not.
  ghost predicate Plain(id: string, r: Receipt) {
    '|' !in id && '|' !in r.action && '|' !in r.actor && '|' !in r.prevHash
  }

  // The same receipt, hash aside.
  ghost predicate SameContent(r: Receipt, q: Receipt) {
    q.(hash := r.hash) == r
  }

  // The pieces of a text between its separators.
  function Split(s: string, c: char): (parts: seq<string>)
    ensures parts != []
  {
    if s == "" then [""]
    else if s[0] == c then [""] + Split(s[1..], c)
    else
      var parts := Split(s[1..], c);
      [[s[0]] + parts[0]] + parts[1..]
  }

  lemma {:induction false} SplitPlain(a: string, c: char)
    requires c !in a
    ensures Split(a, c) == [a]
  {
    if a != "" {
      SplitPlain(a[1..], c);
      assert [a[0]] + a[1..] == a;
    }
  }

  lemma {:induction false} SplitJoined(a: string, b: string, c: char)
    ensures Split(a + [c] + b, c) == Split(a, c) + Split(b, c)
  {
    var s := a + [c] + b;
    if a == "" {
      assert s[1..] == b;
    } else {
      assert s[0] == a[0] && s[1..] == a[1..] + [c] + b;
      SplitJoined(a[1..], b, c);
      var x, y := Split(a[1..], c), Split(b, c);
      assert Split(s[1..], c) == x + y;
      if a[0] == c {
        assert ([""] + x) + y == [""] + (x + y);
      } else {
        assert (x + y)[0] == x[0] && (x + y)[1..] == x[1..] + y;
        assert ([[a[0]] + x[0]] + x[1..]) + y == [[a[0]] + x[0]] + (x[1..] + y);
      }
    }
  }

  // Read from the left the text is identifier, number, time, action and actor; then comes the note,
  // and the previous hash is last.
  lemma PreimageSplits(f: int -> string, id: string, r: Receipt)
    requires TimeText(f) && Plain(id, r)
    ensures Split(Preimage(f, id, r), '|') == [id, Signed(r.seqNo), f(r.at), r.action, r.actor] + Split(r.note, '|') + [r.prevHash]
  {
    hide Split, Signed;
    SignedPlain(r.seqNo, '|');
    var note := r.note + "|" + r.prevHash;
    var actor := r.actor + "|" + note;
    var action := r.action + "|" + actor;
    var time := f(r.at) + "|" + action;
    SplitJoined(id, Signed(r.seqNo) + "|" + time, '|');
    SplitJoined(Signed(r.seqNo), time, '|');
    SplitJoined(f(r.at), action, '|');
    SplitJoined(r.action, actor, '|');
    SplitJoined(r.actor, note, '|');
    SplitJoined(r.note, r.prevHash, '|');
    SplitPlain(id, '|');
    SplitPlain(Signed(r.seqNo), '|');
    SplitPlain(f(r.at), '|');
    SplitPlain(r.action, '|');
    SplitPlain(r.actor, '|');
    SplitPlain(r.prevHash, '|');
  }

  lemma PreimageInjective(f: int -> string, id1: string, r1: Receipt, id2: string, r2: Receipt)
    requires TimeText(f) && Plain(id1, r1) && Plain(id2, r2)
    requires Preimage(f, id1, r1) == Preimage(f, id2, r2)
    ensures id1 == id2 && SameContent(r1, r2)
  {
    hide Signed;
    var n1, n2 := r1.note + "|" + r1.prevHash, r2.note + "|" + r2.prevHash;
    var a1, a2 := r1.actor + "|" + n1, r2.actor + "|" + n2;
    var c1, c2 := r1.action + "|" + a1, r2.action + "|" + a2;
    var t1, t2 := f(r1.at) + "|" + c1, f(r2.at) + "|" + c2;
    FirstField(id1, Signed(r1.seqNo) + "|" + t1, id2, Signed(r2.seqNo) + "|" + t2, '|');
    SignedPlain(r1.seqNo, '|');
    SignedPlain(r2.seqNo, '|');
    FirstField(Signed(r1.seqNo), t1, Signed(r2.seqNo), t2, '|');
    SignedInjective(r1.seqNo, r2.seqNo);
    FirstField(f(r1.at), c1, f(r2.at), c2, '|');
    FirstField(r1.action, a1, r2.action, a2, '|');
    FirstField(r1.actor, n1, r2.actor, n2, '|');
    LastField(r1.note, r1.prevHash, r2.note, r2.prevHash, '|');
  }

  // The condition on action and actor is needed: with a separator in either, another receipt that
  // has none there is hashed from the same text.
  lemma SeparatorAmbiguous(f: int -> string, id: string, r: Receipt) returns (q: Receipt)
    requires '|' in r.action || '|' in r.actor
    ensures !SameContent(r, q) && Preimage(f, id, q) == Preimage(f, id, r)
    ensures '|' !in q.action && '|' !in q.actor
  {
    if '|' in r.action {
      var x, y := SplitFirst(r.action);
      var rest := y + "|" + r.actor + "|" + r.note;
      var z, w := SplitFirst(rest);
      q := r.(action := x, actor := z, note := w);
      assert r.action + "|" + (r.actor + "|" + (r.note + "|" + r.prevHash)) == x + "|" + (rest + "|" + r.prevHash);
      assert rest + "|" + r.prevHash == z + "|" + (w + "|" + r.prevHash);
    } else {
      var x, y := SplitFirst(r.actor);
      q := r.(actor := x, note := y + "|" + r.note);
      assert r.actor + "|" + (r.note + "|" + r.prevHash) == x + "|" + (y + "|" + r.note + "|" + r.prevHash);
    }
  }

  lemma {:induction false} SplitFirst(s: string) returns (x: string, y: string)
    requires '|' in s
    ensures s == x + "|" + y && '|' !in x
    decreases |s|
  {
    if s[0] == '|' {
      x, y := "", s[1..];
    } else {
      x, y := SplitFirst(s[1..]);
      x := [s[0]] + x;
    }
  }

  // ----- the chain -----

  function Prev(rs: seq<Receipt>, i: nat): string
    requires i <= |rs|
  {
    if i == 0 then "" else rs[i - 1].hash
  }

  ghost predicate Link(h: string -> string, f: int -> string, id: string, rs: seq<Receipt>, i: nat)
    requires i < |rs|
  {
    rs[i].seqNo == i + 1 && rs[i].prevHash == Prev(rs, i) && rs[i].hash == h(Preimage(f, id, rs[i]))
  }

  ghost predicate Verified(h: string -> string, f: int -> string, id: string, rs: seq<Receipt>) {
    forall i | 0 <= i < |rs| :: Link(h, f, id, rs, i)
  }

  ghost function Hashed(f: int -> string, id: string, rs: seq<Receipt>): set<string> {
    set i | 0 <= i < |rs| :: Preimage(f, id, rs[i])
  }

  ghost predicate PlainHistory(id: string, rs: seq<Receipt>) {
    '|' !in id && forall i | 0 <= i < |rs| :: '|' !in rs[i].action && '|' !in rs[i].actor
  }

  lemma ChainPlain(h: string -> string, f: int -> string, id: string, rs: seq<Receipt>, i: nat)
    requires HexHash(h) && Verified(h, f, id, rs) && PlainHistory(id, rs) && i < |rs|
    ensures Plain(id, rs[i])
  {
    hide Preimage;
    assert Link(h, f, id, rs, i);
    if i > 0 {
      assert Link(h, f, id, rs, i - 1);
    }
  }

  // Equal hashes are hashes of equal receipts.
  lemma SameReceipt(h: string -> string, f: int -> string, id1: string, rs1: seq<Receipt>, id2: string, rs2: seq<Receipt>, m: nat, n: nat)
    requires HexHash(h) && TimeText(f)
    requires Verified(h, f, id1, rs1) && Verified(h, f, id2, rs2) && PlainHistory(id1, rs1) && PlainHistory(id2, rs2)
    requires CollisionFree(h, Hashed(f, id1, rs1) + Hashed(f, id2, rs2))
    requires 0 < m <= |rs1| && 0 < n <= |rs2| && rs1[m - 1].hash == rs2[n - 1].hash
    ensures id1 == id2 && rs1[m - 1] == rs2[n - 1]
  {
    hide Preimage, HexHash, TimeText, PlainHistory, Plain;
    var p, q := rs1[m - 1], rs2[n - 1];
    assert Link(h, f, id1, rs1, m - 1) && Link(h, f, id2, rs2, n - 1);
    var x, y := Preimage(f, id1, p), Preimage(f, id2, q);
    assert x in Hashed(f, id1, rs1) && y in Hashed(f, id2, rs2);
    ChainPlain(h, f, id1, rs1, m - 1);
    ChainPlain(h, f, id2, rs2, n - 1);
    PreimageInjective(f, id1, p, id2, q);
  }

  // Receipts with the same hash have the same past.
  lemma {:induction false} SamePast(h: string -> string, f: int -> string, id1: string, rs1: seq<Receipt>, id2: string, rs2: seq<Receipt>, n: nat)
    requires HexHash(h) && TimeText(f)
    requires Verified(h, f, id1, rs1) && Verified(h, f, id2, rs2) && PlainHistory(id1, rs1) && PlainHistory(id2, rs2)
    requires CollisionFree(h, Hashed(f, id1, rs1) + Hashed(f, id2, rs2))
    requires 0 < n <= |rs1| && n <= |rs2| && rs1[n - 1].hash == rs2[n - 1].hash
    ensures id1 == id2 && rs1[..n] == rs2[..n]
  {
    hide Preimage, HexHash, TimeText, PlainHistory, CollisionFree, Hashed;
    SameReceipt(h, f, id1, rs1, id2, rs2, n, n);
    var p, q := rs1[n - 1], rs2[n - 1];
    assert Link(h, f, id1, rs1, n - 1) && Link(h, f, id2, rs2, n - 1);
    if n > 1 {
      SamePast(h, f, id1, rs1, id2, rs2, n - 1);
    }
    assert rs1[..n] == rs1[..n - 1] + [p];
    assert rs2[..n] == rs2[..n - 1] + [q];
  }

  // Two verified chains that end in the same hash are one history of one agreement.
  lemma TailBindsHistory(h: string -> string, f: int -> string, id1: string, rs1: seq<Receipt>, id2: string, rs2: seq<Receipt>)
    requires HexHash(h) && TimeText(f)
    requires Verified(h, f, id1, rs1) && Verified(h, f, id2, rs2) && PlainHistory(id1, rs1) && PlainHistory(id2, rs2)
    requires CollisionFree(h, Hashed(f, id1, rs1) + Hashed(f, id2, rs2))
    requires rs1 != [] && rs2 != [] && rs1[|rs1| - 1].hash == rs2[|rs2| - 1].hash
    ensures id1 == id2 && rs1 == rs2
  {
    hide Preimage, HexHash, TimeText, PlainHistory, CollisionFree, Hashed;
    var m, n := |rs1|, |rs2|;
    SameReceipt(h, f, id1, rs1, id2, rs2, m, n);
    assert Link(h, f, id1, rs1, m - 1) && Link(h, f, id2, rs2, n - 1);
    SamePast(h, f, id1, rs1, id2, rs2, m);
    assert rs1[..m] == rs1 && rs2[..m] == rs2;
  }

  // The loop that checks a chain accepts exactly the verified ones.
  method VerifyReceipts(h: string -> string, f: int -> string, id: string, rs: seq<Receipt>) returns (ok: bool)
    ensures ok <==> Verified(h, f, id, rs)
  {
    hide Preimage;
    var prev := "";
    for i := 0 to |rs|
      invariant prev == Prev(rs, i)
      invariant forall j | 0 <= j < i :: Link(h, f, id, rs, j)
    {
      var r := rs[i];
      assert Link(h, f, id, rs, i) <==> r.seqNo == i + 1 && r.prevHash == prev && r.hash == h(Preimage(f, id, r));
      if r.seqNo != i + 1 {
        return false;
      }
      if r.prevHash != prev {
        return false;
      }
      if r.hash != h(Preimage(f, id, r)) {
        return false;
      }
      prev := r.hash;
    }
    return true;
  }
}
