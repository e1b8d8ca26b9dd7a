// The batch root over agreements, terms and history of each in order, and the checker of a seal.
module BatchSeal {
  import opened Wrappers
  import opened Binding
  import Pow

  // The economic terms; the unit and the two costs as the text they are written in.
  datatype Terms = Terms(id: string, kind: string, buyer: string, seller: string, amount: int, unitText: string,
    cost: string, effort: string, budget: string, maxSteps: int, createdAt: int, deadline: int)

  datatype Account = Account(terms: Terms, receipts: seq<Receipt>)

  // The three outside functions: a chain's hash in hex, the 32-byte Keccak-256 of a string, and
  // the decoding of hex text.
  datatype Tools = Tools(h: string -> string, k: string -> string, unhex: string -> Option<string>, time: int -> string)

  ghost predicate Sound(t: Tools) {
    && HexHash(t.h) && TimeText(t.time)
    && (forall x: string :: |t.k(x)| == 32)
    && (forall x: string :: t.unhex(t.h(x)).Some? && |t.unhex(t.h(x)).value| == 32)
    && (forall x: string, y: string | t.unhex(t.h(x)) == t.unhex(t.h(y)) :: t.h(x) == t.h(y))
  }

  // ----- the digest of the terms -----

  function Fields(time: int -> string, a: Terms): (r: seq<string>)
    ensures |r| == 12
  {
    [a.id, a.kind, a.buyer, a.seller, Signed(a.amount), a.unitText, a.cost, a.effort, a.budget, Signed(a.maxSteps),
     time(a.createdAt), time(a.deadline)]
  }

  // Each field is followed by a zero byte.
  function Closed(fs: seq<string>): string {
    if fs == [] then "" else fs[0] + "\0" + Closed(fs[1..])
  }

  ghost predicate ZeroFree(a: Terms) {
    && '\0' !in a.id && '\0' !in a.kind && '\0' !in a.buyer && '\0' !in a.seller && '\0' !in a.unitText
    && '\0' !in a.cost && '\0' !in a.effort && '\0' !in a.budget
  }

  lemma {:induction false} ClosedSplits(fs: seq<string>)
    requires forall i | 0 <= i < |fs| :: '\0' !in fs[i]
    ensures Split(Closed(fs), '\0') == fs + [""]
  {
    if fs != [] {
      SplitJoined(fs[0], Closed(fs[1..]), '\0');
      SplitPlain(fs[0], '\0');
      ClosedSplits(fs[1..]);
      hide Split;
      assert fs == [fs[0]] + fs[1..];
    }
  }

  // Split at its zero bytes the text of the terms is identifier, kind, buyer, seller, amount, unit,
  // cost, effort, budget, steps, creation and deadline.
  lemma TermsSplit(time: int -> string, a: Terms)
    requires TimeText(time) && ZeroFree(a)
    ensures Split(Closed(Fields(time, a)), '\0') ==
      [a.id, a.kind, a.buyer, a.seller] + [Signed(a.amount), a.unitText] + [a.cost, a.effort, a.budget, Signed(a.maxSteps)]
      + [time(a.createdAt), time(a.deadline), ""]
  {
    hide Split, Signed, Closed;
    SignedPlain(a.amount, '\0');
    SignedPlain(a.maxSteps, '\0');
    ClosedSplits(Fields(time, a));
  }

  lemma {:induction false} ClosedInjective(fs: seq<string>, gs: seq<string>)
    requires |fs| == |gs| && Closed(fs) == Closed(gs)
    requires forall i | 0 <= i < |fs| :: '\0' !in fs[i] && '\0' !in gs[i]
    ensures fs == gs
  {
    if fs != [] {
      FirstField(fs[0], Closed(fs[1..]), gs[0], Closed(gs[1..]), '\0');
      ClosedInjective(fs[1..], gs[1..]);
      assert fs == [fs[0]] + fs[1..] && gs == [gs[0]] + gs[1..];
    }
  }

  // A field without a zero byte adds one, its terminator.
  lemma {:induction false} ClosedZeros(fs: seq<string>)
    ensures multiset(Closed(fs))['\0'] >= |fs|
    ensures multiset(Closed(fs))['\0'] == |fs| <==> forall i | 0 <= i < |fs| :: '\0' !in fs[i]
  {
    if fs != [] {
      ClosedZeros(fs[1..]);
      assert multiset(Closed(fs)) == multiset(fs[0]) + multiset("\0") + multiset(Closed(fs[1..]));
      assert (forall i | 0 <= i < |fs| :: '\0' !in fs[i])
        <==> '\0' !in fs[0] && forall i | 0 <= i < |fs[1..]| :: '\0' !in fs[1..][i] by { HeadAndRest(fs); }
    }
  }

  lemma HeadAndRest(fs: seq<string>)
    requires fs != []
    ensures (forall i | 0 <= i < |fs| :: '\0' !in fs[i]) <==> '\0' !in fs[0] && forall i | 0 <= i < |fs[1..]| :: '\0' !in fs[1..][i]
  {
    if '\0' !in fs[0] && forall i | 0 <= i < |fs[1..]| :: '\0' !in fs[1..][i] {
      forall i | 0 <= i < |fs| ensures '\0' !in fs[i] {
        assert i > 0 ==> fs[i] == fs[1..][i - 1];
      }
    }
  }

  lemma FieldsZeroFree(t: Tools, a: Terms)
    requires Sound(t)
    ensures ZeroFree(a) <==> forall i | 0 <= i < 12 :: '\0' !in Fields(t.time, a)[i]
  {
    hide Signed;
    var fs := Fields(t.time, a);
    assert fs[0] == a.id && fs[1] == a.kind && fs[2] == a.buyer && fs[3] == a.seller;
    assert fs[5] == a.unitText && fs[6] == a.cost && fs[7] == a.effort && fs[8] == a.budget;
    SignedPlain(a.amount, '\0');
    SignedPlain(a.maxSteps, '\0');
  }

  // Terms without a zero byte in any text are the only ones with their closed fields.
  lemma TermsInjective(t: Tools, a: Terms, b: Terms)
    requires Sound(t) && ZeroFree(a)
    requires Closed(Fields(t.time, a)) == Closed(Fields(t.time, b))
    ensures a == b
  {
    hide Signed, Closed;
    FieldsZeroFree(t, a);
    var fs, gs := Fields(t.time, a), Fields(t.time, b);
    ClosedZeros(fs);
    ClosedZeros(gs);
    ClosedInjective(fs, gs);
    assert fs[4] == gs[4] && fs[9] == gs[9] && fs[10] == gs[10] && fs[11] == gs[11];
    SignedInjective(a.amount, b.amount);
    SignedInjective(a.maxSteps, b.maxSteps);
    assert fs[0] == gs[0] && fs[1] == gs[1] && fs[2] == gs[2] && fs[3] == gs[3];
    assert fs[5] == gs[5] && fs[6] == gs[6] && fs[7] == gs[7] && fs[8] == gs[8];
  }

  // A zero byte within a field can as well be the end of that field: the rest is read as the
  // beginning of the next one.
  lemma {:induction false} ClosedShift(fs: seq<string>, i: nat, x: string, y: string)
    requires i + 1 < |fs| && fs[i] == x + "\0" + y
    ensures Closed(fs[i := x][i + 1 := y + "\0" + fs[i + 1]]) == Closed(fs)
    decreases |fs|
  {
    var gs := fs[i := x][i + 1 := y + "\0" + fs[i + 1]];
    if i == 0 {
      assert gs[1..][1..] == fs[1..][1..];
      assert Closed(fs[1..]) == fs[1] + "\0" + Closed(fs[1..][1..]);
      assert Closed(gs[1..]) == gs[1] + "\0" + Closed(fs[1..][1..]);
      JoinedAgain(x, y, fs[1], Closed(fs[1..][1..]));
    } else {
      ClosedShift(fs[1..], i - 1, x, y);
      assert gs[1..] == fs[1..][i - 1 := x][i := y + "\0" + fs[i + 1]];
    }
  }

  lemma JoinedAgain(x: string, y: string, z: string, rest: string)
    ensures (x + "\0" + y) + "\0" + (z + "\0" + rest) == x + "\0" + ((y + "\0" + z) + "\0" + rest)
  {}

  // Two neighbours of which one holds a zero byte can be cut elsewhere.
  lemma Recut(fs: seq<string>, i: nat) returns (u: string, v: string)
    requires i + 1 < |fs| && ('\0' in fs[i] || '\0' in fs[i + 1])
    ensures u != fs[i] && Closed(fs[i := u][i + 1 := v]) == Closed(fs)
  {
    hide Closed;
    if '\0' in fs[i] {
      var j :| 0 <= j < |fs[i]| && fs[i][j] == '\0';
      var y := fs[i][j + 1..];
      u, v := fs[i][..j], y + "\0" + fs[i + 1];
      assert fs[i] == u + "\0" + y;
      ClosedShift(fs, i, u, y);
    } else {
      var j :| 0 <= j < |fs[i + 1]| && fs[i + 1][j] == '\0';
      var x := fs[i + 1][..j];
      u, v := fs[i] + "\0" + x, fs[i + 1][j + 1..];
      var gs := fs[i := u][i + 1 := v];
      ClosedShift(gs, i, fs[i], x);
      assert fs[i + 1] == x + "\0" + v;
      assert gs[i := fs[i]][i + 1 := x + "\0" + v] == fs;
    }
  }

  // With a zero byte in any text, other terms have the same closed fields, and unless the identifier
  // alone holds one, terms of the same identifier.
  lemma TermsAmbiguous(time: int -> string, a: Terms) returns (b: Terms)
    requires !ZeroFree(a)
    ensures b != a && Closed(Fields(time, b)) == Closed(Fields(time, a))
    ensures !ZeroFree(a.(id := "")) ==> b.id == a.id
  {
    hide Closed, Signed;
    var fs := Fields(time, a);
    if '\0' in a.kind || '\0' in a.buyer {
      var u, v := Recut(fs, 1);
      b := a.(kind := u, buyer := v);
      assert Fields(time, b) == fs[1 := u][2 := v];
    } else if '\0' in a.seller {
      var u, v := Recut(fs, 2);
      b := a.(buyer := u, seller := v);
      assert Fields(time, b) == fs[2 := u][3 := v];
    } else if '\0' in a.unitText || '\0' in a.cost {
      var u, v := Recut(fs, 5);
      b := a.(unitText := u, cost := v);
      assert Fields(time, b) == fs[5 := u][6 := v];
    } else if '\0' in a.effort || '\0' in a.budget {
      var u, v := Recut(fs, 7);
      b := a.(effort := u, budget := v);
      assert Fields(time, b) == fs[7 := u][8 := v];
    } else {
      var u, v := Recut(fs, 0);
      b := a.(id := u, kind := v);
      assert Fields(time, b) == fs[0 := u][1 := v];
    }
  }

  // The separator leaves no ambiguity exactly when no text holds it.
  lemma TermsFixedIff(t: Tools, a: Terms)
    requires Sound(t)
    ensures (forall b :: Closed(Fields(t.time, b)) == Closed(Fields(t.time, a)) ==> b == a) <==> ZeroFree(a)
  {
    hide Closed, Fields, ZeroFree, Sound;
    if ZeroFree(a) {
      forall b | Closed(Fields(t.time, b)) == Closed(Fields(t.time, a)) ensures b == a {
        TermsInjective(t, a, b);
      }
    } else {
      var b := TermsAmbiguous(t.time, a);
      assert Closed(Fields(t.time, b)) == Closed(Fields(t.time, a)) && b != a;
    }
  }

  method TermsDigest(t: Tools, a: Terms) returns (d: string)
    ensures d == t.k(Closed(Fields(t.time, a)))
  {
    var st := "";
    var fs := Fields(t.time, a);
    ghost var done: seq<string> := [];
    for i := 0 to 12
      invariant st == Closed(fs[..i])
    {
      ClosedNext(fs[..i], fs[i]);
      assert fs[..i + 1] == fs[..i] + [fs[i]];
      st := st + fs[i];
      st := st + "\0";
    }
    assert fs[..12] == fs;
    d := t.k(st);
  }

  lemma {:induction false} ClosedNext(fs: seq<string>, f: string)
    ensures Closed(fs + [f]) == Closed(fs) + f + "\0"
  {
    if fs == [] {
      assert [f][1..] == [];
      assert Closed([f]) == f + "\0" + Closed([]);
    } else {
      ClosedNext(fs[1..], f);
      assert (fs + [f])[1..] == fs[1..] + [f];
    }
  }

  // ----- the root -----

  ghost predicate Sealable(t: Tools, a: Account) {
    a.receipts != [] && Verified(t.h, t.time, a.terms.id, a.receipts)
  }

  // What the root writes for one agreement: the digest of its terms and the bytes of its tail.
  function Tail(a: Account): string {
    Prev(a.receipts, |a.receipts|)
  }

  function Entry(t: Tools, a: Account): string {
    var raw := t.unhex(Tail(a));
    t.k(Closed(Fields(t.time, a.terms))) + if raw.Some? then raw.value else ""
  }

  function Body(t: Tools, accounts: seq<Account>): string {
    if accounts == [] then "" else Body(t, accounts[..|accounts| - 1]) + Entry(t, accounts[|accounts| - 1])
  }

  ghost predicate AllSealable(t: Tools, accounts: seq<Account>) {
    forall a | a in accounts :: Sealable(t, a)
  }

  lemma SealableEntry(t: Tools, a: Account)
    requires Sound(t) && Sealable(t, a)
    ensures |Entry(t, a)| == 64 && t.unhex(Tail(a)).Some?
    ensures Tail(a) == t.h(Preimage(t.time, a.terms.id, a.receipts[|a.receipts| - 1]))
  {
    hide Preimage, Fields, Closed, HexHash, TimeText;
    assert Link(t.h, t.time, a.terms.id, a.receipts, |a.receipts| - 1);
  }

  // An agreement without receipts or with a broken chain is refused.
  method Root(t: Tools, accounts: seq<Account>) returns (r: Option<string>)
    requires Sound(t)
    ensures r.Some? <==> AllSealable(t, accounts)
    ensures r.Some? ==> r.value == t.k(Body(t, accounts))
  {
    hide Preimage, Sound, Verified, Fields, Closed;
    var st := "";
    for i := 0 to |accounts|
      invariant AllSealable(t, accounts[..i])
      invariant st == Body(t, accounts[..i])
    {
      var a := accounts[i];
      if |a.receipts| == 0 {
        assert a in accounts && !Sealable(t, a);
        return None;
      }
      var ok := VerifyReceipts(t.h, t.time, a.terms.id, a.receipts);
      if !ok {
        assert a in accounts && !Sealable(t, a);
        return None;
      }
      var terms := TermsDigest(t, a.terms);
      SealableEntry(t, a);
      st := st + terms;
      var raw := t.unhex(Tail(a));
      if raw.None? {
        return None;
      }
      st := st + raw.value;
      var front := accounts[..i + 1];
      assert front[..i] == accounts[..i] && front[i] == a;
    }
    assert accounts[..|accounts|] == accounts;
    return Some(t.k(st));
  }

  // ----- what the root binds -----

  ghost predicate Decodable(a: Account) {
    ZeroFree(a.terms) && PlainHistory(a.terms.id, a.receipts)
  }

  ghost predicate AllDecodable(accounts: seq<Account>) {
    forall a | a in accounts :: Decodable(a)
  }

  lemma SameAccount(t: Tools, a: Account, b: Account, cs: set<string>, ks: set<string>)
    requires Sound(t) && Sealable(t, a) && Sealable(t, b) && Decodable(a) && Decodable(b)
    requires Hashed(t.time, a.terms.id, a.receipts) <= cs && Hashed(t.time, b.terms.id, b.receipts) <= cs
    requires Closed(Fields(t.time, a.terms)) in ks && Closed(Fields(t.time, b.terms)) in ks
    requires CollisionFree(t.h, cs) && CollisionFree(t.k, ks)
    requires Entry(t, a) == Entry(t, b)
    ensures a == b
  {
    hide Preimage, Hashed, HexHash, TimeText, Verified, PlainHistory, ZeroFree, Closed, Fields;
    SealableEntry(t, a);
    SealableEntry(t, b);
    var x, y := t.k(Closed(Fields(t.time, a.terms))), t.k(Closed(Fields(t.time, b.terms)));
    assert x == Entry(t, a)[..32] == Entry(t, b)[..32] == y;
    TermsInjective(t, a.terms, b.terms);
    var u, v := t.unhex(Tail(a)), t.unhex(Tail(b));
    assert u.value == Entry(t, a)[32..] == Entry(t, b)[32..] == v.value;
    TailBindsHistory(t.h, t.time, a.terms.id, a.receipts, b.terms.id, b.receipts);
  }

  lemma ZeroElsewhere(a: Terms)
    requires !ZeroFree(a.(id := ""))
    ensures !ZeroFree(a)
  {}

  // Without the condition on the terms the root binds less: with a zero byte in a text other than the
  // identifier, the same receipts verify under other terms, and the root is given the same bytes.
  lemma AccountAmbiguous(t: Tools, a: Account) returns (b: Account)
    requires Sealable(t, a) && !ZeroFree(a.terms.(id := ""))
    ensures b.terms != a.terms && b.receipts == a.receipts && Sealable(t, b) && Entry(t, b) == Entry(t, a)
  {
    ZeroElsewhere(a.terms);
    hide Closed, Fields, Verified, ZeroFree;
    var terms := TermsAmbiguous(t.time, a.terms);
    b := a.(terms := terms);
  }

  ghost predicate Covered(t: Tools, accounts: seq<Account>, cs: set<string>, ks: set<string>) {
    forall a | a in accounts :: Hashed(t.time, a.terms.id, a.receipts) <= cs && Closed(Fields(t.time, a.terms)) in ks
  }

  lemma {:induction false} BodyLength(t: Tools, accounts: seq<Account>)
    requires Sound(t) && AllSealable(t, accounts)
    ensures |Body(t, accounts)| == 64 * |accounts|
  {
    hide Sound, Entry, Sealable;
    if accounts != [] {
      var front := accounts[..|accounts| - 1];
      assert Sealable(t, accounts[|accounts| - 1]);
      BodyLength(t, front);
      SealableEntry(t, accounts[|accounts| - 1]);
    }
  }

  // The body of a batch is the body of its front, then 64 bytes for its last account.
  lemma BodySplit(t: Tools, accounts: seq<Account>)
    requires Sound(t) && accounts != [] && AllSealable(t, accounts)
    ensures
      var n := |accounts| - 1;
      var s := Body(t, accounts);
      && |s| == 64 * |accounts|
      && Body(t, accounts[..n]) == s[..64 * n] && Entry(t, accounts[n]) == s[64 * n..]
  {
    hide Sound, Entry, Sealable;
    var front := accounts[..|accounts| - 1];
    BodyLength(t, accounts);
    BodyLength(t, front);
  }

  lemma PrefixFits(t: Tools, accounts: seq<Account>, cs: set<string>, ks: set<string>)
    requires accounts != [] && AllSealable(t, accounts) && AllDecodable(accounts) && Covered(t, accounts, cs, ks)
    ensures
      var p, a := accounts[..|accounts| - 1], accounts[|accounts| - 1];
      && AllSealable(t, p) && AllDecodable(p) && Covered(t, p, cs, ks) && Sealable(t, a) && Decodable(a)
      && Hashed(t.time, a.terms.id, a.receipts) <= cs && Closed(Fields(t.time, a.terms)) in ks
  {
    hide Sealable, Decodable, Hashed, Closed, Fields;
    assert accounts[|accounts| - 1] in accounts;
  }

  lemma {:induction false} BodyBinds(t: Tools, accounts: seq<Account>, others: seq<Account>, cs: set<string>, ks: set<string>)
    requires Sound(t) && AllSealable(t, accounts) && AllSealable(t, others)
    requires AllDecodable(accounts) && AllDecodable(others)
    requires Covered(t, accounts, cs, ks) && Covered(t, others, cs, ks)
    requires CollisionFree(t.h, cs) && CollisionFree(t.k, ks)
    requires |accounts| == |others| && Body(t, accounts) == Body(t, others)
    ensures accounts == others
  {
    hide Sound, Entry, Sealable, Decodable, Hashed, CollisionFree, Closed, Fields;
    if accounts != [] {
      var n := |accounts| - 1;
      var p, q, a, b := accounts[..n], others[..n], accounts[n], others[n];
      hide AllSealable, AllDecodable, Covered;
      PrefixFits(t, accounts, cs, ks);
      PrefixFits(t, others, cs, ks);
      hide Body;
      BodySplit(t, accounts);
      BodySplit(t, others);
      SameAccount(t, a, b, cs, ks);
      BodyBinds(t, p, q, cs, ks);
      assert accounts == p + [a] && others == q + [b];
    }
  }

  // Equal roots mean the same agreements in the same order, with the same terms and histories.
  lemma RootBindsAccounts(t: Tools, accounts: seq<Account>, others: seq<Account>, cs: set<string>, ks: set<string>)
    requires Sound(t) && AllSealable(t, accounts) && AllSealable(t, others)
    requires AllDecodable(accounts) && AllDecodable(others)
    requires Covered(t, accounts, cs, ks) && Covered(t, others, cs, ks)
    requires Body(t, accounts) in ks && Body(t, others) in ks
    requires CollisionFree(t.h, cs) && CollisionFree(t.k, ks)
    requires t.k(Body(t, accounts)) == t.k(Body(t, others))
    ensures accounts == others
  {
    hide Sound, Sealable, Decodable, Covered;
    BodyLength(t, accounts);
    BodyLength(t, others);
    BodyBinds(t, accounts, others, cs, ks);
  }

  // ----- the checker -----

  datatype Refusal = BelowFloor | BrokenAccount | RootMismatch | InvalidWork

  method Verify(t: Tools, g: Pow.Header -> seq<Pow.Byte>, accounts: seq<Account>, header: Pow.Header, minBits: int)
    returns (refusal: Option<Refusal>)
    requires Sound(t)
    ensures refusal.None? <==>
      (header.diffBits >= minBits && AllSealable(t, accounts) && header.batchRoot == t.k(Body(t, accounts)) && Pow.Valid(g, header))
    ensures refusal == Some(BelowFloor) <==> header.diffBits < minBits
    ensures refusal == Some(BrokenAccount) <==> header.diffBits >= minBits && !AllSealable(t, accounts)
    ensures refusal == Some(RootMismatch) <==>
      header.diffBits >= minBits && AllSealable(t, accounts) && header.batchRoot != t.k(Body(t, accounts))
  {
    hide Sound, Sealable;
    if header.diffBits < minBits {
      return Some(BelowFloor);
    }
    var root := Root(t, accounts);
    if root.None? {
      return Some(BrokenAccount);
    }
    if root.value != header.batchRoot {
      return Some(RootMismatch);
    }
    if !Pow.Valid(g, header) {
      return Some(InvalidWork);
    }
    return None;
  }
}
