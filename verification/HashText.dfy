// Why receipt hashes may be symbols: the text hash of a symbolic one, when two texts that hash
// alike stand for the same symbol, and what the last hex hash of an agreement then binds
// (internal/nexum/agreement.go).
module HashText {
  import opened Paillier
  import opened Kernel
  import opened KernelRuns
  import B = Binding

  // The hex hash that the program would store for a symbolic hash, given the text of each note.
  function Rendered(h: string -> string, f: int -> string, text: Note -> string, x: Hash): string
    decreases x, 1
  {
    match x
    case NoHash => ""
    case HashOf(_, _, _, _, _, _, _) => h(HashedText(h, f, text, x))
  }

  function HashedText(h: string -> string, f: int -> string, text: Note -> string, x: Hash): string
    requires x.HashOf?
    decreases x, 0
  {
    B.Preimage(f, x.id, Content(text, x, Rendered(h, f, text, x.prev)))
  }

  function Content(text: Note -> string, x: Hash, prev: string): B.Receipt
    requires x.HashOf?
  {
    B.Receipt(x.seqNo, x.at, x.action, x.actor, text(x.note), prev, "")
  }

  ghost function Texts(h: string -> string, f: int -> string, text: Note -> string, x: Hash): set<string> {
    if x.NoHash? then {} else {HashedText(h, f, text, x)} + Texts(h, f, text, x.prev)
  }

  ghost function Notes(x: Hash): set<Note> {
    if x.NoHash? then {} else {x.note} + Notes(x.prev)
  }

  ghost predicate Plain(x: Hash) {
    x.HashOf? ==> '|' !in x.id && '|' !in x.action && '|' !in x.actor && Plain(x.prev)
  }

  ghost predicate Apart(text: Note -> string, notes: set<Note>) {
    forall m, n | m in notes && n in notes && text(m) == text(n) :: m == n
  }

  // With no collision, no separator and no two notes of the same text, equal hex hashes are equal
  // symbols: the whole past of a receipt is in its hash.
  lemma {:induction false} RenderedInjective(h: string -> string, f: int -> string, text: Note -> string, x: Hash, y: Hash,
                                             s: set<string>, notes: set<Note>)
    requires B.HexHash(h) && B.TimeText(f) && Plain(x) && Plain(y)
    requires Texts(h, f, text, x) <= s && Texts(h, f, text, y) <= s && B.CollisionFree(h, s)
    requires Notes(x) <= notes && Notes(y) <= notes && Apart(text, notes)
    requires Rendered(h, f, text, x) == Rendered(h, f, text, y)
    ensures x == y
    decreases x
  {
    hide B.Preimage, B.TimeText;
    if x.HashOf? && y.HashOf? {
      var p, q := Rendered(h, f, text, x.prev), Rendered(h, f, text, y.prev);
      assert HashedText(h, f, text, x) in s && HashedText(h, f, text, y) in s;
      PastPlain(h, f, text, x.prev);
      PastPlain(h, f, text, y.prev);
      B.PreimageInjective(f, x.id, Content(text, x, p), y.id, Content(text, y, q));
      assert x.note in notes && y.note in notes;
      RenderedInjective(h, f, text, x.prev, y.prev, s, notes);
    }
  }

  lemma PastPlain(h: string -> string, f: int -> string, text: Note -> string, x: Hash)
    requires B.HexHash(h)
    ensures '|' !in Rendered(h, f, text, x)
  {}

  // ----- the receipts of a kernel run, as text -----

  function Shown(h: string -> string, f: int -> string, text: Note -> string, r: Receipt): B.Receipt {
    B.Receipt(r.seqNo, r.at, r.action, r.actor, text(r.note), Rendered(h, f, text, r.prevHash), Rendered(h, f, text, r.hash))
  }

  function History(h: string -> string, f: int -> string, text: Note -> string, rs: seq<Receipt>): seq<B.Receipt> {
    seq(|rs|, i requires 0 <= i < |rs| => Shown(h, f, text, rs[i]))
  }

  // A chain of symbols is shown as a chain of hex hashes.
  lemma ShownVerified(h: string -> string, f: int -> string, text: Note -> string, id: string, rs: seq<Receipt>)
    requires ChainOk(id, rs)
    ensures B.Verified(h, f, id, History(h, f, text, rs))
  {
    hide B.Signed;
    var shown := History(h, f, text, rs);
    forall i | 0 <= i < |rs| ensures B.Link(h, f, id, shown, i) {
      var r := rs[i];
      assert r.hash == HashReceipt(id, r);
      assert shown[i] == Shown(h, f, text, r);
      assert i > 0 ==> rs[..i][i - 1] == rs[i - 1] && shown[i - 1] == Shown(h, f, text, rs[i - 1]);
      assert B.Preimage(f, id, shown[i]) == HashedText(h, f, text, r.hash);
    }
  }

  predicate Separated(a: State) {
    '|' !in a.id && '|' !in a.buyer && '|' !in a.seller
  }

  lemma ShownPlain(h: string -> string, f: int -> string, text: Note -> string, a: State)
    requires Separated(a) && forall j | 0 <= j < |a.receipts| :: Proper(a, a.receipts[j])
    ensures B.PlainHistory(a.id, History(h, f, text, a.receipts))
  {
    forall j | 0 <= j < |a.receipts| ensures '|' !in a.receipts[j].action && '|' !in a.receipts[j].actor {
      assert Proper(a, a.receipts[j]);
    }
  }

  // Every agreement a run reaches has a verified history, and when neither its identifier nor its
  // parties hold the separator, one that the hash text can be taken apart for.
  lemma RunShown(o: Oracle, states: seq<State>, partials: seq<seq<int>>, calls: seq<Call>, i: nat,
                 h: string -> string, f: int -> string, text: Note -> string)
    requires OpenedRun(o, states, partials, calls) && i <= |calls|
    ensures B.Verified(h, f, states[i].id, History(h, f, text, states[i].receipts))
    ensures Separated(states[i]) ==> B.PlainHistory(states[i].id, History(h, f, text, states[i].receipts))
  {
    RunInv(o, states, partials, calls, i);
    hide IsRun, ChainOk, Proper, Separated, History, B.Verified, B.PlainHistory;
    var a := states[i];
    ShownVerified(h, f, text, a.id, a.receipts);
    forall j | 0 <= j < |a.receipts| ensures Proper(a, a.receipts[j]) {
      RunProper(o, states, partials, calls, i, j);
    }
    if Separated(a) {
      ShownPlain(h, f, text, a);
    }
  }

  ghost function Written(rs: seq<Receipt>): set<Note> {
    set i | 0 <= i < |rs| :: rs[i].note
  }

  // Two chains of one agreement with the same contents are equal.
  lemma {:induction false} ChainFixed(id: string, rs: seq<Receipt>, qs: seq<Receipt>, n: nat)
    requires ChainOk(id, rs) && ChainOk(id, qs) && n <= |rs| == |qs|
    requires forall i | 0 <= i < |rs| :: rs[i].(prevHash := qs[i].prevHash, hash := qs[i].hash) == qs[i]
    ensures rs[..n] == qs[..n]
  {
    hide Tail;
    if n > 0 {
      ChainFixed(id, rs, qs, n - 1);
      assert rs[n - 1] == qs[n - 1];
      assert rs[..n] == rs[..n - 1] + [rs[n - 1]];
      assert qs[..n] == qs[..n - 1] + [qs[n - 1]];
    }
  }

  // Two agreements, each reached by any run, that show the same last hash are one agreement with one
  // history: nothing a kernel call recorded can differ.
  lemma TailBindsRuns(o: Oracle, states: seq<State>, partials: seq<seq<int>>, calls: seq<Call>, i: nat,
                      o': Oracle, states': seq<State>, partials': seq<seq<int>>, calls': seq<Call>, j: nat,
                      h: string -> string, f: int -> string, text: Note -> string)
    requires OpenedRun(o, states, partials, calls) && i <= |calls| && Separated(states[i])
    requires OpenedRun(o', states', partials', calls') && j <= |calls'| && Separated(states'[j])
    requires B.HexHash(h) && B.TimeText(f)
    requires Apart(text, Written(states[i].receipts) + Written(states'[j].receipts))
    requires B.CollisionFree(h, B.Hashed(f, states[i].id, History(h, f, text, states[i].receipts))
                              + B.Hashed(f, states'[j].id, History(h, f, text, states'[j].receipts)))
    requires Rendered(h, f, text, Tail(states[i].receipts)) == Rendered(h, f, text, Tail(states'[j].receipts))
    ensures states[i].id == states'[j].id && states[i].receipts == states'[j].receipts
  {
    var a, b := states[i], states'[j];
    RunInv(o, states, partials, calls, i);
    RunInv(o', states', partials', calls', j);
    RunShown(o, states, partials, calls, i, h, f, text);
    RunShown(o', states', partials', calls', j, h, f, text);
    SameShown(a, b, h, f, text);
  }

  lemma SameShown(a: State, b: State, h: string -> string, f: int -> string, text: Note -> string)
    requires ChainOk(a.id, a.receipts) && ChainOk(b.id, b.receipts) && a.receipts != [] && b.receipts != []
    requires B.HexHash(h) && B.TimeText(f)
    requires Apart(text, Written(a.receipts) + Written(b.receipts))
    requires
      var s, t := History(h, f, text, a.receipts), History(h, f, text, b.receipts);
      && B.Verified(h, f, a.id, s) && B.Verified(h, f, b.id, t) && B.PlainHistory(a.id, s) && B.PlainHistory(b.id, t)
      && B.CollisionFree(h, B.Hashed(f, a.id, s) + B.Hashed(f, b.id, t))
    requires Rendered(h, f, text, Tail(a.receipts)) == Rendered(h, f, text, Tail(b.receipts))
    ensures a.id == b.id && a.receipts == b.receipts
  {
    hide B.HexHash, B.TimeText, B.Verified, B.PlainHistory, B.CollisionFree, B.Hashed, ChainOk, Rendered;
    var rs, qs := a.receipts, b.receipts;
    var s, t := History(h, f, text, rs), History(h, f, text, qs);
    B.TailBindsHistory(h, f, a.id, s, b.id, t);
    ShownFixed(a.id, rs, qs, h, f, text);
  }

  // Chains of one agreement that are shown alike are equal.
  lemma ShownFixed(id: string, rs: seq<Receipt>, qs: seq<Receipt>, h: string -> string, f: int -> string, text: Note -> string)
    requires ChainOk(id, rs) && ChainOk(id, qs) && Apart(text, Written(rs) + Written(qs))
    requires History(h, f, text, rs) == History(h, f, text, qs)
    ensures rs == qs
  {
    hide ChainOk, Rendered;
    var s, t := History(h, f, text, rs), History(h, f, text, qs);
    assert |rs| == |s| == |t| == |qs|;
    forall k | 0 <= k < |rs| ensures rs[k].(prevHash := qs[k].prevHash, hash := qs[k].hash) == qs[k] {
      assert s[k] == Shown(h, f, text, rs[k]) && t[k] == Shown(h, f, text, qs[k]);
      assert rs[k].note in Written(rs) && qs[k].note in Written(qs);
    }
    ChainFixed(id, rs, qs, |rs|);
    assert rs[..|rs|] == rs && qs[..|qs|] == qs;
  }
}
