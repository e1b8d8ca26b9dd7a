// Batches of agreements that kernel runs have reached: each can be sealed, and the batch root binds
// their terms and their receipts (internal/l2/batch.go).
module BatchRuns {
  import opened Paillier
  import opened Kernel
  import opened KernelRuns
  import opened HashText
  import B = Binding
  import S = BatchSeal

  // An agreement at some point of some run.
  ghost predicate Reachable(a: State) {
    exists o: Oracle, states, partials, calls, i: nat :: OpenedRun(o, states, partials, calls) && i <= |calls| && states[i] == a
  }

  // How notes, the unit and amounts of money are written.
  datatype Texts = Texts(note: Note -> string, unitText: State -> string, money: real -> string)

  function AccountOf(t: S.Tools, w: Texts, a: State): S.Account {
    S.Account(
      S.Terms(a.id, a.kind, a.buyer, a.seller, a.amount, w.unitText(a), w.money(a.meter.costUSD), a.meter.effort,
              w.money(a.meter.budgetUSD), a.meter.maxSteps, a.createdAt, a.deadline),
      History(t.h, t.time, w.note, a.receipts))
  }

  function Batch(t: S.Tools, w: Texts, states: seq<State>): (r: seq<S.Account>)
    ensures |r| == |states|
  {
    seq(|states|, i requires 0 <= i < |states| => AccountOf(t, w, states[i]))
  }

  lemma ReachedIsSealable(t: S.Tools, w: Texts, a: State)
    requires Reachable(a)
    ensures ChainOk(a.id, a.receipts) && S.Sealable(t, AccountOf(t, w, a))
    ensures Separated(a) && S.ZeroFree(AccountOf(t, w, a).terms) ==> S.Decodable(AccountOf(t, w, a))
  {
    var o: Oracle, states, partials, calls, i: nat :| OpenedRun(o, states, partials, calls) && i <= |calls| && states[i] == a;
    RunInv(o, states, partials, calls, i);
    hide OpenedRun, Reachable, ChainOk, B.Verified, B.PlainHistory, S.ZeroFree, Separated;
    RunShown(o, states, partials, calls, i, t.h, t.time, w.note);
  }

  // So every batch of reachable agreements is accepted by the root.
  lemma ReachedBatch(t: S.Tools, w: Texts, states: seq<State>)
    requires forall a | a in states :: Reachable(a)
    ensures S.AllSealable(t, Batch(t, w, states))
    ensures (forall a | a in states :: Separated(a) && S.ZeroFree(AccountOf(t, w, a).terms))
      ==> S.AllDecodable(Batch(t, w, states))
  {
    hide Reachable, S.Sealable, S.Decodable, S.ZeroFree, Separated, AccountOf;
    forall a | a in states
      ensures S.Sealable(t, AccountOf(t, w, a))
      ensures Separated(a) && S.ZeroFree(AccountOf(t, w, a).terms) ==> S.Decodable(AccountOf(t, w, a))
    {
      ReachedIsSealable(t, w, a);
    }
    forall x | x in Batch(t, w, states) ensures exists a :: a in states && x == AccountOf(t, w, a) {
      var i :| 0 <= i < |states| && Batch(t, w, states)[i] == x;
      assert states[i] in states;
    }
  }

  ghost predicate Readable(t: S.Tools, w: Texts, states: seq<State>) {
    forall a | a in states :: Reachable(a) && Separated(a) && S.ZeroFree(AccountOf(t, w, a).terms)
  }

  // Two agreements of which root and chain see the same.
  ghost predicate SameFacts(a: State, b: State) {
    && a.id == b.id && a.kind == b.kind && a.buyer == b.buyer && a.seller == b.seller && a.amount == b.amount
    && a.meter.effort == b.meter.effort && a.meter.maxSteps == b.meter.maxSteps
    && a.createdAt == b.createdAt && a.deadline == b.deadline && a.receipts == b.receipts
  }

  lemma SameAccountSameFacts(t: S.Tools, w: Texts, a: State, b: State)
    requires Reachable(a) && Reachable(b) && AccountOf(t, w, a) == AccountOf(t, w, b)
    requires Apart(w.note, Written(a.receipts) + Written(b.receipts))
    ensures SameFacts(a, b)
  {
    hide Reachable, Written, Apart, ChainOk, S.Sealable;
    ReachedIsSealable(t, w, a);
    ReachedIsSealable(t, w, b);
    ShownFixed(a.id, a.receipts, b.receipts, t.h, t.time, w.note);
  }

  // Two batches of reachable agreements with one root hold the same agreements in the same order,
  // terms and receipts alike.
  lemma RootBindsRuns(t: S.Tools, w: Texts, states: seq<State>, others: seq<State>, cs: set<string>, ks: set<string>)
    requires S.Sound(t) && Readable(t, w, states) && Readable(t, w, others)
    requires forall a, b | a in states && b in others :: Apart(w.note, Written(a.receipts) + Written(b.receipts))
    requires S.Covered(t, Batch(t, w, states), cs, ks) && S.Covered(t, Batch(t, w, others), cs, ks)
    requires S.Body(t, Batch(t, w, states)) in ks && S.Body(t, Batch(t, w, others)) in ks
    requires B.CollisionFree(t.h, cs) && B.CollisionFree(t.k, ks)
    requires t.k(S.Body(t, Batch(t, w, states))) == t.k(S.Body(t, Batch(t, w, others)))
    ensures |states| == |others| && forall i | 0 <= i < |states| :: SameFacts(states[i], others[i])
  {
    hide Reachable, Separated, SameFacts, AccountOf, Apart, Written;
    hide S.Sound, S.ZeroFree, S.Covered, S.Body, S.AllSealable, S.AllDecodable, B.CollisionFree;
    ReachedBatch(t, w, states);
    ReachedBatch(t, w, others);
    var x, y := Batch(t, w, states), Batch(t, w, others);
    S.RootBindsAccounts(t, x, y, cs, ks);
    forall i | 0 <= i < |states| ensures SameFacts(states[i], others[i]) {
      assert x[i] == AccountOf(t, w, states[i]) && y[i] == AccountOf(t, w, others[i]);
      assert states[i] in states && others[i] in others;
      SameAccountSameFacts(t, w, states[i], others[i]);
    }
  }
}
