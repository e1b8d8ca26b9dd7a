// Who can move an agreement, when, and to whom its value goes: the exact condition of every call, and
// what the receipts of any run say about it (internal/nexum/agreement.go, internal/nexum/room.go).
module Custody {
  import opened Wrappers
  import opened Paillier
  import opened Ledger
  import opened Kernel
  import opened Chronicle
  import opened KernelRuns

  // ----- opening -----

  // An opening fails exactly for a missing party, one party in both roles, an amount that is not
  // positive, or costs beyond the budget, in this order.
  lemma OpensIff(id: string, kind: string, buyer: Party, seller: Party, amount: int64, meter: Meter, now: Time, note: string)
    ensures
      var r := OpenWith(id, kind, buyer, seller, amount, meter, now, note);
      if buyer == "" || seller == "" then r == Err(ErrMissingParty)
      else if buyer == seller then r == Err(ErrSameParty)
      else if amount <= 0 then r == Err(ErrZeroAmount)
      else if 0.0 < meter.budgetUSD < meter.costUSD then r == Err(ErrBudget)
      else r.Ok?
    ensures OpenAgreement(id, kind, buyer, seller, amount, meter, now)
      == if kind == "" then Err(ErrKind) else OpenWith(id, kind, buyer, seller, amount, meter, now, "agreement opened")
  {
  }

  // It begins open and unlocked, with the buyer's receipt, and with eight steps and a cheap effort
  // unless the meter says otherwise.
  lemma OpenedIs(id: string, kind: string, buyer: Party, seller: Party, amount: int64, meter: Meter, now: Time, note: string)
    requires OpenWith(id, kind, buyer, seller, amount, meter, now, note).Ok?
    ensures
      var a := OpenWith(id, kind, buyer, seller, amount, meter, now, note).value;
      && a.id == id && a.kind == kind && a.buyer == buyer && a.seller == seller && a.amount == amount && a.createdAt == now
      && a.meter.costUSD == meter.costUSD && a.meter.budgetUSD == meter.budgetUSD
      && (if meter.maxSteps > 0 then a.meter.maxSteps == meter.maxSteps else a.meter.maxSteps == 8)
      && (if meter.effort != "" then a.meter.effort == meter.effort else a.meter.effort == "flash")
      && StoryOf(a) == BEGINNING && a.ledger.None? && a.sealedSum == 0 && a.steps == 1
      && |a.receipts| == 1 && a.receipts[0].action == "open" && a.receipts[0].actor == buyer && a.receipts[0].note == Text(note)
  {
  }

  // ----- the exact condition of every call -----

  predicate IsParty(a: State, p: Party) {
    p in {a.buyer, a.seller}
  }

  // One more receipt fits the step bound and the budget, if there is one.
  predicate Room(a: State) {
    a.steps < a.meter.maxSteps && !(0.0 < a.meter.budgetUSD < a.meter.costUSD)
  }

  // Locked value that the seller may take: sealed partials must sum to the amount.
  ghost predicate Payable(a: State, ms: seq<int>, s: int) {
    a.status == Locked && (a.ledger.Some? ==> ms != [] && 0 < s < a.ledger.value.0.n && Total(ms) == a.amount)
  }

  ghost predicate Permitted(a: State, ms: seq<int>, c: Call) {
    match c
    case DoLock(actor, now) => actor == a.buyer && a.status == Open && Room(a)
    case DoSeal(actor, partial, draws, now) =>
      && actor == a.buyer && Running(a.status) && Room(a) && partial > 0
      && a.ledger.Some? && a.ledger.value.0.n > 0 && exists r :: r in draws && Unit(a.ledger.value.0, r)
    case DoAccept(actor, s, now) => actor == a.seller && Payable(a, ms, s) && Room(a)
    case DoReject(actor, now) => actor == a.seller && a.status == Locked && Room(a)
    case DoTakeback(actor, now) => false
    case DoDeadline(actor, deadline, now) => IsParty(a, actor) && Running(a.status) && now < deadline && Room(a)
    case DoExpire(actor, now) => IsParty(a, actor) && Running(a.status) && a.deadline != 0 && a.deadline <= now && Room(a)
    case DoNote(actor, action, citation, now) =>
      IsParty(a, actor) && Running(a.status) && action == "evidence" && citation != "" && Room(a)
    case DoSettle(author, actor, citation, s, now) =>
      IsParty(a, author) && citation != "" && actor == a.seller && Payable(a, ms, s) && Room(a) && a.steps + 1 < a.meter.maxSteps
    case DoStartSealed(key) => a.status == Open && key.Some?
  }

  lemma AcceptIff(h: Oracle, a: State, ms: seq<int>, actor: Party, s: int, now: Time)
    requires Inv(a, ms) && KeyUsable(a)
    ensures Accept(h, a, actor, s, now).Ok? <==> actor == a.seller && Payable(a, ms, s) && Room(a)
  {
    hide ChainOk, Chronicled, Valid, Cipher, Unit, AggregateOf, Accepts;
    match a.ledger
    case None =>
    case Some((k, rs)) =>
      if a.status == Locked && ms != [] {
        if 0 < s < k.n {
          hide ProofOf;
          ProofIff(h, k, ms, rs, a.sealedLocks, a.amount, s);
        } else {
          AggregateIsCipher(k, ms, rs, a.sealedLocks);
        }
      }
  }

  // A partial is sealed exactly when it is positive and some draw is a unit, and then it can be added.
  lemma SealAdds(a: State, ms: seq<int>, partial: int64, draws: seq<nat>)
    requires Inv(a, ms) && a.ledger.Some? && KeyUsable(a)
    ensures
      var k := a.ledger.value.0;
      && k.n > 0 && k.n2 > 0
      && (SealOf(k, partial, draws).Ok? <==> partial > 0 && exists r :: r in draws && Unit(k, r))
      && (SealOf(k, partial, draws).Ok? ==> AggregateOf(k, a.sealedLocks + [SealOf(k, partial, draws).value.0]).Ok?)
      && (SealOf(k, partial, draws).Err? ==> SealOf(k, partial, draws).error == ErrBadLock)
  {
    hide TermsOk, ChainOk, Chronicled, TerminalReceipts, StatusTable, Valid, Cipher, SealOf, AggregateOf, Unit;
    var (k, rs) := a.ledger.value;
    SealCorrect(k, partial, draws);
    if SealOf(k, partial, draws).Ok? {
      var (ct, r) := SealOf(k, partial, draws).value;
      SealedExtend(k, ms, rs, a.sealedLocks, partial, r, ct);
      AggregateIsCipher(k, ms + [partial], rs + [r], a.sealedLocks + [ct]);
    }
  }

  lemma SealIff(a: State, ms: seq<int>, actor: Party, partial: int64, draws: seq<nat>, now: Time)
    requires Inv(a, ms) && KeyUsable(a)
    ensures Kernel.Seal(a, actor, partial, draws, now).Ok? <==>
      && actor == a.buyer && Running(a.status) && Room(a) && partial > 0
      && a.ledger.Some? && a.ledger.value.0.n > 0 && exists r :: r in draws && Unit(a.ledger.value.0, r)
  {
    hide Inv, Chained, SealOf, AggregateOf, Unit;
    if a.ledger.Some? { SealAdds(a, ms, partial, draws); }
  }

  lemma SettleIff(h: Oracle, a: State, ms: seq<int>, author: Party, actor: Party, citation: string, s: int, now: Time)
    requires Inv(a, ms) && KeyUsable(a)
    ensures AcceptWithEvidence(h, a, author, actor, citation, s, now).Ok? <==>
      IsParty(a, author) && citation != "" && actor == a.seller && Payable(a, ms, s) && Room(a) && a.steps + 1 < a.meter.maxSteps
  {
    hide Inv, Accept;
    var note := AddNote(a, author, "evidence", citation, now);
    if note.Ok? {
      NoteInv(a, ms, author, "evidence", citation, now);
      InvKeyUsable(note.value, ms);
      AcceptIff(h, note.value, ms, actor, s, now);
    }
  }

  // A call succeeds exactly when it is permitted, in every state that the kernel can be in.
  lemma PermittedIff(h: Oracle, a: State, ms: seq<int>, c: Call)
    requires Inv(a, ms) && KeyUsable(a)
    ensures Outcome(h, a, c).Ok? <==> Permitted(a, ms, c)
  {
    hide Inv, Accept, Kernel.Seal, AcceptWithEvidence, Payable, Unit;
    match c
    case DoSeal(actor, partial, draws, now) => SealIff(a, ms, actor, partial, draws, now);
    case DoAccept(actor, s, now) => AcceptIff(h, a, ms, actor, s, now);
    case DoSettle(author, actor, citation, s, now) => SettleIff(h, a, ms, author, actor, citation, s, now);
    case _ =>
  }

  // ----- an error tells the truth -----

  // Whose call it is.
  predicate Entitled(a: State, c: Call) {
    match c
    case DoLock(actor, _) => actor == a.buyer
    case DoSeal(actor, _, _, _) => actor == a.buyer
    case DoAccept(actor, _, _) => actor == a.seller
    case DoReject(actor, _) => actor == a.seller
    case DoDeadline(actor, _, _) => IsParty(a, actor)
    case DoExpire(actor, _) => IsParty(a, actor)
    case DoNote(actor, _, _, _) => IsParty(a, actor)
    case DoSettle(author, actor, _, _, _) => IsParty(a, author) && actor == a.seller
    case _ => true
  }

  // The fault that an error names.
  ghost predicate Faulty(a: State, ms: seq<int>, c: Call, e: KernelError) {
    match e
    case ErrWrongParty => !Entitled(a, c)
    case ErrTakeback => Terminal(a.status) || (c.DoTakeback? && a.status == Locked && c.actor == a.buyer)
    case ErrBadState =>
      if c.DoStartSealed? then a.status != Open
      else if c.DoLock? then a.status == Locked
      else if c.DoTakeback? then Running(a.status) && (a.status == Open || c.actor != a.buyer)
      else a.status == Open || (a.status == Locked && a.ledger.Some? && ms == [])
    case ErrNotYet => if c.DoDeadline? then c.deadline <= c.now else c.DoExpire? && c.now < a.deadline
    case ErrNoDeadline => c.DoExpire? && a.deadline == 0
    case ErrEmptyCitation => (c.DoNote? || c.DoSettle?) && c.citation == ""
    case ErrNoteAction => c.DoNote? && c.action != "evidence"
    case ErrNoSeal => c.DoSeal? && a.ledger.None?
    case ErrKey(_) => c.DoStartSealed? && c.key.None?
    case ErrDoS => a.steps + (if c.DoSettle? then 1 else 0) >= a.meter.maxSteps
    case ErrBudget => 0.0 < a.meter.budgetUSD < a.meter.costUSD
    case ErrSeal(ErrSumMismatch) => (c.DoAccept? || c.DoSettle?) && Total(ms) != a.amount
    case ErrSeal(ErrBadLock) =>
      && c.DoSeal?
      && (c.partial <= 0 || forall r | r in c.draws :: a.ledger.Some? && a.ledger.value.0.n > 0 && !Unit(a.ledger.value.0, r))
    case ErrSeal(ErrHe(_)) => (c.DoAccept? || c.DoSettle?) && a.ledger.Some? && !(0 < c.s < a.ledger.value.0.n)
    case _ => false
  }

  lemma AcceptFault(h: Oracle, a: State, ms: seq<int>, c: Call, actor: Party, s: int, now: Time)
    requires Inv(a, ms) && KeyUsable(a) && c == DoAccept(actor, s, now) && Accept(h, a, actor, s, now).Err?
    ensures Faulty(a, ms, c, Accept(h, a, actor, s, now).error)
  {
    hide ChainOk, Chronicled, Valid, Cipher, Unit, AggregateOf, Accepts;
    match a.ledger
    case None =>
    case Some((k, rs)) =>
      if a.status == Locked && ms != [] {
        if 0 < s < k.n {
          hide ProofOf;
          ProofIff(h, k, ms, rs, a.sealedLocks, a.amount, s);
        } else {
          AggregateIsCipher(k, ms, rs, a.sealedLocks);
        }
      }
  }

  lemma SealFault(h: Oracle, a: State, ms: seq<int>, c: Call)
    requires Inv(a, ms) && KeyUsable(a) && c.DoSeal? && Outcome(h, a, c).Err?
    ensures Faulty(a, ms, c, Outcome(h, a, c).error)
  {
    hide Inv, Chained, SealOf, AggregateOf, Unit;
    if a.ledger.Some? { SealAdds(a, ms, c.partial, c.draws); }
  }

  lemma SettleFault(h: Oracle, a: State, ms: seq<int>, c: Call)
    requires Inv(a, ms) && KeyUsable(a) && c.DoSettle? && Outcome(h, a, c).Err?
    ensures Faulty(a, ms, c, Outcome(h, a, c).error)
  {
    hide Inv, Accept;
    var note := AddNote(a, c.author, "evidence", c.citation, c.now);
    if note.Ok? {
      NoteInv(a, ms, c.author, "evidence", c.citation, c.now);
      InvKeyUsable(note.value, ms);
      AcceptFault(h, note.value, ms, DoAccept(c.actor, c.s, c.now), c.actor, c.s, c.now);
    }
  }

  // Whatever a call is refused with, that fault is there.
  lemma RefusalTells(h: Oracle, a: State, ms: seq<int>, c: Call)
    requires Inv(a, ms) && KeyUsable(a) && Outcome(h, a, c).Err?
    ensures Faulty(a, ms, c, Outcome(h, a, c).error)
  {
    hide ChainOk, Chronicled, SealedState, Accept, Kernel.Seal, AcceptWithEvidence, Unit;
    match c
    case DoSeal(_, _, _, _) => SealFault(h, a, ms, c);
    case DoAccept(actor, s, now) => AcceptFault(h, a, ms, c, actor, s, now);
    case DoSettle(_, _, _, _, _) => SettleFault(h, a, ms, c);
    case _ =>
  }

  // ----- what runs say -----

  // The receipts of a run tell its state, and each of them was allowed by those before it.
  lemma RunTold(h: Oracle, states: seq<State>, partials: seq<seq<int>>, calls: seq<Call>, i: nat)
    requires OpenedRun(h, states, partials, calls) && i <= |calls|
    ensures Lawful(states[i].buyer, states[i].seller, states[i].receipts)
    ensures StoryOf(states[i]) == Tell(states[i].buyer, states[i].seller, states[i].receipts)
    ensures states[i].receipts[0].at == states[i].createdAt
  {
    RunInv(h, states, partials, calls, i);
  }

  // Value that was locked goes to the seller only by the seller's acceptance, and back to the buyer
  // only by the seller's rejection or, by either party, at or after the deadline.
  lemma LockedValueGoes(h: Oracle, a: State, ms: seq<int>, c: Call)
    requires Inv(a, ms) && KeyUsable(a) && a.status == Locked
    ensures Step(h, a, c).releasedTo == a.seller ==> (c.DoAccept? || c.DoSettle?) && c.actor == a.seller
    ensures Step(h, a, c).releasedTo == a.buyer ==>
      || (c.DoReject? && c.actor == a.seller)
      || (c.DoExpire? && IsParty(a, c.actor) && a.deadline != 0 && a.deadline <= c.now)
  {
    hide ChainOk, Chronicled, AggregateOf, ProofOf, Accepts, SealOf, Valid, Sealed;
  }

  // And from the deadline on either party can have it back while there is room for the receipt.
  lemma DeadlineReleases(h: Oracle, a: State, ms: seq<int>, actor: Party, now: Time)
    requires Inv(a, ms) && KeyUsable(a) && Running(a.status) && IsParty(a, actor) && Room(a)
    requires a.deadline != 0 && a.deadline <= now
    ensures Step(h, a, DoExpire(actor, now)).status == Expired && Step(h, a, DoExpire(actor, now)).releasedTo == a.buyer
  {
    hide Inv;
  }

  // The last receipt n of an agreement that has ended, after the story told by those before it.
  predicate Ending(a: State, n: int, s: Story)
    requires 0 <= n < |a.receipts|
  {
    && a.closedAt == Some(a.receipts[n].at)
    && match a.status
       case Accepted => a.receipts[n].actor == a.seller && s.status == Locked && a.releasedTo == a.seller
       case Rejected => a.receipts[n].actor == a.seller && s.status == Locked && a.releasedTo == a.buyer
       case Expired =>
         && IsParty(a, a.receipts[n].actor) && Running(s.status) && a.releasedTo == a.buyer
         && a.deadline == s.deadline && s.deadline != 0 && s.deadline <= a.receipts[n].at
       case _ => false
  }

  lemma LastWord(a: State)
    requires Chronicled(a) && Terminal(a.status)
    ensures |a.receipts| > 1 && Ending(a, |a.receipts| - 1, Tell(a.buyer, a.seller, a.receipts[..|a.receipts| - 1]))
  {
    var n := |a.receipts| - 1;
    assert a.receipts[..0] == [];
    hide Tell;
    var s := Tell(a.buyer, a.seller, a.receipts[..n]);
    assert n > 0 ==> Allowed(a.buyer, a.seller, s, a.receipts[n]);
    LastTold(a);
  }

  lemma LastTold(a: State)
    requires Chronicled(a)
    ensures
      var n := |a.receipts| - 1;
      StoryOf(a) == Next(a.buyer, a.seller, Tell(a.buyer, a.seller, a.receipts[..n]), a.receipts[n])
  {
    hide Next, Allowed;
  }

  // How every run that has ended did end: by whom, when, and who was paid.
  lemma RunEnding(h: Oracle, states: seq<State>, partials: seq<seq<int>>, calls: seq<Call>, i: nat)
    requires OpenedRun(h, states, partials, calls) && i <= |calls| && Terminal(states[i].status)
    ensures
      var a := states[i];
      |a.receipts| > 1 && Ending(a, |a.receipts| - 1, Tell(a.buyer, a.seller, a.receipts[..|a.receipts| - 1]))
  {
    RunInv(h, states, partials, calls, i);
    hide OpenedRun, IsRun, Core, Chronicled, Ending, Tell;
    LastWord(states[i]);
  }
}
