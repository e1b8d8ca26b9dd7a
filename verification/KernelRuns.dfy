// Runs of the kernel: what every sequence of calls keeps, when a sealed agreement settles,
// and why a terminal state is final (internal/nexum/agreement.go, internal/nexum/room.go).
module KernelRuns {
  import opened Wrappers
  import opened Paillier
  import opened Ledger
  import opened Kernel
  import opened Chronicle

  // One call to the kernel with its clock and its random draws.
  datatype Call =
    | DoLock(actor: Party, now: Time)
    | DoSeal(actor: Party, partial: int64, draws: seq<nat>, now: Time)
    | DoAccept(actor: Party, s: int, now: Time)
    | DoReject(actor: Party, now: Time)
    | DoTakeback(actor: Party, now: Time)
    | DoDeadline(actor: Party, deadline: Time, now: Time)
    | DoExpire(actor: Party, now: Time)
    | DoNote(actor: Party, action: string, citation: string, now: Time)
    | DoSettle(author: Party, actor: Party, citation: string, s: int, now: Time)
    | DoStartSealed(key: Option<Key>)

  // Keys come from key generation.
  ghost predicate CallOk(c: Call) {
    c.DoStartSealed? && c.key.Some? ==> Valid(c.key.value)
  }

  function Outcome(h: Oracle, a: State, c: Call): Result<State, KernelError>
    requires KeyUsable(a)
  {
    match c
    case DoLock(actor, now) => Lock(a, actor, now)
    case DoSeal(actor, partial, draws, now) => Kernel.Seal(a, actor, partial, draws, now)
    case DoAccept(actor, s, now) => Accept(h, a, actor, s, now)
    case DoReject(actor, now) => Reject(a, actor, now)
    case DoTakeback(actor, now) => Err(Takeback(a, actor))
    case DoDeadline(actor, deadline, now) => SetDeadline(a, actor, deadline, now)
    case DoExpire(actor, now) => Expire(a, actor, now)
    case DoNote(actor, action, citation, now) => AddNote(a, actor, action, citation, now)
    case DoSettle(author, actor, citation, s, now) => AcceptWithEvidence(h, a, author, actor, citation, s, now)
    case DoStartSealed(key) => StartSealed(a, key)
  }

  // A failing call leaves the agreement as it was.
  function Step(h: Oracle, a: State, c: Call): State
    requires KeyUsable(a)
  {
    match Outcome(h, a, c)
    case Ok(b) => b
    case Err(_) => a
  }

  // ---------- the invariant ----------

  predicate TerminalAction(action: string) {
    action == "accept" || action == "reject" || action == "expire"
  }

  // Only the last receipt may be terminal, and it is exactly in a terminal state.
  predicate TerminalReceipts(a: State) {
    && (forall i :: 0 <= i < |a.receipts| - 1 ==> !TerminalAction(a.receipts[i].action))
    && a.receipts != []
    && var last := a.receipts[|a.receipts| - 1].action;
       && (a.status == Accepted <==> last == "accept")
       && (a.status == Rejected <==> last == "reject")
       && (a.status == Expired <==> last == "expire")
  }

  // The status fixes the time stamps and the beneficiary.
  predicate StatusTable(a: State) {
    match a.status
    case Open => a.lockedAt.None? && a.closedAt.None? && a.releasedTo == "" && a.sealedLocks == []
    case Locked => a.lockedAt.Some? && a.closedAt.None? && a.releasedTo == ""
    case Accepted => a.lockedAt.Some? && a.closedAt.Some? && a.releasedTo == a.seller
    case Rejected => a.lockedAt.Some? && a.closedAt.Some? && a.releasedTo == a.buyer
    case Expired => a.closedAt.Some? && a.releasedTo == a.buyer
  }

  predicate TermsOk(a: State) {
    && a.buyer != "" && a.seller != "" && a.buyer != a.seller && a.amount > 0
    && a.steps == |a.receipts| && 1 <= a.steps <= a.meter.maxSteps
    && |a.sealedLocks| < a.steps
  }

  // The stored ciphertexts are the seals of the partials ms, one blinding factor each, and
  // the stored sum is their aggregate until an acceptance spends it.
  ghost predicate SealedState(a: State, ms: seq<int>) {
    match a.ledger
    case None => ms == [] && a.sealedLocks == [] && a.sealedSum == 0
    case Some((k, rs)) =>
      && Valid(k) && k.n > 1 && k.n2 > 1
      && Sealed(k, ms, rs, a.sealedLocks)
      && (a.sealedLocks == [] ==> a.sealedSum == 0)
      && (a.status == Accepted ==> a.sealedSum == 0)
      && (a.sealedLocks != [] && a.status != Accepted ==> AggregateOf(k, a.sealedLocks) == Ok(a.sealedSum))
  }

  ghost predicate Core(a: State, ms: seq<int>) {
    TermsOk(a) && ChainOk(a.id, a.receipts) && TerminalReceipts(a) && StatusTable(a) && SealedState(a, ms)
  }

  ghost predicate Inv(a: State, ms: seq<int>) {
    Core(a, ms) && Chronicled(a)
  }

  // The partial a call contributes, when it succeeds.
  function Contribution(h: Oracle, a: State, c: Call): seq<int>
    requires KeyUsable(a)
  {
    if c.DoSeal? && Outcome(h, a, c).Ok? then [c.partial] else []
  }

  // A verified chain: the receipts are numbered from one, each carries its own hash, and each but the
  // first the hash of the one before it.
  lemma ChainLinks(id: string, receipts: seq<Receipt>)
    ensures ChainOk(id, receipts) <==> forall i | 0 <= i < |receipts| ::
      && receipts[i].seqNo == i + 1 && receipts[i].hash == HashReceipt(id, receipts[i])
      && receipts[i].prevHash == if i > 0 then receipts[i - 1].hash else NoHash
  {
    hide HashReceipt;
    forall i | 0 <= i < |receipts| ensures Tail(receipts[..i]) == if i > 0 then receipts[i - 1].hash else NoHash {}
    hide Tail;
  }

  lemma ChainAppend(id: string, receipts: seq<Receipt>, r: Receipt)
    requires ChainOk(id, receipts)
    requires r.seqNo == |receipts| + 1 && r.prevHash == Tail(receipts) && r.hash == HashReceipt(id, r)
    ensures ChainOk(id, receipts + [r])
  {
    var after := receipts + [r];
    assert receipts[..|receipts|] == receipts;
    forall i | 0 <= i < |after|
      ensures after[i].seqNo == i + 1
      ensures after[i].prevHash == Tail(after[..i])
      ensures after[i].hash == HashReceipt(id, after[i])
    {
      assert after[..i] == receipts[..i];
    }
  }

  lemma AppendFacts(a: State, actor: Party, action: string, note: Note, now: Time)
    requires TermsOk(a) && ChainOk(a.id, a.receipts) && TerminalReceipts(a) && !Terminal(a.status)
    requires Append(a, actor, action, note, now).Ok?
    ensures
      var b := Append(a, actor, action, note, now).value;
      && b == a.(receipts := b.receipts, steps := a.steps + 1)
      && TermsOk(b) && ChainOk(b.id, b.receipts)
      && (forall i :: 0 <= i < |b.receipts| - 1 ==> !TerminalAction(b.receipts[i].action))
      && b.receipts != [] && b.receipts[|b.receipts| - 1].action == action
  {
    hide ChainOk;
    ChainAppend(a.id, a.receipts, Chained(a.id, a.receipts, actor, action, note, now));
  }

  lemma OpenInv(id: string, kind: string, buyer: Party, seller: Party, amount: int64, meter: Meter, now: Time, note: string)
    requires OpenWith(id, kind, buyer, seller, amount, meter, now, note).Ok?
    ensures Inv(OpenWith(id, kind, buyer, seller, amount, meter, now, note).value, [])
  {
    OpenChain(id, kind, buyer, seller, amount, meter, now, note);
    OpenParts(id, kind, buyer, seller, amount, meter, now, note);
    OpenChronicled(id, kind, buyer, seller, amount, meter, now, note);
    hide OpenWith, ChainOk, TermsOk, TerminalReceipts, StatusTable, SealedState, Chronicled;
  }

  lemma OpenChain(id: string, kind: string, buyer: Party, seller: Party, amount: int64, meter: Meter, now: Time, note: string)
    requires OpenWith(id, kind, buyer, seller, amount, meter, now, note).Ok?
    ensures
      var a := OpenWith(id, kind, buyer, seller, amount, meter, now, note).value;
      ChainOk(a.id, a.receipts)
  {
    assert ChainOk(id, []);
    hide ChainOk, HashReceipt;
    var a := OpenWith(id, kind, buyer, seller, amount, meter, now, note).value;
    ChainAppend(id, [], a.receipts[0]);
    assert a.receipts == [] + [a.receipts[0]];
  }

  lemma OpenParts(id: string, kind: string, buyer: Party, seller: Party, amount: int64, meter: Meter, now: Time, note: string)
    requires OpenWith(id, kind, buyer, seller, amount, meter, now, note).Ok?
    ensures
      var a := OpenWith(id, kind, buyer, seller, amount, meter, now, note).value;
      TermsOk(a) && TerminalReceipts(a) && StatusTable(a) && SealedState(a, [])
  {
    hide AggregateOf, Valid, HashReceipt, Tail;
  }

  lemma SealInv(a: State, ms: seq<int>, actor: Party, partial: int64, draws: seq<nat>, now: Time)
    requires Inv(a, ms) && KeyUsable(a) && Kernel.Seal(a, actor, partial, draws, now).Ok?
    ensures Inv(Kernel.Seal(a, actor, partial, draws, now).value, ms + [partial])
  {
    hide AggregateOf, SealOf, Append, ChainOk, Valid, Cipher, Unit, Chronicled;
    SealChronicled(a, actor, partial, draws, now);
    var (k, rs) := a.ledger.value;
    SealCorrect(k, partial, draws);
    var (ct, r) := SealOf(k, partial, draws).value;
    AppendFacts(a, actor, "seal", Ciphertext(ct), now);
    var ms', rs', locks' := ms + [partial], rs + [r], a.sealedLocks + [ct];
    assert Sealed(k, ms', rs', locks') by { SealedExtend(k, ms, rs, a.sealedLocks, partial, r, ct); }
  }

  lemma SealedExtend(k: Key, ms: seq<int>, rs: seq<nat>, locks: seq<nat>, m: int, r: nat, ct: nat)
    requires k.n > 0 && k.n2 > 0 && Sealed(k, ms, rs, locks) && 0 < m < TWO_63 && Unit(k, r) && ct == Cipher(k, m, r)
    ensures Sealed(k, ms + [m], rs + [r], locks + [ct])
  {
  }

  lemma CloseCore(a: State, ms: seq<int>, action: string, actor: Party, note: Note, now: Time, to: Party, status: Status)
    requires Core(a, ms) && !Terminal(a.status) && Close(a, action, actor, note, now, to, status).Ok?
    requires (action == "accept" && status == Accepted && to == a.seller && a.status == Locked)
          || (action == "reject" && status == Rejected && to == a.buyer && a.status == Locked)
          || (action == "expire" && status == Expired && to == a.buyer)
    ensures
      var b := Close(a, action, actor, note, now, to, status).value;
      b.sealedSum == a.sealedSum && Core(if status == Accepted then b.(sealedSum := 0) else b, ms)
  {
    hide AggregateOf, Append, ChainOk, Valid, Sealed;
    AppendFacts(a, actor, action, note, now);
  }

  lemma NoteInv(a: State, ms: seq<int>, actor: Party, action: string, citation: string, now: Time)
    requires Inv(a, ms) && AddNote(a, actor, action, citation, now).Ok?
    ensures Inv(AddNote(a, actor, action, citation, now).value, ms)
    ensures AddNote(a, actor, action, citation, now).value.ledger == a.ledger
  {
    hide AggregateOf, Append, ChainOk, Valid, Sealed, Chronicled;
    NoteChronicled(a, actor, action, citation, now);
    AppendFacts(a, actor, action, Text(citation), now);
  }

  lemma AcceptInv(h: Oracle, a: State, ms: seq<int>, actor: Party, s: int, now: Time)
    requires Inv(a, ms) && KeyUsable(a) && Accept(h, a, actor, s, now).Ok?
    ensures Inv(Accept(h, a, actor, s, now).value, ms)
  {
    hide AggregateOf, ProofOf, Accepts, Append, ChainOk, Valid, Sealed, Chronicled;
    AcceptChronicled(h, a, actor, s, now);
    match a.ledger
    case Some((k, rs)) =>
      var proof := ProofOf(h, k, rs, a.sealedSum, a.amount, s).value;
      CloseCore(a, ms, "accept", actor, SealedProof(a.amount, proof), now, a.seller, Accepted);
    case None =>
      CloseCore(a, ms, "accept", actor, Text("released to seller"), now, a.seller, Accepted);
      var b := Accept(h, a, actor, s, now).value;
      assert b.(sealedSum := 0) == b;
  }

  lemma LockInv(a: State, ms: seq<int>, actor: Party, now: Time)
    requires Inv(a, ms) && Lock(a, actor, now).Ok?
    ensures Inv(Lock(a, actor, now).value, ms) && Lock(a, actor, now).value.ledger == a.ledger
  {
    hide AggregateOf, Append, ChainOk, Valid, Sealed, Chronicled;
    LockChronicled(a, actor, now);
    AppendFacts(a, actor, "lock", Text("value locked"), now);
  }

  lemma DeadlineInv(a: State, ms: seq<int>, actor: Party, deadline: Time, now: Time)
    requires Inv(a, ms) && SetDeadline(a, actor, deadline, now).Ok?
    ensures Inv(SetDeadline(a, actor, deadline, now).value, ms)
  {
    hide AggregateOf, Append, ChainOk, Valid, Sealed, Chronicled;
    DeadlineChronicled(a, actor, deadline, now);
    AppendFacts(a, actor, "deadline", Instant(deadline), now);
  }

  lemma RejectInv(a: State, ms: seq<int>, actor: Party, now: Time)
    requires Inv(a, ms) && Reject(a, actor, now).Ok?
    ensures Inv(Reject(a, actor, now).value, ms)
  {
    hide AggregateOf, Append, ChainOk, Valid, Sealed, Chronicled;
    RejectChronicled(a, actor, now);
    var note := if a.ledger.Some? then "returned to buyer (sum stays sealed)" else "returned to buyer";
    CloseCore(a, ms, "reject", actor, Text(note), now, a.buyer, Rejected);
  }

  lemma ExpireInv(a: State, ms: seq<int>, actor: Party, now: Time)
    requires Inv(a, ms) && Expire(a, actor, now).Ok?
    ensures Inv(Expire(a, actor, now).value, ms)
  {
    hide AggregateOf, Append, ChainOk, Valid, Sealed, Chronicled;
    ExpireChronicled(a, actor, now);
    CloseCore(a, ms, "expire", actor, Text("deadline passed, value unlocked"), now, a.buyer, Expired);
  }

  lemma StartInv(a: State, ms: seq<int>, key: Option<Key>)
    requires Inv(a, ms) && StartSealed(a, key).Ok? && (key.Some? ==> Valid(key.value))
    ensures Inv(StartSealed(a, key).value, ms)
  {
    hide AggregateOf, ChainOk, Valid, Cipher, Chronicled;
    StartChronicled(a, key);
    KeySizes(key.value);
  }

  // Every call keeps the invariant; a successful seal adds its partial.
  lemma StepInv(h: Oracle, a: State, ms: seq<int>, c: Call)
    requires Inv(a, ms) && KeyUsable(a) && CallOk(c)
    ensures Inv(Step(h, a, c), ms + Contribution(h, a, c)) && KeyUsable(Step(h, a, c))
  {
    hide Inv, Lock, Kernel.Seal, Accept, Reject, SetDeadline, Expire, AddNote, StartSealed;
    assert ms + [] == ms;
    if Outcome(h, a, c).Ok? {
      match c
      case DoLock(actor, now) => LockInv(a, ms, actor, now);
      case DoSeal(actor, partial, draws, now) => SealInv(a, ms, actor, partial, draws, now);
      case DoAccept(actor, s, now) => AcceptInv(h, a, ms, actor, s, now);
      case DoReject(actor, now) => RejectInv(a, ms, actor, now);
      case DoTakeback(actor, now) =>
      case DoDeadline(actor, deadline, now) => DeadlineInv(a, ms, actor, deadline, now);
      case DoExpire(actor, now) => ExpireInv(a, ms, actor, now);
      case DoNote(actor, action, citation, now) => NoteInv(a, ms, actor, action, citation, now);
      case DoSettle(author, actor, citation, s, now) =>
        NoteInv(a, ms, author, "evidence", citation, now);
        AcceptInv(h, AddNote(a, author, "evidence", citation, now).value, ms, actor, s, now);
      case DoStartSealed(key) => StartInv(a, ms, key);
    }
    InvKeyUsable(Step(h, a, c), ms + Contribution(h, a, c));
  }

  lemma InvKeyUsable(a: State, ms: seq<int>)
    requires Inv(a, ms)
    ensures KeyUsable(a)
  {
  }

  // ---------- runs ----------

  // The states and partials a run of calls passes through.
  ghost predicate IsRun(h: Oracle, states: seq<State>, partials: seq<seq<int>>, calls: seq<Call>) {
    && |states| == |partials| == |calls| + 1
    && (forall i :: 0 <= i < |states| ==> KeyUsable(states[i]))
    && (forall i :: 0 <= i < |calls| ==>
          && CallOk(calls[i])
          && states[i + 1] == Step(h, states[i], calls[i])
          && partials[i + 1] == partials[i] + Contribution(h, states[i], calls[i]))
  }

  // A run that starts from a successful opening.
  ghost predicate OpenedRun(h: Oracle, states: seq<State>, partials: seq<seq<int>>, calls: seq<Call>) {
    && IsRun(h, states, partials, calls)
    && partials[0] == []
    && exists id, kind, buyer, seller, amount, meter, now, note ::
         OpenWith(id, kind, buyer, seller, amount, meter, now, note) == Ok(states[0])
  }

  lemma RunStart(h: Oracle, states: seq<State>, partials: seq<seq<int>>, calls: seq<Call>)
    requires OpenedRun(h, states, partials, calls)
    ensures Inv(states[0], partials[0])
  {
    hide Inv, OpenWith, Step, Contribution;
    var id, kind, buyer, seller, amount, meter, now, note :|
      OpenWith(id, kind, buyer, seller, amount, meter, now, note) == Ok(states[0]);
    OpenInv(id, kind, buyer, seller, amount, meter, now, note);
  }

  lemma RunGoes(h: Oracle, states: seq<State>, partials: seq<seq<int>>, calls: seq<Call>, i: nat)
    requires OpenedRun(h, states, partials, calls) && i < |calls|
    ensures |states| == |partials| == |calls| + 1 && KeyUsable(states[i]) && CallOk(calls[i])
    ensures states[i + 1] == Step(h, states[i], calls[i]) && partials[i + 1] == partials[i] + Contribution(h, states[i], calls[i])
  {
    hide Step, Contribution, OpenWith, CallOk;
  }

  lemma {:induction false} RunInv(h: Oracle, states: seq<State>, partials: seq<seq<int>>, calls: seq<Call>, i: nat)
    requires OpenedRun(h, states, partials, calls) && i <= |calls|
    ensures Inv(states[i], partials[i])
    decreases i
  {
    hide Inv, Step, Contribution, OpenedRun, CallOk;
    if i == 0 {
      RunStart(h, states, partials, calls);
    } else {
      RunGoes(h, states, partials, calls, i - 1);
      RunInv(h, states, partials, calls, i - 1);
      StepInv(h, states[i - 1], partials[i - 1], calls[i - 1]);
    }
  }

  // A terminal state accepts no further call.
  lemma TerminalIsFinal(h: Oracle, a: State, c: Call)
    requires KeyUsable(a) && Terminal(a.status)
    ensures Outcome(h, a, c).Err? && Step(h, a, c) == a
  {
  }

  // What every run keeps: the step meter is the receipt count and stays within its bound,
  // the chain verifies, at most one receipt is terminal and it is the last, and that
  // receipt decides who is paid.
  lemma RunSafety(h: Oracle, states: seq<State>, partials: seq<seq<int>>, calls: seq<Call>, i: nat, j: nat)
    requires OpenedRun(h, states, partials, calls) && i <= |calls| && j < |states[i].receipts|
    ensures states[i].steps == |states[i].receipts| <= states[i].meter.maxSteps
    ensures ChainOk(states[i].id, states[i].receipts)
    ensures TerminalAction(states[i].receipts[j].action) ==> j == |states[i].receipts| - 1
    ensures states[i].releasedTo == states[i].seller <==> states[i].receipts[|states[i].receipts| - 1].action == "accept"
    ensures states[i].releasedTo == states[i].buyer
            <==> states[i].receipts[|states[i].receipts| - 1].action in {"reject", "expire"}
  {
    RunInv(h, states, partials, calls, i);
  }

  predicate KernelAction(action: string) {
    action in {"open", "lock", "seal", "accept", "reject", "expire", "deadline", "evidence"}
  }

  // A receipt of a kernel action by one of the two parties.
  predicate Proper(a: State, r: Receipt) {
    (r.actor == a.buyer || r.actor == a.seller) && KernelAction(r.action)
  }

  // The later state of the same agreement: its receipts go on properly from the earlier ones.
  predicate Continues(a: State, b: State) {
    && b.id == a.id && b.buyer == a.buyer && b.seller == a.seller && a.receipts <= b.receipts
    && forall i | |a.receipts| <= i < |b.receipts| :: Proper(a, b.receipts[i])
  }

  lemma ContinuesOn(a: State, b: State, c: State)
    requires Continues(a, b) && Continues(b, c)
    ensures Continues(a, c)
  {
    hide KernelAction;
    forall i | |a.receipts| <= i < |c.receipts| ensures Proper(a, c.receipts[i]) {
      if i < |b.receipts| {
        assert c.receipts[i] == b.receipts[i];
      }
    }
  }

  lemma AppendContinues(a: State, actor: Party, action: string, now: Time)
    requires (actor == a.buyer || actor == a.seller) && KernelAction(action)
    ensures forall note ::
      Append(a, actor, action, note, now).Ok? ==> Continues(a, Append(a, actor, action, note, now).value)
  {
    hide KernelAction, OverBudget, HashReceipt;
  }

  lemma NoteContinues(a: State, actor: Party, action: string, citation: string, now: Time)
    requires AddNote(a, actor, action, citation, now).Ok?
    ensures Continues(a, AddNote(a, actor, action, citation, now).value)
  {
    hide Append, Continues;
    AppendContinues(a, actor, action, now);
  }

  lemma AcceptContinues(h: Oracle, a: State, actor: Party, s: int, now: Time)
    requires KeyUsable(a) && Accept(h, a, actor, s, now).Ok?
    ensures Continues(a, Accept(h, a, actor, s, now).value)
  {
    hide Append, ProofOf, Accepts;
    AppendContinues(a, actor, "accept", now);
  }

  lemma SealContinues(a: State, actor: Party, partial: int64, draws: seq<nat>, now: Time)
    requires KeyUsable(a) && Kernel.Seal(a, actor, partial, draws, now).Ok?
    ensures Continues(a, Kernel.Seal(a, actor, partial, draws, now).value)
  {
    hide Append, SealOf, AggregateOf;
    AppendContinues(a, actor, "seal", now);
  }

  lemma NoteKeepsKey(a: State, actor: Party, action: string, citation: string, now: Time)
    requires KeyUsable(a) && AddNote(a, actor, action, citation, now).Ok?
    ensures KeyUsable(AddNote(a, actor, action, citation, now).value)
  {
    hide OverBudget, HashReceipt;
  }

  lemma ContinuesSelf(a: State)
    ensures Continues(a, a)
  {
  }

  lemma LockContinues(a: State, actor: Party, now: Time)
    requires Lock(a, actor, now).Ok?
    ensures Continues(a, Lock(a, actor, now).value)
  {
    hide Append;
    AppendContinues(a, actor, "lock", now);
  }

  lemma RejectContinues(a: State, actor: Party, now: Time)
    requires Reject(a, actor, now).Ok?
    ensures Continues(a, Reject(a, actor, now).value)
  {
    hide Append;
    AppendContinues(a, actor, "reject", now);
  }

  lemma DeadlineContinues(a: State, actor: Party, deadline: Time, now: Time)
    requires SetDeadline(a, actor, deadline, now).Ok?
    ensures Continues(a, SetDeadline(a, actor, deadline, now).value)
  {
    hide Append;
    AppendContinues(a, actor, "deadline", now);
  }

  lemma ExpireContinues(a: State, actor: Party, now: Time)
    requires Expire(a, actor, now).Ok?
    ensures Continues(a, Expire(a, actor, now).value)
  {
    hide Append;
    AppendContinues(a, actor, "expire", now);
  }

  lemma SettleContinues(h: Oracle, a: State, author: Party, actor: Party, citation: string, s: int, now: Time)
    requires KeyUsable(a) && AcceptWithEvidence(h, a, author, actor, citation, s, now).Ok?
    ensures Continues(a, AcceptWithEvidence(h, a, author, actor, citation, s, now).value)
  {
    NoteKeepsKey(a, author, "evidence", citation, now);
    hide AddNote, Accept, Continues;
    NoteContinues(a, author, "evidence", citation, now);
    var b := AddNote(a, author, "evidence", citation, now).value;
    AcceptContinues(h, b, actor, s, now);
    ContinuesOn(a, b, Accept(h, b, actor, s, now).value);
  }

  lemma StartContinues(a: State, key: Option<Key>)
    requires StartSealed(a, key).Ok?
    ensures Continues(a, StartSealed(a, key).value)
  {
  }

  lemma StepContinues(h: Oracle, a: State, c: Call)
    requires KeyUsable(a)
    ensures Continues(a, Step(h, a, c))
  {
    hide Continues, Lock, Kernel.Seal, Accept, Reject, SetDeadline, Expire, AddNote, AcceptWithEvidence, StartSealed, Takeback;
    if Outcome(h, a, c).Ok? {
      match c
      case DoLock(actor, now) => LockContinues(a, actor, now);
      case DoSeal(actor, partial, draws, now) => SealContinues(a, actor, partial, draws, now);
      case DoAccept(actor, s, now) => AcceptContinues(h, a, actor, s, now);
      case DoReject(actor, now) => RejectContinues(a, actor, now);
      case DoTakeback(actor, now) =>
      case DoDeadline(actor, deadline, now) => DeadlineContinues(a, actor, deadline, now);
      case DoExpire(actor, now) => ExpireContinues(a, actor, now);
      case DoNote(actor, action, citation, now) => NoteContinues(a, actor, action, citation, now);
      case DoSettle(author, actor, citation, s, now) => SettleContinues(h, a, author, actor, citation, s, now);
      case DoStartSealed(key) => StartContinues(a, key);
    } else {
      ContinuesSelf(a);
    }
  }

  // Receipts are only ever appended, and each by a party and for an action of the kernel.
  lemma {:induction false} HistoryGrows(h: Oracle, states: seq<State>, partials: seq<seq<int>>, calls: seq<Call>, i: nat, j: nat)
    requires IsRun(h, states, partials, calls) && i <= j <= |calls|
    ensures Continues(states[i], states[j])
    decreases j
  {
    hide Step, Continues, Contribution, CallOk;
    if i < j {
      HistoryGrows(h, states, partials, calls, i, j - 1);
      StepContinues(h, states[j - 1], calls[j - 1]);
      ContinuesOn(states[i], states[j - 1], states[j]);
    } else {
      ContinuesSelf(states[i]);
    }
  }

  // So every receipt of a run is by one of the two parties and for an action of the kernel.
  lemma RunProper(h: Oracle, states: seq<State>, partials: seq<seq<int>>, calls: seq<Call>, i: nat, j: nat)
    requires OpenedRun(h, states, partials, calls) && i <= |calls| && j < |states[i].receipts|
    ensures Proper(states[i], states[i].receipts[j])
  {
    hide KernelAction, Append, Step, CallOk, Contribution, KeyUsable;
    HistoryGrows(h, states, partials, calls, 0, i);
    var id, kind, buyer, seller, amount, meter, now, note :|
      OpenWith(id, kind, buyer, seller, amount, meter, now, note) == Ok(states[0]);
    OpenProper(id, kind, buyer, seller, amount, meter, now, note);
    assert j < |states[0].receipts| ==> states[i].receipts[j] == states[0].receipts[j];
  }

  lemma OpenProper(id: string, kind: string, buyer: Party, seller: Party, amount: int64, meter: Meter, now: Time, note: string)
    requires OpenWith(id, kind, buyer, seller, amount, meter, now, note).Ok?
    ensures
      var a := OpenWith(id, kind, buyer, seller, amount, meter, now, note).value;
      forall j | 0 <= j < |a.receipts| :: Proper(a, a.receipts[j])
  {
  }

  // ---------- settlement of a sealed agreement ----------

  // After any run, the seller's acceptance of a locked, sealed agreement with room on the
  // meter succeeds exactly when the partials sealed along the run sum to the amount. It
  // holds for every hash, every key and every nonzero draw of the prover.
  lemma SealedAcceptIff(h: Oracle, states: seq<State>, partials: seq<seq<int>>, calls: seq<Call>, i: nat, s: int, now: Time)
    requires OpenedRun(h, states, partials, calls) && i <= |calls|
    requires states[i].status == Locked && states[i].sealedLocks != [] && HasRoom(states[i])
    requires states[i].ledger.Some? && 0 < s < states[i].ledger.value.0.n
    ensures Accept(h, states[i], states[i].seller, s, now).Ok? <==> Total(partials[i]) == states[i].amount
    ensures Total(partials[i]) != states[i].amount
      ==> Accept(h, states[i], states[i].seller, s, now) == Err(ErrSeal(ErrSumMismatch))
  {
    RunInv(h, states, partials, calls, i);
    var (k, rs) := states[i].ledger.value;
    ProofIff(h, k, partials[i], rs, states[i].sealedLocks, states[i].amount, s);
  }

  // The one-step settlement: with evidence from either party and two free steps it
  // succeeds exactly when the partials sum to the amount.
  lemma SealedSettleIff(h: Oracle, states: seq<State>, partials: seq<seq<int>>, calls: seq<Call>, i: nat,
                        author: Party, citation: string, s: int, now: Time)
    requires OpenedRun(h, states, partials, calls) && i <= |calls|
    requires states[i].status == Locked && states[i].sealedLocks != [] && HasRoom(states[i])
    requires states[i].ledger.Some? && 0 < s < states[i].ledger.value.0.n
    requires author in {states[i].buyer, states[i].seller} && citation != ""
    ensures AcceptWithEvidence(h, states[i], author, states[i].seller, citation, s, now).Ok?
      <==> Total(partials[i]) == states[i].amount && states[i].steps + 1 < states[i].meter.maxSteps
  {
    RunInv(h, states, partials, calls, i);
    var a := states[i];
    var (k, rs) := a.ledger.value;
    ProofIff(h, k, partials[i], rs, a.sealedLocks, a.amount, s);
    var b := AddNote(a, author, "evidence", citation, now).value;
    assert b.ledger == a.ledger && b.sealedSum == a.sealedSum && b.sealedLocks == a.sealedLocks;
  }

  // Accepting by public proof and releasing by decryption agree.
  lemma AcceptAgreesWithRelease(h: Oracle, states: seq<State>, partials: seq<seq<int>>, calls: seq<Call>, i: nat, s: int, now: Time)
    requires OpenedRun(h, states, partials, calls) && i <= |calls|
    requires states[i].status == Locked && states[i].sealedLocks != [] && HasRoom(states[i])
    requires states[i].ledger.Some? && 0 < s < states[i].ledger.value.0.n
    ensures Accept(h, states[i], states[i].seller, s, now).Ok?
      <==> ReleaseOf(states[i].ledger.value.0, states[i].sealedSum, states[i].amount) == Ok(states[i].amount)
  {
    RunInv(h, states, partials, calls, i);
    var a := states[i];
    var (k, rs) := a.ledger.value;
    SealedAcceptIff(h, states, partials, calls, i, s, now);
    KeySizes(k);
    PositiveTotal(partials[i], 0);
    ReleaseIff(k, partials[i], rs, a.sealedLocks, a.amount);
  }
}
