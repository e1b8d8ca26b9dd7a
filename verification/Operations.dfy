// Applying a signed operation to a stored contract (nex/store.go: Create, Apply). Every
// record these functions write is one that restore accepts, with the same status, consent
// and head; an operation that committed is answered from the index ever after.
module Operations {
  import opened Wrappers
  import opened NumberTheory
  import opened Paillier
  import opened Ledger
  import opened Kernel
  import opened KernelRuns
  import opened Checkpoint
  import opened Contracts
  import opened Store

  // One call to Apply, with its clock and its random draws.
  datatype Request = Request(op: Operation, signature: Signature, now: Time, draws: seq<nat>, s: int)

  datatype Decision = Refuse(e: StoreError) | Retry(result: OpResult) | Commit(record: Record, result: OpResult)

  // What Apply does with the record it read and the contract it restored from it.
  function Decide(cr: Crypto, h: Oracle, r: Record, c: ContractState, id: string, q: Request): Decision
    requires KeyUsable(c.agreement)
  {
    if !ValidOperationId(q.op.id) then Refuse(ErrBadOperation)
    else if !OperationSized(q.op) then Refuse(ErrBadOperation)
    else if q.op.command.terms != id then Refuse(ErrForeign)
    else if !cr.verifyOperation(Signer(c, q.op.command.action), q.op, q.signature) then Refuse(ErrSignature)
    else if q.op.id in r.operations then
      if r.operations[q.op.id].operation != q.op then Refuse(ErrOperationConflict)
      else Retry(r.operations[q.op.id].result)
    else
      match ApplyVerified(cr, h, c, q.op.command, q.signature, q.now, q.draws, q.s)
      case Err(e) => Refuse(ErrCommand(e))
      case Ok(next) =>
        var result := OpResult(id, q.op.id, Head(next), next.agreement.status);
        Commit(r.(agreed := next.agreed, checkpoint := Take(next.agreement),
                  operations := r.operations[q.op.id := Committed(q.op, q.signature, result)]), result)
  }

  // What Create writes for a contract that has not been used yet.
  ghost function CreateRecord(cr: Crypto, c: ContractState): Result<Record, StoreError> {
    if c.agreement.status != Open || c.agreed || |c.agreement.receipts| != 2 || c.agreement.ledger.None? then Err(ErrNotNew)
    else if !ValidContractId(c.terms) then Err(ErrInvalidId)
    else if RestoredContract(cr, FirstRecord(c), c.terms).None? then Err(ErrCorruptStore)
    else Ok(FirstRecord(c))
  }

  function FirstRecord(c: ContractState): Record {
    Record(1, c.definition, c.buyer, c.seller, false, Take(c.agreement), map[])
  }

  // ---------- records the store writes ----------

  function StoredState(r: Record): State
    requires r.checkpoint.agreement.Some?
  {
    r.checkpoint.agreement.value
  }

  // How far the command machine has come, told by the receipts and the partials sealed.
  ghost predicate Stage(a: State, agreed: bool, ms: seq<int>) {
    && a.meter == METER.(effort := "flash")
    && |a.receipts| <= 6
    && (a.status == Open ==> !agreed && ms == [] && |a.receipts| == 2)
    && (a.status == Locked ==> ms == [a.amount] && |a.receipts| == if agreed then 4 else 3)
  }

  // Every receipt after the opening pair was written between creation and deadline, an expiry at or
  // after the deadline.
  predicate Timely(a: State) {
    forall i | 2 <= i < |a.receipts| :: OnTime(a, a.receipts[i])
  }

  predicate OnTime(a: State, r: Receipt) {
    if r.action == "expire" then a.deadline <= r.at else a.createdAt <= r.at < a.deadline
  }

  // The record is the checkpoint of a reachable kernel state, and the operations in order
  // account for its receipts.
  ghost predicate Good(cr: Crypto, r: Record, id: string, ms: seq<int>, order: seq<string>) {
    && r.checkpoint.agreement.Some?
    && var a := StoredState(r);
       && r.checkpoint == Take(a)
       && Inv(a, ms) && Storable(a) && Stage(a, r.agreed, ms) && Timely(a)
       && HeaderOk(cr, r, id) && TermsMatch(r, id, a) && Preamble(a)
       && Indexed(cr, r, id, a, order)
  }

  ghost predicate Indexed(cr: Crypto, r: Record, id: string, a: State, order: seq<string>) {
    && (forall k :: k in r.operations ==> EntryOk(cr, ContractOf(r, id, a), id, k, r.operations[k]))
    && HeadsDistinct(r.operations)
    && |order| == |r.operations|
    && (forall k :: k in r.operations ==> k in order)
    && |a.receipts| >= 2
    && Accounts(cr, a, r.operations, order, 2, |a.receipts|, Open, false, a.status, r.agreed)
  }

  ghost predicate GoodRecord(cr: Crypto, r: Record, id: string) {
    exists ms, order :: Good(cr, r, id, ms, order)
  }

  // The contract restore rebuilds is the one that was stored.
  lemma GoodRestores(cr: Crypto, r: Record, id: string)
    requires GoodRecord(cr, r, id)
    ensures r.checkpoint.agreement.Some? && KeyUsable(StoredState(r))
    ensures RestoredContract(cr, r, id) == Some(ContractOf(r, id, StoredState(r)))
  {
    hide Inv, HeaderOk, EntryOk, HeadsDistinct, Accounts, Stage, Take, Checkpoint.Restore, Storable, RestoredContract;
    var ms, order :| Good(cr, r, id, ms, order);
    var a := StoredState(r);
    RoundTrip(a, ms);
    InvKeyUsable(a, ms);
    RestoreAcceptsAccounts(cr, r, id, a, order);
  }

  // ---------- one command ----------

  // What a successful command does to the agreement, seen by the replay.
  ghost predicate Advances(cr: Crypto, c: ContractState, d: ContractState, entry: Committed, ms: seq<int>, ms': seq<int>) {
    var a, b := c.agreement, d.agreement;
    && Inv(b, ms') && Stage(b, d.agreed, ms')
    && a.receipts <= b.receipts && |a.receipts| < |b.receipts|
    && b.id == a.id && b.kind == a.kind && b.buyer == a.buyer && b.seller == a.seller && b.amount == a.amount
    && b.createdAt == a.createdAt && b.deadline == a.deadline && b.meter == a.meter
    && a.ledger.Some? && b.ledger.Some? && b.ledger.value.0 == a.ledger.value.0
    && d == c.(agreement := b, agreed := d.agreed)
    && SegmentAt(cr, b, entry, |a.receipts|, a.status, c.agreed)
       == Some(Segment(|b.receipts| - |a.receipts|, b.status, d.agreed))
  }

  ghost predicate Ready(c: ContractState, ms: seq<int>) {
    Inv(c.agreement, ms) && Stage(c.agreement, c.agreed, ms) && c.agreement.ledger.Some? && KeyUsable(c.agreement)
  }

  lemma LockAdvances(cr: Crypto, h: Oracle, c: ContractState, cmd: Command, entry: Committed, sig: Signature,
                     now: Time, draws: seq<nat>, s: int, ms: seq<int>)
    requires Ready(c, ms) && cmd.action == "lock" && entry.operation.command == cmd
    requires ApplyVerified(cr, h, c, cmd, sig, now, draws, s).Ok?
    ensures Advances(cr, c, ApplyVerified(cr, h, c, cmd, sig, now, draws, s).value, entry, ms, [c.agreement.amount])
  {
    hide AggregateOf, SealOf, Inv;
    var a := c.agreement;
    SealInv(a, ms, a.buyer, a.amount, draws, now);
    assert ms + [a.amount] == [a.amount];
    assert |a.receipts| == a.steps by { InvMeter(a, ms); }
  }

  lemma InvMeter(a: State, ms: seq<int>)
    requires Inv(a, ms)
    ensures a.steps == |a.receipts| && |a.sealedLocks| == |ms|
  {
  }

  lemma AgreeAdvances(cr: Crypto, h: Oracle, c: ContractState, cmd: Command, entry: Committed, sig: Signature,
                      now: Time, draws: seq<nat>, s: int, ms: seq<int>)
    requires Ready(c, ms) && cmd.action == "agree" && entry.operation.command == cmd && entry.signature == sig
    requires ApplyVerified(cr, h, c, cmd, sig, now, draws, s).Ok?
    ensures Advances(cr, c, ApplyVerified(cr, h, c, cmd, sig, now, draws, s).value, entry, ms, ms)
  {
    hide AggregateOf, Inv;
    NoteInv(c.agreement, ms, c.agreement.seller, "evidence", ConsentNote(cr, sig), now);
  }

  lemma SettleAdvances(cr: Crypto, h: Oracle, c: ContractState, cmd: Command, entry: Committed, sig: Signature,
                       now: Time, draws: seq<nat>, s: int, ms: seq<int>)
    requires Ready(c, ms) && cmd.action == "settle" && entry.operation.command == cmd
    requires ApplyVerified(cr, h, c, cmd, sig, now, draws, s).Ok?
    ensures Advances(cr, c, ApplyVerified(cr, h, c, cmd, sig, now, draws, s).value, entry, ms, ms)
  {
    hide AggregateOf, Inv, ProofOf, Accepts;
    var a := c.agreement;
    NoteInv(a, ms, a.buyer, "evidence", cmd.evidence, now);
    AcceptInv(h, AddNote(a, a.buyer, "evidence", cmd.evidence, now).value, ms, a.seller, s, now);
  }

  lemma RejectAdvances(cr: Crypto, h: Oracle, c: ContractState, cmd: Command, entry: Committed, sig: Signature,
                       now: Time, draws: seq<nat>, s: int, ms: seq<int>)
    requires Ready(c, ms) && cmd.action == "reject" && entry.operation.command == cmd
    requires ApplyVerified(cr, h, c, cmd, sig, now, draws, s).Ok?
    ensures Advances(cr, c, ApplyVerified(cr, h, c, cmd, sig, now, draws, s).value, entry, ms, ms)
  {
    hide AggregateOf, Inv, Reject;
    RejectInv(c.agreement, ms, c.agreement.seller, now);
    RejectShape(c.agreement, now);
  }

  lemma RejectShape(a: State, now: Time)
    requires Reject(a, a.seller, now).Ok?
    ensures
      var b := Reject(a, a.seller, now).value;
      && b == a.(receipts := b.receipts, steps := b.steps, closedAt := Some(now), releasedTo := a.buyer, status := Rejected)
      && a.status == Locked && a.receipts <= b.receipts && |b.receipts| == |a.receipts| + 1
      && b.receipts[|a.receipts|].action == "reject" && b.receipts[|a.receipts|].actor == a.seller
  {
    hide HashReceipt, Tail;
  }

  lemma ExpireAdvances(cr: Crypto, h: Oracle, c: ContractState, cmd: Command, entry: Committed, sig: Signature,
                       now: Time, draws: seq<nat>, s: int, ms: seq<int>)
    requires Ready(c, ms) && cmd.action == "expire" && entry.operation.command == cmd
    requires ApplyVerified(cr, h, c, cmd, sig, now, draws, s).Ok?
    ensures Advances(cr, c, ApplyVerified(cr, h, c, cmd, sig, now, draws, s).value, entry, ms, ms)
  {
    hide AggregateOf, Inv;
    ExpireInv(c.agreement, ms, c.agreement.buyer, now);
  }

  lemma CommandAdvances(cr: Crypto, h: Oracle, c: ContractState, cmd: Command, entry: Committed, sig: Signature,
                        now: Time, draws: seq<nat>, s: int, ms: seq<int>) returns (ms': seq<int>)
    requires Ready(c, ms) && entry.operation.command == cmd && entry.signature == sig
    requires ApplyVerified(cr, h, c, cmd, sig, now, draws, s).Ok?
    ensures cmd.head == Head(c)
    ensures Advances(cr, c, ApplyVerified(cr, h, c, cmd, sig, now, draws, s).value, entry, ms, ms')
  {
    hide Kernel.Seal, AcceptWithEvidence, Reject, Expire, AddNote, Inv, Stage, Advances;
    ms' := if cmd.action == "lock" then [c.agreement.amount] else ms;
    if cmd.action == "lock" { LockAdvances(cr, h, c, cmd, entry, sig, now, draws, s, ms); }
    else if cmd.action == "agree" { AgreeAdvances(cr, h, c, cmd, entry, sig, now, draws, s, ms); }
    else if cmd.action == "settle" { SettleAdvances(cr, h, c, cmd, entry, sig, now, draws, s, ms); }
    else if cmd.action == "reject" { RejectAdvances(cr, h, c, cmd, entry, sig, now, draws, s, ms); }
    else { ExpireAdvances(cr, h, c, cmd, entry, sig, now, draws, s, ms); }
  }

  // The receipts that a command appends carry its time, and it is in the window unless it expires.
  ghost predicate Stamped(a: State, b: State, action: string, now: Time) {
    && a.receipts <= b.receipts && b.createdAt == a.createdAt && b.deadline == a.deadline
    && forall i | |a.receipts| <= i < |b.receipts| :: b.receipts[i].at == now && (b.receipts[i].action == "expire" <==> action == "expire")
  }

  lemma CommandStamped(cr: Crypto, h: Oracle, c: ContractState, cmd: Command, sig: Signature, now: Time, draws: seq<nat>, s: int)
    requires KeyUsable(c.agreement) && ApplyVerified(cr, h, c, cmd, sig, now, draws, s).Ok?
    ensures Stamped(c.agreement, ApplyVerified(cr, h, c, cmd, sig, now, draws, s).value.agreement, cmd.action, now)
    ensures if cmd.action == "expire" then c.agreement.deadline <= now else c.agreement.createdAt <= now < c.agreement.deadline
  {
    var a := c.agreement;
    SealStamps(a, draws, now);
    SettleStamps(h, a, cmd.evidence, s, now);
    OtherStamps(a, ConsentNote(cr, sig), now);
    hide Kernel.Seal, AcceptWithEvidence, AddNote, Reject, Expire, Stamped, ConsentNote;
  }

  lemma SealStamps(a: State, draws: seq<nat>, now: Time)
    requires KeyUsable(a)
    ensures Kernel.Seal(a, a.buyer, a.amount, draws, now).Ok?
      ==> Stamped(a, Kernel.Seal(a, a.buyer, a.amount, draws, now).value, "lock", now)
  {
    hide AggregateOf, SealOf, HashReceipt, OverBudget;
  }

  lemma SettleStamps(h: Oracle, a: State, evidence: string, s: int, now: Time)
    requires KeyUsable(a)
    ensures AcceptWithEvidence(h, a, a.buyer, a.seller, evidence, s, now).Ok?
      ==> Stamped(a, AcceptWithEvidence(h, a, a.buyer, a.seller, evidence, s, now).value, "settle", now)
  {
    hide ProofOf, Accepts, HashReceipt, OverBudget;
  }

  lemma OtherStamps(a: State, note: string, now: Time)
    ensures AddNote(a, a.seller, "evidence", note, now).Ok? ==> Stamped(a, AddNote(a, a.seller, "evidence", note, now).value, "agree", now)
    ensures Reject(a, a.seller, now).Ok? ==> Stamped(a, Reject(a, a.seller, now).value, "reject", now)
    ensures Expire(a, a.buyer, now).Ok? ==> Stamped(a, Expire(a, a.buyer, now).value, "expire", now) && a.deadline <= now
  {
    hide HashReceipt, OverBudget;
  }

  lemma CommandTimely(cr: Crypto, h: Oracle, c: ContractState, cmd: Command, sig: Signature, now: Time, draws: seq<nat>, s: int)
    requires KeyUsable(c.agreement) && Timely(c.agreement) && ApplyVerified(cr, h, c, cmd, sig, now, draws, s).Ok?
    ensures Timely(ApplyVerified(cr, h, c, cmd, sig, now, draws, s).value.agreement)
  {
    hide ApplyVerified;
    CommandStamped(cr, h, c, cmd, sig, now, draws, s);
    var a, b := c.agreement, ApplyVerified(cr, h, c, cmd, sig, now, draws, s).value.agreement;
    forall i | 2 <= i < |b.receipts| ensures OnTime(b, b.receipts[i]) {
      if i < |a.receipts| {
        assert b.receipts[i] == a.receipts[i];
      }
    }
  }

  // ---------- committing ----------

  // A later version of the same stored contract: nothing recorded is lost or altered.
  predicate Extends(r: Record, r': Record) {
    && r'.terms == r.terms && r'.buyer == r.buyer && r'.seller == r.seller
    && (forall k :: k in r.operations ==> k in r'.operations && r'.operations[k] == r.operations[k])
    && r.checkpoint.agreement.Some? && r'.checkpoint.agreement.Some?
    && StoredState(r).receipts <= StoredState(r').receipts
    && StoredState(r').id == StoredState(r).id
    && StoredState(r').buyer == StoredState(r).buyer && StoredState(r').seller == StoredState(r).seller
  }

  lemma ExtendsTransitive(r: Record, r1: Record, r2: Record)
    requires Extends(r, r1) && Extends(r1, r2)
    ensures Extends(r, r2)
  {
  }

  // An accounting survives new receipts and new operations.
  lemma {:induction false} AccountsStable(cr: Crypto, a: State, b: State, ops: map<string, Committed>, ops': map<string, Committed>,
                           order: seq<string>, i: nat, j: nat, status: Status, consent: bool, final: Status, agreed: bool)
    requires 1 <= i <= j <= |a.receipts| && a.receipts <= b.receipts && a.buyer == b.buyer && a.seller == b.seller
    requires forall k :: k in ops ==> k in ops' && ops'[k] == ops[k]
    requires Accounts(cr, a, ops, order, i, j, status, consent, final, agreed)
    ensures Accounts(cr, b, ops', order, i, j, status, consent, final, agreed)
    decreases |order|
  {
    hide CheckedSegment, SegmentAt;
    if order != [] {
      var entry := ops[order[0]];
      SegmentStable(cr, a, b, entry, i, status, consent);
      var seg := CheckedSegment(cr, a, entry, i, status, consent).value;
      assert Accounts(cr, a, ops, order[1..], i + seg.count, j, seg.status, seg.consent, final, agreed);
      hide Accounts;
      AccountsStable(cr, a, b, ops, ops', order[1..], i + seg.count, j, seg.status, seg.consent, final, agreed);
      AccountsCons(cr, b, ops', order[0], order[1..], i, j, status, consent, seg, final, agreed);
      assert order == [order[0]] + order[1..];
    }
  }

  lemma SegmentStable(cr: Crypto, a: State, b: State, entry: Committed, i: nat, status: Status, consent: bool)
    requires i < |a.receipts| && a.receipts <= b.receipts && a.buyer == b.buyer && a.seller == b.seller
    ensures CheckedSegment(cr, a, entry, i, status, consent).Some?
      ==> CheckedSegment(cr, b, entry, i, status, consent) == CheckedSegment(cr, a, entry, i, status, consent)
  {
  }

  lemma {:induction false} AccountsAppend(cr: Crypto, a: State, ops: map<string, Committed>, order: seq<string>, key: string, i: nat, j: nat,
                           status: Status, consent: bool, mid: Status, midConsent: bool, final: Status, agreed: bool)
    requires 1 <= i <= j < |a.receipts|
    requires Accounts(cr, a, ops, order, i, j, status, consent, mid, midConsent)
    requires key in ops && ops[key].operation.command.head == a.receipts[j - 1].hash
    requires CheckedSegment(cr, a, ops[key], j, mid, midConsent) == Some(Segment(|a.receipts| - j, final, agreed))
    ensures Accounts(cr, a, ops, order + [key], i, |a.receipts|, status, consent, final, agreed)
    decreases |order|
  {
    hide CheckedSegment;
    if order == [] {
      var seg := Segment(|a.receipts| - j, final, agreed);
      AccountsCons(cr, a, ops, key, [], i, |a.receipts|, status, consent, seg, final, agreed);
      assert order + [key] == [key] + [];
    } else {
      var rest := order[1..];
      var seg := CheckedSegment(cr, a, ops[order[0]], i, status, consent).value;
      AccountsAppend(cr, a, ops, rest, key, i + seg.count, j, seg.status, seg.consent, mid, midConsent, final, agreed);
      AccountsCons(cr, a, ops, order[0], rest + [key], i, |a.receipts|, status, consent, seg, final, agreed);
      assert order + [key] == [order[0]] + (rest + [key]);
    }
  }

  // The head a new command must name differs from every head already used.
  lemma FreshHead(cr: Crypto, r: Record, id: string, a: State, order: seq<string>, k: string)
    requires ChainOk(a.id, a.receipts) && Indexed(cr, r, id, a, order) && k in r.operations
    ensures r.operations[k].operation.command.head != Tail(a.receipts)
  {
    hide CheckedSegment, EntryOk, ChainOk, HeadsDistinct, Accounts;
    var n :| 0 <= n < |order| && order[n] == k;
    AccountsHeads(cr, a, r.operations, order, 2, |a.receipts|, Open, false, a.status, r.agreed, n);
    var m :| 1 <= m < |a.receipts| - 1 && a.receipts[m].hash == r.operations[k].operation.command.head;
    ChainHashesDistinct(a.id, a.receipts, m, |a.receipts| - 1);
  }

  lemma InvChain(a: State, ms: seq<int>)
    requires Inv(a, ms)
    ensures ChainOk(a.id, a.receipts)
  {
  }

  // A commit keeps the index in step with the receipts.
  lemma CommitIndexed(cr: Crypto, r: Record, r': Record, id: string, order: seq<string>, q: Request, result: OpResult)
    requires r.checkpoint.agreement.Some? && r'.checkpoint.agreement.Some?
    requires
      var a, b, entry := StoredState(r), StoredState(r'), Committed(q.op, q.signature, result);
      && ChainOk(a.id, a.receipts) && Indexed(cr, r, id, a, order)
      && a.receipts <= b.receipts && |a.receipts| < |b.receipts| && a.buyer == b.buyer && a.seller == b.seller
      && q.op.id !in r.operations
      && r' == r.(agreed := r'.agreed, checkpoint := r'.checkpoint, operations := r.operations[q.op.id := entry])
      && q.op.command.head == Tail(a.receipts)
      && EntryOk(cr, ContractOf(r, id, a), id, q.op.id, entry)
      && SegmentAt(cr, b, entry, |a.receipts|, a.status, r.agreed)
         == Some(Segment(|b.receipts| - |a.receipts|, b.status, r'.agreed))
      && result.head == Tail(b.receipts) && result.status == b.status
    ensures Indexed(cr, r', id, StoredState(r'), order + [q.op.id])
  {
    hide SegmentAt, ChainOk, Accounts, EntryOk, CheckedSegment, HeadsDistinct;
    var a, b, entry := StoredState(r), StoredState(r'), Committed(q.op, q.signature, result);
    var seg := Segment(|b.receipts| - |a.receipts|, b.status, r'.agreed);
    SameSigners(cr, r, r', id, a, b);
    CommitHeads(cr, r, id, a, order, q.op.id, entry);
    AccountsStable(cr, a, b, r.operations, r'.operations, order, 2, |a.receipts|, Open, false, a.status, r.agreed);
    SegmentChecked(cr, b, entry, |a.receipts|, a.status, r.agreed, seg);
    AccountsAppend(cr, b, r'.operations, order, q.op.id, 2, |a.receipts|, Open, false, a.status, r.agreed, b.status, r'.agreed);
    InsertSize(r.operations, q.op.id, entry);
  }

  lemma SegmentChecked(cr: Crypto, b: State, entry: Committed, i: nat, status: Status, consent: bool, seg: Segment)
    requires i < |b.receipts| && SegmentAt(cr, b, entry, i, status, consent) == Some(seg) && i + seg.count == |b.receipts|
    requires entry.result.head == Tail(b.receipts) && entry.result.status == seg.status
    ensures CheckedSegment(cr, b, entry, i, status, consent) == Some(seg)
  {
  }

  lemma InsertSize<V>(m: map<string, V>, k: string, v: V)
    requires k !in m
    ensures |m[k := v]| == |m| + 1
  {
    assert m[k := v].Keys == m.Keys + {k};
    assert |m[k := v].Keys| == |m.Keys| + 1;
  }

  lemma CommitHeads(cr: Crypto, r: Record, id: string, a: State, order: seq<string>, key: string, entry: Committed)
    requires ChainOk(a.id, a.receipts) && Indexed(cr, r, id, a, order)
    requires entry.operation.command.head == Tail(a.receipts) && key !in r.operations
    ensures HeadsDistinct(r.operations[key := entry])
  {
    hide ChainOk, Accounts, EntryOk;
    forall k | k in r.operations
      ensures r.operations[k].operation.command.head != entry.operation.command.head
    {
      FreshHead(cr, r, id, a, order, k);
    }
  }

  lemma SameSigners(cr: Crypto, r: Record, r': Record, id: string, a: State, b: State)
    requires r'.buyer == r.buyer && r'.seller == r.seller
    ensures forall k, entry :: EntryOk(cr, ContractOf(r, id, a), id, k, entry) <==> EntryOk(cr, ContractOf(r', id, b), id, k, entry)
  {
  }

  // Every record Apply writes is good again, extends the one it read, and holds the result
  // it returns under the operation's ID.
  lemma CommitGood(cr: Crypto, h: Oracle, r: Record, id: string, q: Request)
    requires GoodRecord(cr, r, id)
    ensures r.checkpoint.agreement.Some? && KeyUsable(StoredState(r))
    ensures
      var decision := Decide(cr, h, r, ContractOf(r, id, StoredState(r)), id, q);
      decision.Commit? ==>
        && GoodRecord(cr, decision.record, id)
        && Extends(r, decision.record)
        && |StoredState(decision.record).receipts| > |StoredState(r).receipts|
        && q.op.id !in r.operations
        && decision.record.operations == r.operations[q.op.id := Committed(q.op, q.signature, decision.result)]
        && decision.result == OpResult(id, q.op.id, Tail(StoredState(decision.record).receipts), StoredState(decision.record).status)
  {
    GoodRestores(cr, r, id);
    hide Good, Decide, Extends;
    var ms, order :| Good(cr, r, id, ms, order);
    if Decide(cr, h, r, ContractOf(r, id, StoredState(r)), id, q).Commit? {
      CommitShape(cr, h, r, ContractOf(r, id, StoredState(r)), id, q);
      CommitStep(cr, h, r, id, q, ms, order);
    }
  }

  // What a commit consists of.
  lemma CommitShape(cr: Crypto, h: Oracle, r: Record, c: ContractState, id: string, q: Request)
    requires KeyUsable(c.agreement) && Decide(cr, h, r, c, id, q).Commit?
    ensures ApplyVerified(cr, h, c, q.op.command, q.signature, q.now, q.draws, q.s).Ok?
    ensures ValidOperationId(q.op.id) && q.op.command.terms == id && q.op.id !in r.operations
    ensures cr.verifyOperation(Signer(c, q.op.command.action), q.op, q.signature)
    ensures
      var d := ApplyVerified(cr, h, c, q.op.command, q.signature, q.now, q.draws, q.s).value;
      var decision := Decide(cr, h, r, c, id, q);
      && decision.result == OpResult(id, q.op.id, Tail(d.agreement.receipts), d.agreement.status)
      && decision.record == r.(agreed := d.agreed, checkpoint := Take(d.agreement),
                               operations := r.operations[q.op.id := Committed(q.op, q.signature, decision.result)])
  {
    hide ApplyVerified;
  }

  lemma CommitStep(cr: Crypto, h: Oracle, r: Record, id: string, q: Request, ms: seq<int>, order: seq<string>)
    requires Good(cr, r, id, ms, order) && KeyUsable(StoredState(r))
    requires Decide(cr, h, r, ContractOf(r, id, StoredState(r)), id, q).Commit?
    ensures
      var r' := Decide(cr, h, r, ContractOf(r, id, StoredState(r)), id, q).record;
      GoodRecord(cr, r', id) && Extends(r, r') && |StoredState(r').receipts| > |StoredState(r).receipts|
  {
    hide Accounts, Inv, ApplyVerified, RestoredContract, HeaderOk, EntryOk, HeadsDistinct, Stage, SegmentAt, Indexed, ChainOk, Decide;
    var a := StoredState(r);
    var c := ContractOf(r, id, a);
    CommitShape(cr, h, r, c, id, q);
    var r' := Decide(cr, h, r, c, id, q).record;
    var entry := r'.operations[q.op.id];
    var ms' := CommandAdvances(cr, h, c, q.op.command, entry, q.signature, q.now, q.draws, q.s, ms);
    CommandTimely(cr, h, c, q.op.command, q.signature, q.now, q.draws, q.s);
    InvChain(a, ms);
    EntryFromRequest(cr, c, id, q, entry.result);
    CommitIndexed(cr, r, r', id, order, q, entry.result);
    HeaderKept(cr, r, r', id);
    assert Good(cr, r', id, ms', order + [q.op.id]);
  }

  lemma EntryFromRequest(cr: Crypto, c: ContractState, id: string, q: Request, result: OpResult)
    requires ValidOperationId(q.op.id) && q.op.command.terms == id && result.contractId == id && result.operationId == q.op.id
    requires cr.verifyOperation(Signer(c, q.op.command.action), q.op, q.signature)
    ensures EntryOk(cr, c, id, q.op.id, Committed(q.op, q.signature, result))
  {
  }

  lemma HeaderKept(cr: Crypto, r: Record, r': Record, id: string)
    requires HeaderOk(cr, r, id) && r'.version == r.version && r'.terms == r.terms && r'.buyer == r.buyer && r'.seller == r.seller
    ensures HeaderOk(cr, r', id)
  {
  }

  // A newly constructed contract is stored exactly when its ID is a contract ID and its
  // specification is JSON, whatever key was drawn, and its first record is good.
  lemma CreateGood(cr: Crypto, kind: string, buyer: Public, seller: Public, amount: int64, spec: string, now: Time, deadline: Time,
                   key: Option<Key>)
    requires key.Some? ==> Valid(key.value) && key.value.n < Pow(2, MODULUS_BITS)
    requires New(cr, kind, buyer, seller, amount, spec, now, deadline, key).Ok?
    ensures
      var c := New(cr, kind, buyer, seller, amount, spec, now, deadline, key).value;
      && (CreateRecord(cr, c).Ok? <==> ValidContractId(c.terms) && cr.jsonValid(spec))
      && (CreateRecord(cr, c).Ok? ==> GoodRecord(cr, CreateRecord(cr, c).value, c.terms))
  {
    hide RestoredContract, Pow, Valid, Inv, ChainOk, Checkpoint.Restore, ValidContractId, Accounts, HeadsDistinct, EntryOk;
    var c := New(cr, kind, buyer, seller, amount, spec, now, deadline, key).value;
    var r := FirstRecord(c);
    if ValidContractId(c.terms) && cr.jsonValid(spec) {
      FirstIsGood(cr, kind, buyer, seller, amount, spec, now, deadline, key, c);
      GoodRestores(cr, r, c.terms);
    } else if CreateRecord(cr, c).Ok? {
      RestoredParts(cr, r, c.terms);
    }
  }

  lemma FirstIsGood(cr: Crypto, kind: string, buyer: Public, seller: Public, amount: int64, spec: string, now: Time, deadline: Time,
                    key: Option<Key>, c: ContractState)
    requires New(cr, kind, buyer, seller, amount, spec, now, deadline, key) == Ok(c)
    requires ValidContractId(c.terms) && cr.jsonValid(spec)
    requires key.Some? ==> Valid(key.value) && key.value.n < Pow(2, MODULUS_BITS)
    ensures GoodRecord(cr, FirstRecord(c), c.terms)
  {
    hide New, Pow, Valid, Inv, ValidContractId, HeaderOk, TermsMatch, Preamble, Stage, Storable;
    NewInv(cr, kind, buyer, seller, amount, spec, now, deadline, key);
    FirstHeader(cr, kind, buyer, seller, amount, spec, now, deadline, key, c);
    FirstStorable(cr, kind, buyer, seller, amount, spec, now, deadline, key, c);
    assert Good(cr, FirstRecord(c), c.terms, [], []);
  }

  lemma FirstHeader(cr: Crypto, kind: string, buyer: Public, seller: Public, amount: int64, spec: string, now: Time, deadline: Time,
                    key: Option<Key>, c: ContractState)
    requires New(cr, kind, buyer, seller, amount, spec, now, deadline, key) == Ok(c)
    requires ValidContractId(c.terms) && cr.jsonValid(spec)
    ensures HeaderOk(cr, FirstRecord(c), c.terms) && TermsMatch(FirstRecord(c), c.terms, c.agreement)
    ensures Preamble(c.agreement) && Stage(c.agreement, false, [])
    ensures |c.agreement.receipts| == 2 && c.agreement.status == Open
  {
    hide ValidContractId;
  }

  lemma FirstStorable(cr: Crypto, kind: string, buyer: Public, seller: Public, amount: int64, spec: string, now: Time, deadline: Time,
                      key: Option<Key>, c: ContractState)
    requires New(cr, kind, buyer, seller, amount, spec, now, deadline, key) == Ok(c)
    requires ValidContractId(c.terms) && cr.jsonValid(spec)
    requires key.Some? ==> key.value.n < Pow(2, MODULUS_BITS)
    ensures Storable(c.agreement)
  {
    assert c.terms != "";
    hide Pow, ValidContractId;
    ModulusFits(key.value);
  }

  lemma ModulusFits(k: Key)
    requires k.n < Pow(2, MODULUS_BITS)
    ensures k.n < Pow(256, 1024)
  {
    PowMul(2, 8, 1024);
    assert Pow(2, 8) == 256;
    PowMonotone(2, MODULUS_BITS, 8192);
  }

  lemma RestoredParts(cr: Crypto, r: Record, id: string)
    requires RestoredContract(cr, r, id).Some?
    ensures HeaderOk(cr, r, id)
  {
  }

  lemma NewInv(cr: Crypto, kind: string, buyer: Public, seller: Public, amount: int64, spec: string, now: Time, deadline: Time,
               key: Option<Key>)
    requires key.Some? ==> Valid(key.value)
    requires New(cr, kind, buyer, seller, amount, spec, now, deadline, key).Ok?
    ensures Inv(New(cr, kind, buyer, seller, amount, spec, now, deadline, key).value.agreement, [])
  {
    hide Inv;
    var id := cr.hashTerms(Terms(kind, cr.idOf(buyer), cr.idOf(seller), amount, spec, now, deadline));
    OpenInv(id, kind, cr.idOf(buyer), cr.idOf(seller), amount, METER, now, "agreement opened");
    var a := OpenAgreement(id, kind, cr.idOf(buyer), cr.idOf(seller), amount, METER, now).value;
    DeadlineInv(a, [], a.buyer, deadline, now);
    StartInv(SetDeadline(a, a.buyer, deadline, now).value, [], key);
  }

  // ---------- exactly once ----------

  // Once committed, every authenticated retry of the same operation gets the original
  // result, at any later time and from any later version, and a different operation under
  // the same ID is refused. Neither writes anything.
  lemma RetryAnswered(cr: Crypto, h: Oracle, r: Record, id: string, q: Request, later: Record, q': Request)
    requires GoodRecord(cr, r, id) && GoodRecord(cr, later, id)
    requires r.checkpoint.agreement.Some? && KeyUsable(StoredState(r))
    requires later.checkpoint.agreement.Some? && KeyUsable(StoredState(later))
    requires
      var first := Decide(cr, h, r, ContractOf(r, id, StoredState(r)), id, q);
      first.Commit? && Extends(first.record, later)
    requires q'.op.id == q.op.id && q'.op.command.terms == id && OperationSized(q'.op)
    requires cr.verifyOperation(Signer(ContractOf(later, id, StoredState(later)), q'.op.command.action), q'.op, q'.signature)
    ensures
      var first := Decide(cr, h, r, ContractOf(r, id, StoredState(r)), id, q);
      Decide(cr, h, later, ContractOf(later, id, StoredState(later)), id, q')
      == if q'.op == q.op then Retry(first.result) else Refuse(ErrOperationConflict)
  {
    hide GoodRecord, ApplyVerified;
    CommitGood(cr, h, r, id, q);
  }

  // A command works once: it names the head it was made for, and once it has moved the contract
  // it is stale in every later version, under any signature, clock and draws.
  lemma CommandWorksOnce(cr: Crypto, h: Oracle, c: ContractState, cmd: Command, sig: Signature, now: Time, draws: seq<nat>, s: int,
                         ms: seq<int>, e: ContractState, later: seq<int>, sig': Signature, now': Time, draws': seq<nat>, s': int)
    requires Ready(c, ms) && ApplyVerified(cr, h, c, cmd, sig, now, draws, s).Ok?
    requires
      var d := ApplyVerified(cr, h, c, cmd, sig, now, draws, s).value.agreement;
      Ready(e, later) && e.agreement.id == d.id && d.receipts <= e.agreement.receipts
    ensures cmd.head == Head(c) && Head(e) != Head(c)
    ensures ApplyVerified(cr, h, e, cmd, sig', now', draws', s') == Err(ErrStale)
  {
    hide ApplyVerified, Inv, Stage, SegmentAt, ChainOk;
    var d := ApplyVerified(cr, h, c, cmd, sig, now, draws, s).value;
    var entry := Committed(Operation("", cmd), sig, OpResult("", "", NoHash, Open));
    var ms' := CommandAdvances(cr, h, c, cmd, entry, sig, now, draws, s, ms);
    var a, b := c.agreement, e.agreement;
    InvChain(b, later);
    InvOpened(a, ms);
    ChainHashesDistinct(b.id, b.receipts, |a.receipts| - 1, |b.receipts| - 1);
    assert b.receipts[|a.receipts| - 1] == a.receipts[|a.receipts| - 1];
    StaleHead(cr, h, e, cmd, sig', now', draws', s');
  }

  lemma InvOpened(a: State, ms: seq<int>)
    requires Inv(a, ms)
    ensures a.receipts != []
  {
  }

  lemma StaleHead(cr: Crypto, h: Oracle, c: ContractState, cmd: Command, sig: Signature, now: Time, draws: seq<nat>, s: int)
    requires KeyUsable(c.agreement) && cmd.head != Head(c)
    ensures ApplyVerified(cr, h, c, cmd, sig, now, draws, s) == Err(ErrStale)
  {
  }

  // A stored contract that both sides have signed always settles: the one sealed partial is
  // the agreed amount, and the meter has room for the last two receipts.
  lemma SettlementSucceeds(cr: Crypto, h: Oracle, r: Record, id: string, q: Request)
    requires GoodRecord(cr, r, id) && r.checkpoint.agreement.Some? && KeyUsable(StoredState(r))
    requires StoredState(r).status == Locked && r.agreed
    requires q.op.command == Command(id, Tail(StoredState(r).receipts), "settle", q.op.command.evidence)
    requires q.op.command.evidence != "" && StoredState(r).createdAt <= q.now < StoredState(r).deadline
    requires StoredState(r).ledger.Some? && 0 < q.s < StoredState(r).ledger.value.0.n
    ensures ApplyVerified(cr, h, ContractOf(r, id, StoredState(r)), q.op.command, q.signature, q.now, q.draws, q.s).Ok?
  {
    hide Accounts, HeaderOk, EntryOk, HeadsDistinct, AggregateOf, ProofOf, Accepts, Valid, Sealed;
    var ms, order :| Good(cr, r, id, ms, order);
    var a := StoredState(r);
    var (k, rs) := a.ledger.value;
    InvMeter(a, ms);
    assert Total(ms) == a.amount by { TotalAppend([], a.amount); assert [] + [a.amount] == ms; }
    ProofIff(h, k, ms, rs, a.sealedLocks, a.amount, q.s);
  }
}
