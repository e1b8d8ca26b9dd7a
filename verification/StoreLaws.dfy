// What a stored contract proves about its two parties: which commands are granted, who signed what
// and when, and in which order (nex/contract.go, nex/store.go).
module StoreLaws {
  import opened Wrappers
  import opened Paillier
  import opened Ledger
  import opened Kernel
  import opened Chronicle
  import opened KernelRuns
  import opened Checkpoint
  import opened Contracts
  import opened Store
  import opened Operations
  import opened StoreRuns
  import Custody
  import NumberTheory

  // ----- which commands are granted -----

  ghost predicate Granted(a: State, agreed: bool, id: string, cmd: Command, now: Time, draws: seq<nat>, s: int) {
    && cmd.terms == id && cmd.head == Tail(a.receipts)
    && if cmd.action == "expire" then Running(a.status) && a.deadline != 0 && a.deadline <= now
       else
         && a.createdAt <= now < a.deadline && a.ledger.Some? && a.ledger.value.0.n > 0
         && match cmd.action
            case "lock" => a.status == Open && exists r :: r in draws && Unit(a.ledger.value.0, r)
            case "agree" => a.status == Locked && !agreed
            case "settle" => a.status == Locked && agreed && cmd.evidence != "" && 0 < s < a.ledger.value.0.n
            case "reject" => a.status == Locked
            case _ => false
  }

  // A record that the store wrote grants exactly these commands, whatever the hash of the proof: in
  // particular the meter and the sealed sum never stand in the way.
  lemma GrantedIff(cr: Crypto, h: Oracle, r: Record, id: string, cmd: Command, sig: Signature, now: Time, draws: seq<nat>, s: int)
    requires GoodRecord(cr, r, id) && r.checkpoint.agreement.Some? && KeyUsable(StoredState(r))
    ensures ApplyVerified(cr, h, ContractOf(r, id, StoredState(r)), cmd, sig, now, draws, s).Ok?
      <==> Granted(StoredState(r), r.agreed, id, cmd, now, draws, s)
  {
    hide Accounts, HeaderOk, EntryOk, HeadsDistinct, Inv, Unit, Indexed, Timely;
    var ms, order :| Good(cr, r, id, ms, order);
    var a := StoredState(r);
    CommandIff(cr, h, ContractOf(r, id, a), cmd, sig, now, draws, s, ms);
  }

  lemma CommandIff(cr: Crypto, h: Oracle, c: ContractState, cmd: Command, sig: Signature, now: Time, draws: seq<nat>, s: int, ms: seq<int>)
    requires Ready(c, ms)
    ensures ApplyVerified(cr, h, c, cmd, sig, now, draws, s).Ok? <==> Granted(c.agreement, c.agreed, c.terms, cmd, now, draws, s)
  {
    hide Inv, Kernel.Seal, AcceptWithEvidence, Reject, Expire, AddNote, Unit;
    var a := c.agreement;
    InvMeter(a, ms);
    StageFacts(c, ms);
    Custody.PermittedIff(h, a, ms, DoSeal(a.buyer, a.amount, draws, now));
    Custody.PermittedIff(h, a, ms, DoNote(a.seller, "evidence", ConsentNote(cr, sig), now));
    Custody.PermittedIff(h, a, ms, DoSettle(a.buyer, a.seller, cmd.evidence, s, now));
    Custody.PermittedIff(h, a, ms, DoReject(a.seller, now));
    Custody.PermittedIff(h, a, ms, DoExpire(a.buyer, now));
  }

  // How far the contract has come decides the room and the sum.
  lemma StageFacts(c: ContractState, ms: seq<int>)
    requires Ready(c, ms)
    ensures
      var a := c.agreement;
      && a.ledger.value.0.n > 0 && a.amount > 0
      && (Running(a.status) ==> HasRoom(a) && a.steps + 1 < a.meter.maxSteps)
      && (a.status == Locked ==> ms != [] && Total(ms) == a.amount)
  {
    hide AggregateOf, ChainOk, Chronicled, Valid, Sealed;
    var a := c.agreement;
    if a.status == Locked {
      TotalAppend([], a.amount);
      assert [] + [a.amount] == ms;
    }
  }

  // ----- an error tells the truth -----

  // What a command asks of the kernel.
  function KernelCall(cr: Crypto, a: State, cmd: Command, sig: Signature, now: Time, draws: seq<nat>, s: int): Call {
    match cmd.action
    case "lock" => DoSeal(a.buyer, a.amount, draws, now)
    case "agree" => DoNote(a.seller, "evidence", ConsentNote(cr, sig), now)
    case "settle" => DoSettle(a.buyer, a.seller, cmd.evidence, s, now)
    case "reject" => DoReject(a.seller, now)
    case _ => DoExpire(a.buyer, now)
  }

  // The fault that the refusal of a command names.
  ghost predicate Faulty(cr: Crypto, c: ContractState, cmd: Command, sig: Signature, now: Time, draws: seq<nat>, s: int, ms: seq<int>,
                         e: ContractError) {
    var a := c.agreement;
    match e
    case ErrStale => cmd.terms != c.terms || cmd.head != Tail(a.receipts)
    case ErrWindow => cmd.action != "expire" && !(a.createdAt <= now < a.deadline)
    case ErrAlreadyLocked => cmd.action == "lock" && a.status != Open
    case ErrCannotAgree => cmd.action == "agree" && (a.status != Locked || c.agreed)
    case ErrConsent => cmd.action == "settle" && (!c.agreed || cmd.evidence == "" || a.status != Locked)
    case ErrUnknownCommand => cmd.action !in {"lock", "agree", "settle", "reject", "expire"}
    case ErrKernel(k) => Custody.Faulty(a, ms, KernelCall(cr, a, cmd, sig, now, draws, s), k)
    case _ => false
  }

  // A stale command is refused as stale, one out of its time as that, and the kernel is asked only
  // when the policy finds no fault of its own.
  lemma PolicyFirst(cr: Crypto, h: Oracle, c: ContractState, cmd: Command, sig: Signature, now: Time, draws: seq<nat>, s: int, ms: seq<int>)
    requires KeyUsable(c.agreement) && ApplyVerified(cr, h, c, cmd, sig, now, draws, s).Err?
    ensures
      var e := ApplyVerified(cr, h, c, cmd, sig, now, draws, s).error;
      var stale := Faulty(cr, c, cmd, sig, now, draws, s, ms, ErrStale);
      && (stale ==> e == ErrStale)
      && (!stale && Faulty(cr, c, cmd, sig, now, draws, s, ms, ErrWindow) ==> e == ErrWindow)
      && (e.ErrKernel? ==> forall p: ContractError | Faulty(cr, c, cmd, sig, now, draws, s, ms, p) :: p.ErrKernel?)
  {
    hide Kernel.Seal, AcceptWithEvidence, Reject, Expire, AddNote, Custody.Faulty, ConsentNote;
  }

  // Whatever a command is refused with, that fault is there.
  lemma RefusalTells(cr: Crypto, h: Oracle, c: ContractState, cmd: Command, sig: Signature, now: Time, draws: seq<nat>, s: int, ms: seq<int>)
    requires Ready(c, ms) && ApplyVerified(cr, h, c, cmd, sig, now, draws, s).Err?
    ensures Faulty(cr, c, cmd, sig, now, draws, s, ms, ApplyVerified(cr, h, c, cmd, sig, now, draws, s).error)
  {
    hide Inv, Kernel.Seal, AcceptWithEvidence, Reject, Expire, AddNote, Custody.Faulty, Stage, ConsentNote;
    var a := c.agreement;
    var call := KernelCall(cr, a, cmd, sig, now, draws, s);
    if Outcome(h, a, call).Err? {
      Custody.RefusalTells(h, a, ms, call);
    }
  }

  // A contract that any command has moved is not stored as a new one.
  lemma MovedIsNotNew(cr: Crypto, h: Oracle, c: ContractState, cmd: Command, sig: Signature, now: Time, draws: seq<nat>, s: int, ms: seq<int>)
    requires Ready(c, ms) && ApplyVerified(cr, h, c, cmd, sig, now, draws, s).Ok?
    ensures CreateRecord(cr, ApplyVerified(cr, h, c, cmd, sig, now, draws, s).value) == Err(ErrNotNew)
  {
    var d := ApplyVerified(cr, h, c, cmd, sig, now, draws, s).value;
    var entry := Committed(Operation("", cmd), sig, OpResult("", "", NoHash, Open));
    var ms' := CommandAdvances(cr, h, c, cmd, entry, sig, now, draws, s, ms);
    CommandIff(cr, h, c, cmd, sig, now, draws, s, ms);
    hide ApplyVerified, Inv, SegmentAt, Unit;
  }

  // ----- identifiers -----

  // Printable ASCII other than the blank.
  predicate Visible(s: string) {
    forall i | 0 <= i < |s| :: '!' <= s[i] <= '~'
  }

  lemma {:induction false} OneByteEach(s: string)
    requires Visible(s)
    ensures Utf8Length(s) == |s|
  {
    if s != "" {
      assert '!' <= s[0] <= '~';
      OneByteEach(s[1..]);
    }
  }

  // Written in visible ASCII an operation's ID has 1 to 128 characters, and any ID counts at least one
  // byte a character; a blank or a line break at either end is refused.
  lemma OperationIds(id: string)
    ensures Visible(id) ==> (ValidOperationId(id) <==> 1 <= |id| <= 128)
    ensures ValidOperationId(id) ==> 1 <= |id| <= 128 && id[0] !in " \t\r\n" && id[|id| - 1] !in " \t\r\n"
  {
    if Visible(id) {
      OneByteEach(id);
      assert id != "" ==> '!' <= id[0] <= '~' && '!' <= id[|id| - 1] <= '~';
    }
    AtLeastOneEach(id);
  }

  // A contract's ID is 64 of these digits: the hex text of 32 bytes, in lower case only.
  lemma ContractIds(id: string)
    ensures ValidContractId(id) <==> |id| == 64 && forall i | 0 <= i < 64 :: id[i] in "0123456789abcdef"
  {
    forall c: char ensures HexDigit(c) <==> c in "0123456789abcdef" { LowerHex(c); }
    hide HexDigit;
  }

  lemma LowerHex(c: char)
    ensures HexDigit(c) <==> c in "0123456789abcdef"
  {
    var s := "0123456789abcdef";
    assert s[0] == '0' && s[1] == '1' && s[2] == '2' && s[3] == '3' && s[4] == '4' && s[5] == '5' && s[6] == '6' && s[7] == '7';
    assert s[8] == '8' && s[9] == '9' && s[10] == 'a' && s[11] == 'b' && s[12] == 'c' && s[13] == 'd' && s[14] == 'e' && s[15] == 'f';
  }

  lemma {:induction false} AtLeastOneEach(s: string)
    ensures |s| <= Utf8Length(s) <= 4 * |s|
  {
    if s != "" { AtLeastOneEach(s[1..]); }
  }

  // ----- who signs what -----

  function SignedBy(r: Record, action: string): Public {
    if action in {"agree", "reject"} then r.seller else r.buyer
  }

  // An operation is committed exactly when it is well formed, for this contract, signed by the party
  // whose command it is, new, and granted.
  lemma CommitIff(cr: Crypto, h: Oracle, r: Record, id: string, q: Request)
    requires GoodRecord(cr, r, id) && r.checkpoint.agreement.Some? && KeyUsable(StoredState(r))
    ensures Decide(cr, h, r, ContractOf(r, id, StoredState(r)), id, q).Commit? <==>
      && ValidOperationId(q.op.id) && OperationSized(q.op) && q.op.id !in r.operations
      && cr.verifyOperation(SignedBy(r, q.op.command.action), q.op, q.signature)
      && Granted(StoredState(r), r.agreed, id, q.op.command, q.now, q.draws, q.s)
  {
    hide GoodRecord, ApplyVerified, ValidOperationId, OperationSized;
    GrantedIff(cr, h, r, id, q.op.command, q.signature, q.now, q.draws, q.s);
  }

  // And what an operation is refused with is so.
  lemma RefusedBecause(cr: Crypto, h: Oracle, r: Record, id: string, q: Request, ms: seq<int>, order: seq<string>)
    requires Good(cr, r, id, ms, order) && KeyUsable(StoredState(r))
    requires Decide(cr, h, r, ContractOf(r, id, StoredState(r)), id, q).Refuse?
    ensures
      var c := ContractOf(r, id, StoredState(r));
      match Decide(cr, h, r, c, id, q).e
      case ErrBadOperation => !ValidOperationId(q.op.id) || !OperationSized(q.op)
      case ErrForeign => q.op.command.terms != id
      case ErrSignature => !cr.verifyOperation(SignedBy(r, q.op.command.action), q.op, q.signature)
      case ErrOperationConflict => q.op.id in r.operations && r.operations[q.op.id].operation != q.op
      case ErrCommand(e) => q.op.id !in r.operations && Faulty(cr, c, q.op.command, q.signature, q.now, q.draws, q.s, ms, e)
      case _ => false
  {
    hide Inv, Indexed, HeaderOk, ApplyVerified, ValidOperationId, OperationSized, Faulty, Timely, Take;
    var c := ContractOf(r, id, StoredState(r));
    if ApplyVerified(cr, h, c, q.op.command, q.signature, q.now, q.draws, q.s).Err? {
      RefusalTells(cr, h, c, q.op.command, q.signature, q.now, q.draws, q.s, ms);
    }
  }

  // The same for a command applied to a contract in memory, which has its own signature.
  lemma ApplyIff(cr: Crypto, h: Oracle, c: ContractState, cmd: Command, sig: Signature, now: Time, draws: seq<nat>, s: int, ms: seq<int>)
    requires Ready(c, ms)
    ensures Apply(cr, h, c, cmd, sig, now, draws, s).Ok? <==>
      && cr.verifyCommand(if cmd.action in {"agree", "reject"} then c.seller else c.buyer, cmd, sig)
      && Granted(c.agreement, c.agreed, c.terms, cmd, now, draws, s)
  {
    hide Ready, ApplyVerified, Granted;
    CommandIff(cr, h, c, cmd, sig, now, draws, s, ms);
  }

  // ----- the script of every record that restore accepts -----

  // The operation under this key, signed by this party, made when receipt i was to be written.
  ghost predicate By(cr: Crypto, r: Record, a: State, key: string, action: string, signer: Public, i: nat)
    requires 0 < i < |a.receipts|
  {
    && key in r.operations
    && var e := r.operations[key];
       && e.operation.command.action == action && e.operation.command.head == a.receipts[i - 1].hash
       && cr.verifyOperation(signer, e.operation, e.signature)
  }

  predicate Wrote(a: State, i: nat, action: string, actor: Party)
    requires i < |a.receipts|
  {
    a.receipts[i].action == action && a.receipts[i].actor == actor
  }

  // The result that is stored under this key names the head that receipt i left, and this status.
  predicate Reported(r: Record, a: State, key: string, i: nat, status: Status)
    requires key in r.operations && i < |a.receipts|
  {
    r.operations[key].result.head == a.receipts[i].hash && r.operations[key].result.status == status
  }

  ghost predicate Expires(cr: Crypto, r: Record, a: State, key: string, i: nat)
    requires 0 < i
  {
    && i + 1 == |a.receipts| && a.status == Expired && By(cr, r, a, key, "expire", r.buyer, i)
    && Wrote(a, i, "expire", a.buyer) && Reported(r, a, key, i, Expired)
  }

  ghost predicate Rejects(cr: Crypto, r: Record, a: State, key: string, i: nat)
    requires 0 < i
  {
    && i + 1 == |a.receipts| && a.status == Rejected && By(cr, r, a, key, "reject", r.seller, i)
    && Wrote(a, i, "reject", a.seller) && Reported(r, a, key, i, Rejected)
  }

  // A settlement is the buyer's evidence and the release to the seller.
  ghost predicate Settles(cr: Crypto, r: Record, a: State, key: string, i: nat)
    requires 0 < i
  {
    && i + 2 == |a.receipts| && a.status == Accepted && By(cr, r, a, key, "settle", r.buyer, i)
    && Wrote(a, i, "evidence", a.buyer) && a.receipts[i].note == Text(r.operations[key].operation.command.evidence)
    && Wrote(a, i + 1, "accept", a.seller) && Reported(r, a, key, i + 1, Accepted)
  }

  // An agreement is the seller's evidence, and what it cites is the hash of the seller's signature.
  ghost predicate Agrees(cr: Crypto, r: Record, a: State, key: string, i: nat)
    requires 0 < i
  {
    && i < |a.receipts| && By(cr, r, a, key, "agree", r.seller, i)
    && Wrote(a, i, "evidence", a.seller) && a.receipts[i].note == Text(ConsentNote(cr, r.operations[key].signature))
    && Reported(r, a, key, i, Locked)
  }

  // From a locked contract that the seller has agreed to.
  ghost predicate FromAgreed(cr: Crypto, r: Record, a: State, order: seq<string>, i: nat)
    requires 0 < i
  {
    && r.agreed
    && if order == [] then i == |a.receipts| && a.status == Locked
       else |order| == 1 && (Settles(cr, r, a, order[0], i) || Rejects(cr, r, a, order[0], i) || Expires(cr, r, a, order[0], i))
  }

  // From a locked contract.
  ghost predicate FromLocked(cr: Crypto, r: Record, a: State, order: seq<string>, i: nat)
    requires 0 < i
  {
    if order == [] then i == |a.receipts| && a.status == Locked && !r.agreed
    else
      || (|order| == 1 && !r.agreed && (Rejects(cr, r, a, order[0], i) || Expires(cr, r, a, order[0], i)))
      || (Agrees(cr, r, a, order[0], i) && FromAgreed(cr, r, a, order[1..], i + 1))
  }

  // From the opening pair.
  ghost predicate FromOpen(cr: Crypto, r: Record, a: State, order: seq<string>) {
    if order == [] then |a.receipts| == 2 && a.status == Open && !r.agreed
    else
      || (|order| == 1 && !r.agreed && Expires(cr, r, a, order[0], 2))
      || (|a.receipts| > 2 && By(cr, r, a, order[0], "lock", r.buyer, 2) && Wrote(a, 2, "seal", a.buyer) && Reported(r, a, order[0], 2, Locked)
          && FromLocked(cr, r, a, order[1..], 3))
  }

  // Each entry was authenticated for its party.
  ghost predicate Authentic(cr: Crypto, r: Record) {
    forall k | k in r.operations ::
      var e := r.operations[k];
      cr.verifyOperation(SignedBy(r, e.operation.command.action), e.operation, e.signature)
  }

  lemma ScriptOver(cr: Crypto, r: Record, a: State, order: seq<string>, i: nat, status: Status, consent: bool)
    requires 1 <= i <= |a.receipts| && Terminal(status)
    requires Accounts(cr, a, r.operations, order, i, |a.receipts|, status, consent, a.status, r.agreed)
    ensures order == [] && i == |a.receipts| && status == a.status && consent == r.agreed
  {
    hide ConsentNote;
  }

  lemma ScriptAgreed(cr: Crypto, r: Record, a: State, order: seq<string>, i: nat)
    requires 1 <= i <= |a.receipts| && Authentic(cr, r)
    requires Accounts(cr, a, r.operations, order, i, |a.receipts|, Locked, true, a.status, r.agreed)
    ensures FromAgreed(cr, r, a, order, i)
  {
    hide ConsentNote;
    if order != [] {
      var seg := CheckedSegment(cr, a, r.operations[order[0]], i, Locked, true).value;
      assert Terminal(seg.status);
      ScriptOver(cr, r, a, order[1..], i + seg.count, seg.status, seg.consent);
    }
  }

  lemma ScriptLocked(cr: Crypto, r: Record, a: State, order: seq<string>, i: nat)
    requires 1 <= i <= |a.receipts| && Authentic(cr, r)
    requires Accounts(cr, a, r.operations, order, i, |a.receipts|, Locked, false, a.status, r.agreed)
    ensures FromLocked(cr, r, a, order, i)
  {
    hide ConsentNote, FromAgreed;
    if order != [] {
      var seg := CheckedSegment(cr, a, r.operations[order[0]], i, Locked, false).value;
      if Terminal(seg.status) {
        ScriptOver(cr, r, a, order[1..], i + seg.count, seg.status, seg.consent);
      } else {
        assert seg == Segment(1, Locked, true);
        ScriptAgreed(cr, r, a, order[1..], i + 1);
      }
    }
  }

  lemma ScriptOpen(cr: Crypto, r: Record, a: State, order: seq<string>)
    requires 2 <= |a.receipts| && Authentic(cr, r)
    requires Accounts(cr, a, r.operations, order, 2, |a.receipts|, Open, false, a.status, r.agreed)
    ensures FromOpen(cr, r, a, order)
  {
    hide ConsentNote, FromLocked;
    if order != [] {
      var seg := CheckedSegment(cr, a, r.operations[order[0]], 2, Open, false).value;
      if Terminal(seg.status) {
        ScriptOver(cr, r, a, order[1..], 2 + seg.count, seg.status, seg.consent);
      } else {
        assert seg == Segment(1, Locked, false);
        ScriptLocked(cr, r, a, order[1..], 3);
      }
    }
  }

  // Whatever record restore accepts, written by the store or not: its operations stand in one of
  // nine orders, each signed by the party whose command it is and made for the head it found, and
  // the receipts behind the opening pair and the stored results are those of that order. So an accepted
  // contract holds the seller's signed agreement to the locked amount and, behind it, the buyer's signed
  // settlement.
  lemma RestoredScript(cr: Crypto, r: Record, id: string) returns (order: seq<string>)
    requires RestoredContract(cr, r, id).Some?
    ensures NoRepeats(order) && forall k :: k in order <==> k in r.operations
    ensures Authentic(cr, r) && FromOpen(cr, r, RestoredContract(cr, r, id).value.agreement, order)
  {
    var c := RestoredContract(cr, r, id).value;
    assert Authentic(cr, r) by {
      hide HeaderOk, Checkpoint.Restore, Replay, HeadsDistinct, TermsMatch, Preamble, ValidOperationId;
    }
    hide Accounts, Authentic, RestoredContract, FromOpen;
    order := RestoreBijection(cr, r, id);
    ScriptOpen(cr, r, c.agreement, order);
  }

  // In particular a contract is settled only behind the seller's agreement.
  lemma SettledWasAgreed(cr: Crypto, r: Record, id: string) returns (agree: string, settle: string)
    requires RestoredContract(cr, r, id).Some? && RestoredContract(cr, r, id).value.agreement.status == Accepted
    ensures
      var a := RestoredContract(cr, r, id).value.agreement;
      |a.receipts| == 6 && r.agreed && Agrees(cr, r, a, agree, 3) && Settles(cr, r, a, settle, 4)
  {
    var a := RestoredContract(cr, r, id).value.agreement;
    hide RestoredContract;
    var order := RestoredScript(cr, r, id);
    agree, settle := ScriptSettled(cr, r, a, order);
  }

  lemma ScriptSettled(cr: Crypto, r: Record, a: State, order: seq<string>) returns (agree: string, settle: string)
    requires FromOpen(cr, r, a, order) && a.status == Accepted
    ensures |a.receipts| == 6 && r.agreed && Agrees(cr, r, a, agree, 3) && Settles(cr, r, a, settle, 4)
  {
    hide By, Wrote, ConsentNote;
    agree, settle := order[1..][0], order[1..][1..][0];
  }

  // ----- every record of every run -----

  // What is true of a record the store wrote: the receipts tell its state, each was allowed, each
  // was written in its time, and the operations are one of the scripts.
  ghost predicate Kept(cr: Crypto, r: Record, id: string, order: seq<string>) {
    && r.checkpoint.agreement.Some?
    && var a := StoredState(r);
       && Chronicled(a) && Timely(a) && a.deadline == r.terms.deadline && a.createdAt == r.terms.created
       && NoRepeats(order) && (forall k :: k in order <==> k in r.operations)
       && Authentic(cr, r) && FromOpen(cr, r, a, order)
  }

  lemma GoodKept(cr: Crypto, r: Record, id: string) returns (order: seq<string>)
    requires GoodRecord(cr, r, id)
    ensures Kept(cr, r, id, order)
  {
    hide Accounts, HeaderOk, EntryOk, HeadsDistinct, Indexed, Timely, Core, Chronicled, RestoredContract, FromOpen, Authentic, NoRepeats, Take;
    GoodRestores(cr, r, id);
    order := RestoredScript(cr, r, id);
    var ms, accounts :| Good(cr, r, id, ms, accounts);
  }

  // At every point of every run of the store, crashes included, for the visible and the durable
  // record of every contract.
  lemma StoreKeeps(cr: Crypto, h: Oracle, states: seq<System>, events: seq<Event>, i: nat, id: string) returns (cur: seq<string>, dur: seq<string>)
    requires IsStoreRun(cr, h, states, events) && i <= |events|
    ensures id in states[i].cur ==> Kept(cr, states[i].cur[id], id, cur)
    ensures id in states[i].dur ==> Kept(cr, states[i].dur[id], id, dur)
  {
    hide Act, TaskOk, GoodRecord, Kept, Extends;
    StoreRunInv(cr, h, states, events, i);
    cur, dur := [], [];
    if id in states[i].cur { cur := GoodKept(cr, states[i].cur[id], id); }
    if id in states[i].dur { dur := GoodKept(cr, states[i].dur[id], id); }
  }

  // So a stored contract that ended did so in one of three ways: the seller was paid within the
  // window, behind the agreement and the settlement that the two of them signed; or the buyer has
  // the value back by the seller's signed rejection within the window, or, by the buyer's own signed
  // command, at or after the deadline.
  lemma StoredEnding(cr: Crypto, r: Record, id: string) returns (key: string)
    requires GoodRecord(cr, r, id) && r.checkpoint.agreement.Some? && Terminal(StoredState(r).status)
    ensures
      var a := StoredState(r);
      var n := |a.receipts| - 1;
      && n >= 2 && a.closedAt == Some(a.receipts[n].at)
      && (a.status == Accepted ==>
            n == 5 && Settles(cr, r, a, key, 4) && a.releasedTo == a.seller && a.createdAt <= a.receipts[n].at < a.deadline)
      && (a.status == Rejected ==>
            Rejects(cr, r, a, key, n) && a.releasedTo == a.buyer && a.createdAt <= a.receipts[n].at < a.deadline)
      && (a.status == Expired ==> Expires(cr, r, a, key, n) && a.releasedTo == a.buyer && a.deadline <= a.receipts[n].at)
  {
    var order := GoodKept(cr, r, id);
    hide GoodRecord, By, Tell, Lawful, Authentic;
    var a := StoredState(r);
    Custody.LastWord(a);
    key := order[|order| - 1];
    ScriptEnds(cr, r, a, order);
    assert OnTime(a, a.receipts[|a.receipts| - 1]);
  }

  lemma ScriptEnds(cr: Crypto, r: Record, a: State, order: seq<string>)
    requires FromOpen(cr, r, a, order) && Terminal(a.status)
    ensures order != [] && |a.receipts| > 2
    ensures
      var n, key := |a.receipts| - 1, order[|order| - 1];
      && (a.status == Accepted ==> n == 5 && Settles(cr, r, a, key, 4))
      && (a.status == Rejected ==> Rejects(cr, r, a, key, n))
      && (a.status == Expired ==> Expires(cr, r, a, key, n))
  {
    hide By, Wrote, ConsentNote;
    assert |order| > 1 ==> order[1..][|order| - 2] == order[|order| - 1];
    assert |order| > 2 ==> order[1..][1..][|order| - 3] == order[|order| - 1];
  }

  // ----- a new contract -----

  // A contract is made exactly of two valid identities with different IDs, a kind, a positive amount,
  // a deadline ahead and a key.
  lemma NewIff(cr: Crypto, kind: string, buyer: Public, seller: Public, amount: int64, spec: string, now: Time, deadline: Time, key: Option<Key>)
    ensures New(cr, kind, buyer, seller, amount, spec, now, deadline, key).Ok? <==>
      && cr.validate(buyer) && cr.validate(seller) && cr.idOf(buyer) != "" && cr.idOf(seller) != "" && cr.idOf(buyer) != cr.idOf(seller)
      && kind != "" && amount > 0 && now < deadline && key.Some?
  {
  }

  // And it is what was asked for: its ID is the hash of its terms, both receipts are the buyer's, and
  // the ledger is empty under the key.
  lemma NewIs(cr: Crypto, kind: string, buyer: Public, seller: Public, amount: int64, spec: string, now: Time, deadline: Time, key: Option<Key>)
    requires New(cr, kind, buyer, seller, amount, spec, now, deadline, key).Ok?
    ensures
      var c := New(cr, kind, buyer, seller, amount, spec, now, deadline, key).value;
      var a := c.agreement;
      && c.definition == Terms(kind, cr.idOf(buyer), cr.idOf(seller), amount, spec, now, deadline)
      && c.terms == cr.hashTerms(c.definition) && c.buyer == buyer && c.seller == seller && !c.agreed
      && a.id == c.terms && a.kind == kind && a.buyer == cr.idOf(buyer) && a.seller == cr.idOf(seller) && a.amount == amount
      && a.createdAt == now && a.meter.maxSteps == 128 && a.meter.budgetUSD == 0.0 && a.ledger == Some((key.value, [])) && a.sealedSum == 0
      && StoryOf(a) == BEGINNING.(deadline := deadline)
      && |a.receipts| == 2 && Wrote(a, 0, "open", a.buyer) && Wrote(a, 1, "deadline", a.buyer)
      && a.receipts[0].at == now && a.receipts[1].at == now && a.receipts[1].note == Instant(deadline)
  {
    hide HashReceipt;
  }

  // ----- what a record must be -----

  // The record names valid identities, and its agreement is the one of its terms, under their hash.
  predicate OfItsTerms(cr: Crypto, r: Record, id: string, a: State) {
    && r.version == 1 && cr.validate(r.buyer) && cr.validate(r.seller) && cr.jsonValid(r.terms.spec)
    && id == cr.hashTerms(r.terms) && cr.idOf(r.buyer) == r.terms.buyer && cr.idOf(r.seller) == r.terms.seller
    && id == a.id && r.terms.kind == a.kind && r.terms.buyer == a.buyer && r.terms.seller == a.seller
    && r.terms.amount == a.amount && r.terms.created == a.createdAt && r.terms.deadline == a.deadline && a.ledger != None
    && |a.receipts| >= 2 && a.receipts[0].action == "open" && a.receipts[1].action == "deadline"
  }

  // Each entry is filed under its own ID, is for this contract, and holds a result of this operation:
  // the head it left and the status at that head.
  ghost predicate OfItsEntries(r: Record, id: string, a: State) {
    forall k | k in r.operations ::
      var e := r.operations[k];
      && k == e.operation.id && ValidOperationId(k) && id == e.operation.command.terms
      && id == e.result.contractId && k == e.result.operationId
      && exists i :: 2 <= i < |a.receipts| && e.result.head == a.receipts[i].hash
  }

  lemma RestoredMeans(cr: Crypto, r: Record, id: string)
    requires RestoredContract(cr, r, id).Some?
    ensures
      var c := RestoredContract(cr, r, id).value;
      && c == ContractState(c.agreement, id, r.buyer, r.seller, r.agreed, r.terms) && Checkpoint.Restore(r.checkpoint) == Ok(c.agreement)
      && OfItsTerms(cr, r, id, c.agreement) && OfItsEntries(r, id, c.agreement)
  {
    var c := RestoredContract(cr, r, id).value;
    assert RestoredFields(cr, r, id, c) by { hide Checkpoint.Restore, Replay, HeadsDistinct, ValidOperationId; }
    hide RestoredContract, Accounts, ValidOperationId;
    var order := RestoreBijection(cr, r, id);
    forall k | k in r.operations ensures exists i :: 2 <= i < |c.agreement.receipts| && r.operations[k].result.head == c.agreement.receipts[i].hash {
      var n :| 0 <= n < |order| && order[n] == k;
      ResultHead(cr, c.agreement, r.operations, order, 2, |c.agreement.receipts|, Open, false, c.agreement.status, r.agreed, n);
    }
  }

  ghost predicate RestoredFields(cr: Crypto, r: Record, id: string, c: ContractState) {
    && c == ContractState(c.agreement, id, r.buyer, r.seller, r.agreed, r.terms) && Checkpoint.Restore(r.checkpoint) == Ok(c.agreement)
    && OfItsTerms(cr, r, id, c.agreement)
    && forall k | k in r.operations ::
         var e := r.operations[k];
         && k == e.operation.id && ValidOperationId(k) && id == e.operation.command.terms
         && id == e.result.contractId && k == e.result.operationId
  }

  lemma {:induction false} ResultHead(cr: Crypto, a: State, ops: map<string, Committed>, order: seq<string>, i: nat, j: nat,
                                      status: Status, consent: bool, final: Status, agreed: bool, n: nat)
    requires 1 <= i <= j <= |a.receipts| && n < |order|
    requires Accounts(cr, a, ops, order, i, j, status, consent, final, agreed)
    ensures order[n] in ops && exists m :: i <= m < j && ops[order[n]].result.head == a.receipts[m].hash
    decreases |order|
  {
    hide SegmentAt;
    var seg := CheckedSegment(cr, a, ops[order[0]], i, status, consent).value;
    if n > 0 {
      ResultHead(cr, a, ops, order[1..], i + seg.count, j, seg.status, seg.consent, final, agreed, n - 1);
    } else {
      assert ops[order[0]].result.head == a.receipts[i + seg.count - 1].hash;
    }
  }

  // ----- a handle that nothing disturbs -----

  ghost function Played(cr: Crypto, h: Oracle, s: System, events: seq<Event>): Option<System>
    decreases |events|
  {
    if events == [] then Some(s)
    else match Act(cr, h, s, events[0]) case None => None case Some(next) => Played(cr, h, next, events[1..])
  }

  // What a handle goes through that writes, or that has something to confirm.
  function Writing(t: nat, id: string, job: Job): seq<Event> {
    [Begin(t, id, job), Acquire(t), Work(t), SyncFile(t), Rename(t), SyncDir(t), Reply(t)]
  }

  function Confirmation(t: nat, id: string, job: Job): seq<Event> {
    [Begin(t, id, job), Acquire(t), Work(t), SyncDir(t), Reply(t)]
  }

  function Refusal(t: nat, id: string, job: Job): seq<Event> {
    [Begin(t, id, job), Acquire(t), Work(t)]
  }

  ghost predicate Free(s: System, t: nat, id: string) {
    ValidContractId(id) && t !in s.tasks && forall u | u in s.tasks && HasLock(s.tasks[u]) :: s.tasks[u].id != id
  }

  // The first three events: the handle holds the lock and has planned.
  lemma Planned(cr: Crypto, h: Oracle, s: System, t: nat, id: string, job: Job)
    requires Free(s, t, id)
    ensures Played(cr, h, s, Refusal(t, id, job)) ==
      Some(match Plan(cr, h, s, id, job) case None => s case Some(phase) => s.(tasks := s.tasks[t := Task(id, job, phase, false)]))
  {
    hide Plan, ValidContractId;
    var s1 := s.(tasks := s.tasks[t := Task(id, job, Waiting, false)]);
    var s2 := s.(tasks := s.tasks[t := Task(id, job, Holding, false)]);
    assert Act(cr, h, s, Begin(t, id, job)) == Some(s1);
    assert Advance(s1, t, Holding) == s2;
    assert Act(cr, h, s1, Acquire(t)) == Some(s2);
    SamePlan(cr, h, s, s2, id, job);
    var s3 := match Plan(cr, h, s, id, job) case None => s case Some(phase) => s.(tasks := s.tasks[t := Task(id, job, phase, false)]);
    assert s2.tasks[t] == Task(id, job, Holding, false);
    Planning(cr, h, s, s2, t, id, job);
    hide Act;
    var e := Refusal(t, id, job);
    assert e[1..] == [Acquire(t), Work(t)] && e[1..][1..] == [Work(t)] && e[1..][1..][1..] == [];
    assert Played(cr, h, s3, []) == Some(s3);
    assert Played(cr, h, s2, [Work(t)]) == Some(s3);
    assert Played(cr, h, s1, [Acquire(t), Work(t)]) == Some(s3);
  }

  lemma Planning(cr: Crypto, h: Oracle, s: System, s2: System, t: nat, id: string, job: Job)
    requires t !in s.tasks && s2 == s.(tasks := s.tasks[t := Task(id, job, Holding, false)])
    ensures Act(cr, h, s2, Work(t)) ==
      Some(match Plan(cr, h, s, id, job) case None => s case Some(phase) => s.(tasks := s.tasks[t := Task(id, job, phase, false)]))
  {
    hide Plan;
    SamePlan(cr, h, s, s2, id, job);
    assert Drop(s2, t).tasks == s.tasks;
    assert Drop(s2, t) == s;
    match Plan(cr, h, s, id, job)
    case None =>
    case Some(phase) =>
      assert Advance(s2, t, phase).tasks == s.tasks[t := Task(id, job, phase, false)];
  }

  lemma SamePlan(cr: Crypto, h: Oracle, s: System, s': System, id: string, job: Job)
    requires s'.cur == s.cur
    ensures Plan(cr, h, s', id, job) == Plan(cr, h, s, id, job)
  {
    hide RestoredContract, Decide, CreateRecord;
  }

  lemma {:induction false} PlayedOn(cr: Crypto, h: Oracle, s: System, first: seq<Event>, rest: seq<Event>)
    requires Played(cr, h, s, first).Some?
    ensures Played(cr, h, s, first + rest) == Played(cr, h, Played(cr, h, s, first).value, rest)
    decreases |first|
  {
    hide Act;
    if first == [] {
      assert first + rest == rest;
    } else {
      assert (first + rest)[1..] == first[1..] + rest;
      PlayedOn(cr, h, Act(cr, h, s, first[0]).value, first[1..], rest);
    }
  }

  // The directory and the reports behind a handle that was not disturbed.
  function Published(s: System, id: string, r: Record, ack: Ack): System {
    var cur, loose := s.cur[id := r], s.loose - {id};
    s.(cur := cur, loose := loose, dur := cur, lost := loose, acks := s.acks + [(id, ack)])
  }

  lemma Finishes(cr: Crypto, h: Oracle, s: System, t: nat, id: string, job: Job, ack: Ack, saved: bool)
    requires t !in s.tasks
    ensures Played(cr, h, s.(tasks := s.tasks[t := Task(id, job, DirSynced(ack), saved)]), [Reply(t)]) == Some(s.(acks := s.acks + [(id, ack)]))
  {
    var s1 := s.(tasks := s.tasks[t := Task(id, job, DirSynced(ack), saved)]);
    assert Drop(s1, t).tasks == s.tasks;
    assert Act(cr, h, s1, Reply(t)) == Some(s.(acks := s.acks + [(id, ack)]));
    hide Act;
    assert [Reply(t)][1..] == [];
    assert Played(cr, h, s.(acks := s.acks + [(id, ack)]), []) == Some(s.(acks := s.acks + [(id, ack)]));
  }

  lemma Syncs(cr: Crypto, h: Oracle, s: System, t: nat, id: string, job: Job, phase: Phase, ack: Ack, saved: bool)
    requires t !in s.tasks && (phase == Renamed(ack) || phase == Confirming(ack))
    ensures Played(cr, h, s.(tasks := s.tasks[t := Task(id, job, phase, saved)]), [SyncDir(t), Reply(t)])
      == Some(s.(dur := s.cur, lost := s.loose, acks := s.acks + [(id, ack)]))
  {
    var s1 := s.(tasks := s.tasks[t := Task(id, job, phase, saved)]);
    var s2 := s.(dur := s.cur, lost := s.loose);
    var s3 := s2.(tasks := s.tasks[t := Task(id, job, DirSynced(ack), saved)]);
    assert Advance(Synced(s1), t, DirSynced(ack)).tasks == s3.tasks;
    assert Act(cr, h, s1, SyncDir(t)) == Some(s3);
    Finishes(cr, h, s2, t, id, job, ack, saved);
    hide Act;
    assert [SyncDir(t), Reply(t)][1..] == [Reply(t)];
  }

  lemma Writes(cr: Crypto, h: Oracle, s: System, t: nat, id: string, job: Job, r: Record, ack: Ack)
    requires t !in s.tasks
    ensures Played(cr, h, s.(tasks := s.tasks[t := Task(id, job, Written(r, ack), false)]), [SyncFile(t), Rename(t), SyncDir(t), Reply(t)])
      == Some(Published(s, id, r, ack))
  {
    var s1 := s.(tasks := s.tasks[t := Task(id, job, Written(r, ack), false)]);
    var s2 := s.(tasks := s.tasks[t := Task(id, job, FileSynced(r, ack), true)]);
    var s3 := s.(cur := s.cur[id := r], loose := s.loose - {id});
    var s4 := s3.(tasks := s.tasks[t := Task(id, job, Renamed(ack), true)]);
    assert Advance(Saved(s1, t), t, FileSynced(r, ack)).tasks == s2.tasks;
    assert Act(cr, h, s1, SyncFile(t)) == Some(s2);
    assert Advance(Renaming(s2, t), t, Renamed(ack)).tasks == s4.tasks;
    assert Act(cr, h, s2, Rename(t)) == Some(s4);
    Syncs(cr, h, s3, t, id, job, Renamed(ack), ack, true);
    hide Act;
    assert [SyncFile(t), Rename(t), SyncDir(t), Reply(t)][1..] == [Rename(t), SyncDir(t), Reply(t)];
    assert [Rename(t), SyncDir(t), Reply(t)][1..] == [SyncDir(t), Reply(t)];
    assert Played(cr, h, s2, [Rename(t), SyncDir(t), Reply(t)]) == Some(Published(s, id, r, ack));
  }

  // A handle that finds its contract unlocked and is not disturbed carries out its plan: what it
  // planned to write is visible and durable, what it has to confirm is durable, and both are
  // reported; and without a plan nothing has changed.
  lemma Undisturbed(cr: Crypto, h: Oracle, s: System, t: nat, id: string, job: Job)
    requires Free(s, t, id)
    ensures match Plan(cr, h, s, id, job)
      case None => Played(cr, h, s, Refusal(t, id, job)) == Some(s)
      case Some(Written(r, ack)) => Played(cr, h, s, Writing(t, id, job)) == Some(Published(s, id, r, ack))
      case Some(Confirming(ack)) =>
        Played(cr, h, s, Confirmation(t, id, job)) == Some(s.(dur := s.cur, lost := s.loose, acks := s.acks + [(id, ack)]))
      case Some(_) => false
  {
    hide Plan, Played;
    Planned(cr, h, s, t, id, job);
    PlanShape(cr, h, s, id, job);
    match Plan(cr, h, s, id, job)
    case None =>
    case Some(Written(r, ack)) =>
      PlayedOn(cr, h, s, Refusal(t, id, job), [SyncFile(t), Rename(t), SyncDir(t), Reply(t)]);
      Writes(cr, h, s, t, id, job, r, ack);
      assert Refusal(t, id, job) + [SyncFile(t), Rename(t), SyncDir(t), Reply(t)] == Writing(t, id, job);
    case Some(Confirming(ack)) =>
      PlayedOn(cr, h, s, Refusal(t, id, job), [SyncDir(t), Reply(t)]);
      Syncs(cr, h, s, t, id, job, Confirming(ack), ack, false);
      assert Refusal(t, id, job) + [SyncDir(t), Reply(t)] == Confirmation(t, id, job);
  }

  // A handle begins for any contract ID in its form, and for no other.
  lemma BeginsIff(cr: Crypto, h: Oracle, s: System, t: nat, id: string, job: Job)
    ensures Act(cr, h, s, Begin(t, id, job)).Some? <==> t !in s.tasks && |id| == 64 && forall i | 0 <= i < 64 :: id[i] in "0123456789abcdef"
  {
    ContractIds(id);
    hide ValidContractId;
  }

  // So a new contract is created: at any point of any run, when its ID is free and its specification
  // is JSON, an undisturbed handle ends with its first record durable and reported.
  lemma DueIsCreated(cr: Crypto, h: Oracle, s: System, t: nat, c: ContractState)
    requires SysInv(cr, s) && Free(s, t, c.terms) && c.terms !in s.cur && FreshContract(cr, c) && cr.jsonValid(c.definition.spec)
    ensures Played(cr, h, s, Writing(t, c.terms, Create(c))) == Some(Published(s, c.terms, FirstRecord(c), Created))
  {
    hide Played, SysInv, CreateRecord, FirstRecord, FreshContract;
    FreshRecord(cr, c);
    Undisturbed(cr, h, s, t, c.terms, Create(c));
  }

  lemma FreshRecord(cr: Crypto, c: ContractState)
    requires FreshContract(cr, c)
    ensures CreateRecord(cr, c).Ok? <==> ValidContractId(c.terms) && cr.jsonValid(c.definition.spec)
    ensures CreateRecord(cr, c).Ok? ==> CreateRecord(cr, c).value == FirstRecord(c)
  {
    FreshCreates(cr, c);
    hide RestoredContract, ValidContractId, FirstRecord;
  }

  lemma FreshCreates(cr: Crypto, c: ContractState)
    requires FreshContract(cr, c)
    ensures CreateRecord(cr, c).Ok? <==> ValidContractId(c.terms) && cr.jsonValid(c.definition.spec)
  {
    hide New, CreateRecord, ValidContractId, GoodRecord, Valid, NumberTheory.Pow;
    var kind, buyer, seller, amount, spec, now, deadline, key :| IsNew(cr, c, kind, buyer, seller, amount, spec, now, deadline, key);
    NewTerms(cr, kind, buyer, seller, amount, spec, now, deadline, key);
    CreateGood(cr, kind, buyer, seller, amount, spec, now, deadline, key);
  }

  lemma NewTerms(cr: Crypto, kind: string, buyer: Public, seller: Public, amount: int64, spec: string, now: Time, deadline: Time, key: Option<Key>)
    requires New(cr, kind, buyer, seller, amount, spec, now, deadline, key).Ok?
    ensures New(cr, kind, buyer, seller, amount, spec, now, deadline, key).value.definition.spec == spec
  {
    hide OpenAgreement, SetDeadline, StartSealed;
  }

  // A look at a visible contract shows its history, head, status and consent, and leaves all of it
  // durable.
  lemma LookShows(cr: Crypto, h: Oracle, s: System, t: nat, id: string)
    requires SysInv(cr, s) && Free(s, t, id) && id in s.cur
    ensures s.cur[id].checkpoint.agreement.Some?
    ensures
      var a := StoredState(s.cur[id]);
      Played(cr, h, s, Confirmation(t, id, Look))
        == Some(s.(dur := s.cur, lost := s.loose, acks := s.acks + [(id, Viewed(a.receipts, Tail(a.receipts), a.status, s.cur[id].agreed))]))
  {
    hide Played, RestoredContract, GoodRecord, TaskOk, Extends;
    GoodRestores(cr, s.cur[id], id);
    Undisturbed(cr, h, s, t, id, Look);
  }

  // So an operation that is due is applied: at any point of any run, an undisturbed handle with a
  // granted operation, signed by the right party under a new ID, ends with it reported and durable.
  lemma DueIsApplied(cr: Crypto, h: Oracle, s: System, t: nat, id: string, q: Request) returns (result: OpResult)
    requires SysInv(cr, s) && Free(s, t, id) && id in s.cur
    requires
      var r := s.cur[id];
      r.checkpoint.agreement.Some? ==>
        && ValidOperationId(q.op.id) && OperationSized(q.op) && q.op.id !in r.operations
        && cr.verifyOperation(SignedBy(r, q.op.command.action), q.op, q.signature)
        && Granted(StoredState(r), r.agreed, id, q.op.command, q.now, q.draws, q.s)
    ensures Played(cr, h, s, Writing(t, id, Submit(q))).Some?
    ensures
      var s' := Played(cr, h, s, Writing(t, id, Submit(q))).value;
      && s'.acks == s.acks + [(id, Applied(q.op, result))] && id in s'.dur && s'.dur == s'.cur
      && q.op.id in s'.dur[id].operations && s'.dur[id].operations[q.op.id] == Committed(q.op, q.signature, result)
  {
    hide GoodRecord, Played, TaskOk, RestoredContract, Granted, ValidOperationId, OperationSized, Decide, Extends;
    var r := s.cur[id];
    GoodRestores(cr, r, id);
    CommitIff(cr, h, r, id, q);
    CommitGood(cr, h, r, id, q);
    Undisturbed(cr, h, s, t, id, Submit(q));
    result := Decide(cr, h, r, ContractOf(r, id, StoredState(r)), id, q).result;
  }
}
