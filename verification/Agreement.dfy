// The agreement kernel: a bilateral obligation with a hash-chained ledger
// (internal/nexum/agreement.go, internal/nexum/room.go). Receipt hashes are symbolic, so
// they are collision free; time is an integer whose zero is the unset instant.
module Kernel {
  import opened Wrappers
  import opened Paillier
  import opened Ledger

  type Party = string
  type Time = int
  type int64 = x: int | -TWO_63 <= x < TWO_63

  datatype Status = Open | Locked | Accepted | Rejected | Expired

  // Notes that render a value keep the value.
  datatype Note = Text(s: string) | Ciphertext(ct: nat) | SealedProof(amount: int, proof: Proof) | Instant(t: Time)

  datatype Hash = NoHash | HashOf(id: string, seqNo: int, at: Time, action: string, actor: Party, note: Note, prev: Hash)

  datatype Receipt = Receipt(seqNo: int, at: Time, action: string, actor: Party, note: Note, prevHash: Hash, hash: Hash)

  datatype Meter = Meter(costUSD: real, effort: string, budgetUSD: real, maxSteps: int64)

  datatype State = State(
    id: string, kind: string, buyer: Party, seller: Party, amount: int64,
    status: Status, meter: Meter, deadline: Time, createdAt: Time,
    lockedAt: Option<Time>, closedAt: Option<Time>, releasedTo: Party,
    receipts: seq<Receipt>,
    ledger: Option<(Key, seq<nat>)>, sealedLocks: seq<nat>, sealedSum: nat,
    steps: int)

  datatype KernelError =
    | ErrWrongParty | ErrBadState | ErrTakeback | ErrBudget | ErrDoS | ErrZeroAmount | ErrSameParty
    | ErrMissingParty | ErrNotYet | ErrNoDeadline | ErrEmptyCitation | ErrNoSeal | ErrKind | ErrNoteAction
    | ErrSeal(e: LedgerError) | ErrKey(k: Error)

  // ---------- specification ----------

  function HashReceipt(id: string, r: Receipt): Hash {
    HashOf(id, r.seqNo, r.at, r.action, r.actor, r.note, r.prevHash)
  }

  function Tail(receipts: seq<Receipt>): Hash {
    if receipts == [] then NoHash else receipts[|receipts| - 1].hash
  }

  predicate Terminal(s: Status) {
    s == Accepted || s == Rejected || s == Expired
  }

  predicate OverBudget(m: Meter) {
    m.budgetUSD > 0.0 && m.costUSD > m.budgetUSD
  }

  // Whether the meter admits one more receipt.
  predicate HasRoom(a: State) {
    a.steps < a.meter.maxSteps && !OverBudget(a.meter)
  }

  // The next receipt of a chain, with its own hash and its predecessor's.
  function Chained(id: string, receipts: seq<Receipt>, actor: Party, action: string, note: Note, now: Time): Receipt {
    var r := Receipt(|receipts| + 1, now, action, actor, note, Tail(receipts), NoHash);
    r.(hash := HashReceipt(id, r))
  }

  function Append(a: State, actor: Party, action: string, note: Note, now: Time): Result<State, KernelError> {
    if a.steps >= a.meter.maxSteps then Err(ErrDoS)
    else if OverBudget(a.meter) then Err(ErrBudget)
    else Ok(a.(receipts := a.receipts + [Chained(a.id, a.receipts, actor, action, note, now)], steps := a.steps + 1))
  }

  function OpenAgreement(id: string, kind: string, buyer: Party, seller: Party, amount: int64, meter: Meter, now: Time)
    : Result<State, KernelError>
  {
    if kind == "" then Err(ErrKind)
    else OpenWith(id, kind, buyer, seller, amount, meter, now, "agreement opened")
  }

  function OpenWith(id: string, kind: string, buyer: Party, seller: Party, amount: int64, meter: Meter, now: Time, note: string)
    : Result<State, KernelError>
  {
    if buyer == "" || seller == "" then Err(ErrMissingParty)
    else if buyer == seller then Err(ErrSameParty)
    else if amount <= 0 then Err(ErrZeroAmount)
    else
      var m1 := if meter.maxSteps <= 0 then meter.(maxSteps := 8) else meter;
      var m2 := if m1.effort == "" then m1.(effort := "flash") else m1;
      Append(State(id, kind, buyer, seller, amount, Open, m2, 0, now, None, None, "", [], None, [], 0, 0),
             buyer, "open", Text(note), now)
  }

  function Lock(a: State, actor: Party, now: Time): Result<State, KernelError> {
    if actor != a.buyer then Err(ErrWrongParty)
    else if a.status != Open then Err(if Terminal(a.status) then ErrTakeback else ErrBadState)
    else match Append(a, actor, "lock", Text("value locked"), now)
      case Err(e) => Err(e)
      case Ok(b) => Ok(b.(lockedAt := Some(now), status := Locked))
  }

  predicate KeyUsable(a: State) {
    a.ledger.Some? ==> a.ledger.value.0.n > 1 && a.ledger.value.0.n2 > 1
  }

  function Seal(a: State, actor: Party, partial: int64, draws: seq<nat>, now: Time): Result<State, KernelError>
    requires KeyUsable(a)
  {
    if actor != a.buyer then Err(ErrWrongParty)
    else if Terminal(a.status) then Err(ErrTakeback)
    else match a.ledger
      case None => Err(ErrNoSeal)
      case Some((k, rs)) =>
        match SealOf(k, partial, draws)
        case Err(e) => Err(ErrSeal(e))
        case Ok((ct, r)) =>
          match AggregateOf(k, a.sealedLocks + [ct])
          case Err(e) => Err(ErrSeal(e))
          case Ok(sum) =>
            match Append(a, actor, "seal", Ciphertext(ct), now)
            case Err(e) => Err(e)
            case Ok(b) => Ok(b.(ledger := Some((k, rs + [r])), sealedLocks := a.sealedLocks + [ct],
                                sealedSum := sum, status := Locked, lockedAt := Some(now)))
  }

  function Close(a: State, action: string, actor: Party, note: Note, now: Time, to: Party, status: Status): Result<State, KernelError> {
    match Append(a, actor, action, note, now)
    case Err(e) => Err(e)
    case Ok(b) => Ok(b.(closedAt := Some(now), releasedTo := to, status := status))
  }

  function Accept(h: Oracle, a: State, actor: Party, s: int, now: Time): Result<State, KernelError>
    requires KeyUsable(a)
  {
    match a.ledger
    case Some((k, rs)) =>
      if actor != a.seller then Err(ErrWrongParty)
      else if Terminal(a.status) then Err(ErrTakeback)
      else if a.status != Locked || a.sealedLocks == [] then Err(ErrBadState)
      else (match ProofOf(h, k, rs, a.sealedSum, a.amount, s)
        case Err(e) => Err(ErrSeal(e))
        case Ok(proof) =>
          if !Accepts(h, k, a.sealedSum, a.amount, proof) then Err(ErrSeal(ErrSumMismatch))
          else match Close(a, "accept", actor, SealedProof(a.amount, proof), now, a.seller, Accepted)
            case Err(e) => Err(e)
            case Ok(b) => Ok(b.(sealedSum := 0)))
    case None =>
      if actor != a.seller then Err(ErrWrongParty)
      else if a.status != Locked then Err(if Terminal(a.status) then ErrTakeback else ErrBadState)
      else Close(a, "accept", actor, Text("released to seller"), now, a.seller, Accepted)
  }

  function Reject(a: State, actor: Party, now: Time): Result<State, KernelError> {
    if actor != a.seller then Err(ErrWrongParty)
    else if a.status != Locked then Err(if Terminal(a.status) then ErrTakeback else ErrBadState)
    else
      var note := if a.ledger.Some? then "returned to buyer (sum stays sealed)" else "returned to buyer";
      Close(a, "reject", actor, Text(note), now, a.buyer, Rejected)
  }

  function SetDeadline(a: State, actor: Party, deadline: Time, now: Time): Result<State, KernelError> {
    if actor != a.buyer && actor != a.seller then Err(ErrWrongParty)
    else if Terminal(a.status) then Err(ErrTakeback)
    else if deadline <= now then Err(ErrNotYet)
    else match Append(a, actor, "deadline", Instant(deadline), now)
      case Err(e) => Err(e)
      case Ok(b) => Ok(b.(deadline := deadline))
  }

  function Expire(a: State, actor: Party, now: Time): Result<State, KernelError> {
    if actor != a.buyer && actor != a.seller then Err(ErrWrongParty)
    else if a.status != Open && a.status != Locked then Err(ErrTakeback)
    else if a.deadline == 0 then Err(ErrNoDeadline)
    else if now < a.deadline then Err(ErrNotYet)
    else Close(a, "expire", actor, Text("deadline passed, value unlocked"), now, a.buyer, Expired)
  }

  function AddNote(a: State, actor: Party, action: string, citation: string, now: Time): Result<State, KernelError> {
    if actor != a.buyer && actor != a.seller then Err(ErrWrongParty)
    else if Terminal(a.status) then Err(ErrTakeback)
    else if citation == "" then Err(ErrEmptyCitation)
    else if action != "evidence" then Err(ErrNoteAction)
    else Append(a, actor, action, Text(citation), now)
  }

  function AcceptWithEvidence(h: Oracle, a: State, author: Party, actor: Party, citation: string, s: int, now: Time)
    : Result<State, KernelError>
    requires KeyUsable(a)
  {
    match AddNote(a, author, "evidence", citation, now)
    case Err(e) => Err(e)
    case Ok(b) => Accept(h, b, actor, s, now)
  }

  function StartSealed(a: State, key: Option<Key>): Result<State, KernelError> {
    if a.status != Open then Err(ErrBadState)
    else match key
      case None => Err(ErrKey(ErrKeyGen))
      case Some(k) => Ok(a.(ledger := Some((k, []))))
  }

  // Never a legal transition.
  function Takeback(a: State, actor: Party): KernelError {
    if Terminal(a.status) then ErrTakeback
    else if a.status == Locked && actor == a.buyer then ErrTakeback
    else ErrBadState
  }

  // ---------- the hash chain ----------

  // The receipts are numbered from one, each carries its own hash and its predecessor's.
  predicate ChainOk(id: string, receipts: seq<Receipt>) {
    forall i :: 0 <= i < |receipts| ==>
      && receipts[i].seqNo == i + 1
      && receipts[i].prevHash == Tail(receipts[..i])
      && receipts[i].hash == HashReceipt(id, receipts[i])
  }

  method VerifyReceipts(id: string, receipts: seq<Receipt>) returns (ok: bool)
    ensures ok <==> ChainOk(id, receipts)
  {
    var prev := NoHash;
    var i := 0;
    while i < |receipts|
      invariant 0 <= i <= |receipts| && prev == Tail(receipts[..i])
      invariant forall j :: 0 <= j < i ==>
        && receipts[j].seqNo == j + 1
        && receipts[j].prevHash == Tail(receipts[..j])
        && receipts[j].hash == HashReceipt(id, receipts[j])
    {
      var r := receipts[i];
      if r.seqNo != i + 1 {
        return false;
      }
      if r.prevHash != prev {
        return false;
      }
      var want := HashReceipt(id, r);
      if r.hash != want {
        return false;
      }
      prev := r.hash;
      i := i + 1;
      assert receipts[..i][|receipts[..i]| - 1] == receipts[i - 1];
    }
    return true;
  }

  // A seal whose encryption and aggregate succeeded is decided by its receipt.
  lemma SealStaged(a: State, actor: Party, partial: int64, draws: seq<nat>, now: Time, ct: nat, rs: seq<nat>, sum: nat)
    requires KeyUsable(a) && actor == a.buyer && !Terminal(a.status) && a.ledger.Some?
    requires SealOf(a.ledger.value.0, partial, draws).Ok?
    requires SealOf(a.ledger.value.0, partial, draws).value.0 == ct
    requires rs == a.ledger.value.1 + [SealOf(a.ledger.value.0, partial, draws).value.1]
    requires AggregateOf(a.ledger.value.0, a.sealedLocks + [ct]) == Ok(sum)
    ensures Seal(a, actor, partial, draws, now) ==
      match Append(a, actor, "seal", Ciphertext(ct), now)
      case Err(e) => Err(e)
      case Ok(b) => Ok(b.(ledger := Some((a.ledger.value.0, rs)), sealedLocks := a.sealedLocks + [ct],
                          sealedSum := sum, status := Locked, lockedAt := Some(now)))
  {
    hide SealOf, AggregateOf, Append;
  }

  // ---------- the mutable agreement ----------

  class Agreement {
    const id: string
    const kind: string
    const buyer: Party
    const seller: Party
    const amount: int64
    const meter: Meter
    const createdAt: Time
    var status: Status
    var deadline: Time
    var lockedAt: Option<Time>
    var closedAt: Option<Time>
    var releasedTo: Party
    var receipts: seq<Receipt>
    var ledger: EncryptedLedger?
    var sealedLocks: seq<nat>
    var sealedSum: nat
    var steps: int

    ghost function View(): State
      reads this, ledger
    {
      State(id, kind, buyer, seller, amount, status, meter, deadline, createdAt, lockedAt, closedAt, releasedTo,
            receipts, if ledger == null then None else Some((ledger.p, ledger.rs)), sealedLocks, sealedSum, steps)
    }

    constructor (id: string, kind: string, buyer: Party, seller: Party, amount: int64, meter: Meter, now: Time)
      ensures View() == State(id, kind, buyer, seller, amount, Open, meter, 0, now, None, None, "", [], None, [], 0, 0)
    {
      this.id, this.kind, this.buyer, this.seller, this.amount := id, kind, buyer, seller, amount;
      this.meter, createdAt := meter, now;
      status, deadline, lockedAt, closedAt, releasedTo := Open, 0, None, None, "";
      receipts, ledger, sealedLocks, sealedSum, steps := [], null, [], 0, 0;
    }

    // A shallow copy: the ledger is shared.
    constructor Copy(a: Agreement)
      ensures View() == a.View() && ledger == a.ledger
    {
      id, kind, buyer, seller, amount := a.id, a.kind, a.buyer, a.seller, a.amount;
      meter, createdAt := a.meter, a.createdAt;
      status, deadline, lockedAt, closedAt, releasedTo := a.status, a.deadline, a.lockedAt, a.closedAt, a.releasedTo;
      receipts, ledger, sealedLocks, sealedSum, steps := a.receipts, a.ledger, a.sealedLocks, a.sealedSum, a.steps;
    }

    // Overwrites this agreement with a copy of itself that has moved on.
    method Assign(a: Agreement)
      requires a.id == id && a.kind == kind && a.buyer == buyer && a.seller == seller && a.amount == amount
      requires a.meter == meter && a.createdAt == createdAt
      modifies this
      ensures View() == old(a.View()) && ledger == old(a.ledger)
    {
      status, deadline, lockedAt, closedAt, releasedTo := a.status, a.deadline, a.lockedAt, a.closedAt, a.releasedTo;
      receipts, ledger, sealedLocks, sealedSum, steps := a.receipts, a.ledger, a.sealedLocks, a.sealedSum, a.steps;
    }

    static method Start(id: string, kind: string, buyer: Party, seller: Party, amount: int64, meter: Meter, now: Time, note: string)
      returns (r: Result<Agreement, KernelError>)
      ensures match OpenWith(id, kind, buyer, seller, amount, meter, now, note)
        case Err(e) => r == Err(e)
        case Ok(a) => r.Ok? && fresh(r.value) && r.value.View() == a
    {
      if buyer == "" || seller == "" {
        return Err(ErrMissingParty);
      }
      if buyer == seller {
        return Err(ErrSameParty);
      }
      if amount <= 0 {
        return Err(ErrZeroAmount);
      }
      var m := meter;
      if m.maxSteps <= 0 {
        m := m.(maxSteps := 8);
      }
      if m.effort == "" {
        m := m.(effort := "flash");
      }
      var a := new Agreement(id, kind, buyer, seller, amount, m, now);
      var err := a.AppendReceipt(buyer, "open", Text(note), now);
      if err.Some? {
        return Err(err.value);
      }
      return Ok(a);
    }

    method AppendReceipt(actor: Party, action: string, note: Note, now: Time) returns (err: Option<KernelError>)
      modifies this`receipts, this`steps
      ensures match Append(old(View()), actor, action, note, now)
        case Err(e) => err == Some(e) && View() == old(View())
        case Ok(b) => err == None && View() == b
    {
      if steps >= meter.maxSteps {
        return Some(ErrDoS);
      }
      if meter.budgetUSD > 0.0 && meter.costUSD > meter.budgetUSD {
        return Some(ErrBudget);
      }
      var prev := NoHash;
      var n := |receipts|;
      if n > 0 {
        prev := receipts[n - 1].hash;
      }
      var r := Receipt(|receipts| + 1, now, action, actor, note, prev, NoHash);
      r := r.(hash := HashReceipt(id, r));
      receipts := receipts + [r];
      steps := steps + 1;
      return None;
    }

    method LockValue(actor: Party, now: Time) returns (err: Option<KernelError>)
      modifies this
      ensures ledger == old(ledger)
      ensures match Lock(old(View()), actor, now)
        case Err(e) => err == Some(e) && View() == old(View())
        case Ok(b) => err == None && View() == b
    {
      if actor != buyer {
        return Some(ErrWrongParty);
      }
      if status != Open {
        if Terminal(status) {
          return Some(ErrTakeback);
        }
        return Some(ErrBadState);
      }
      err := AppendReceipt(actor, "lock", Text("value locked"), now);
      if err.Some? {
        return;
      }
      lockedAt := Some(now);
      status := Locked;
    }

    // The staged seal works on a clone of the ledger: until the receipt is appended nothing
    // of this agreement, nor of the ledger it holds, has changed.
    method SealLock(actor: Party, partial: int64, draws: seq<nat>, now: Time) returns (err: Option<KernelError>)
      requires KeyUsable(View()) && |draws| == 8
      modifies this
      ensures err.Some? ==> ledger == old(ledger)
      ensures err.None? ==> ledger != null && fresh(ledger)
      ensures match Seal(old(View()), actor, partial, draws, now)
        case Err(e) => err == Some(e) && View() == old(View())
        case Ok(b) => err == None && View() == b
    {
      hide SealOf, AggregateOf, Append;
      if actor != buyer {
        return Some(ErrWrongParty);
      }
      if Terminal(status) {
        return Some(ErrTakeback);
      }
      if ledger == null {
        return Some(ErrNoSeal);
      }
      ghost var was := View();
      var next := ledger.Clone();
      var ct := next.SealLock(partial, draws);
      if ct.Err? {
        return Some(ErrSeal(ct.error));
      }
      var locks := sealedLocks + [ct.value];
      var sum := next.Aggregate(locks);
      if sum.Err? {
        return Some(ErrSeal(sum.error));
      }
      SealStaged(was, actor, partial, draws, now, ct.value, next.rs, sum.value);
      hide Seal;
      err := AppendReceipt(actor, "seal", Ciphertext(ct.value), now);
      if err.Some? {
        return;
      }
      ledger := next;
      sealedLocks := locks;
      sealedSum := sum.value;
      status := Locked;
      lockedAt := Some(now);
    }

    method AcceptSealed(h: Oracle, actor: Party, s: int, now: Time) returns (err: Option<KernelError>)
      requires KeyUsable(View()) && ledger != null
      modifies this
      ensures ledger == old(ledger)
      ensures match Accept(h, old(View()), actor, s, now)
        case Err(e) => err == Some(e) && View() == old(View())
        case Ok(b) => err == None && View() == b
    {
      hide Chained, OverBudget, ProofOf, Accepts;
      if actor != seller {
        return Some(ErrWrongParty);
      }
      if Terminal(status) {
        return Some(ErrTakeback);
      }
      if status != Locked || |sealedLocks| == 0 {
        return Some(ErrBadState);
      }
      var proof := ledger.ProveEqual(h, sealedSum, amount, s);
      if proof.Err? {
        return Some(ErrSeal(proof.error));
      }
      var ok := ledger.VerifyEqual(h, sealedSum, amount, proof.value);
      if !ok {
        return Some(ErrSeal(ErrSumMismatch));
      }
      err := AppendReceipt(actor, "accept", SealedProof(amount, proof.value), now);
      if err.Some? {
        return;
      }
      closedAt := Some(now);
      releasedTo := seller;
      status := Accepted;
      sealedSum := 0;
    }

    method AcceptValue(h: Oracle, actor: Party, s: int, now: Time) returns (err: Option<KernelError>)
      requires KeyUsable(View())
      modifies this
      ensures ledger == old(ledger)
      ensures match Accept(h, old(View()), actor, s, now)
        case Err(e) => err == Some(e) && View() == old(View())
        case Ok(b) => err == None && View() == b
    {
      if ledger != null {
        err := AcceptSealed(h, actor, s, now);
        return;
      }
      if actor != seller {
        return Some(ErrWrongParty);
      }
      if status != Locked {
        if Terminal(status) {
          return Some(ErrTakeback);
        }
        return Some(ErrBadState);
      }
      err := AppendReceipt(actor, "accept", Text("released to seller"), now);
      if err.Some? {
        return;
      }
      closedAt := Some(now);
      releasedTo := seller;
      status := Accepted;
    }

    method RejectValue(actor: Party, now: Time) returns (err: Option<KernelError>)
      modifies this
      ensures ledger == old(ledger)
      ensures match Reject(old(View()), actor, now)
        case Err(e) => err == Some(e) && View() == old(View())
        case Ok(b) => err == None && View() == b
    {
      if actor != seller {
        return Some(ErrWrongParty);
      }
      if Terminal(status) {
        return Some(ErrTakeback);
      }
      if status != Locked {
        return Some(ErrBadState);
      }
      var note := "returned to buyer";
      if ledger != null {
        note := "returned to buyer (sum stays sealed)";
      }
      err := AppendReceipt(actor, "reject", Text(note), now);
      if err.Some? {
        return;
      }
      closedAt := Some(now);
      releasedTo := buyer;
      status := Rejected;
    }

    method FixDeadline(actor: Party, t: Time, now: Time) returns (err: Option<KernelError>)
      modifies this
      ensures ledger == old(ledger)
      ensures match SetDeadline(old(View()), actor, t, now)
        case Err(e) => err == Some(e) && View() == old(View())
        case Ok(b) => err == None && View() == b
    {
      if actor != buyer && actor != seller {
        return Some(ErrWrongParty);
      }
      if Terminal(status) {
        return Some(ErrTakeback);
      }
      if !(t > now) {
        return Some(ErrNotYet);
      }
      err := AppendReceipt(actor, "deadline", Instant(t), now);
      if err.Some? {
        return;
      }
      deadline := t;
    }

    method ExpireValue(actor: Party, now: Time) returns (err: Option<KernelError>)
      modifies this
      ensures ledger == old(ledger)
      ensures match Expire(old(View()), actor, now)
        case Err(e) => err == Some(e) && View() == old(View())
        case Ok(b) => err == None && View() == b
    {
      if actor != buyer && actor != seller {
        return Some(ErrWrongParty);
      }
      if status != Open && status != Locked {
        return Some(ErrTakeback);
      }
      if deadline == 0 {
        return Some(ErrNoDeadline);
      }
      if now < deadline {
        return Some(ErrNotYet);
      }
      err := AppendReceipt(actor, "expire", Text("deadline passed, value unlocked"), now);
      if err.Some? {
        return;
      }
      closedAt := Some(now);
      releasedTo := buyer;
      status := Expired;
    }

    method RecordNote(actor: Party, action: string, citation: string, now: Time) returns (err: Option<KernelError>)
      modifies this
      ensures ledger == old(ledger)
      ensures match AddNote(old(View()), actor, action, citation, now)
        case Err(e) => err == Some(e) && View() == old(View())
        case Ok(b) => err == None && View() == b
    {
      if actor != buyer && actor != seller {
        return Some(ErrWrongParty);
      }
      if Terminal(status) {
        return Some(ErrTakeback);
      }
      if citation == "" {
        return Some(ErrEmptyCitation);
      }
      if action != "evidence" {
        return Some(ErrNoteAction);
      }
      err := AppendReceipt(actor, action, Text(citation), now);
    }

    // The note and the acceptance are tried on a shallow copy that shares the ledger, and
    // copied back only when both succeed.
    method SettleWithEvidence(h: Oracle, author: Party, actor: Party, citation: string, s: int, now: Time)
      returns (err: Option<KernelError>)
      requires KeyUsable(View())
      modifies this
      ensures ledger == old(ledger)
      ensures match AcceptWithEvidence(h, old(View()), author, actor, citation, s, now)
        case Err(e) => err == Some(e) && View() == old(View())
        case Ok(b) => err == None && View() == b
    {
      hide Accept, AddNote;
      ghost var before := View();
      var next := new Agreement.Copy(this);
      assert next.View() == before;
      err := next.RecordNote(author, "evidence", citation, now);
      if err.Some? {
        return;
      }
      assert KeyUsable(next.View());
      err := next.AcceptValue(h, actor, s, now);
      if err.Some? {
        return;
      }
      Assign(next);
    }

    method ArmSealed(bits: int, draws: seq<(nat, nat)>) returns (err: Option<KernelError>)
      requires PrimeDraws(draws, HalfBits(bits))
      modifies this
      ensures forall d :: d in draws ==> d.0 > 2 && d.1 > 2
      ensures match StartSealed(old(View()), FirstKey(draws))
        case Err(e) => err == Some(e) && View() == old(View()) && ledger == old(ledger)
        case Ok(b) => err == None && View() == b && fresh(ledger)
    {
      PrimeDrawsLarge(draws, HalfBits(bits));
      if status != Open {
        return Some(ErrBadState);
      }
      var key := NewPaillier(bits, draws);
      if key.Err? {
        return Some(ErrKey(key.error));
      }
      ledger := new EncryptedLedger(key.value);
      return None;
    }
  }
}
