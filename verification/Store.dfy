// Stored contracts: the operation index, its replay against the receipts, and the
// idempotent command decision (nex/store.go). Records stand for their JSON and their
// authenticated encryption, which are exact round trips.
module Store {
  import opened Wrappers
  import opened Kernel
  import opened Checkpoint
  import opened Contracts

  datatype OpResult = OpResult(contractId: string, operationId: string, head: Hash, status: Status)

  datatype Committed = Committed(operation: Operation, signature: Signature, result: OpResult)

  datatype Record = Record(version: int, terms: Terms, buyer: Public, seller: Public, agreed: bool,
                           checkpoint: PrivateCheckpoint, operations: map<string, Committed>)

  datatype StoreError =
    | ErrCorruptStore | ErrStoreVersion | ErrNotFound | ErrExists | ErrOperationConflict | ErrBadOperation | ErrForeign
    | ErrSignature | ErrInvalidId | ErrNotNew | ErrCommand(e: ContractError)

  // ---------- identifiers ----------

  predicate HexDigit(c: char) {
    '0' <= c <= '9' || 'a' <= c <= 'f'
  }

  // A contract ID is the lower-case hex of 32 bytes.
  predicate ValidContractId(id: string) {
    |id| == 64 && forall i :: 0 <= i < |id| ==> HexDigit(id[i])
  }

  // White space as Unicode has it.
  predicate Space(c: char) {
    || '\t' <= c <= '\r' || c == ' ' || c == '\U{85}' || c == '\U{A0}' || c == '\U{1680}' || '\U{2000}' <= c <= '\U{200A}'
    || c == '\U{2028}' || c == '\U{2029}' || c == '\U{202F}' || c == '\U{205F}' || c == '\U{3000}'
  }

  // How many bytes a string takes in UTF-8.
  function Utf8Length(s: string): nat {
    if s == "" then 0 else
    (if s[0] < '\U{80}' then 1 else if s[0] < '\U{800}' then 2 else if s[0] < '\U{10000}' then 3 else 4) + Utf8Length(s[1..])
  }

  predicate ValidOperationId(id: string) {
    id != "" && Utf8Length(id) <= 128 && !Space(id[0]) && !Space(id[|id| - 1])
  }

  predicate OperationSized(op: Operation) {
    Utf8Length(op.command.evidence) <= 65536 && Utf8Length(op.command.action) <= 32
  }

  // ---------- replay ----------

  // One committed operation accounts for the receipts from index i on: how many, and the
  // status and consent it leaves.
  datatype Segment = Segment(count: nat, status: Status, consent: bool)

  function SegmentAt(cr: Crypto, a: State, entry: Committed, i: nat, status: Status, consent: bool): Option<Segment>
    requires i < |a.receipts|
  {
    var receipt := a.receipts[i];
    var action := entry.operation.command.action;
    if action == "lock" then
      if status != Open || receipt.action != "seal" || receipt.actor != a.buyer then None
      else Some(Segment(1, Locked, consent))
    else if action == "agree" then
      if status != Locked || consent || receipt.action != "evidence" || receipt.actor != a.seller
         || receipt.note != Text(ConsentNote(cr, entry.signature)) then None
      else Some(Segment(1, Locked, true))
    else if action == "settle" then
      if status != Locked || !consent || receipt.action != "evidence" || receipt.actor != a.buyer
         || receipt.note != Text(entry.operation.command.evidence) || i + 1 >= |a.receipts|
         || a.receipts[i + 1].action != "accept" || a.receipts[i + 1].actor != a.seller then None
      else Some(Segment(2, Accepted, consent))
    else if action == "reject" then
      if status != Locked || receipt.action != "reject" || receipt.actor != a.seller then None
      else Some(Segment(1, Rejected, consent))
    else if action == "expire" then
      if (status != Open && status != Locked) || receipt.action != "expire" || receipt.actor != a.buyer then None
      else Some(Segment(1, Expired, consent))
    else None
  }

  // The segment, when the cached result agrees with it.
  function CheckedSegment(cr: Crypto, a: State, entry: Committed, i: nat, status: Status, consent: bool): (r: Option<Segment>)
    requires i < |a.receipts|
    ensures r.Some? ==> 1 <= r.value.count <= 2 && i + r.value.count <= |a.receipts|
  {
    match SegmentAt(cr, a, entry, i, status, consent)
    case None => None
    case Some(seg) =>
      if entry.result.head != a.receipts[i + seg.count - 1].hash || entry.result.status != seg.status then None
      else Some(seg)
  }

  // No two operations started from the same head.
  predicate HeadsDistinct(ops: map<string, Committed>) {
    forall k, l :: k in ops && l in ops && k != l ==> ops[k].operation.command.head != ops[l].operation.command.head
  }

  // The index by head that the replay consults.
  ghost function ByHead(ops: map<string, Committed>, head: Hash): Option<Committed> {
    if exists k :: k in ops && ops[k].operation.command.head == head then
      var k :| k in ops && ops[k].operation.command.head == head; Some(ops[k])
    else None
  }

  datatype Replayed = Replayed(status: Status, consent: bool, used: nat)

  ghost function Replay(cr: Crypto, a: State, ops: map<string, Committed>, i: nat, status: Status, consent: bool, used: nat): Option<Replayed>
    requires 1 <= i <= |a.receipts|
    decreases |a.receipts| - i
  {
    if i == |a.receipts| then Some(Replayed(status, consent, used))
    else match ByHead(ops, a.receipts[i - 1].hash)
      case None => None
      case Some(entry) =>
        match CheckedSegment(cr, a, entry, i, status, consent)
        case None => None
        case Some(seg) => Replay(cr, a, ops, i + seg.count, seg.status, seg.consent, used + 1)
  }

  predicate EntryOk(cr: Crypto, c: ContractState, id: string, key: string, entry: Committed) {
    && ValidOperationId(key)
    && entry.operation.id == key
    && entry.operation.command.terms == id
    && entry.result.contractId == id
    && entry.result.operationId == key
    && cr.verifyOperation(Signer(c, entry.operation.command.action), entry.operation, entry.signature)
  }

  predicate HeaderOk(cr: Crypto, r: Record, id: string) {
    && r.version == 1
    && cr.validate(r.buyer) && cr.validate(r.seller)
    && cr.jsonValid(r.terms.spec)
    && cr.hashTerms(r.terms) == id
    && r.terms.buyer == cr.idOf(r.buyer) && r.terms.seller == cr.idOf(r.seller)
  }

  predicate TermsMatch(r: Record, id: string, a: State) {
    && a.id == id && a.kind == r.terms.kind && a.buyer == r.terms.buyer && a.seller == r.terms.seller
    && a.amount == r.terms.amount && a.createdAt == r.terms.created && a.deadline == r.terms.deadline
    && a.ledger.Some?
  }

  predicate Preamble(a: State) {
    |a.receipts| >= 2 && a.receipts[0].action == "open" && a.receipts[1].action == "deadline"
  }

  function ContractOf(r: Record, id: string, a: State): ContractState {
    ContractState(a, id, r.buyer, r.seller, r.agreed, r.terms)
  }

  // Everything restore checks, as one condition, and the contract it then builds.
  ghost function RestoredContract(cr: Crypto, r: Record, id: string): Option<ContractState> {
    if !HeaderOk(cr, r, id) then None
    else match Checkpoint.Restore(r.checkpoint)
      case Err(_) => None
      case Ok(a) =>
        var c := ContractOf(r, id, a);
        if !TermsMatch(r, id, a)
           || !(forall k :: k in r.operations ==> EntryOk(cr, c, id, k, r.operations[k]))
           || !HeadsDistinct(r.operations)
           || !Preamble(a)
        then None
        else if Replay(cr, a, r.operations, 2, Open, false, 0) == Some(Replayed(a.status, r.agreed, |r.operations|)) then Some(c)
        else None
  }

  // Rebuilds the contract a record describes, or refuses the record. Map iteration order is
  // arbitrary, as in the source.
  method RestoreRecord(cr: Crypto, r: Record, id: string) returns (res: Result<ContractState, StoreError>)
    ensures match RestoredContract(cr, r, id)
      case None => res == Err(ErrCorruptStore)
      case Some(c) => res == Ok(c)
  {
    if r.version != 1 || !cr.validate(r.buyer) || !cr.validate(r.seller) || !cr.jsonValid(r.terms.spec)
       || cr.hashTerms(r.terms) != id || r.terms.buyer != cr.idOf(r.buyer) || r.terms.seller != cr.idOf(r.seller) {
      return Err(ErrCorruptStore);
    }
    var restored := Checkpoint.Restore(r.checkpoint);
    if restored.Err? {
      return Err(ErrCorruptStore);
    }
    var a := restored.value;
    if !TermsMatch(r, id, a) {
      return Err(ErrCorruptStore);
    }
    var c := ContractOf(r, id, a);
    var ok, byHead := IndexByHead(cr, c, id, r.operations);
    if !ok || !Preamble(a) {
      return Err(ErrCorruptStore);
    }
    var final := ReplayIndex(cr, a, r.operations, byHead);
    if final != Some(Replayed(a.status, r.agreed, |r.operations|)) {
      return Err(ErrCorruptStore);
    }
    return Ok(c);
  }

  method IndexByHead(cr: Crypto, c: ContractState, id: string, ops: map<string, Committed>)
    returns (ok: bool, byHead: map<Hash, Committed>)
    ensures ok <==> (forall k :: k in ops ==> EntryOk(cr, c, id, k, ops[k])) && HeadsDistinct(ops)
    ensures ok ==> forall head :: (if head in byHead then Some(byHead[head]) else None) == ByHead(ops, head)
  {
    hide EntryOk;
    byHead := map[];
    var keys := ops.Keys;
    while keys != {}
      invariant keys <= ops.Keys
      invariant forall k :: k in ops && k !in keys ==> EntryOk(cr, c, id, k, ops[k])
      invariant forall k, l :: (k in ops && l in ops && k !in keys && l !in keys && k != l
                               ==> ops[k].operation.command.head != ops[l].operation.command.head)
      invariant forall k :: (k in ops && k !in keys
                            ==> ops[k].operation.command.head in byHead && byHead[ops[k].operation.command.head] == ops[k])
      invariant forall head :: head in byHead ==> exists k :: k in ops && k !in keys && ops[k].operation.command.head == head
      decreases keys
    {
      var key :| key in keys;
      var entry := ops[key];
      if !EntryOk(cr, c, id, key, entry) {
        return false, map[];
      }
      if entry.operation.command.head in byHead {
        return false, map[];
      }
      byHead := byHead[entry.operation.command.head := entry];
      keys := keys - {key};
    }
    ok := true;
  }

  method ReplayIndex(cr: Crypto, a: State, ops: map<string, Committed>, byHead: map<Hash, Committed>)
    returns (final: Option<Replayed>)
    requires |a.receipts| >= 2
    requires forall head :: (if head in byHead then Some(byHead[head]) else None) == ByHead(ops, head)
    ensures final == Replay(cr, a, ops, 2, Open, false, 0)
  {
    hide CheckedSegment, ByHead;
    var status, consent := Open, false;
    var used := 0;
    var i := 2;
    while i < |a.receipts|
      invariant 2 <= i <= |a.receipts|
      invariant Replay(cr, a, ops, 2, Open, false, 0) == Replay(cr, a, ops, i, status, consent, used)
      decreases |a.receipts| - i
    {
      var head := a.receipts[i - 1].hash;
      assert ByHead(ops, head) == if head in byHead then Some(byHead[head]) else None;
      if head !in byHead {
        return None;
      }
      var seg := CheckedSegment(cr, a, byHead[head], i, status, consent);
      if seg.None? {
        return None;
      }
      status, consent := seg.value.status, seg.value.consent;
      used := used + 1;
      i := i + seg.value.count;
    }
    return Some(Replayed(status, consent, used));
  }

  // ---------- what replay certifies ----------

  // The operations of order account, one after another and without gap or overlap, for the
  // receipts from i up to j, taking the machine from (status, consent) to (final, agreed).
  ghost predicate Accounts(cr: Crypto, a: State, ops: map<string, Committed>, order: seq<string>, i: nat, j: nat,
                           status: Status, consent: bool, final: Status, agreed: bool)
    requires 1 <= i <= j <= |a.receipts|
    decreases |order|
  {
    if order == [] then i == j && status == final && consent == agreed
    else
      && i < j
      && order[0] in ops
      && ops[order[0]].operation.command.head == a.receipts[i - 1].hash
      && var seg := CheckedSegment(cr, a, ops[order[0]], i, status, consent);
         && seg.Some?
         && i + seg.value.count <= j
         && Accounts(cr, a, ops, order[1..], i + seg.value.count, j, seg.value.status, seg.value.consent, final, agreed)
  }

  predicate NoRepeats(order: seq<string>) {
    forall i, j :: 0 <= i < j < |order| ==> order[i] != order[j]
  }

  // Receipt hashes along a verified chain never repeat.
  lemma ChainHashesDistinct(id: string, receipts: seq<Receipt>, i: nat, j: nat)
    requires ChainOk(id, receipts) && i < j < |receipts|
    ensures receipts[i].hash != receipts[j].hash
  {
  }

  lemma ByHeadUnique(ops: map<string, Committed>, k: string)
    requires HeadsDistinct(ops) && k in ops
    ensures ByHead(ops, ops[k].operation.command.head) == Some(ops[k])
  {
  }

  // Each operation of an accounting starts from the hash of a receipt at or after i - 1.
  lemma {:induction false} AccountsHeads(cr: Crypto, a: State, ops: map<string, Committed>, order: seq<string>, i: nat, j: nat,
                      status: Status, consent: bool, final: Status, agreed: bool, n: nat)
    requires 1 <= i <= j <= |a.receipts| && n < |order|
    requires Accounts(cr, a, ops, order, i, j, status, consent, final, agreed)
    ensures order[n] in ops
    ensures exists m :: i - 1 <= m < j - 1 && a.receipts[m].hash == ops[order[n]].operation.command.head
    decreases |order|
  {
    if n > 0 {
      var seg := CheckedSegment(cr, a, ops[order[0]], i, status, consent).value;
      AccountsHeads(cr, a, ops, order[1..], i + seg.count, j, seg.status, seg.consent, final, agreed, n - 1);
    } else {
      assert a.receipts[i - 1].hash == ops[order[0]].operation.command.head;
    }
  }

  lemma {:induction false} AccountsDistinct(cr: Crypto, a: State, ops: map<string, Committed>, order: seq<string>, i: nat, j: nat,
                         status: Status, consent: bool, final: Status, agreed: bool)
    requires ChainOk(a.id, a.receipts) && 1 <= i <= j <= |a.receipts|
    requires Accounts(cr, a, ops, order, i, j, status, consent, final, agreed)
    ensures NoRepeats(order)
    decreases |order|
  {
    hide ChainOk, CheckedSegment;
    if order != [] {
      var seg := CheckedSegment(cr, a, ops[order[0]], i, status, consent).value;
      AccountsDistinct(cr, a, ops, order[1..], i + seg.count, j, seg.status, seg.consent, final, agreed);
      forall n | 0 < n < |order|
        ensures order[n] != order[0]
      {
        AccountsHeads(cr, a, ops, order[1..], i + seg.count, j, seg.status, seg.consent, final, agreed, n - 1);
        var m :| i + seg.count - 1 <= m < j - 1 && a.receipts[m].hash == ops[order[n]].operation.command.head;
        ChainHashesDistinct(a.id, a.receipts, i - 1, m);
      }
    }
  }

  // A replay that succeeds goes on behind the segment of the entry that starts from the current head.
  lemma NextSegment(cr: Crypto, a: State, ops: map<string, Committed>, i: nat, status: Status, consent: bool, used: nat)
    returns (key: string, seg: Segment)
    requires 1 <= i < |a.receipts| && Replay(cr, a, ops, i, status, consent, used).Some?
    ensures key in ops && ops[key].operation.command.head == a.receipts[i - 1].hash
    ensures CheckedSegment(cr, a, ops[key], i, status, consent) == Some(seg)
    ensures Replay(cr, a, ops, i, status, consent, used) == Replay(cr, a, ops, i + seg.count, seg.status, seg.consent, used + 1)
  {
    hide CheckedSegment;
    var head := a.receipts[i - 1].hash;
    key :| key in ops && ops[key].operation.command.head == head && ByHead(ops, head) == Some(ops[key]);
    seg := CheckedSegment(cr, a, ops[key], i, status, consent).value;
  }

  // An accounting begins with one operation and goes on with another accounting.
  lemma AccountsCons(cr: Crypto, a: State, ops: map<string, Committed>, key: string, rest: seq<string>, i: nat, j: nat,
                     status: Status, consent: bool, seg: Segment, final: Status, agreed: bool)
    requires 1 <= i < j <= |a.receipts| && key in ops && ops[key].operation.command.head == a.receipts[i - 1].hash
    requires CheckedSegment(cr, a, ops[key], i, status, consent) == Some(seg) && i + seg.count <= j
    requires Accounts(cr, a, ops, rest, i + seg.count, j, seg.status, seg.consent, final, agreed)
    ensures Accounts(cr, a, ops, [key] + rest, i, j, status, consent, final, agreed)
  {
    hide CheckedSegment;
    assert ([key] + rest)[1..] == rest;
  }

  // Replay succeeds exactly along an accounting of everything from i on.
  lemma {:induction false} ReplayFindsAccounts(cr: Crypto, a: State, ops: map<string, Committed>, i: nat, status: Status, consent: bool, used: nat)
    returns (order: seq<string>)
    requires 1 <= i <= |a.receipts| && Replay(cr, a, ops, i, status, consent, used).Some?
    ensures
      var final := Replay(cr, a, ops, i, status, consent, used).value;
      && Accounts(cr, a, ops, order, i, |a.receipts|, status, consent, final.status, final.consent)
      && final.used == used + |order|
    decreases |a.receipts| - i
  {
    hide CheckedSegment;
    if i == |a.receipts| {
      order := [];
    } else {
      var key, seg := NextSegment(cr, a, ops, i, status, consent, used);
      hide Replay, ByHead, Accounts;
      var rest := ReplayFindsAccounts(cr, a, ops, i + seg.count, seg.status, seg.consent, used + 1);
      order := [key] + rest;
      var final := Replay(cr, a, ops, i, status, consent, used).value;
      AccountsCons(cr, a, ops, key, rest, i, |a.receipts|, status, consent, seg, final.status, final.consent);
    }
  }

  lemma {:induction false} AccountsReplays(cr: Crypto, a: State, ops: map<string, Committed>, order: seq<string>, i: nat,
                        status: Status, consent: bool, final: Status, agreed: bool, used: nat)
    requires 1 <= i <= |a.receipts| && HeadsDistinct(ops)
    requires Accounts(cr, a, ops, order, i, |a.receipts|, status, consent, final, agreed)
    ensures Replay(cr, a, ops, i, status, consent, used) == Some(Replayed(final, agreed, used + |order|))
    decreases |order|
  {
    hide CheckedSegment, ByHead, HeadsDistinct;
    if order != [] {
      var entry := ops[order[0]];
      ByHeadUnique(ops, order[0]);
      var seg := CheckedSegment(cr, a, entry, i, status, consent).value;
      AccountsReplays(cr, a, ops, order[1..], i + seg.count, seg.status, seg.consent, final, agreed, used + 1);
      ReplayStep(cr, a, ops, i, status, consent, used, entry, seg);
      hide Accounts, Replay;
    }
  }

  lemma ReplayStep(cr: Crypto, a: State, ops: map<string, Committed>, i: nat, status: Status, consent: bool, used: nat,
                   entry: Committed, seg: Segment)
    requires 1 <= i < |a.receipts| && ByHead(ops, a.receipts[i - 1].hash) == Some(entry)
    requires CheckedSegment(cr, a, entry, i, status, consent) == Some(seg)
    ensures Replay(cr, a, ops, i, status, consent, used) == Replay(cr, a, ops, i + seg.count, seg.status, seg.consent, used + 1)
  {
    hide CheckedSegment, ByHead;
  }

  lemma {:induction false} FullOrder(order: seq<string>, keys: set<string>)
    requires NoRepeats(order) && (forall n :: 0 <= n < |order| ==> order[n] in keys)
    ensures |order| <= |keys|
    ensures |order| == |keys| ==> forall k :: k in keys ==> k in order
    decreases |order|
  {
    if order != [] {
      var rest, others := order[1..], keys - {order[0]};
      forall n | 0 <= n < |rest|
        ensures rest[n] in others
      {
        assert rest[n] == order[n + 1];
      }
      FullOrder(rest, others);
      assert |others| == |keys| - 1;
      assert forall k :: k in rest ==> k in order;
      assert order[0] in order;
    } else if |keys| == 0 {
      assert keys == {};
    }
  }

  // Every record restore accepts: its operations stand in one order, without repetition,
  // that accounts for exactly the receipts after the opening pair, and its status, consent
  // and per-operation results are those of that run of the command machine.
  lemma RestoreBijection(cr: Crypto, r: Record, id: string) returns (order: seq<string>)
    requires RestoredContract(cr, r, id).Some?
    ensures
      var a := RestoredContract(cr, r, id).value.agreement;
      && |a.receipts| >= 2
      && NoRepeats(order)
      && (forall k :: k in order <==> k in r.operations)
      && Accounts(cr, a, r.operations, order, 2, |a.receipts|, Open, false, a.status, r.agreed)
  {
    hide CheckedSegment, EntryOk, HeaderOk, Checkpoint.Restore, ChainOk, HeadsDistinct;
    RestoreSound(r.checkpoint);
    var a := RestoredContract(cr, r, id).value.agreement;
    order := ReplayFindsAccounts(cr, a, r.operations, 2, Open, false, 0);
    AccountsDistinct(cr, a, r.operations, order, 2, |a.receipts|, Open, false, a.status, r.agreed);
    forall n | 0 <= n < |order|
      ensures order[n] in r.operations
    {
      AccountsHeads(cr, a, r.operations, order, 2, |a.receipts|, Open, false, a.status, r.agreed, n);
    }
    FullOrder(order, r.operations.Keys);
    assert |r.operations| == |r.operations.Keys|;
  }

  // Conversely, an accounting by all operations is all that replay asks for.
  lemma RestoreAcceptsAccounts(cr: Crypto, r: Record, id: string, a: State, order: seq<string>)
    requires HeaderOk(cr, r, id) && Checkpoint.Restore(r.checkpoint) == Ok(a) && TermsMatch(r, id, a) && Preamble(a)
    requires forall k :: k in r.operations ==> EntryOk(cr, ContractOf(r, id, a), id, k, r.operations[k])
    requires HeadsDistinct(r.operations) && |order| == |r.operations|
    requires Accounts(cr, a, r.operations, order, 2, |a.receipts|, Open, false, a.status, r.agreed)
    ensures RestoredContract(cr, r, id) == Some(ContractOf(r, id, a))
  {
    hide CheckedSegment, EntryOk, HeaderOk, Checkpoint.Restore, HeadsDistinct, TermsMatch;
    AccountsReplays(cr, a, r.operations, order, 2, Open, false, a.status, r.agreed, 0);
  }
}
