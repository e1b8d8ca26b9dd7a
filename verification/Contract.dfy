// The signed command policy over one sealed agreement (nex/contract.go). Signatures,
// identity validation and SHA-256 over JSON are arbitrary functions.
module Contracts {
  import opened Wrappers
  import opened Paillier
  import opened Kernel

  type Signature = seq<int>

  datatype Public = Public(signing: seq<int>, encryption: seq<int>)

  datatype Command = Command(terms: string, head: Hash, action: string, evidence: string)

  // Operations are commands under a caller's stable identifier (nex/store.go).
  datatype Operation = Operation(id: string, command: Command)

  datatype Terms = Terms(kind: string, buyer: string, seller: string, amount: int64, spec: string, created: Time, deadline: Time)

  // The library functions the policy relies on.
  datatype Crypto = Crypto(
    validate: Public -> bool,
    idOf: Public -> string,
    hashTerms: Terms -> string,
    hashSignature: Signature -> string,
    jsonValid: string -> bool,
    verifyOperation: (Public, Operation, Signature) -> bool,
    verifyCommand: (Public, Command, Signature) -> bool)

  datatype ContractState = ContractState(agreement: State, terms: string, buyer: Public, seller: Public, agreed: bool, definition: Terms)

  datatype ContractError =
    | ErrInvalidParty | ErrKernel(e: KernelError) | ErrStale | ErrWindow | ErrAlreadyLocked | ErrCannotAgree
    | ErrConsent | ErrUnknownCommand | ErrInvalidSignature

  const MODULUS_BITS := 2048

  const METER := Meter(0.0, "", 0.0, 128)

  // key is what key generation drew for the sealed ledger.
  function New(cr: Crypto, kind: string, buyer: Public, seller: Public, amount: int64, spec: string, now: Time, deadline: Time, key: Option<Key>)
    : Result<ContractState, ContractError>
  {
    if !cr.validate(buyer) || !cr.validate(seller) then Err(ErrInvalidParty)
    else
      var definition := Terms(kind, cr.idOf(buyer), cr.idOf(seller), amount, spec, now, deadline);
      var id := cr.hashTerms(definition);
      match OpenAgreement(id, kind, cr.idOf(buyer), cr.idOf(seller), amount, METER, now)
      case Err(e) => Err(ErrKernel(e))
      case Ok(a) =>
        match SetDeadline(a, a.buyer, deadline, now)
        case Err(e) => Err(ErrKernel(e))
        case Ok(b) =>
          match StartSealed(b, key)
          case Err(e) => Err(ErrKernel(e))
          case Ok(c) => Ok(ContractState(c, id, buyer, seller, false, definition))
  }

  function Head(c: ContractState): Hash {
    Tail(c.agreement.receipts)
  }

  function Signer(c: ContractState, action: string): Public {
    if action == "agree" || action == "reject" then c.seller else c.buyer
  }

  function ConsentNote(cr: Crypto, sig: Signature): string {
    "signed-consent:" + cr.hashSignature(sig)
  }

  // draws and s are the random draws a lock and a settlement consume.
  function ApplyVerified(cr: Crypto, h: Oracle, c: ContractState, cmd: Command, sig: Signature, now: Time, draws: seq<nat>, s: int)
    : Result<ContractState, ContractError>
    requires KeyUsable(c.agreement)
  {
    var a := c.agreement;
    if cmd.terms != c.terms || cmd.head != Head(c) then Err(ErrStale)
    else if cmd.action == "expire" then Moved(c, Expire(a, a.buyer, now))
    else if now < a.createdAt || now >= a.deadline then Err(ErrWindow)
    else if cmd.action == "lock" then
      if a.status != Open then Err(ErrAlreadyLocked)
      else Moved(c, Kernel.Seal(a, a.buyer, a.amount, draws, now))
    else if cmd.action == "agree" then
      if a.status != Locked || c.agreed then Err(ErrCannotAgree)
      else Moved(c.(agreed := true), AddNote(a, a.seller, "evidence", ConsentNote(cr, sig), now))
    else if cmd.action == "settle" then
      if !c.agreed || cmd.evidence == "" || a.status != Locked then Err(ErrConsent)
      else Moved(c, AcceptWithEvidence(h, a, a.buyer, a.seller, cmd.evidence, s, now))
    else if cmd.action == "reject" then Moved(c, Reject(a, a.seller, now))
    else Err(ErrUnknownCommand)
  }

  function Moved(c: ContractState, r: Result<State, KernelError>): Result<ContractState, ContractError> {
    match r
    case Err(e) => Err(ErrKernel(e))
    case Ok(a) => Ok(c.(agreement := a))
  }

  function Apply(cr: Crypto, h: Oracle, c: ContractState, cmd: Command, sig: Signature, now: Time, draws: seq<nat>, s: int)
    : Result<ContractState, ContractError>
    requires KeyUsable(c.agreement)
  {
    if !cr.verifyCommand(Signer(c, cmd.action), cmd, sig) then Err(ErrInvalidSignature)
    else ApplyVerified(cr, h, c, cmd, sig, now, draws, s)
  }

  // ---------- the mutable contract ----------

  class Contract {
    const agreement: Agreement
    const terms: string
    const buyer: Public
    const seller: Public
    const definition: Terms
    var agreed: bool

    ghost function View(): ContractState
      reads this, agreement, agreement.ledger
    {
      ContractState(agreement.View(), terms, buyer, seller, agreed, definition)
    }

    constructor (agreement: Agreement, terms: string, buyer: Public, seller: Public, definition: Terms)
      ensures this.agreement == agreement
      ensures View() == ContractState(agreement.View(), terms, buyer, seller, false, definition)
    {
      this.agreement, this.terms, this.buyer, this.seller, this.definition := agreement, terms, buyer, seller, definition;
      agreed := false;
    }

    method CurrentHead() returns (r: Hash)
      requires agreement.receipts != []
      ensures r == Head(View())
    {
      r := agreement.receipts[|agreement.receipts| - 1].hash;
    }

    method ApplyCommand(cr: Crypto, h: Oracle, cmd: Command, sig: Signature, now: Time, draws: seq<nat>, s: int)
      returns (err: Option<ContractError>)
      requires KeyUsable(View().agreement) && agreement.receipts != [] && |draws| == 8
      modifies this, agreement
      ensures match Apply(cr, h, old(View()), cmd, sig, now, draws, s)
        case Err(e) => err == Some(e) && View() == old(View())
        case Ok(c) => err == None && View() == c
    {
      hide ApplyVerified;
      if !cr.verifyCommand(if cmd.action == "agree" || cmd.action == "reject" then seller else buyer, cmd, sig) {
        return Some(ErrInvalidSignature);
      }
      err := Verified(cr, h, cmd, sig, now, draws, s);
    }

    method Verified(cr: Crypto, h: Oracle, cmd: Command, sig: Signature, now: Time, draws: seq<nat>, s: int)
      returns (err: Option<ContractError>)
      requires KeyUsable(View().agreement) && agreement.receipts != [] && |draws| == 8
      modifies this, agreement
      ensures match ApplyVerified(cr, h, old(View()), cmd, sig, now, draws, s)
        case Err(e) => err == Some(e) && View() == old(View())
        case Ok(c) => err == None && View() == c
    {
      hide Kernel.Seal, AcceptWithEvidence, Reject, Expire, AddNote;
      var a := agreement;
      var head := CurrentHead();
      if cmd.terms != terms || cmd.head != head {
        return Some(ErrStale);
      }
      var k: Option<KernelError>;
      if cmd.action == "expire" {
        k := a.ExpireValue(a.buyer, now);
        return Wrapped(k);
      }
      if now < a.createdAt || !(now < a.deadline) {
        return Some(ErrWindow);
      }
      match cmd.action {
        case "lock" =>
          if a.status != Open {
            return Some(ErrAlreadyLocked);
          }
          k := a.SealLock(a.buyer, a.amount, draws, now);
          return Wrapped(k);
        case "agree" =>
          if a.status != Locked || agreed {
            return Some(ErrCannotAgree);
          }
          k := a.RecordNote(a.seller, "evidence", ConsentNote(cr, sig), now);
          if k.Some? {
            return Wrapped(k);
          }
          agreed := true;
          return None;
        case "settle" =>
          if !agreed || cmd.evidence == "" || a.status != Locked {
            return Some(ErrConsent);
          }
          k := a.SettleWithEvidence(h, a.buyer, a.seller, cmd.evidence, s, now);
          return Wrapped(k);
        case "reject" =>
          k := a.RejectValue(a.seller, now);
          return Wrapped(k);
        case _ =>
          return Some(ErrUnknownCommand);
      }
    }
  }

  function Wrapped(k: Option<KernelError>): Option<ContractError> {
    match k
    case None => None
    case Some(e) => Some(ErrKernel(e))
  }
}
