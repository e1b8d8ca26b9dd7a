// Private checkpoints of a whole agreement (internal/nexum/checkpoint.go).
module Checkpoint {
  import opened Wrappers
  import opened NumberTheory
  import opened Paillier
  import opened Ledger
  import opened Kernel
  import opened KernelRuns

  datatype PrivateCheckpoint = PrivateCheckpoint(version: int, agreement: Option<State>, steps: int, ledger: Option<LedgerState>)

  datatype InvalidCheckpoint = InvalidCheckpoint

  function Take(a: State): PrivateCheckpoint {
    PrivateCheckpoint(1, Some(a), a.steps, if a.ledger.Some? then Some(StateOf(a.ledger.value.0, a.ledger.value.1)) else None)
  }

  // What JSON keeps of an agreement: neither the ledger nor the step counter.
  function Serialized(a: State): State {
    a.(ledger := None, steps := 0)
  }

  predicate StampsOk(a: State) {
    match a.status
    case Open => a.lockedAt.None? && a.closedAt.None? && a.releasedTo == ""
    case Locked => a.lockedAt.Some? && a.closedAt.None? && a.releasedTo == ""
    case Accepted => a.lockedAt.Some? && a.closedAt.Some? && a.releasedTo == a.seller
    case Rejected => a.lockedAt.Some? && a.closedAt.Some? && a.releasedTo == a.buyer
    case Expired => a.closedAt.Some? && a.releasedTo == a.buyer
  }

  // The stored aggregate must be the one the stored locks recompute to.
  predicate SumOk(a: State, k: Key)
    requires k.n2 > 0
  {
    if a.sealedLocks == [] then a.sealedSum == 0
    else match AggregateOf(k, a.sealedLocks)
      case Err(_) => false
      case Ok(sum) => if a.status == Accepted then a.sealedSum == 0 else sum == a.sealedSum
  }

  function Restore(s: PrivateCheckpoint): Result<State, InvalidCheckpoint> {
    if s.version != 1 || s.agreement.None? then Err(InvalidCheckpoint)
    else
      var a := Serialized(s.agreement.value);
      if a.id == "" || a.kind == "" || a.buyer == "" || a.seller == "" || a.buyer == a.seller || a.amount <= 0
         || s.steps != |a.receipts| || s.steps < 1 || s.steps > a.meter.maxSteps || a.meter.maxSteps > 128
      then Err(InvalidCheckpoint)
      else if !ChainOk(a.id, a.receipts) then Err(InvalidCheckpoint)
      else
        var b := a.(steps := s.steps);
        if !StampsOk(b) then Err(InvalidCheckpoint)
        else match s.ledger
          case None => if b.sealedLocks != [] || b.sealedSum != 0 then Err(InvalidCheckpoint) else Ok(b)
          case Some(l) =>
            if |l.randomness| != |b.sealedLocks| then Err(InvalidCheckpoint)
            else match Restored(l)
              case Err(_) => Err(InvalidCheckpoint)
              case Ok((k, rs)) => if !SumOk(b, k) then Err(InvalidCheckpoint) else Ok(b.(ledger := Some((k, rs))))
  }

  // The limits a checkpoint imposes beyond what the kernel guarantees.
  predicate Storable(a: State) {
    a.id != "" && a.kind != "" && a.meter.maxSteps <= 128
    && (a.ledger.Some? ==> a.ledger.value.0.n < Pow(256, 1024))
  }

  // A kernel state survives a checkpoint exactly when it is within those limits; otherwise
  // the checkpoint is refused.
  lemma RoundTrip(a: State, ms: seq<int>)
    requires Inv(a, ms)
    ensures Restore(Take(a)) == if Storable(a) then Ok(a) else Err(InvalidCheckpoint)
  {
    hide AggregateOf, ChainOk, Restored, Sealed, Valid, Pow, SumOk, StateOf, TerminalReceipts;
    InvStamps(a, ms);
    if a.ledger.Some? { LedgerPart(a, ms); }
  }

  lemma InvStamps(a: State, ms: seq<int>)
    requires Inv(a, ms)
    ensures StampsOk(a) && (a.ledger.None? ==> a.sealedLocks == [] && a.sealedSum == 0)
  {
    hide AggregateOf, ChainOk, Sealed, Valid, TerminalReceipts;
  }

  lemma LedgerPart(a: State, ms: seq<int>)
    requires Inv(a, ms) && a.ledger.Some?
    ensures
      var (k, rs) := a.ledger.value;
      && k.n2 > 0
      && |StateOf(k, rs).randomness| == |a.sealedLocks|
      && (if k.n < Pow(256, 1024) then Restored(StateOf(k, rs)) == Ok((k, rs)) || a.meter.maxSteps > 128 else Restored(StateOf(k, rs)).Err?)
      && SumOk(a.(ledger := None), k)
  {
    hide AggregateOf, ChainOk, Restored, Cipher, Pow, Unit, Valid, TerminalReceipts;
    var (k, rs) := a.ledger.value;
    SealedUnits(k, ms, rs, a.sealedLocks);
    LedgerRoundTrip(k, rs);
    RestoredOnlyWhole(k, rs);
    if ms != [] { AggregateIsCipher(k, ms, rs, a.sealedLocks); }
  }

  lemma SealedUnits(k: Key, ms: seq<int>, rs: seq<nat>, locks: seq<nat>)
    requires k.n > 0 && k.n2 > 0 && Sealed(k, ms, rs, locks)
    ensures forall r :: r in rs ==> Unit(k, r)
  {
  }

  // A ledger checkpoint of a generated key either comes back whole or is refused.
  lemma RestoredOnlyWhole(k: Key, rs: seq<nat>)
    requires Valid(k) && k.n > 0 && forall r :: r in rs ==> Unit(k, r)
    ensures Restored(StateOf(k, rs)).Ok? ==> Restored(StateOf(k, rs)) == Ok((k, rs))
  {
    KeyCheckpoint.KeyRoundTrip(k);
    FactorsRoundTrip(k, rs);
  }

  // Every agreement any run of the kernel reaches survives its checkpoint.
  lemma ReachableRoundTrip(h: Oracle, states: seq<State>, partials: seq<seq<int>>, calls: seq<Call>, i: nat)
    requires OpenedRun(h, states, partials, calls) && i <= |calls|
    ensures Restore(Take(states[i])) == if Storable(states[i]) then Ok(states[i]) else Err(InvalidCheckpoint)
  {
    RunInv(h, states, partials, calls, i);
    RoundTrip(states[i], partials[i]);
  }

  // An agreement as a checkpoint without a kernel behind it may describe it.
  ghost predicate Sound(a: State) {
    && a.id != "" && a.kind != "" && a.buyer != "" && a.seller != "" && a.buyer != a.seller && a.amount > 0
    && ChainOk(a.id, a.receipts) && a.steps == |a.receipts| && 1 <= a.steps <= a.meter.maxSteps <= 128
    && (a.lockedAt.Some? <== a.status in {Locked, Accepted, Rejected}) && (a.lockedAt.None? <== a.status == Open)
    && (a.closedAt.Some? <==> a.status in {Accepted, Rejected, Expired})
    && a.releasedTo == (if a.status == Accepted then a.seller else if a.status in {Rejected, Expired} then a.buyer else "")
    && match a.ledger
       case None => a.sealedLocks == [] && a.sealedSum == 0
       case Some((k, rs)) =>
         && k.n2 > 0 && |rs| == |a.sealedLocks|
         && if a.sealedLocks == [] then a.sealedSum == 0
            else AggregateOf(k, a.sealedLocks).Ok? && a.sealedSum == if a.status == Accepted then 0 else AggregateOf(k, a.sealedLocks).value
  }

  // The stored agreement with the stored counter and ledger, when the ledger restores.
  predicate Describes(s: PrivateCheckpoint, a: State) {
    && s.version == 1 && s.agreement.Some?
    && a == s.agreement.value.(steps := s.steps, ledger := a.ledger)
    && match s.ledger
       case None => a.ledger == None
       case Some(l) => |l.randomness| == |a.sealedLocks| && Restored(l).Ok? && a.ledger == Some(Restored(l).value)
  }

  // A checkpoint, whoever wrote it, restores exactly to the sound agreement it describes: the chain
  // verifies, the counter is the number of receipts, the time stamps and the beneficiary are those
  // of the status, and the aggregate is the one its locks recompute to.
  lemma RestoreIff(s: PrivateCheckpoint, a: State)
    ensures Restore(s) == Ok(a) <==> Describes(s, a) && Sound(a)
  {
    hide AggregateOf, ChainOk, Restored;
    if s.ledger.Some? { RestoredShape(s.ledger.value); }
  }

  // So whatever is restored verifies, meters its receipts and agrees with its own aggregate, under
  // a key that works.
  lemma RestoreSound(s: PrivateCheckpoint)
    requires Restore(s).Ok?
    ensures Sound(Restore(s).value) && KeyUsable(Restore(s).value) && Describes(s, Restore(s).value)
  {
    hide Restore, Sound;
    var a := Restore(s).value;
    RestoreIff(s, a);
    if s.ledger.Some? { RestoredShape(s.ledger.value); }
  }

  lemma RestoredShape(l: LedgerState)
    ensures Restored(l).Ok? ==>
      var (k, rs) := Restored(l).value; k.n > 1 && k.n2 > 1 && |rs| == |l.randomness|
  {
    if Restored(l).Ok? {
      var (k, rs) := Restored(l).value;
      MulMonotone(2, k.n, k.n);
      FactorsLength(k, |l.key.n|, l.randomness);
    }
  }

  lemma {:induction false} FactorsLength(k: Key, width: nat, bs: seq<seq<BigEndian.byte>>)
    ensures FactorsOf(k, width, bs).Some? ==> |FactorsOf(k, width, bs).value| == |bs|
  {
    hide FactorOf;
    if bs != [] { FactorsLength(k, width, bs[..|bs| - 1]); }
  }
}
