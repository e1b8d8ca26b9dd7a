// What the receipts alone tell of an agreement: its status, its deadline, its time stamps, who was
// paid and the sealed locks; and which receipt may follow which history
// (internal/nexum/agreement.go, internal/nexum/room.go).
module Chronicle {
  import opened Wrappers
  import Paillier
  import opened Ledger
  import opened Kernel

  datatype Story = Story(
    status: Status, deadline: Time, lockedAt: Option<Time>, closedAt: Option<Time>, releasedTo: Party, locks: seq<nat>)

  const BEGINNING := Story(Open, 0, None, None, "", [])

  // One more receipt.
  function Next(buyer: Party, seller: Party, s: Story, r: Receipt): Story {
    match r.action
    case "lock" => s.(status := Locked, lockedAt := Some(r.at))
    case "seal" => s.(status := Locked, lockedAt := Some(r.at), locks := s.locks + if r.note.Ciphertext? then [r.note.ct] else [])
    case "accept" => s.(status := Accepted, closedAt := Some(r.at), releasedTo := seller)
    case "reject" => s.(status := Rejected, closedAt := Some(r.at), releasedTo := buyer)
    case "expire" => s.(status := Expired, closedAt := Some(r.at), releasedTo := buyer)
    case "deadline" => if r.note.Instant? then s.(deadline := r.note.t) else s
    case _ => s
  }

  function Tell(buyer: Party, seller: Party, receipts: seq<Receipt>): Story {
    if receipts == [] then BEGINNING
    else Next(buyer, seller, Tell(buyer, seller, receipts[..|receipts| - 1]), receipts[|receipts| - 1])
  }

  predicate Running(s: Status) {
    s == Open || s == Locked
  }

  // Who may have a receipt of which kind written, and when.
  predicate Allowed(buyer: Party, seller: Party, s: Story, r: Receipt) {
    match r.action
    case "lock" => r.actor == buyer && s.status == Open
    case "seal" => r.actor == buyer && Running(s.status) && r.note.Ciphertext?
    case "accept" => r.actor == seller && s.status == Locked
    case "reject" => r.actor == seller && s.status == Locked
    case "expire" => r.actor in {buyer, seller} && Running(s.status) && s.deadline != 0 && s.deadline <= r.at
    case "deadline" => r.actor in {buyer, seller} && Running(s.status) && r.note.Instant? && r.at < r.note.t
    case "evidence" => r.actor in {buyer, seller} && Running(s.status) && r.note.Text? && r.note.s != ""
    case _ => false
  }

  // The first receipt opens; every later one was allowed by the story so far.
  ghost predicate Lawful(buyer: Party, seller: Party, receipts: seq<Receipt>) {
    && receipts != [] && receipts[0].action == "open" && receipts[0].actor == buyer
    && forall i | 0 < i < |receipts| :: Allowed(buyer, seller, Tell(buyer, seller, receipts[..i]), receipts[i])
  }

  function StoryOf(a: State): Story {
    Story(a.status, a.deadline, a.lockedAt, a.closedAt, a.releasedTo, a.sealedLocks)
  }

  ghost predicate Chronicled(a: State) {
    && Lawful(a.buyer, a.seller, a.receipts)
    && StoryOf(a) == Tell(a.buyer, a.seller, a.receipts)
    && a.receipts[0].at == a.createdAt
  }

  // A call that writes an allowed receipt and moves the fields as the receipt says.
  lemma Continued(a: State, b: State, r: Receipt)
    requires Chronicled(a) && b.receipts == a.receipts + [r]
    requires b.buyer == a.buyer && b.seller == a.seller && b.createdAt == a.createdAt
    requires Allowed(a.buyer, a.seller, StoryOf(a), r) && StoryOf(b) == Next(a.buyer, a.seller, StoryOf(a), r)
    ensures Chronicled(b)
  {
    hide Allowed, Next;
    var n := |a.receipts|;
    assert b.receipts[..n] == a.receipts;
    forall i | 0 < i < |b.receipts| ensures Allowed(b.buyer, b.seller, Tell(b.buyer, b.seller, b.receipts[..i]), b.receipts[i]) {
      if i < n {
        assert b.receipts[..i] == a.receipts[..i];
      }
    }
  }

  lemma Begun(a: State, r: Receipt)
    requires a.receipts == [r] && r.action == "open" && r.actor == a.buyer && r.at == a.createdAt && StoryOf(a) == BEGINNING
    ensures Chronicled(a)
  {
    assert a.receipts[..0] == [];
  }

  // ----- what every call keeps -----

  lemma OpenChronicled(id: string, kind: string, buyer: Party, seller: Party, amount: int64, meter: Meter, now: Time, note: string)
    requires OpenWith(id, kind, buyer, seller, amount, meter, now, note).Ok?
    ensures Chronicled(OpenWith(id, kind, buyer, seller, amount, meter, now, note).value)
  {
    var a := OpenWith(id, kind, buyer, seller, amount, meter, now, note).value;
    Begun(a, a.receipts[0]);
  }

  lemma LockChronicled(a: State, actor: Party, now: Time)
    requires Chronicled(a) && Lock(a, actor, now).Ok?
    ensures Chronicled(Lock(a, actor, now).value)
  {
    hide Chronicled;
    Continued(a, Lock(a, actor, now).value, Chained(a.id, a.receipts, actor, "lock", Text("value locked"), now));
  }

  lemma SealChronicled(a: State, actor: Party, partial: int64, draws: seq<nat>, now: Time)
    requires Chronicled(a) && KeyUsable(a) && Kernel.Seal(a, actor, partial, draws, now).Ok?
    ensures Chronicled(Kernel.Seal(a, actor, partial, draws, now).value)
  {
    hide Chronicled, SealOf, AggregateOf;
    var (ct, r) := SealOf(a.ledger.value.0, partial, draws).value;
    Continued(a, Kernel.Seal(a, actor, partial, draws, now).value, Chained(a.id, a.receipts, actor, "seal", Ciphertext(ct), now));
  }

  lemma RejectChronicled(a: State, actor: Party, now: Time)
    requires Chronicled(a) && Reject(a, actor, now).Ok?
    ensures Chronicled(Reject(a, actor, now).value)
  {
    hide Chronicled;
    var b := Reject(a, actor, now).value;
    Continued(a, b, b.receipts[|a.receipts|]);
  }

  lemma ExpireChronicled(a: State, actor: Party, now: Time)
    requires Chronicled(a) && Expire(a, actor, now).Ok?
    ensures Chronicled(Expire(a, actor, now).value)
  {
    hide Chronicled;
    var b := Expire(a, actor, now).value;
    Continued(a, b, b.receipts[|a.receipts|]);
  }

  lemma DeadlineChronicled(a: State, actor: Party, deadline: Time, now: Time)
    requires Chronicled(a) && SetDeadline(a, actor, deadline, now).Ok?
    ensures Chronicled(SetDeadline(a, actor, deadline, now).value)
  {
    hide Chronicled;
    Continued(a, SetDeadline(a, actor, deadline, now).value, Chained(a.id, a.receipts, actor, "deadline", Instant(deadline), now));
  }

  lemma NoteChronicled(a: State, actor: Party, action: string, citation: string, now: Time)
    requires Chronicled(a) && AddNote(a, actor, action, citation, now).Ok?
    ensures Chronicled(AddNote(a, actor, action, citation, now).value)
  {
    hide Chronicled;
    Continued(a, AddNote(a, actor, action, citation, now).value, Chained(a.id, a.receipts, actor, "evidence", Text(citation), now));
  }

  lemma AcceptChronicled(h: Paillier.Oracle, a: State, actor: Party, s: int, now: Time)
    requires Chronicled(a) && KeyUsable(a) && Accept(h, a, actor, s, now).Ok?
    ensures Chronicled(Accept(h, a, actor, s, now).value)
  {
    hide Chronicled, ProofOf, Accepts;
    var b := Accept(h, a, actor, s, now).value;
    Continued(a, b, b.receipts[|a.receipts|]);
  }

  lemma StartChronicled(a: State, key: Option<Paillier.Key>)
    requires Chronicled(a) && StartSealed(a, key).Ok?
    ensures Chronicled(StartSealed(a, key).value)
  {
  }
}
