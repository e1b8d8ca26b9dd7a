// What the receipts of a council say, call by call and over every run, and the run that leads to an
// execution (internal/nexum/council.go).
module CouncilRuns {
  import opened Wrappers
  import opened Kernel
  import opened Council

  // ----- what a granted call does -----

  // The state behind a granted call: one receipt, one step, and what the call is for.
  ghost predicate Granted(c: Sitting, k: Call, d: Sitting) {
    && d.id == c.id && d.parties == c.parties && d.decision == c.decision && d.meter == c.meter && d.steps == c.steps + 1
    && |d.receipts| == |c.receipts| + 1 && c.receipts <= d.receipts
    && d.receipts[|c.receipts|].actor == k.actor && d.receipts[|c.receipts|].at == k.now
    && d.receipts[|c.receipts|].action == ActionOf(k)
    && d.optedIn == c.optedIn + (if k.DoOptIn? then {k.actor} else {})
    && |d.reqs| == |c.reqs|
    && (forall q | 0 <= q < |c.reqs| :: d.reqs[q].id == c.reqs[q].id && d.reqs[q].holder == c.reqs[q].holder)
    && (forall q | 0 <= q < |c.reqs| :: !(k.DoSatisfy? && k.id == c.reqs[q].id) ==> d.reqs[q] == c.reqs[q])
    && (k.DoSatisfy? ==> exists q :: NewlyMet(c, k, d, q))
    && d.closedAt == (if k.DoRefuse? || k.DoExecute? then Some(k.now) else c.closedAt)
    && d.phase == PhaseAfter(c, k, d)
  }

  function ActionOf(k: Call): string {
    match k
    case DoSatisfy(_, _, _, _) => "satisfy"
    case DoOptIn(_, _) => "opt-in"
    case DoRefuse(_, _) => "refuse"
    case DoExecute(_, _) => "execute"
  }

  function PhaseAfter(c: Sitting, k: Call, d: Sitting): Phase {
    if k.DoRefuse? then Refused
    else if k.DoExecute? then Executed
    else if forall q | 0 <= q < |d.reqs| :: d.reqs[q].satisfied then Ready
    else c.phase
  }

  // Requirement q was open, is held by the caller, and is met now by the cited text.
  ghost predicate NewlyMet(c: Sitting, k: Call, d: Sitting, q: nat)
    requires k.DoSatisfy?
  {
    && q < |c.reqs| && q < |d.reqs| && c.reqs[q].id == k.id && c.reqs[q].holder == k.actor && !c.reqs[q].satisfied
    && d.reqs[q].satisfied && d.reqs[q].citation == k.citation
    && |c.receipts| < |d.receipts| && d.receipts[|c.receipts|].note == Text(k.id + ":" + k.citation)
  }

  // No two requirements share an identifier, as opening demands.
  predicate DistinctIds(c: Sitting) {
    forall i, j | 0 <= i < j < |c.reqs| :: c.reqs[i].id != c.reqs[j].id
  }

  lemma MetByIndex(reqs: seq<Requirement>)
    ensures AllMet(reqs) <==> forall q | 0 <= q < |reqs| :: reqs[q].satisfied
  {
    if forall q | 0 <= q < |reqs| :: reqs[q].satisfied {
      assert AllMet(reqs);
    }
    forall q | 0 <= q < |reqs| ensures AllMet(reqs) ==> reqs[q].satisfied {
      assert reqs[q] in reqs;
    }
  }

  lemma WriteDoes(c: Sitting, actor: Party, action: string, note: string, now: Time)
    requires Write(c, actor, action, note, now).1.None?
    ensures
      var d := Write(c, actor, action, note, now).0;
      && d == c.(steps := c.steps + 1, receipts := d.receipts)
      && |d.receipts| == |c.receipts| + 1 && c.receipts <= d.receipts
      && var r := d.receipts[|c.receipts|]; r.actor == actor && r.action == action && r.note == Text(note) && r.at == now
  {
    hide OverBudget, HashReceipt, Tail;
  }

  lemma SatisfyDoes(c: Sitting, k: Call)
    requires DistinctIds(c) && k.DoSatisfy? && Outcome(c, k).1.None?
    ensures Granted(c, k, Outcome(c, k).0)
  {
    hide Write, AllMet;
    WriteDoes(c, k.actor, "satisfy", SatisfyNote(k.id, k.citation), k.now);
    var d := Outcome(c, k).0;
    MetByIndex(d.reqs);
    assert NewlyMet(c, k, d, IndexOf(c.reqs, k.id));
  }

  lemma OptInDoes(c: Sitting, k: Call)
    requires k.DoOptIn? && Outcome(c, k).1.None?
    ensures Granted(c, k, Outcome(c, k).0)
  {
    hide Write, AllMet;
    WriteDoes(c, k.actor, "opt-in", "opted in", k.now);
    MetByIndex(c.reqs);
  }

  lemma CloseDoes(c: Sitting, k: Call)
    requires (k.DoRefuse? || k.DoExecute?) && Outcome(c, k).1.None?
    ensures Granted(c, k, Outcome(c, k).0)
  {
    hide Write, AllMet;
    if k.DoRefuse? {
      WriteDoes(c, k.actor, "refuse", "refused before execute", k.now);
    } else {
      WriteDoes(c, k.actor, "execute", c.decision, k.now);
    }
    MetByIndex(c.reqs);
  }

  // Every granted call does what it is for, and nothing else.
  lemma GrantedDoes(c: Sitting, k: Call)
    requires DistinctIds(c) && Outcome(c, k).1.None?
    ensures Granted(c, k, Outcome(c, k).0)
  {
    hide Granted, Outcome;
    match k
    case DoSatisfy(_, _, _, _) => SatisfyDoes(c, k);
    case DoOptIn(_, _) => OptInDoes(c, k);
    case _ => CloseDoes(c, k);
  }

  // ----- an error tells the truth -----

  predicate Unmet(c: Sitting, q: nat) {
    q < |c.reqs| && !c.reqs[q].satisfied
  }

  // The fault that an error names.
  ghost predicate Faulty(c: Sitting, k: Call, e: CouncilError) {
    match e
    case UnknownParty => k.actor !in c.parties
    case Takeback => c.phase in {Executed, Refused}
    case EmptyCitation => k.DoSatisfy? && k.citation == ""
    case UnknownReq => k.DoSatisfy? && forall q | 0 <= q < |c.reqs| :: c.reqs[q].id != k.id
    case WrongParty => k.DoSatisfy? && exists q :: 0 <= q < |c.reqs| && c.reqs[q].id == k.id && c.reqs[q].holder != k.actor
    case BadState =>
      if k.DoSatisfy? then exists q :: 0 <= q < |c.reqs| && c.reqs[q].id == k.id && c.reqs[q].satisfied
      else k.DoOptIn? && k.actor in c.optedIn
    case NotSatisfied =>
      if k.DoOptIn? then exists q: nat :: Unmet(c, q) && c.reqs[q].holder == k.actor else k.DoExecute? && exists q: nat :: Unmet(c, q)
    case NotUnanimous => k.DoExecute? && exists p :: p in c.parties && p !in c.optedIn
    case DoS => c.steps >= c.meter.maxSteps
    case Budget => 0.0 < c.meter.budgetUSD < c.meter.costUSD
    case _ => false
  }

  // Whatever a call is refused with, that fault is there.
  lemma RefusalTells(c: Sitting, k: Call)
    requires Outcome(c, k).1.Some?
    ensures Faulty(c, k, Outcome(c, k).1.value)
  {
    hide Chained, AllMet, PartyMet;
    match k
    case DoOptIn(actor, _) =>
      if !PartyMet(c.reqs, actor) { UnmetOf(c, actor); }
    case DoExecute(_, _) =>
      if !AllMet(c.reqs) { SomeUnmet(c); }
    case _ =>
  }

  lemma UnmetOf(c: Sitting, p: Party)
    requires !PartyMet(c.reqs, p)
    ensures exists q: nat :: Unmet(c, q) && c.reqs[q].holder == p
  {
    var r :| r in c.reqs && r.holder == p && !r.satisfied;
    var q: nat :| q < |c.reqs| && c.reqs[q] == r;
    assert Unmet(c, q);
  }

  lemma SomeUnmet(c: Sitting)
    requires !AllMet(c.reqs)
    ensures exists q: nat :: Unmet(c, q)
  {
    MetByIndex(c.reqs);
    var q: nat :| q < |c.reqs| && !c.reqs[q].satisfied;
    assert Unmet(c, q);
  }

  // The fault that the refusal of an opening names.
  ghost predicate FaultyOpening(parties: seq<Party>, reqs: seq<Requirement>, decision: string, meter: Meter, e: CouncilError) {
    match e
    case PartyCount => !(3 <= |parties| <= 7)
    case EmptyDecision => decision == ""
    case MissingParty => "" in parties
    case DupParty => exists i, j :: 0 <= i < j < |parties| && parties[i] == parties[j]
    case ReqId => exists q :: 0 <= q < |reqs| && reqs[q].id == ""
    case DupReq => exists p, q :: 0 <= p < q < |reqs| && reqs[p].id == reqs[q].id
    case ReqHolder => exists q :: 0 <= q < |reqs| && reqs[q].holder !in parties
    case Budget => 0.0 < meter.budgetUSD < meter.costUSD
    case _ => false
  }

  lemma OpeningTells(parties: seq<Party>, reqs: seq<Requirement>, decision: string, meter: Meter)
    requires OpenFault(parties, reqs, decision, meter).Some?
    ensures FaultyOpening(parties, reqs, decision, meter, OpenFault(parties, reqs, decision, meter).value)
  {
    PartyTells(parties, reqs, decision, meter, 0);
    ReqTells(parties, reqs, decision, meter, 0);
    hide PartyFault, ReqFault;
  }

  lemma {:induction false} PartyTells(parties: seq<Party>, reqs: seq<Requirement>, decision: string, meter: Meter, i: nat)
    requires i <= |parties|
    ensures PartyFault(parties, i).Some? ==> FaultyOpening(parties, reqs, decision, meter, PartyFault(parties, i).value)
    decreases |parties| - i
  {
    if i < |parties| { PartyTells(parties, reqs, decision, meter, i + 1); }
  }

  lemma {:induction false} ReqTells(parties: seq<Party>, reqs: seq<Requirement>, decision: string, meter: Meter, i: nat)
    requires i <= |reqs|
    ensures ReqFault(parties, reqs, i).Some? ==> FaultyOpening(parties, reqs, decision, meter, ReqFault(parties, reqs, i).value)
    decreases |reqs| - i
  {
    if i < |reqs| { ReqTells(parties, reqs, decision, meter, i + 1); }
  }

  // ----- the receipts tell who joined and what is met -----

  predicate Joined(c: Sitting, p: Party, j: int) {
    0 <= j < |c.receipts| && c.receipts[j].action == "opt-in" && c.receipts[j].actor == p
  }

  // The receipt is its holder's and cites this requirement.
  predicate Cites(c: Sitting, q: nat, i: int)
    requires q < |c.reqs|
  {
    && 0 <= i < |c.receipts| && c.receipts[i].action == "satisfy" && c.receipts[i].actor == c.reqs[q].holder
    && c.receipts[i].note.Text? && c.reqs[q].id + ":" <= c.receipts[i].note.s
  }

  // No identifier goes on from another one of the same holder behind a colon.
  predicate Separate(c: Sitting) {
    forall q, p | 0 <= q < |c.reqs| && 0 <= p < |c.reqs| && q != p && c.reqs[q].holder == c.reqs[p].holder ::
      !(c.reqs[q].id + ":" <= c.reqs[p].id)
  }

  ghost predicate MembersTold(c: Sitting) {
    && (forall p :: p in c.optedIn <==> exists j :: Joined(c, p, j))
    && (forall i, j | 0 <= i < j < |c.receipts| && c.receipts[i].action == "opt-in" && c.receipts[j].action == "opt-in" ::
          c.receipts[i].actor != c.receipts[j].actor)
  }

  ghost predicate ReqsTold(c: Sitting) {
    forall q: nat | q < |c.reqs| :: c.reqs[q].satisfied <==> exists i :: Cites(c, q, i)
  }

  function SatisfyReceipts(receipts: seq<Receipt>): nat {
    if receipts == [] then 0
    else SatisfyReceipts(receipts[..|receipts| - 1]) + if receipts[|receipts| - 1].action == "satisfy" then 1 else 0
  }

  function MetReqs(reqs: seq<Requirement>): nat {
    if reqs == [] then 0 else MetReqs(reqs[..|reqs| - 1]) + if reqs[|reqs| - 1].satisfied then 1 else 0
  }

  // One receipt for each requirement that is met.
  ghost predicate CountTold(c: Sitting) {
    SatisfyReceipts(c.receipts) == MetReqs(c.reqs)
  }

  lemma MembersGo(c: Sitting, k: Call, d: Sitting)
    requires MembersTold(c) && Granted(c, k, d) && (k.DoOptIn? ==> k.actor !in c.optedIn)
    ensures MembersTold(d)
  {
    hide NewlyMet, PhaseAfter;
    var n := |c.receipts|;
    forall p ensures p in d.optedIn <==> exists j :: Joined(d, p, j) {
      if p in c.optedIn {
        var j :| Joined(c, p, j);
        assert Joined(d, p, j);
      }
      if k.DoOptIn? && p == k.actor {
        assert Joined(d, p, n);
      }
      if j :| Joined(d, p, j) {
        assert j < n ==> Joined(c, p, j);
      }
    }
    forall i, j | 0 <= i < j < |d.receipts| && d.receipts[i].action == "opt-in" && d.receipts[j].action == "opt-in"
      ensures d.receipts[i].actor != d.receipts[j].actor
    {
      assert Joined(c, d.receipts[i].actor, i);
    }
  }

  // A note that cites one requirement cites no other.
  lemma CitesOne(x: string, y: string, citation: string)
    requires x + ":" <= y + ":" + citation
    ensures x == y || x + ":" <= y || y + ":" <= x
  {
    var s := y + ":" + citation;
    if |x| < |y| {
      assert s[..|x| + 1] == y[..|x| + 1];
    } else if |x| > |y| {
      assert (x + ":")[..|y| + 1] == s[..|y| + 1] == y + ":";
      assert x[..|y| + 1] == y + ":";
    } else {
      assert x == s[..|x|] == y;
    }
  }

  lemma ReqsGo(c: Sitting, k: Call, d: Sitting)
    requires ReqsTold(c) && DistinctIds(c) && Separate(c) && Granted(c, k, d)
    ensures ReqsTold(d)
  {
    hide PhaseAfter, Separate;
    var n := |c.receipts|;
    forall q: nat | q < |d.reqs| ensures d.reqs[q].satisfied <==> exists i :: Cites(d, q, i) {
      if i :| Cites(c, q, i) {
        assert Cites(d, q, i);
      }
      if i :| Cites(d, q, i) {
        if i < n {
          assert Cites(c, q, i);
        } else {
          var p: nat :| NewlyMet(c, k, d, p);
          if q != p { NotCited(c, k, q, p); }
        }
      }
      if k.DoSatisfy? && d.reqs[q].satisfied && !c.reqs[q].satisfied {
        var p: nat :| NewlyMet(c, k, d, p);
        assert p == q by { SameId(c, p, q); }
        assert Cites(d, q, n);
      }
    }
  }

  lemma SameId(c: Sitting, p: nat, q: nat)
    requires DistinctIds(c) && p < |c.reqs| && q < |c.reqs| && c.reqs[p].id == c.reqs[q].id
    ensures p == q
  {}

  lemma NotCited(c: Sitting, k: Call, q: nat, p: nat)
    requires DistinctIds(c) && Separate(c) && q < |c.reqs| && p < |c.reqs| && q != p && k.DoSatisfy? && c.reqs[p].id == k.id
    requires c.reqs[q].holder == c.reqs[p].holder
    ensures !(c.reqs[q].id + ":" <= k.id + ":" + k.citation)
  {
    if c.reqs[q].id + ":" <= k.id + ":" + k.citation {
      assert c.reqs[q].id != k.id;
      CitesOne(c.reqs[q].id, k.id, k.citation);
    }
  }

  lemma {:induction false} MetOneMore(reqs: seq<Requirement>, r: seq<Requirement>, q: nat)
    requires |r| == |reqs| && q < |reqs| && !reqs[q].satisfied && r[q].satisfied
    requires forall j | 0 <= j < |reqs| && j != q :: r[j] == reqs[j]
    ensures MetReqs(r) == MetReqs(reqs) + 1
    decreases |reqs|
  {
    var n := |reqs| - 1;
    if q < n {
      MetOneMore(reqs[..n], r[..n], q);
    } else {
      assert r[..n] == reqs[..n];
    }
  }

  lemma OthersSame(c: Sitting, k: Call, d: Sitting, p: nat)
    requires DistinctIds(c) && k.DoSatisfy? && Granted(c, k, d) && NewlyMet(c, k, d, p)
    ensures forall j | 0 <= j < |c.reqs| && j != p :: d.reqs[j] == c.reqs[j]
  {
    hide PhaseAfter;
    assert forall j | 0 <= j < |c.reqs| && j != p :: c.reqs[j].id != c.reqs[p].id;
  }

  lemma CountGoes(c: Sitting, k: Call, d: Sitting)
    requires CountTold(c) && DistinctIds(c) && Granted(c, k, d)
    ensures CountTold(d)
  {
    hide PhaseAfter;
    var n := |c.receipts|;
    assert d.receipts[..n] == c.receipts;
    if k.DoSatisfy? {
      var p: nat :| NewlyMet(c, k, d, p);
      OthersSame(c, k, d, p);
      MetOneMore(c.reqs, d.reqs, p);
    } else {
      assert d.reqs == c.reqs;
    }
  }

  // Everything a council's receipts tell of it.
  ghost predicate Told(c: Sitting) {
    DistinctIds(c) && MembersTold(c) && CountTold(c) && (Separate(c) ==> ReqsTold(c))
  }

  lemma OutcomeTold(c: Sitting, k: Call)
    requires Told(c)
    ensures Told(Outcome(c, k).0)
    ensures Separate(Outcome(c, k).0) <==> Separate(c)
  {
    hide MembersTold, CountTold, ReqsTold, Outcome, Admitted;
    var (d, e) := Outcome(c, k);
    RefusedIff(c, k);
    if e.None? {
      GrantedDoes(c, k);
      if k.DoOptIn? { JoinsOnce(c, k); }
      MembersGo(c, k, d);
      CountGoes(c, k, d);
      if Separate(c) { ReqsGo(c, k, d); }
    } else {
      StepsAside(c, d);
    }
  }

  lemma JoinsOnce(c: Sitting, k: Call)
    requires Outcome(c, k).1.None? && k.DoOptIn?
    ensures k.actor !in c.optedIn
  {
    hide Write;
  }

  lemma StepsAside(c: Sitting, d: Sitting)
    requires Told(c) && (d == c || d == c.(steps := c.steps + 1))
    ensures Told(d) && (Separate(d) <==> Separate(c))
  {
    assert forall p, j :: Joined(d, p, j) <==> Joined(c, p, j);
    assert forall q: nat, i | q < |c.reqs| :: Cites(d, q, i) <==> Cites(c, q, i);
    assert MembersTold(d);
    assert ReqsTold(d) <==> ReqsTold(c);
  }

  // Over every run: a party is a member exactly when it has an opt-in receipt, and has only one;
  // there are as many satisfy receipts as requirements that are met; and where no identifier goes on
  // from another of its holder, a requirement is met exactly when a receipt of its holder cites it.
  lemma {:induction false} RunTold(c: Sitting, calls: seq<Call>)
    requires Told(c)
    ensures Told(Run(c, calls)) && (Separate(Run(c, calls)) <==> Separate(c))
    decreases |calls|
  {
    hide Told, Outcome, Separate;
    if calls != [] {
      RunTold(c, calls[..|calls| - 1]);
      OutcomeTold(Run(c, calls[..|calls| - 1]), calls[|calls| - 1]);
    }
  }

  lemma OpenedTold(id: string, parties: seq<Party>, sorted: seq<Party>, reqs: seq<Requirement>, decision: string, meter: Meter, now: Time)
    requires sorted != [] && Convenes(parties, reqs, decision)
    requires Write(Convened(id, sorted, reqs, decision, meter), sorted[0], "open", "council opened", now).1.None?
    ensures Told(Write(Convened(id, sorted, reqs, decision, meter), sorted[0], "open", "council opened", now).0)
  {
    hide Write;
    var c := Convened(id, sorted, reqs, decision, meter);
    WriteDoes(c, sorted[0], "open", "council opened", now);
    var d := Write(c, sorted[0], "open", "council opened", now).0;
    NothingMet(c.reqs);
    assert d.receipts[..0] == [];
    assert forall p, j :: !Joined(d, p, j);
    assert forall q: nat, i | q < |d.reqs| :: !Cites(d, q, i);
    assert SatisfyReceipts(d.receipts) == 0;
    assert DistinctIds(d) && MembersTold(d) && CountTold(d);
  }

  lemma {:induction false} NothingMet(reqs: seq<Requirement>)
    requires forall q | 0 <= q < |reqs| :: !reqs[q].satisfied
    ensures MetReqs(reqs) == 0
  {
    if reqs != [] { NothingMet(reqs[..|reqs| - 1]); }
  }

  // The condition on the identifiers is needed: where one goes on from another, meeting the longer
  // one leaves a receipt that cites the shorter one, which is not met.
  lemma LongerIdCitesShorter(c: Sitting, q: nat, p: nat, citation: string, now: Time)
    requires DistinctIds(c) && q < |c.reqs| && p < |c.reqs| && q != p && c.reqs[q].holder == c.reqs[p].holder
    requires c.reqs[q].id + ":" <= c.reqs[p].id && !c.reqs[q].satisfied
    requires Admitted(c, DoSatisfy(c.reqs[p].holder, c.reqs[p].id, citation, now)) && c.steps < c.meter.maxSteps && !OverBudget(c.meter)
    ensures
      var d := Outcome(c, DoSatisfy(c.reqs[p].holder, c.reqs[p].id, citation, now)).0;
      |d.reqs| == |c.reqs| && !d.reqs[q].satisfied && Cites(d, q, |c.receipts|)
  {
    hide Outcome, Admitted;
    var k := DoSatisfy(c.reqs[p].holder, c.reqs[p].id, citation, now);
    RefusedIff(c, k);
    GrantedDoes(c, k);
    var d := Outcome(c, k).0;
    var m: nat :| NewlyMet(c, k, d, m);
    assert c.reqs[q].id != k.id;
  }

  // ----- the way to an execution -----

  // The n-th call of the shortest way there: every holder meets its requirements, then all join.
  function WayCall(c: Sitting, citation: string, now: Time, n: nat): Call
    requires n < |c.reqs| + |c.parties|
  {
    if n < |c.reqs| then DoSatisfy(c.reqs[n].holder, c.reqs[n].id, citation, now) else DoOptIn(c.parties[n - |c.reqs|], now)
  }

  function Way(c: Sitting, citation: string, now: Time, n: nat): seq<Call>
    requires n <= |c.reqs| + |c.parties|
  {
    seq(n, i requires 0 <= i < n => WayCall(c, citation, now, i))
  }

  // A council at its beginning, with the steps for the whole way.
  ghost predicate Ahead(c: Sitting) {
    && DistinctIds(c) && (forall i, j | 0 <= i < j < |c.parties| :: c.parties[i] != c.parties[j])
    && (forall q | 0 <= q < |c.reqs| :: c.reqs[q].holder in c.parties && !c.reqs[q].satisfied)
    && c.optedIn == {} && c.phase == Gathering
    && c.parties != [] && c.steps + |c.reqs| + |c.parties| < c.meter.maxSteps && !OverBudget(c.meter)
  }

  // How far it has come after n calls.
  ghost predicate OnTheWay(c: Sitting, d: Sitting, n: nat) {
    && d.parties == c.parties && d.meter == c.meter && d.steps == c.steps + n && d.phase in {Gathering, Ready} && |d.reqs| == |c.reqs|
    && (forall q | 0 <= q < |c.reqs| :: d.reqs[q].id == c.reqs[q].id && d.reqs[q].holder == c.reqs[q].holder)
    && (forall q | 0 <= q < |c.reqs| :: d.reqs[q].satisfied <==> q < n)
    && (forall p :: p in d.optedIn <==> exists i :: 0 <= i < n - |c.reqs| && i < |c.parties| && c.parties[i] == p)
  }

  // One call more.
  lemma WayGoes(c: Sitting, citation: string, now: Time, n: nat)
    requires n < |c.reqs| + |c.parties|
    ensures Run(c, Way(c, citation, now, n + 1)) == Outcome(Run(c, Way(c, citation, now, n)), WayCall(c, citation, now, n)).0
  {
    hide Outcome, WayCall;
    assert Way(c, citation, now, n + 1)[..n] == Way(c, citation, now, n);
  }

  lemma {:induction false} AlongTheWay(c: Sitting, citation: string, now: Time, n: nat)
    requires Ahead(c) && citation != "" && n <= |c.reqs| + |c.parties|
    ensures OnTheWay(c, Run(c, Way(c, citation, now, n)), n)
    decreases n
  {
    if n > 0 {
      hide Run, Way, WayCall, Ahead, OnTheWay, Outcome, Admitted, Granted;
      AlongTheWay(c, citation, now, n - 1);
      WayGoes(c, citation, now, n - 1);
      var d, k := Run(c, Way(c, citation, now, n - 1)), WayCall(c, citation, now, n - 1);
      WayAdmitted(c, d, citation, now, n - 1);
      RefusedIff(d, k);
      IdsOnTheWay(c, d, n - 1);
      GrantedDoes(d, k);
      WayGoesOn(c, d, k, Outcome(d, k).0, citation, now, n - 1);
    }
  }

  lemma IdsOnTheWay(c: Sitting, d: Sitting, n: nat)
    requires Ahead(c) && OnTheWay(c, d, n)
    ensures DistinctIds(d)
  {
    SameIds(c, d);
  }

  lemma SameIds(c: Sitting, d: Sitting)
    requires DistinctIds(c) && |d.reqs| == |c.reqs| && forall q | 0 <= q < |c.reqs| :: d.reqs[q].id == c.reqs[q].id
    ensures DistinctIds(d)
  {}

  lemma WayAdmitted(c: Sitting, d: Sitting, citation: string, now: Time, n: nat)
    requires Ahead(c) && OnTheWay(c, d, n) && citation != "" && n < |c.reqs| + |c.parties|
    ensures Admitted(d, WayCall(c, citation, now, n)) && d.steps < d.meter.maxSteps && !OverBudget(d.meter)
  {
    hide OverBudget;
    SameIds(c, d);
    if n < |c.reqs| {
      IndexIs(d, n);
    } else {
      forall r | r in d.reqs ensures r.satisfied {
        var q :| 0 <= q < |d.reqs| && d.reqs[q] == r;
      }
    }
  }

  lemma IndexIs(d: Sitting, n: nat)
    requires DistinctIds(d) && n < |d.reqs|
    ensures IndexOf(d.reqs, d.reqs[n].id) == n
  {
    var i := IndexOf(d.reqs, d.reqs[n].id);
    assert i <= n;
    SameId(d, i, n);
  }

  lemma WayGoesOn(c: Sitting, d: Sitting, k: Call, e: Sitting, citation: string, now: Time, n: nat)
    requires Ahead(c) && OnTheWay(c, d, n) && n < |c.reqs| + |c.parties| && k == WayCall(c, citation, now, n)
    requires DistinctIds(d) && Granted(d, k, e)
    ensures OnTheWay(c, e, n + 1)
  {
    hide OverBudget;
    if n < |c.reqs| {
      var p: nat :| NewlyMet(d, k, e, p);
      SameId(d, p, n);
    }
  }

  // A council within its budget and with the steps for it is executed once every holder has met its
  // requirements and every party has joined.
  lemma WayExecutes(c: Sitting, citation: string, now: Time, actor: Party)
    requires Ahead(c) && citation != "" && actor in c.parties
    ensures
      var d := Run(c, Way(c, citation, now, |c.reqs| + |c.parties|));
      Outcome(d, DoExecute(actor, now)).1.None? && Outcome(d, DoExecute(actor, now)).0.phase == Executed
  {
    hide Run, Way, WayCall, Ahead, OnTheWay, Outcome, Admitted, DistinctIds;
    var n := |c.reqs| + |c.parties|;
    AlongTheWay(c, citation, now, n);
    var d := Run(c, Way(c, citation, now, n));
    EndOfTheWay(c, d, actor, now);
    RefusedIff(d, DoExecute(actor, now));
    GrantedDoes(d, DoExecute(actor, now));
  }

  lemma EndOfTheWay(c: Sitting, d: Sitting, actor: Party, now: Time)
    requires Ahead(c) && OnTheWay(c, d, |c.reqs| + |c.parties|) && actor in c.parties
    ensures Admitted(d, DoExecute(actor, now)) && DistinctIds(d) && d.steps < d.meter.maxSteps && !OverBudget(d.meter)
  {
    hide OverBudget, AllMet;
    MetByIndex(d.reqs);
    forall p | p in d.parties ensures p in d.optedIn {
      var i :| 0 <= i < |c.parties| && c.parties[i] == p;
    }
  }

  lemma OpenedAhead(id: string, parties: seq<Party>, sorted: seq<Party>, reqs: seq<Requirement>, decision: string, meter: Meter, now: Time)
    requires multiset(sorted) == multiset(parties) && Convenes(parties, reqs, decision) && !OverBudget(meter)
    requires 1 + |reqs| + |parties| < if meter.maxSteps > 0 then meter.maxSteps else 32
    ensures |sorted| == |parties| > 0
    ensures Write(Convened(id, sorted, reqs, decision, meter), sorted[0], "open", "council opened", now).1.None?
    ensures Ahead(Write(Convened(id, sorted, reqs, decision, meter), sorted[0], "open", "council opened", now).0)
  {
    hide Chained;
    assert |multiset(sorted)| == |multiset(parties)|;
    forall i, j | 0 <= i < j < |sorted| ensures sorted[i] != sorted[j] {
      if sorted[i] == sorted[j] { Twice(sorted, i, j); Once(parties, sorted[i]); }
    }
    forall q | 0 <= q < |reqs| ensures reqs[q].holder in sorted {
      assert reqs[q].holder in multiset(sorted);
    }
  }

  // What opens: the decision and the requirements as given, none of them met, nobody joined, and 32
  // steps unless the meter says otherwise, of which the opening receipt is one.
  lemma OpenedIs(id: string, sorted: seq<Party>, reqs: seq<Requirement>, decision: string, meter: Meter, now: Time)
    requires sorted != [] && Write(Convened(id, sorted, reqs, decision, meter), sorted[0], "open", "council opened", now).1.None?
    ensures
      var c := Write(Convened(id, sorted, reqs, decision, meter), sorted[0], "open", "council opened", now).0;
      && c.id == id && c.parties == sorted && c.decision == decision && c.optedIn == {} && c.phase == Gathering && c.closedAt == None
      && |c.reqs| == |reqs|
      && (forall q | 0 <= q < |reqs| :: c.reqs[q] == Requirement(reqs[q].id, reqs[q].holder, false, ""))
      && c.steps == 1 && c.meter == meter.(maxSteps := c.meter.maxSteps)
      && (if meter.maxSteps > 0 then c.meter.maxSteps == meter.maxSteps else c.meter.maxSteps == 32)
      && |c.receipts| == 1 && c.receipts[0].action == "open" && c.receipts[0].actor == sorted[0] && c.receipts[0].at == now
  {
    hide OverBudget, HashReceipt, Tail;
  }

  lemma Twice(s: seq<Party>, i: nat, j: nat)
    requires i < j < |s| && s[i] == s[j]
    ensures multiset(s)[s[i]] >= 2
  {
    assert s == s[..j] + s[j..];
    assert s[..j][i] in multiset(s[..j]) && s[j..][0] in multiset(s[j..]);
  }

  lemma {:induction false} Once(s: seq<Party>, p: Party)
    requires forall i, j | 0 <= i < j < |s| :: s[i] != s[j]
    ensures multiset(s)[p] <= 1
  {
    if s != [] {
      Once(s[1..], p);
      assert s == [s[0]] + s[1..];
      assert forall k | 0 <= k < |s[1..]| :: s[1..][k] == s[k + 1];
      assert s[0] !in multiset(s[1..]);
    }
  }
}
