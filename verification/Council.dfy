// The council: three to seven parties whose requirements are met and who all opt in before one
// execution (internal/nexum/council.go).
module Council {
  import opened Wrappers
  import opened Kernel

  datatype Requirement = Requirement(id: string, holder: Party, satisfied: bool, citation: string)

  datatype Phase = Gathering | Ready | Executed | Refused

  datatype Sitting = Sitting(
    id: string, parties: seq<Party>, reqs: seq<Requirement>, optedIn: set<Party>, decision: string, phase: Phase,
    meter: Meter, closedAt: Option<Time>, receipts: seq<Receipt>, steps: int)

  datatype CouncilError =
    | PartyCount | DupParty | UnknownParty | ReqId | ReqHolder | DupReq | NotSatisfied | NotUnanimous | EmptyDecision
    | MissingParty | Takeback | EmptyCitation | UnknownReq | WrongParty | BadState | DoS | Budget

  // ----- specification -----

  predicate Closed(c: Sitting) {
    c.phase == Executed || c.phase == Refused
  }

  // The step is used up whether or not the receipt is written.
  function Write(c: Sitting, actor: Party, action: string, note: string, now: Time): (Sitting, Option<CouncilError>) {
    var d := c.(steps := c.steps + 1);
    if d.steps > c.meter.maxSteps then (d, Some(DoS))
    else if OverBudget(c.meter) then (d, Some(Budget))
    else (d.(receipts := c.receipts + [Chained(c.id, c.receipts, actor, action, Text(note), now)]), None)
  }

  predicate AllMet(reqs: seq<Requirement>) {
    forall r | r in reqs :: r.satisfied
  }

  predicate PartyMet(reqs: seq<Requirement>, p: Party) {
    forall r | r in reqs && r.holder == p :: r.satisfied
  }

  function Refreshed(c: Sitting): Sitting {
    if c.phase == Gathering && AllMet(c.reqs) then c.(phase := Ready) else c
  }

  function IndexOf(reqs: seq<Requirement>, id: string): (i: nat)
    ensures i <= |reqs| && (i < |reqs| ==> reqs[i].id == id) && forall j | 0 <= j < i :: reqs[j].id != id
  {
    if reqs == [] then 0 else if reqs[0].id == id then 0 else 1 + IndexOf(reqs[1..], id)
  }

  function SatisfyNote(id: string, citation: string): string {
    id + ":" + citation
  }

  // Each call gives the new state and the error, if any.
  function Satisfy(c: Sitting, actor: Party, id: string, citation: string, now: Time): (Sitting, Option<CouncilError>) {
    var i := IndexOf(c.reqs, id);
    if actor !in c.parties then (c, Some(UnknownParty))
    else if Closed(c) then (c, Some(Takeback))
    else if citation == "" then (c, Some(EmptyCitation))
    else if i == |c.reqs| then (c, Some(UnknownReq))
    else if c.reqs[i].holder != actor then (c, Some(WrongParty))
    else if c.reqs[i].satisfied then (c, Some(BadState))
    else
      var (d, e) := Write(c, actor, "satisfy", SatisfyNote(id, citation), now);
      if e.Some? then (d, e)
      else (Refreshed(d.(reqs := d.reqs[i := d.reqs[i].(satisfied := true, citation := citation)])), None)
  }

  function OptIn(c: Sitting, actor: Party, now: Time): (Sitting, Option<CouncilError>) {
    if actor !in c.parties then (c, Some(UnknownParty))
    else if Closed(c) then (c, Some(Takeback))
    else if !PartyMet(c.reqs, actor) then (c, Some(NotSatisfied))
    else if actor in c.optedIn then (c, Some(BadState))
    else
      var (d, e) := Write(c, actor, "opt-in", "opted in", now);
      if e.Some? then (d, e) else (Refreshed(d.(optedIn := d.optedIn + {actor})), None)
  }

  function Refuse(c: Sitting, actor: Party, now: Time): (Sitting, Option<CouncilError>) {
    if actor !in c.parties then (c, Some(UnknownParty))
    else if Closed(c) then (c, Some(Takeback))
    else
      var (d, e) := Write(c, actor, "refuse", "refused before execute", now);
      if e.Some? then (d, e) else (d.(closedAt := Some(now), phase := Refused), None)
  }

  function Execute(c: Sitting, actor: Party, now: Time): (Sitting, Option<CouncilError>) {
    if actor !in c.parties then (c, Some(UnknownParty))
    else if Closed(c) then (c, Some(Takeback))
    else if !AllMet(c.reqs) then (c, Some(NotSatisfied))
    else if exists p | p in c.parties :: p !in c.optedIn then (c, Some(NotUnanimous))
    else
      var (d, e) := Write(c, actor, "execute", c.decision, now);
      if e.Some? then (d, e) else (d.(closedAt := Some(now), phase := Executed), None)
  }

  // ----- opening -----

  function DefaultSteps(meter: Meter): Meter {
    if meter.maxSteps <= 0 then meter.(maxSteps := 32) else meter
  }

  function Blank(reqs: seq<Requirement>): (r: seq<Requirement>)
    ensures |r| == |reqs|
  {
    seq(|reqs|, i requires 0 <= i < |reqs| => reqs[i].(satisfied := false, citation := ""))
  }

  ghost predicate Convenes(parties: seq<Party>, reqs: seq<Requirement>, decision: string) {
    && 3 <= |parties| <= 7 && decision != ""
    && (forall i | 0 <= i < |parties| :: parties[i] != "")
    && (forall i, j | 0 <= i < j < |parties| :: parties[i] != parties[j])
    && (forall i | 0 <= i < |reqs| :: reqs[i].id != "" && reqs[i].holder in parties)
    && (forall i, j | 0 <= i < j < |reqs| :: reqs[i].id != reqs[j].id)
  }

  // The first fault of the lists, read as opening reads them.
  function PartyFault(parties: seq<Party>, i: nat): Option<CouncilError>
    requires i <= |parties|
    decreases |parties| - i
  {
    if i == |parties| then None
    else if parties[i] == "" then Some(MissingParty)
    else if parties[i] in parties[..i] then Some(DupParty)
    else PartyFault(parties, i + 1)
  }

  predicate KnownId(reqs: seq<Requirement>, i: nat)
    requires i < |reqs|
  {
    exists j | 0 <= j < i :: reqs[j].id == reqs[i].id
  }

  function ReqFault(parties: seq<Party>, reqs: seq<Requirement>, i: nat): Option<CouncilError>
    requires i <= |reqs|
    decreases |reqs| - i
  {
    if i == |reqs| then None
    else if reqs[i].id == "" then Some(ReqId)
    else if KnownId(reqs, i) then Some(DupReq)
    else if reqs[i].holder !in parties then Some(ReqHolder)
    else ReqFault(parties, reqs, i + 1)
  }

  function OpenFault(parties: seq<Party>, reqs: seq<Requirement>, decision: string, meter: Meter): Option<CouncilError> {
    if |parties| < 3 || |parties| > 7 then Some(PartyCount)
    else if decision == "" then Some(EmptyDecision)
    else if PartyFault(parties, 0).Some? then PartyFault(parties, 0)
    else if ReqFault(parties, reqs, 0).Some? then ReqFault(parties, reqs, 0)
    else if OverBudget(meter) then Some(Budget)
    else None
  }

  function Convened(id: string, sorted: seq<Party>, reqs: seq<Requirement>, decision: string, meter: Meter): Sitting {
    Sitting(id, sorted, Blank(reqs), {}, decision, Gathering, DefaultSteps(meter), None, [], 0)
  }

  // The sorted parties are a rearrangement of those given; the first of them opens.
  method OpenCouncil(id: string, parties: seq<Party>, sorted: seq<Party>, reqs: seq<Requirement>, decision: string, meter: Meter, now: Time)
    returns (r: Result<Sitting, CouncilError>)
    requires multiset(sorted) == multiset(parties)
    ensures match OpenFault(parties, reqs, decision, meter)
      case Some(e) => r == Err(e)
      case None =>
        |sorted| > 0 && r.Ok?
        && Write(Convened(id, sorted, reqs, decision, meter), sorted[0], "open", "council opened", now) == (r.value, None)
  {
    hide Chained;
    if |parties| < 3 || |parties| > 7 {
      return Err(PartyCount);
    }
    if decision == "" {
      return Err(EmptyDecision);
    }
    for i := 0 to |parties|
      invariant PartyFault(parties, 0) == PartyFault(parties, i)
    {
      if parties[i] == "" {
        return Err(MissingParty);
      }
      if parties[i] in parties[..i] {
        return Err(DupParty);
      }
    }
    for i := 0 to |reqs|
      invariant ReqFault(parties, reqs, 0) == ReqFault(parties, reqs, i)
    {
      if reqs[i].id == "" {
        return Err(ReqId);
      }
      if KnownId(reqs, i) {
        return Err(DupReq);
      }
      if reqs[i].holder !in parties {
        return Err(ReqHolder);
      }
    }
    assert |multiset(sorted)| == |multiset(parties)|;
    assert |sorted| == |parties|;
    var (c, e) := Write(Convened(id, sorted, reqs, decision, meter), sorted[0], "open", "council opened", now);
    if e.Some? {
      return Err(e.value);
    }
    return Ok(c);
  }

  // No fault means exactly that the council convenes within its budget.
  lemma OpensIff(parties: seq<Party>, reqs: seq<Requirement>, decision: string, meter: Meter)
    ensures OpenFault(parties, reqs, decision, meter).None? <==> Convenes(parties, reqs, decision) && !OverBudget(meter)
  {
    hide OverBudget;
    PartiesFaultless(parties, 0);
    ReqsFaultless(parties, reqs, 0);
  }

  lemma {:induction false} PartiesFaultless(parties: seq<Party>, i: nat)
    requires i <= |parties|
    ensures PartyFault(parties, i).None? <==>
      (forall j | i <= j < |parties| :: parties[j] != "" && parties[j] !in parties[..j])
    decreases |parties| - i
  {
    if i < |parties| {
      PartiesFaultless(parties, i + 1);
    }
  }

  lemma {:induction false} ReqsFaultless(parties: seq<Party>, reqs: seq<Requirement>, i: nat)
    requires i <= |reqs|
    ensures ReqFault(parties, reqs, i).None? <==>
      (forall j | i <= j < |reqs| :: reqs[j].id != "" && !KnownId(reqs, j) && reqs[j].holder in parties)
    decreases |reqs| - i
  {
    hide KnownId;
    if i < |reqs| {
      ReqsFaultless(parties, reqs, i + 1);
    }
  }

  // ----- runs -----

  datatype Call =
    | DoSatisfy(actor: Party, id: string, citation: string, now: Time)
    | DoOptIn(actor: Party, now: Time)
    | DoRefuse(actor: Party, now: Time)
    | DoExecute(actor: Party, now: Time)

  function Outcome(c: Sitting, k: Call): (Sitting, Option<CouncilError>) {
    match k
    case DoSatisfy(actor, id, citation, now) => Satisfy(c, actor, id, citation, now)
    case DoOptIn(actor, now) => OptIn(c, actor, now)
    case DoRefuse(actor, now) => Refuse(c, actor, now)
    case DoExecute(actor, now) => Execute(c, actor, now)
  }

  function Run(c: Sitting, calls: seq<Call>): Sitting
    decreases |calls|
  {
    if calls == [] then c else Outcome(Run(c, calls[..|calls| - 1]), calls[|calls| - 1]).0
  }

  // Receipt i records that requirement r is met.
  ghost predicate Records(c: Sitting, r: Requirement, i: int) {
    0 <= i < |c.receipts| && c.receipts[i].action == "satisfy" && c.receipts[i].actor == r.holder
    && c.receipts[i].note == Text(SatisfyNote(r.id, r.citation))
  }

  // Receipt j is p joining, after everything p asked for was recorded.
  ghost predicate Joins(c: Sitting, p: Party, j: int) {
    0 <= j < |c.receipts| && c.receipts[j].action == "opt-in" && c.receipts[j].actor == p
    && forall q | 0 <= q < |c.reqs| && c.reqs[q].holder == p :: c.reqs[q].satisfied && exists i :: i < j && Records(c, c.reqs[q], i)
  }

  predicate Final(action: string) {
    action == "execute" || action == "refuse"
  }

  ghost predicate FinalIsLast(c: Sitting) {
    && c.receipts != []
    && (forall i | 0 <= i < |c.receipts| - 1 :: !Final(c.receipts[i].action))
    && (c.phase == Executed <==> c.receipts[|c.receipts| - 1].action == "execute")
    && (c.phase == Refused <==> c.receipts[|c.receipts| - 1].action == "refuse")
  }

  ghost predicate Steps(c: Sitting) {
    |c.receipts| <= c.steps && |c.receipts| <= c.meter.maxSteps
  }

  ghost predicate Inv(c: Sitting) {
    && Steps(c) && ChainOk(c.id, c.receipts) && FinalIsLast(c)
    && (forall p | p in c.optedIn :: exists j :: Joins(c, p, j))
    && (forall q | 0 <= q < |c.reqs| && c.reqs[q].satisfied :: exists i :: Records(c, c.reqs[q], i))
    && (c.phase == Ready || c.phase == Executed ==> AllMet(c.reqs))
    && (c.phase == Executed ==> forall p | p in c.parties :: p in c.optedIn)
    && (c.closedAt.Some? <==> Closed(c))
  }

  // ----- what every call keeps -----

  lemma WriteKeeps(c: Sitting, actor: Party, action: string, note: string, now: Time)
    requires Steps(c) && ChainOk(c.id, c.receipts)
    ensures
      var (d, e) := Write(c, actor, action, note, now);
      && Steps(d) && ChainOk(d.id, d.receipts)
      && (e.Some? ==> d == c.(steps := c.steps + 1))
      && (e.None? ==> d == c.(steps := c.steps + 1, receipts := d.receipts))
      && (e.None? ==> |d.receipts| == |c.receipts| + 1 && d.receipts[..|c.receipts|] == c.receipts)
      && (e.None? ==> var r := d.receipts[|c.receipts|]; r.action == action && r.actor == actor && r.note == Text(note))
  {
    var (d, e) := Write(c, actor, action, note, now);
    if e.None? {
      var n := |c.receipts|;
      assert d.receipts[..n] == c.receipts;
      forall i | 0 <= i < |d.receipts|
        ensures d.receipts[i].seqNo == i + 1 && d.receipts[i].prevHash == Tail(d.receipts[..i])
        ensures d.receipts[i].hash == HashReceipt(d.id, d.receipts[i])
      {
        assert d.receipts[..i] == c.receipts[..i];
        if i < n {
          assert d.receipts[i] == c.receipts[i];
        }
      }
    }
  }

  // A council that has grown: the receipts begin as before, and requirements that were met stay so.
  ghost predicate Grows(c: Sitting, d: Sitting) {
    && |c.receipts| <= |d.receipts| && d.receipts[..|c.receipts|] == c.receipts
    && |c.reqs| == |d.reqs| && c.optedIn <= d.optedIn && c.parties == d.parties && c.id == d.id && c.meter == d.meter
    && forall q | 0 <= q < |c.reqs| :: d.reqs[q].holder == c.reqs[q].holder && (c.reqs[q].satisfied ==> d.reqs[q] == c.reqs[q])
  }

  lemma RecordsGrow(c: Sitting, d: Sitting, r: Requirement, i: int)
    requires Grows(c, d) && Records(c, r, i)
    ensures Records(d, r, i)
  {
    assert d.receipts[i] == c.receipts[i];
  }

  lemma JoinsGrow(c: Sitting, d: Sitting, p: Party, j: int)
    requires Grows(c, d) && Joins(c, p, j)
    ensures Joins(d, p, j)
  {
    hide Records;
    assert d.receipts[j] == c.receipts[j];
    forall q | 0 <= q < |d.reqs| && d.reqs[q].holder == p
      ensures d.reqs[q].satisfied && exists i :: i < j && Records(d, d.reqs[q], i)
    {
      assert c.reqs[q].satisfied && d.reqs[q] == c.reqs[q];
      var i :| i < j && Records(c, c.reqs[q], i);
      RecordsGrow(c, d, c.reqs[q], i);
    }
  }

  // The facts about members and requirements carry over to a grown council, new ones aside.
  lemma OldFactsGrow(c: Sitting, d: Sitting)
    requires Inv(c) && Grows(c, d)
    ensures forall p | p in c.optedIn :: exists j :: Joins(d, p, j)
    ensures forall q | 0 <= q < |c.reqs| && c.reqs[q].satisfied :: exists i :: Records(d, d.reqs[q], i)
  {
    hide Joins, Records, Grows;
    forall p | p in c.optedIn ensures exists j :: Joins(d, p, j) {
      var j :| Joins(c, p, j);
      JoinsGrow(c, d, p, j);
    }
    assert |c.reqs| == |d.reqs| by { SameCount(c, d); }
    forall q | 0 <= q < |c.reqs| && c.reqs[q].satisfied ensures exists i :: Records(d, d.reqs[q], i) {
      var i :| Records(c, c.reqs[q], i);
      RecordsGrow(c, d, c.reqs[q], i);
      assert d.reqs[q] == c.reqs[q] by { SameWhenMet(c, d, q); }
    }
  }

  lemma SameCount(c: Sitting, d: Sitting)
    requires Grows(c, d)
    ensures |c.reqs| == |d.reqs|
  {}

  lemma SameWhenMet(c: Sitting, d: Sitting, q: nat)
    requires Grows(c, d) && q < |c.reqs| && c.reqs[q].satisfied
    ensures d.reqs[q] == c.reqs[q]
  {}

  lemma LastNotFinal(c: Sitting, d: Sitting)
    requires FinalIsLast(c) && !Closed(c) && |d.receipts| == |c.receipts| + 1 && d.receipts[..|c.receipts|] == c.receipts
    ensures forall i | 0 <= i < |d.receipts| - 1 :: !Final(d.receipts[i].action)
  {
    forall i | 0 <= i < |d.receipts| - 1 ensures !Final(d.receipts[i].action) {
      assert d.receipts[i] == c.receipts[i];
    }
  }

  lemma SatisfyKeeps(c: Sitting, actor: Party, id: string, citation: string, now: Time)
    requires Inv(c)
    ensures Inv(Satisfy(c, actor, id, citation, now).0)
  {
    hide Write, ChainOk;
    var (f, err) := Satisfy(c, actor, id, citation, now);
    var i := IndexOf(c.reqs, id);
    if f != c {
      WriteKeeps(c, actor, "satisfy", SatisfyNote(id, citation), now);
      var (d, e) := Write(c, actor, "satisfy", SatisfyNote(id, citation), now);
      assert e == err && f.receipts == d.receipts;
      if err.None? {
        hide SatisfyNote;
        LastNotFinal(c, f);
        assert Records(f, f.reqs[i], |c.receipts|);
      }
      hide Joins, Records;
      OldFactsGrow(c, f);
      forall q | 0 <= q < |f.reqs| && f.reqs[q].satisfied ensures exists k :: Records(f, f.reqs[q], k) {
        if err.Some? || q != i {
          assert c.reqs[q].satisfied;
        }
      }
    }
  }

  lemma OptInKeeps(c: Sitting, actor: Party, now: Time)
    requires Inv(c)
    ensures Inv(OptIn(c, actor, now).0)
  {
    hide Write, ChainOk;
    var (f, err) := OptIn(c, actor, now);
    if f != c {
      WriteKeeps(c, actor, "opt-in", "opted in", now);
      var (d, e) := Write(c, actor, "opt-in", "opted in", now);
      assert e == err && f.receipts == d.receipts;
      OldFactsGrow(c, f);
      if err.None? {
        LastNotFinal(c, f);
        NewJoin(c, f, actor);
      }
    }
  }

  lemma NewJoin(c: Sitting, f: Sitting, actor: Party)
    requires Inv(c) && Grows(c, f) && f.reqs == c.reqs && |f.receipts| == |c.receipts| + 1 && PartyMet(c.reqs, actor)
    requires f.receipts[|c.receipts|].action == "opt-in" && f.receipts[|c.receipts|].actor == actor
    ensures Joins(f, actor, |c.receipts|)
  {
    hide Records, Grows, ChainOk;
    forall q | 0 <= q < |f.reqs| && f.reqs[q].holder == actor
      ensures f.reqs[q].satisfied && exists i :: i < |c.receipts| && Records(f, f.reqs[q], i)
    {
      assert c.reqs[q] in c.reqs;
      var i :| Records(c, c.reqs[q], i);
      RecordsGrow(c, f, c.reqs[q], i);
      assert i < |c.receipts| by { RecordsBound(c, c.reqs[q], i); }
    }
  }

  lemma RecordsBound(c: Sitting, r: Requirement, i: int)
    requires Records(c, r, i)
    ensures i < |c.receipts|
  {}

  lemma RefuseKeeps(c: Sitting, actor: Party, now: Time)
    requires Inv(c)
    ensures Inv(Refuse(c, actor, now).0)
  {
    hide Write, ChainOk, Joins, Records;
    var (f, err) := Refuse(c, actor, now);
    if f != c {
      WriteKeeps(c, actor, "refuse", "refused before execute", now);
      var (d, e) := Write(c, actor, "refuse", "refused before execute", now);
      assert e == err && f.receipts == d.receipts;
      if err.None? {
        LastNotFinal(c, f);
      }
      OldFactsGrow(c, f);
    }
  }

  lemma ExecuteKeeps(c: Sitting, actor: Party, now: Time)
    requires Inv(c)
    ensures Inv(Execute(c, actor, now).0)
  {
    hide Write, ChainOk, Joins, Records;
    var (f, err) := Execute(c, actor, now);
    if f != c {
      WriteKeeps(c, actor, "execute", c.decision, now);
      var (d, e) := Write(c, actor, "execute", c.decision, now);
      assert e == err && f.receipts == d.receipts;
      if err.None? {
        LastNotFinal(c, f);
      }
      OldFactsGrow(c, f);
    }
  }

  lemma OutcomeKeeps(c: Sitting, k: Call)
    requires Inv(c)
    ensures Inv(Outcome(c, k).0)
  {
    hide Inv, Satisfy, OptIn, Refuse, Execute;
    match k
    case DoSatisfy(actor, id, citation, now) => SatisfyKeeps(c, actor, id, citation, now);
    case DoOptIn(actor, now) => OptInKeeps(c, actor, now);
    case DoRefuse(actor, now) => RefuseKeeps(c, actor, now);
    case DoExecute(actor, now) => ExecuteKeeps(c, actor, now);
  }

  lemma {:induction false} RunKeeps(c: Sitting, calls: seq<Call>)
    requires Inv(c)
    ensures Inv(Run(c, calls))
    decreases |calls|
  {
    hide Inv, Outcome;
    if calls != [] {
      RunKeeps(c, calls[..|calls| - 1]);
      OutcomeKeeps(Run(c, calls[..|calls| - 1]), calls[|calls| - 1]);
    }
  }

  lemma OpenedKeeps(id: string, sorted: seq<Party>, reqs: seq<Requirement>, decision: string, meter: Meter, now: Time)
    requires sorted != [] && Write(Convened(id, sorted, reqs, decision, meter), sorted[0], "open", "council opened", now).1.None?
    ensures Inv(Write(Convened(id, sorted, reqs, decision, meter), sorted[0], "open", "council opened", now).0)
  {
    assert ChainOk(id, []);
    hide ChainOk, Chained, OverBudget;
    var c := Convened(id, sorted, reqs, decision, meter);
    WriteKeeps(c, sorted[0], "open", "council opened", now);
  }

  // ----- main results -----

  // In a council that executed, the execution is the last receipt and the only final one; before
  // it every party joined, and before that party joined each of its requirements was recorded.
  lemma ExecutionWasEarned(c: Sitting, calls: seq<Call>)
    requires Inv(c) && Run(c, calls).phase == Executed
    ensures
      var d := Run(c, calls);
      var last := |d.receipts| - 1;
      && last >= 0 && d.receipts[last].action == "execute"
      && (forall i | 0 <= i < last :: !Final(d.receipts[i].action))
      && AllMet(d.reqs)
      && forall p | p in d.parties :: exists j :: j < last && Joins(d, p, j)
  {
    hide Joins, Records, Run;
    RunKeeps(c, calls);
    var d := Run(c, calls);
    forall p | p in d.parties ensures exists j :: j < |d.receipts| - 1 && Joins(d, p, j) {
      var j :| Joins(d, p, j);
      assert j < |d.receipts| - 1 by { JoinIsNotLast(d, p, j); }
    }
  }

  lemma JoinIsNotLast(d: Sitting, p: Party, j: int)
    requires Joins(d, p, j) && FinalIsLast(d) && d.phase == Executed
    ensures j < |d.receipts| - 1
  {}

  // A closed council never changes again.
  lemma {:induction false} ClosedIsFinal(c: Sitting, calls: seq<Call>)
    requires Closed(c)
    ensures Run(c, calls) == c
    decreases |calls|
  {
    if calls != [] {
      ClosedIsFinal(c, calls[..|calls| - 1]);
    }
  }

  // What a call must meet before its receipt is written.
  predicate Admitted(c: Sitting, k: Call) {
    && k.actor in c.parties && !Closed(c)
    && match k
       case DoSatisfy(actor, id, citation, _) =>
         var i := IndexOf(c.reqs, id);
         citation != "" && i < |c.reqs| && c.reqs[i].holder == actor && !c.reqs[i].satisfied
       case DoOptIn(actor, _) => PartyMet(c.reqs, actor) && actor !in c.optedIn
       case DoRefuse(_, _) => true
       case DoExecute(_, _) => AllMet(c.reqs) && forall p | p in c.parties :: p in c.optedIn
  }

  // A call is refused exactly when it is not admitted or the meter is against it. An inadmissible
  // call changes nothing; an admitted one that is refused uses up a step and changes nothing else.
  lemma RefusedIff(c: Sitting, k: Call)
    ensures Outcome(c, k).1.Some? <==> !Admitted(c, k) || c.steps >= c.meter.maxSteps || OverBudget(c.meter)
    ensures Outcome(c, k).1.Some? ==> Outcome(c, k).0 == if Admitted(c, k) then c.(steps := c.steps + 1) else c
    ensures Outcome(c, k).1.Some? ==> (Outcome(c, k).0 == c <==> !Admitted(c, k))
  {
    hide OverBudget, AllMet, PartyMet, Chained;
  }

  // Every call moves the count of steps by one or not at all, and by one exactly when admitted.
  lemma {:induction false} StepsCountAdmitted(c: Sitting, calls: seq<Call>)
    ensures Run(c, calls).steps == c.steps + AdmittedCalls(c, calls)
    decreases |calls|
  {
    hide Outcome, Admitted;
    if calls != [] {
      var front := calls[..|calls| - 1];
      StepsCountAdmitted(c, front);
      StepIfAdmitted(Run(c, front), calls[|calls| - 1]);
    }
  }

  function AdmittedCalls(c: Sitting, calls: seq<Call>): nat
    decreases |calls|
  {
    if calls == [] then 0 else
    var front := calls[..|calls| - 1];
    AdmittedCalls(c, front) + if Admitted(Run(c, front), calls[|calls| - 1]) then 1 else 0
  }

  lemma StepIfAdmitted(c: Sitting, k: Call)
    ensures Outcome(c, k).0.steps == c.steps + if Admitted(c, k) then 1 else 0
  {
    hide OverBudget, AllMet, PartyMet, Chained;
  }

  // Over budget, no run of calls gets anywhere but to the end of its steps.
  lemma {:induction false} OverBudgetIsStuck(c: Sitting, calls: seq<Call>)
    requires OverBudget(c.meter)
    ensures Run(c, calls) == c.(steps := Run(c, calls).steps)
    decreases |calls|
  {
    hide Outcome, OverBudget;
    if calls != [] {
      var front := calls[..|calls| - 1];
      OverBudgetIsStuck(c, front);
      RefusedIff(Run(c, front), calls[|calls| - 1]);
    }
  }

  // Nor does it with its steps used up.
  lemma {:induction false} ExhaustedIsStuck(c: Sitting, calls: seq<Call>)
    requires c.steps >= c.meter.maxSteps
    ensures Run(c, calls) == c.(steps := Run(c, calls).steps) && Run(c, calls).steps >= c.steps
    decreases |calls|
  {
    hide Outcome;
    if calls != [] {
      var front := calls[..|calls| - 1];
      ExhaustedIsStuck(c, front);
      RefusedIff(Run(c, front), calls[|calls| - 1]);
    }
  }

  // Execution is granted exactly to a party of an open, unanimous and satisfied council that still
  // has a step and is within its budget.
  lemma ExecuteIff(c: Sitting, actor: Party, now: Time)
    ensures Execute(c, actor, now).0.phase == Executed && c.phase != Executed <==>
      (actor in c.parties && !Closed(c) && (forall r | r in c.reqs :: r.satisfied) && (forall p | p in c.parties :: p in c.optedIn)
      && c.steps < c.meter.maxSteps && !OverBudget(c.meter))
  {}

  // ----- the mutable council -----

  class Board {
    const id: string
    const parties: seq<Party>
    const decision: string
    const meter: Meter
    var reqs: seq<Requirement>
    var optedIn: set<Party>
    var phase: Phase
    var closedAt: Option<Time>
    var receipts: seq<Receipt>
    var steps: int

    ghost function Now(): Sitting
      reads this
    {
      Sitting(id, parties, reqs, optedIn, decision, phase, meter, closedAt, receipts, steps)
    }

    constructor (c: Sitting)
      ensures Now() == c
    {
      id, parties, decision, meter := c.id, c.parties, c.decision, c.meter;
      reqs, optedIn, phase, closedAt, receipts, steps := c.reqs, c.optedIn, c.phase, c.closedAt, c.receipts, c.steps;
    }

    method IsParty(p: Party) returns (ok: bool)
      ensures ok <==> p in parties
    {
      for i := 0 to |parties|
        invariant p !in parties[..i]
      {
        if parties[i] == p {
          return true;
        }
      }
      return false;
    }

    predicate Terminal()
      reads this
    {
      phase == Executed || phase == Refused
    }

    method Append(actor: Party, action: string, note: string, now: Time) returns (err: Option<CouncilError>)
      modifies `steps, `receipts
      ensures (Now(), err) == Write(old(Now()), actor, action, note, now)
    {
      steps := steps + 1;
      if steps > meter.maxSteps {
        return Some(DoS);
      }
      if OverBudget(meter) {
        return Some(Budget);
      }
      var r := Receipt(|receipts| + 1, now, action, actor, Text(note), Tail(receipts), NoHash);
      r := r.(hash := HashReceipt(id, r));
      receipts := receipts + [r];
      return None;
    }

    method RefreshReady()
      modifies `phase
      ensures Now() == Refreshed(old(Now()))
    {
      if phase != Gathering {
        return;
      }
      for i := 0 to |reqs|
        invariant phase == Gathering && forall j | 0 <= j < i :: reqs[j].satisfied
      {
        if !reqs[i].satisfied {
          assert reqs[i] in reqs;
          return;
        }
      }
      phase := Ready;
    }

    method SatisfyReq(actor: Party, reqID: string, citation: string, now: Time) returns (err: Option<CouncilError>)
      modifies this
      ensures (Now(), err) == Satisfy(old(Now()), actor, reqID, citation, now)
    {
      hide Write, AllMet;
      var party := IsParty(actor);
      if !party {
        return Some(UnknownParty);
      }
      if Terminal() {
        return Some(CouncilError.Takeback);
      }
      if citation == "" {
        return Some(EmptyCitation);
      }
      var idx := 0;
      while idx < |reqs| && reqs[idx].id != reqID
        invariant idx <= |reqs| && forall j | 0 <= j < idx :: reqs[j].id != reqID
      {
        idx := idx + 1;
      }
      if idx == |reqs| {
        return Some(UnknownReq);
      }
      if reqs[idx].holder != actor {
        return Some(WrongParty);
      }
      if reqs[idx].satisfied {
        return Some(BadState);
      }
      err := Append(actor, "satisfy", SatisfyNote(reqID, citation), now);
      if err.Some? {
        return;
      }
      reqs := reqs[idx := reqs[idx].(satisfied := true, citation := citation)];
      RefreshReady();
    }

    method PartyReqsMet(p: Party) returns (ok: bool)
      ensures ok <==> PartyMet(reqs, p)
    {
      for i := 0 to |reqs|
        invariant forall j | 0 <= j < i :: reqs[j].holder == p ==> reqs[j].satisfied
      {
        if reqs[i].holder == p && !reqs[i].satisfied {
          assert reqs[i] in reqs;
          return false;
        }
      }
      return true;
    }

    method Join(actor: Party, now: Time) returns (err: Option<CouncilError>)
      modifies this
      ensures (Now(), err) == OptIn(old(Now()), actor, now)
    {
      hide Write, AllMet, PartyMet;
      var party := IsParty(actor);
      if !party {
        return Some(UnknownParty);
      }
      if Terminal() {
        return Some(CouncilError.Takeback);
      }
      if phase != Gathering && phase != Ready {
        assert false;
        return Some(BadState);
      }
      var met := PartyReqsMet(actor);
      if !met {
        return Some(NotSatisfied);
      }
      if actor in optedIn {
        return Some(BadState);
      }
      err := Append(actor, "opt-in", "opted in", now);
      if err.Some? {
        return;
      }
      optedIn := optedIn + {actor};
      RefreshReady();
    }

    method Veto(actor: Party, now: Time) returns (err: Option<CouncilError>)
      modifies this
      ensures (Now(), err) == Refuse(old(Now()), actor, now)
    {
      hide Write;
      var party := IsParty(actor);
      if !party {
        return Some(UnknownParty);
      }
      if Terminal() {
        return Some(CouncilError.Takeback);
      }
      err := Append(actor, "refuse", "refused before execute", now);
      if err.Some? {
        return;
      }
      closedAt, phase := Some(now), Refused;
    }

    method RunDecision(actor: Party, now: Time) returns (err: Option<CouncilError>)
      modifies this
      ensures (Now(), err) == Execute(old(Now()), actor, now)
    {
      hide Write;
      var party := IsParty(actor);
      if !party {
        return Some(UnknownParty);
      }
      if Terminal() {
        return Some(CouncilError.Takeback);
      }
      for i := 0 to |reqs|
        invariant Now() == old(Now()) && forall j | 0 <= j < i :: reqs[j].satisfied
      {
        if !reqs[i].satisfied {
          assert reqs[i] in reqs;
          return Some(NotSatisfied);
        }
      }
      for i := 0 to |parties|
        invariant Now() == old(Now()) && forall j | 0 <= j < i :: parties[j] in optedIn
      {
        if parties[i] !in optedIn {
          assert parties[i] in parties;
          return Some(NotUnanimous);
        }
      }
      err := Append(actor, "execute", decision, now);
      if err.Some? {
        return;
      }
      closedAt, phase := Some(now), Executed;
    }
  }
}
