// The decision tree: a walk is meant to take, at every gate, the first listed child whose facts
// hold. The code takes "" for no such child, so the two differ over a child under the empty key
// (internal/nexum/workflow.go).
module Workflow {
  import opened Wrappers
  import opened Kernel

  datatype Node = Node(id: string, kind: string, require: seq<string>, next: seq<string>)

  type Nodes = map<string, Node>

  datatype WalkError = ErrBadTree | ErrMissing(key: string) | ErrNoPath | ErrWalkLoop

  // ----- one step of the walk -----

  predicate ReqsMet(require: seq<string>, facts: set<string>) {
    forall r | r in require :: r in facts
  }

  // An absent node demands nothing.
  function Requirements(nodes: Nodes, key: string): seq<string> {
    if key in nodes then nodes[key].require else []
  }

  // The first child whose requirements hold.
  function FirstChild(nodes: Nodes, next: seq<string>, facts: set<string>): Option<string> {
    if next == [] then None
    else if ReqsMet(Requirements(nodes, next[0]), facts) then Some(next[0])
    else FirstChild(nodes, next[1..], facts)
  }

  // The same with "" for none, which is also what a first child under the empty key gives.
  function FirstOpen(nodes: Nodes, next: seq<string>, facts: set<string>): string {
    match FirstChild(nodes, next, facts)
    case None => ""
    case Some(ch) => ch
  }

  datatype Move = Arrive(action: string) | Stuck(e: WalkError) | Go(next: string)

  // The step the walk is for.
  function Ideal(nodes: Nodes, facts: set<string>, cur: string): Move {
    if cur !in nodes then Stuck(ErrMissing(cur))
    else if !ReqsMet(nodes[cur].require, facts) then Stuck(ErrNoPath)
    else if nodes[cur].kind == "action" then Arrive(nodes[cur].id)
    else
      match FirstChild(nodes, nodes[cur].next, facts)
      case None => Stuck(ErrNoPath)
      case Some(ch) => Go(ch)
  }

  // The step the code takes.
  function MoveFrom(nodes: Nodes, facts: set<string>, cur: string): Move {
    if cur !in nodes then Stuck(ErrMissing(cur))
    else if !ReqsMet(nodes[cur].require, facts) then Stuck(ErrNoPath)
    else if nodes[cur].kind == "action" then Arrive(nodes[cur].id)
    else
      var next := FirstOpen(nodes, nodes[cur].next, facts);
      if next == "" then Stuck(ErrNoPath) else Go(next)
  }

  // ----- the unbounded walk of either step -----

  type Step = string -> Move

  function Meant(nodes: Nodes, facts: set<string>): Step {
    cur => Ideal(nodes, facts, cur)
  }

  function Coded(nodes: Nodes, facts: set<string>): Step {
    cur => MoveFrom(nodes, facts, cur)
  }

  // Where the walk stands after k moves, if it gets that far.
  function Place(f: Step, root: string, k: nat): Option<string> {
    if k == 0 then Some(root) else
    match Place(f, root, k - 1)
    case None => None
    case Some(cur) => (match f(cur) case Go(next) => Some(next) case _ => None)
  }

  // The walk ends after k moves with this last one.
  ghost predicate EndsAt(f: Step, root: string, k: nat, m: Move) {
    Place(f, root, k).Some? && !m.Go? && f(Place(f, root, k).value) == m
  }

  ghost predicate Endless(f: Step, root: string) {
    forall k: nat :: Place(f, root, k).Some?
  }

  // The places visited are those of the first |path| moves.
  ghost predicate Follows(f: Step, root: string, path: seq<string>) {
    forall i | 0 <= i < |path| :: Place(f, root, i) == Some(path[i])
  }

  ghost predicate Distinct(s: seq<string>) {
    forall i, j | 0 <= i < j < |s| :: s[i] != s[j]
  }

  lemma {:induction false} EndIsLast(f: Step, root: string, k: nat, m: Move, j: nat)
    requires EndsAt(f, root, k, m) && j > k
    ensures Place(f, root, j).None?
  {
    if j > k + 1 {
      EndIsLast(f, root, k, m, j - 1);
    }
  }

  // A walk has one end, if any.
  lemma OneEnd(f: Step, root: string, k: nat, m: Move, j: nat, n: Move)
    requires EndsAt(f, root, k, m) && EndsAt(f, root, j, n)
    ensures k == j && m == n
  {
    hide Place;
    if j > k {
      EndIsLast(f, root, k, m, j);
    } else if k > j {
      EndIsLast(f, root, j, n, k);
    }
  }

  lemma Ended(f: Step, root: string, k: nat, m: Move)
    requires EndsAt(f, root, k, m)
    ensures !Endless(f, root) && exists j: nat :: EndsAt(f, root, j, m)
  {
    EndIsLast(f, root, k, m, k + 1);
  }

  // A place that comes back comes back for ever.
  lemma {:induction false} Periodic(f: Step, root: string, j: nat, k: nat, n: nat)
    requires j < k && Place(f, root, j).Some? && Place(f, root, j) == Place(f, root, k)
    ensures Place(f, root, n).Some?
    ensures n >= k ==> Place(f, root, n) == Place(f, root, n - (k - j))
    decreases n
  {
    if n > k {
      Periodic(f, root, j, k, n - 1);
      Periodic(f, root, j, k, n - (k - j));
      assert Place(f, root, n) == Place(f, root, n - (k - j));
    } else {
      Earlier(f, root, n, k);
    }
  }

  lemma {:induction false} Earlier(f: Step, root: string, i: nat, k: nat)
    requires i <= k && Place(f, root, k).Some?
    ensures Place(f, root, i).Some?
    ensures i < k ==> Place(f, root, i + 1).Some? && f(Place(f, root, i).value) == Go(Place(f, root, i + 1).value)
    decreases k
  {
    if i < k {
      Earlier(f, root, i, k - 1);
    }
  }

  lemma RepeatIsEndless(f: Step, root: string, j: nat, k: nat)
    requires j < k && Place(f, root, j).Some? && Place(f, root, j) == Place(f, root, k)
    ensures Endless(f, root)
  {
    hide Place;
    forall n: nat ensures Place(f, root, n).Some? {
      Periodic(f, root, j, k, n);
    }
  }

  // What a walk's result says of a step: it is the end of the unbounded walk, and the loop error
  // means that there is none.
  ghost predicate Describes(f: Step, nodes: Nodes, root: string, r: Result<(seq<string>, string), WalkError>) {
    && (nodes == map[] <==> r == Err(ErrBadTree))
    && (r == Err(ErrWalkLoop) <==> nodes != map[] && Endless(f, root))
    && (r.Ok? ==>
          var (path, action) := r.value;
          path != [] && Distinct(path) && Follows(f, root, path) && EndsAt(f, root, |path| - 1, Arrive(action)))
    && (r.Err? && r.error != ErrBadTree && r.error != ErrWalkLoop ==> exists k: nat :: EndsAt(f, root, k, Stuck(r.error)))
  }

  // ----- where the code's step is the one meant -----

  // The meant walk moves to a child under the empty key.
  ghost predicate TakesEmpty(nodes: Nodes, facts: set<string>, root: string) {
    exists k: nat :: k > 0 && Place(Meant(nodes, facts), root, k) == Some("")
  }

  lemma StepsCompare(nodes: Nodes, facts: set<string>, cur: string)
    ensures MoveFrom(nodes, facts, cur)
      == if Ideal(nodes, facts, cur) == Go("") then Stuck(ErrNoPath) else Ideal(nodes, facts, cur)
  {
    hide ReqsMet, FirstChild;
  }

  lemma {:induction false} SamePlace(nodes: Nodes, facts: set<string>, root: string, k: nat)
    ensures k > 0 ==> Place(Coded(nodes, facts), root, k) != Some("")
    ensures (forall j | 0 < j <= k :: Place(Meant(nodes, facts), root, j) != Some(""))
      ==> Place(Coded(nodes, facts), root, k) == Place(Meant(nodes, facts), root, k)
  {
    hide Ideal, MoveFrom;
    if k > 0 {
      SamePlace(nodes, facts, root, k - 1);
      if Place(Coded(nodes, facts), root, k - 1).Some? {
        StepsCompare(nodes, facts, Place(Coded(nodes, facts), root, k - 1).value);
        NeverGoesEmpty(nodes, facts, Place(Coded(nodes, facts), root, k - 1).value);
      }
    }
  }

  lemma NeverGoesEmpty(nodes: Nodes, facts: set<string>, cur: string)
    ensures MoveFrom(nodes, facts, cur) != Go("")
  {
  }

  ghost predicate SameWalk(f: Step, g: Step, root: string) {
    && (forall k: nat :: Place(f, root, k) == Place(g, root, k))
    && (forall k: nat, m: Move :: EndsAt(f, root, k, m) <==> EndsAt(g, root, k, m))
  }

  // On these facts the code walks as meant exactly when the meant walk never moves to the empty key.
  lemma SameWalkIff(nodes: Nodes, facts: set<string>, root: string)
    ensures SameWalk(Coded(nodes, facts), Meant(nodes, facts), root) <==> !TakesEmpty(nodes, facts, root)
  {
    hide Ideal, MoveFrom;
    var f, g := Coded(nodes, facts), Meant(nodes, facts);
    if TakesEmpty(nodes, facts, root) {
      var k: nat :| k > 0 && Place(g, root, k) == Some("");
      SamePlace(nodes, facts, root, k);
    } else {
      forall k: nat ensures Place(f, root, k) == Place(g, root, k) {
        SamePlace(nodes, facts, root, k);
      }
      forall k: nat, m: Move ensures EndsAt(f, root, k, m) <==> EndsAt(g, root, k, m) {
        if Place(g, root, k).Some? {
          assert Place(g, root, k + 1) != Some("");
          StepsCompare(nodes, facts, Place(g, root, k).value);
        }
      }
    }
  }

  // Where they part the code has ended without a path.
  lemma {:induction false} EmptyEndsCode(nodes: Nodes, facts: set<string>, root: string, k: nat) returns (j: nat)
    requires k > 0 && Place(Meant(nodes, facts), root, k) == Some("")
    ensures EndsAt(Coded(nodes, facts), root, j, Stuck(ErrNoPath))
    decreases k
  {
    hide Ideal, MoveFrom;
    if i :| 0 < i < k && Place(Meant(nodes, facts), root, i) == Some("") {
      j := EmptyEndsCode(nodes, facts, root, i);
    } else {
      j := k - 1;
      SamePlace(nodes, facts, root, j);
      StepsCompare(nodes, facts, Place(Meant(nodes, facts), root, j).value);
    }
  }

  // What the code's walk returns is true of the meant walk exactly when that walk never moves to
  // the empty key, or by accident when it does and is later stuck without a path as well.
  lemma AsMeantIff(nodes: Nodes, facts: set<string>, root: string, r: Result<(seq<string>, string), WalkError>)
    requires Describes(Coded(nodes, facts), nodes, root, r)
    ensures Describes(Meant(nodes, facts), nodes, root, r)
      <==> nodes == map[] || !TakesEmpty(nodes, facts, root) || exists k: nat :: EndsAt(Meant(nodes, facts), root, k, Stuck(ErrNoPath))
    ensures r != Err(ErrNoPath) ==> Describes(Meant(nodes, facts), nodes, root, r)
  {
    hide Place, EndsAt;
    var f, g := Coded(nodes, facts), Meant(nodes, facts);
    if !TakesEmpty(nodes, facts, root) {
      SameWalkIff(nodes, facts, root);
      SameDescribed(f, g, nodes, root, r);
    } else if nodes != map[] {
      var k: nat :| k > 0 && Place(g, root, k) == Some("");
      var j := EmptyEndsCode(nodes, facts, root, k);
      NoPathOnly(f, nodes, root, r, j);
      if n: nat :| EndsAt(g, root, n, Stuck(ErrNoPath)) {
        Ended(g, root, n, Stuck(ErrNoPath));
      }
    }
  }

  lemma SameDescribed(f: Step, g: Step, nodes: Nodes, root: string, r: Result<(seq<string>, string), WalkError>)
    requires SameWalk(f, g, root) && Describes(f, nodes, root, r)
    ensures Describes(g, nodes, root, r)
  {
    hide EndsAt, Place;
    assert Endless(f, root) <==> Endless(g, root);
    if r.Ok? {
      assert Follows(g, root, r.value.0);
      assert EndsAt(g, root, |r.value.0| - 1, Arrive(r.value.1));
    } else if r.error != ErrBadTree && r.error != ErrWalkLoop {
      var k: nat :| EndsAt(f, root, k, Stuck(r.error));
      assert EndsAt(g, root, k, Stuck(r.error));
    }
  }

  lemma NoPathOnly(f: Step, nodes: Nodes, root: string, r: Result<(seq<string>, string), WalkError>, j: nat)
    requires nodes != map[] && Describes(f, nodes, root, r) && EndsAt(f, root, j, Stuck(ErrNoPath))
    ensures r == Err(ErrNoPath)
  {
    hide EndsAt, Place;
    Ended(f, root, j, Stuck(ErrNoPath));
    if r.Ok? {
      OneEnd(f, root, j, Stuck(ErrNoPath), |r.value.0| - 1, Arrive(r.value.1));
    } else {
      var k: nat :| EndsAt(f, root, k, Stuck(r.error));
      OneEnd(f, root, j, Stuck(ErrNoPath), k, Stuck(r.error));
    }
  }

  // ----- which trees are walked as meant -----

  ghost function Facts(require: seq<string>): set<string> {
    set r | r in require
  }

  // The empty key is not listed, or on just these facts an earlier sibling is taken.
  ghost predicate Shadowed(nodes: Nodes, next: seq<string>, facts: set<string>) {
    forall i | 0 <= i < |next| && next[i] == "" :: exists j :: 0 <= j < i && ReqsMet(Requirements(nodes, next[j]), facts)
  }

  lemma {:induction false} FirstChildIs(nodes: Nodes, next: seq<string>, facts: set<string>)
    ensures FirstChild(nodes, next, facts).None? ==>
      forall j | 0 <= j < |next| :: !ReqsMet(Requirements(nodes, next[j]), facts)
    ensures FirstChild(nodes, next, facts).Some? ==>
      exists i :: 0 <= i < |next| && FirstChild(nodes, next, facts) == Some(next[i]) && ReqsMet(Requirements(nodes, next[i]), facts)
        && forall j | 0 <= j < i :: !ReqsMet(Requirements(nodes, next[j]), facts)
  {
    hide ReqsMet, Requirements;
    if next != [] && !ReqsMet(Requirements(nodes, next[0]), facts) {
      FirstChildIs(nodes, next[1..], facts);
      if FirstChild(nodes, next, facts).Some? {
        var i :| 0 <= i < |next[1..]| && FirstChild(nodes, next[1..], facts) == Some(next[1..][i])
          && ReqsMet(Requirements(nodes, next[1..][i]), facts)
          && forall j | 0 <= j < i :: !ReqsMet(Requirements(nodes, next[1..][j]), facts);
        assert next[i + 1] == next[1..][i];
        forall j | 0 <= j < i + 1 ensures !ReqsMet(Requirements(nodes, next[j]), facts) {
          assert j > 0 ==> next[j] == next[1..][j - 1];
        }
      }
    }
  }

  // With fewer facts that still meet it, the first child is the first child.
  lemma {:induction false} FewerFacts(nodes: Nodes, next: seq<string>, facts: set<string>, fewer: set<string>)
    requires FirstChild(nodes, next, facts).Some? && fewer <= facts
    requires ReqsMet(Requirements(nodes, FirstChild(nodes, next, facts).value), fewer)
    ensures FirstChild(nodes, next, fewer) == FirstChild(nodes, next, facts)
  {
    if !ReqsMet(Requirements(nodes, next[0]), facts) {
      FewerFacts(nodes, next[1..], facts, fewer);
    }
  }

  lemma ShadowedIff(nodes: Nodes, next: seq<string>, facts: set<string>)
    requires ReqsMet(Requirements(nodes, ""), facts)
    ensures Shadowed(nodes, next, facts) <==> FirstChild(nodes, next, facts) != Some("")
  {
    hide ReqsMet, Requirements, FirstChild;
    FirstChildIs(nodes, next, facts);
  }

  // The gate at this key never takes a child under the empty key.
  ghost predicate GateShadowed(nodes: Nodes, key: string)
    requires key in nodes
  {
    Shadowed(nodes, nodes[key].next, Facts(nodes[key].require) + Facts(Requirements(nodes, "")))
  }

  ghost predicate AllShadowed(nodes: Nodes) {
    forall key | key in nodes && nodes[key].kind != "action" :: GateShadowed(nodes, key)
  }

  lemma GoesEmptyIff(nodes: Nodes, key: string)
    requires key in nodes && nodes[key].kind != "action"
    ensures GateShadowed(nodes, key) <==> forall facts :: Ideal(nodes, facts, key) != Go("")
  {
    var need := Facts(nodes[key].require) + Facts(Requirements(nodes, ""));
    hide FirstChild;
    ShadowedIff(nodes, nodes[key].next, need);
    if FirstChild(nodes, nodes[key].next, need) == Some("") {
      assert Ideal(nodes, need, key) == Go("");
    }
    forall facts ensures Ideal(nodes, facts, key) == Go("") ==> FirstChild(nodes, nodes[key].next, need) == Some("") {
      if Ideal(nodes, facts, key) == Go("") {
        FirstChildIs(nodes, nodes[key].next, facts);
        FewerFacts(nodes, nodes[key].next, facts, need);
      }
    }
  }

  // The code's step is the meant one, on all facts and from every place, exactly when at every gate
  // the empty key is shadowed.
  lemma StepsAgreeIff(nodes: Nodes)
    ensures (forall facts, cur :: MoveFrom(nodes, facts, cur) == Ideal(nodes, facts, cur)) <==> AllShadowed(nodes)
  {
    hide GateShadowed, ReqsMet, FirstChild;
    forall key | key in nodes && nodes[key].kind != "action"
      ensures GateShadowed(nodes, key) <==> forall facts :: Ideal(nodes, facts, key) != Go("")
    {
      GoesEmptyIff(nodes, key);
    }
    forall facts, cur
      ensures MoveFrom(nodes, facts, cur) == Ideal(nodes, facts, cur) <==> Ideal(nodes, facts, cur) != Go("")
    {
      StepsCompare(nodes, facts, cur);
    }
    assert forall facts, cur | Ideal(nodes, facts, cur) == Go("") :: cur in nodes && nodes[cur].kind != "action";
  }

  // Then every walk is as meant, from any root and on any facts.
  lemma ShadowedWalks(nodes: Nodes, facts: set<string>, root: string)
    requires AllShadowed(nodes)
    ensures !TakesEmpty(nodes, facts, root)
  {
    hide AllShadowed, MoveFrom, Ideal;
    StepsAgreeIff(nodes);
    forall k: nat | k > 0 ensures Place(Meant(nodes, facts), root, k) != Some("") {
      if Place(Meant(nodes, facts), root, k) == Some("") {
        Earlier(Meant(nodes, facts), root, k - 1, k);
        NeverGoesEmpty(nodes, facts, Place(Meant(nodes, facts), root, k - 1).value);
      }
    }
  }

  lemma {:induction false} DistinctFits(s: seq<string>, keys: set<string>)
    requires Distinct(s) && forall i | 0 <= i < |s| :: s[i] in keys
    ensures |s| <= |keys|
  {
    if s != [] {
      var t, x := s[..|s| - 1], s[|s| - 1];
      DistinctFits(t, keys - {x});
    }
  }

  // ----- the walk with its loop detection -----

  method Meets(require: seq<string>, facts: set<string>) returns (ok: bool)
    ensures ok <==> ReqsMet(require, facts)
  {
    for i := 0 to |require|
      invariant forall j | 0 <= j < i :: require[j] in facts
    {
      if require[i] !in facts {
        return false;
      }
    }
    return true;
  }

  method Choose(nodes: Nodes, next: seq<string>, facts: set<string>) returns (ch: string)
    ensures ch == FirstOpen(nodes, next, facts)
  {
    for i := 0 to |next|
      invariant FirstChild(nodes, next[i..], facts) == FirstChild(nodes, next, facts)
    {
      assert next[i..][0] == next[i] && next[i..][1..] == next[i + 1..];
      var met := Meets(Requirements(nodes, next[i]), facts);
      if met {
        return next[i];
      }
    }
    return "";
  }

  // The result describes the walk of the code's step, and of the meant step exactly under the
  // condition above: always when every gate shadows the empty key, and whatever the tree unless it
  // is that there is no path. The guard on the length of the path never fires.
  method Walk(nodes: Nodes, root: string, facts: set<string>) returns (r: Result<(seq<string>, string), WalkError>)
    ensures Describes(Coded(nodes, facts), nodes, root, r)
    ensures Describes(Meant(nodes, facts), nodes, root, r)
      <==> nodes == map[] || !TakesEmpty(nodes, facts, root) || exists k: nat :: EndsAt(Meant(nodes, facts), root, k, Stuck(ErrNoPath))
    ensures AllShadowed(nodes) || r != Err(ErrNoPath) ==> Describes(Meant(nodes, facts), nodes, root, r)
  {
    hide ReqsMet, FirstOpen, AllShadowed, TakesEmpty, Ideal, Describes, Place, Follows, Distinct;
    ghost var f := Coded(nodes, facts);
    WalkAsMeant(nodes, root, facts);
    AtRoot(f, root);
    if nodes == map[] {
      EmptyTree(f, root);
      return Err(ErrBadTree);
    }
    var seen: set<string> := {};
    var cur := root;
    var path: seq<string> := [];
    while true
      invariant |path| <= |nodes.Keys|
      invariant Place(f, root, |path|) == Some(cur)
      invariant Follows(f, root, path) && Distinct(path)
      invariant forall x :: x in seen <==> x in path
      invariant forall i | 0 <= i < |path| :: path[i] in nodes.Keys
      decreases |nodes.Keys| - |path|
    {
      ghost var k := |path|;
      if cur in seen {
        var j :| 0 <= j < |path| && path[j] == cur;
        FollowsAt(f, root, path, j);
        GoesRound(f, nodes, root, j, k);
        return Err(ErrWalkLoop);
      }
      seen := seen + {cur};
      if cur !in nodes {
        r := Err(ErrMissing(cur));
        StuckThere(f, nodes, root, k, r.error);
        return;
      }
      var n := nodes[cur];
      var met := Meets(n.require, facts);
      if !met {
        r := Err(ErrNoPath);
        StuckThere(f, nodes, root, k, r.error);
        return;
      }
      Longer(f, root, path, cur);
      path := path + [cur];
      DistinctFits(path, nodes.Keys);
      if n.kind == "action" {
        ArrivesThere(f, nodes, root, path, n.id);
        return Ok((path, n.id));
      }
      var next := Choose(nodes, n.next, facts);
      if next == "" {
        r := Err(ErrNoPath);
        StuckThere(f, nodes, root, k, r.error);
        return;
      }
      NextPlace(f, root, k, cur, next);
      cur := next;
      if |path| > |nodes.Keys| + 1 {
        assert false;
        return Err(ErrWalkLoop);
      }
    }
  }

  lemma AtRoot(f: Step, root: string)
    ensures Place(f, root, 0) == Some(root) && Follows(f, root, []) && Distinct([])
  {}

  lemma FollowsAt(f: Step, root: string, path: seq<string>, j: nat)
    requires Follows(f, root, path) && j < |path|
    ensures Place(f, root, j) == Some(path[j])
  {}

  lemma NextPlace(f: Step, root: string, k: nat, cur: string, next: string)
    requires Place(f, root, k) == Some(cur) && f(cur) == Go(next)
    ensures Place(f, root, k + 1) == Some(next)
  {}

  lemma Longer(f: Step, root: string, path: seq<string>, cur: string)
    requires Follows(f, root, path) && Distinct(path) && Place(f, root, |path|) == Some(cur) && cur !in path
    ensures Follows(f, root, path + [cur]) && Distinct(path + [cur])
  {
    hide Place;
  }

  // The result for each way a walk can go.
  lemma EmptyTree(f: Step, root: string)
    ensures Describes(f, map[], root, Err(ErrBadTree))
  {}

  lemma GoesRound(f: Step, nodes: Nodes, root: string, j: nat, k: nat)
    requires nodes != map[] && j < k && Place(f, root, j).Some? && Place(f, root, j) == Place(f, root, k)
    ensures Describes(f, nodes, root, Err(ErrWalkLoop))
  {
    hide Place;
    RepeatIsEndless(f, root, j, k);
  }

  lemma StuckThere(f: Step, nodes: Nodes, root: string, k: nat, e: WalkError)
    requires nodes != map[] && e != ErrBadTree && e != ErrWalkLoop && EndsAt(f, root, k, Stuck(e))
    ensures Describes(f, nodes, root, Err(e))
  {
    hide Place, EndsAt;
    Ended(f, root, k, Stuck(e));
  }

  lemma ArrivesThere(f: Step, nodes: Nodes, root: string, path: seq<string>, action: string)
    requires nodes != map[] && path != [] && Distinct(path) && Follows(f, root, path)
    requires EndsAt(f, root, |path| - 1, Arrive(action))
    ensures Describes(f, nodes, root, Ok((path, action)))
  {
    hide Place, EndsAt;
    Ended(f, root, |path| - 1, Arrive(action));
  }

  // The two of them for every result.
  lemma WalkAsMeant(nodes: Nodes, root: string, facts: set<string>)
    ensures forall r | Describes(Coded(nodes, facts), nodes, root, r) ::
      Describes(Meant(nodes, facts), nodes, root, r)
      <==> nodes == map[] || !TakesEmpty(nodes, facts, root) || exists k: nat :: EndsAt(Meant(nodes, facts), root, k, Stuck(ErrNoPath))
    ensures forall r | Describes(Coded(nodes, facts), nodes, root, r) && r != Err(ErrNoPath) ::
      Describes(Meant(nodes, facts), nodes, root, r)
    ensures AllShadowed(nodes) ==> !TakesEmpty(nodes, facts, root)
  {
    hide Describes, TakesEmpty, EndsAt, AllShadowed;
    forall r | Describes(Coded(nodes, facts), nodes, root, r)
      ensures Describes(Meant(nodes, facts), nodes, root, r)
        <==> nodes == map[] || !TakesEmpty(nodes, facts, root) || exists k: nat :: EndsAt(Meant(nodes, facts), root, k, Stuck(ErrNoPath))
      ensures r != Err(ErrNoPath) ==> Describes(Meant(nodes, facts), nodes, root, r)
    {
      AsMeantIff(nodes, facts, root, r);
    }
    if AllShadowed(nodes) {
      ShadowedWalks(nodes, facts, root);
    }
  }

  // ----- opening -----

  predicate NodeOk(n: Node, keys: set<string>) {
    && (n.kind == "gate" || n.kind == "action")
    && (n.kind == "action" ==> n.next == [])
    && (n.kind == "gate" ==> n.next != [])
    && forall ch | ch in n.next :: ch in keys
  }

  function Named(n: Node, key: string): Node {
    if n.id == "" then n.(id := key) else n
  }

  // The nodes under their own identifiers, read in the order of the map's iteration.
  function Cleaned(nodes: Nodes, order: seq<string>): Nodes
    requires forall key | key in order :: key in nodes
  {
    if order == [] then map[] else
    var n := Named(nodes[order[|order| - 1]], order[|order| - 1]);
    Cleaned(nodes, order[..|order| - 1])[n.id := n]
  }

  // The range over a map visits every key once, in any order.
  ghost predicate Iterates(order: seq<string>, nodes: Nodes) {
    Distinct(order) && (forall key | key in order :: key in nodes) && (forall key | key in nodes :: key in order)
  }

  method OpenNodes(root: string, nodes: Nodes, order: seq<string>) returns (r: Option<Nodes>)
    requires Iterates(order, nodes)
    ensures r.Some? <==>
      root != "" && nodes != map[] && (forall key | key in nodes :: NodeOk(nodes[key], nodes.Keys)) && root in Cleaned(nodes, order)
    ensures r.Some? ==> r.value == Cleaned(nodes, order)
  {
    if root == "" || nodes == map[] {
      return None;
    }
    var cleaned: Nodes := map[];
    for i := 0 to |order|
      invariant cleaned == Cleaned(nodes, order[..i])
      invariant forall j | 0 <= j < i :: NodeOk(nodes[order[j]], nodes.Keys)
    {
      var n := Named(nodes[order[i]], order[i]);
      if !NodeOk(n, nodes.Keys) {
        assert order[i] in nodes && !NodeOk(nodes[order[i]], nodes.Keys);
        return None;
      }
      assert order[..i + 1][..i] == order[..i];
      cleaned := cleaned[n.id := n];
    }
    assert order[..|order|] == order;
    if root !in cleaned {
      return None;
    }
    return Some(cleaned);
  }

  // Every identifier given is the key it is filed under.
  predicate OwnNames(nodes: Nodes) {
    forall key | key in nodes :: nodes[key].id == "" || nodes[key].id == key
  }

  // No child and no root leads outside the nodes.
  ghost predicate Complete(nodes: Nodes, root: string) {
    root in nodes && forall key, ch | key in nodes && ch in nodes[key].next :: ch in nodes
  }

  // The identifier under which a node is filed.
  function NameOf(nodes: Nodes, key: string): string
    requires key in nodes
  {
    Named(nodes[key], key).id
  }

  ghost predicate IsName(nodes: Nodes, name: string) {
    exists key :: key in nodes && NameOf(nodes, key) == name
  }

  ghost predicate NamesDiffer(nodes: Nodes) {
    forall key, other | key in nodes && other in nodes && key != other :: NameOf(nodes, key) != NameOf(nodes, other)
  }

  // The root and every child are names, not merely keys, of nodes.
  ghost predicate NamesClosed(nodes: Nodes, root: string) {
    IsName(nodes, root) && forall key, ch | key in nodes && ch in nodes[key].next :: IsName(nodes, ch)
  }

  // What is filed under a name is one of the nodes of that name.
  lemma {:induction false} CleanedNames(nodes: Nodes, order: seq<string>, name: string)
    requires forall key | key in order :: key in nodes
    ensures name in Cleaned(nodes, order) <==> exists key :: key in order && NameOf(nodes, key) == name
    ensures name in Cleaned(nodes, order)
      ==> exists key :: key in order && NameOf(nodes, key) == name && Cleaned(nodes, order)[name] == Named(nodes[key], key)
  {
    if order != [] {
      var front, last := order[..|order| - 1], order[|order| - 1];
      assert order == front + [last];
      CleanedNames(nodes, front, name);
      if NameOf(nodes, last) == name {
        assert last in order;
      } else if name in Cleaned(nodes, front) {
        var key :| key in front && NameOf(nodes, key) == name && Cleaned(nodes, front)[name] == Named(nodes[key], key);
        assert key in order;
      }
    }
  }

  // Some fact that the node under this key requires is not there.
  ghost predicate Lacks(nodes: Nodes, facts: set<string>, key: string) {
    exists i :: 0 <= i < |Requirements(nodes, key)| && Requirements(nodes, key)[i] !in facts
  }

  lemma MetUnlessLacking(nodes: Nodes, facts: set<string>, key: string)
    ensures ReqsMet(Requirements(nodes, key), facts) <==> !Lacks(nodes, facts, key)
  {}

  lemma {:induction false} FirstMet(nodes: Nodes, next: seq<string>, facts: set<string>)
    ensures match FirstChild(nodes, next, facts)
      case None => forall j | 0 <= j < |next| :: Lacks(nodes, facts, next[j])
      case Some(ch) => exists i :: 0 <= i < |next| && next[i] == ch && !Lacks(nodes, facts, ch)
                                   && forall j | 0 <= j < i :: Lacks(nodes, facts, next[j])
  {
    hide Lacks, ReqsMet;
    if next != [] {
      MetUnlessLacking(nodes, facts, next[0]);
      if Lacks(nodes, facts, next[0]) {
        FirstMet(nodes, next[1..], facts);
        if FirstChild(nodes, next[1..], facts).Some? {
          var ch := FirstChild(nodes, next[1..], facts).value;
          var i :| 0 <= i < |next[1..]| && next[1..][i] == ch && forall j | 0 <= j < i :: Lacks(nodes, facts, next[1..][j]);
          forall j | 0 <= j < i + 1 ensures Lacks(nodes, facts, next[j]) {
            if j > 0 { assert next[j] == next[1..][j - 1]; }
          }
          assert next[i + 1] == ch;
        } else {
          forall j | 0 <= j < |next| ensures Lacks(nodes, facts, next[j]) {
            if j > 0 { assert next[j] == next[1..][j - 1]; }
          }
        }
      } else {
        assert next[0] == next[0];
      }
    }
  }

  // A step in a tree that opened: it arrives at an action, which has no children; it goes from a gate
  // to a listed child that lacks nothing while all before it do; and it is stuck where a fact is
  // lacking, or at a gate with children each of which lacks one.
  lemma OpenedStep(nodes: Nodes, order: seq<string>, facts: set<string>, cur: string)
    requires Iterates(order, nodes) && forall key | key in nodes :: NodeOk(nodes[key], nodes.Keys)
    requires cur in Cleaned(nodes, order)
    ensures
      var tree := Cleaned(nodes, order);
      var n := tree[cur];
      match Ideal(tree, facts, cur)
      case Arrive(action) => n.kind == "action" && |n.next| == 0 && action == cur && !Lacks(tree, facts, cur)
      case Go(ch) =>
        && n.kind == "gate" && !Lacks(tree, facts, cur) && !Lacks(tree, facts, ch) && ch in nodes
        && exists i :: 0 <= i < |n.next| && n.next[i] == ch && forall j | 0 <= j < i :: Lacks(tree, facts, n.next[j])
      case Stuck(e) =>
        && e == ErrNoPath
        && (Lacks(tree, facts, cur) || (n.kind == "gate" && |n.next| > 0 && forall j | 0 <= j < |n.next| :: Lacks(tree, facts, n.next[j])))
  {
    hide Lacks, ReqsMet, Cleaned, FirstChild;
    var tree := Cleaned(nodes, order);
    CleanedNames(nodes, order, cur);
    var key :| key in order && NameOf(nodes, key) == cur && tree[cur] == Named(nodes[key], key);
    assert NodeOk(nodes[key], nodes.Keys);
    MetUnlessLacking(tree, facts, cur);
    FirstMet(tree, tree[cur].next, facts);
  }

  lemma FiledIffName(nodes: Nodes, order: seq<string>, name: string)
    requires Iterates(order, nodes)
    ensures name in Cleaned(nodes, order) <==> IsName(nodes, name)
  {
    CleanedNames(nodes, order, name);
    if IsName(nodes, name) {
      var key :| key in nodes && NameOf(nodes, key) == name;
      assert key in order;
    }
  }

  // With names closed, opening in any order leaves a complete tree.
  lemma ClosedStaysComplete(nodes: Nodes, order: seq<string>, root: string)
    requires Iterates(order, nodes) && NamesClosed(nodes, root)
    ensures Complete(Cleaned(nodes, order), root)
  {
    hide Cleaned, IsName;
    var c := Cleaned(nodes, order);
    FiledIffName(nodes, order, root);
    forall name, ch | name in c && ch in c[name].next ensures ch in c {
      CleanedNames(nodes, order, name);
      var key :| key in order && NameOf(nodes, key) == name && c[name] == Named(nodes[key], key);
      assert key in nodes && ch in nodes[key].next;
      FiledIffName(nodes, order, ch);
    }
  }

  // A tree whose names differ is complete after opening exactly when its names are closed.
  lemma CompleteIff(nodes: Nodes, order: seq<string>, root: string)
    requires Iterates(order, nodes) && NamesDiffer(nodes)
    ensures Complete(Cleaned(nodes, order), root) <==> NamesClosed(nodes, root)
  {
    hide Cleaned, IsName;
    var c := Cleaned(nodes, order);
    if NamesClosed(nodes, root) {
      ClosedStaysComplete(nodes, order, root);
    }
    if Complete(c, root) {
      FiledIffName(nodes, order, root);
      forall key, ch | key in nodes && ch in nodes[key].next ensures IsName(nodes, ch) {
        var name := NameOf(nodes, key);
        assert key in order;
        CleanedNames(nodes, order, name);
        var other :| other in order && NameOf(nodes, other) == name && c[name] == Named(nodes[other], other);
        assert other == key;
        FiledIffName(nodes, order, ch);
      }
    }
  }

  // Some iteration visits a given key last.
  lemma {:induction false} Listing(keys: set<string>) returns (order: seq<string>)
    ensures Distinct(order) && forall key :: key in order <==> key in keys
    decreases keys
  {
    if keys == {} {
      order := [];
    } else {
      var key :| key in keys;
      var rest := Listing(keys - {key});
      order := rest + [key];
      assert forall k :: k in order <==> k in rest || k == key;
    }
  }

  lemma LastVisited(nodes: Nodes, key: string) returns (order: seq<string>)
    requires key in nodes
    ensures Iterates(order, nodes) && order != [] && order[|order| - 1] == key
  {
    var rest := Listing(nodes.Keys - {key});
    order := rest + [key];
    assert forall k :: k in order <==> k in rest || k == key;
  }

  // Whatever the names, colliding or not: opening leaves a complete tree in every order of the
  // iteration exactly when the names are closed.
  lemma AlwaysCompleteIff(nodes: Nodes, root: string)
    ensures (forall order | Iterates(order, nodes) :: Complete(Cleaned(nodes, order), root)) <==> NamesClosed(nodes, root)
  {
    hide IsName, Complete, Cleaned;
    if NamesClosed(nodes, root) {
      forall order | Iterates(order, nodes) ensures Complete(Cleaned(nodes, order), root) {
        ClosedStaysComplete(nodes, order, root);
      }
    }
    if forall order | Iterates(order, nodes) :: Complete(Cleaned(nodes, order), root) {
      AnyOrderNames(nodes, root);
      forall key, ch | key in nodes && ch in nodes[key].next ensures IsName(nodes, ch) {
        var order := LastVisited(nodes, key);
        assert Complete(Cleaned(nodes, order), root);
        LastIsFiled(nodes, order, key);
        ChildFiled(Cleaned(nodes, order), root, NameOf(nodes, key), ch);
        FiledIffName(nodes, order, ch);
      }
    }
  }

  lemma ChildFiled(nodes: Nodes, root: string, name: string, ch: string)
    requires Complete(nodes, root) && name in nodes && ch in nodes[name].next
    ensures ch in nodes
  {}

  lemma LastIsFiled(nodes: Nodes, order: seq<string>, key: string)
    requires Iterates(order, nodes) && order != [] && order[|order| - 1] == key
    ensures key in nodes && NameOf(nodes, key) in Cleaned(nodes, order)
    ensures Cleaned(nodes, order)[NameOf(nodes, key)].next == nodes[key].next
  {}

  lemma AnyOrderNames(nodes: Nodes, root: string)
    requires forall order | Iterates(order, nodes) :: Complete(Cleaned(nodes, order), root)
    ensures IsName(nodes, root)
  {
    var order := Listing(nodes.Keys);
    assert Iterates(order, nodes);
    assert Complete(Cleaned(nodes, order), root);
    FiledIffName(nodes, order, root);
  }

  lemma CleanedNext(nodes: Nodes, order: seq<string>, key: string)
    requires key in nodes && forall k | k in order :: k in nodes
    ensures forall k | k in order + [key] :: k in nodes
    ensures Cleaned(nodes, order + [key]) == Cleaned(nodes, order)[NameOf(nodes, key) := Named(nodes[key], key)]
  {
    assert (order + [key])[..|order|] == order;
  }

  lemma CleanedTwo(nodes: Nodes, k1: string, k2: string)
    requires k1 in nodes && k2 in nodes
    ensures forall k | k in [k1, k2] :: k in nodes
    ensures Cleaned(nodes, [k1, k2]) == map[NameOf(nodes, k1) := Named(nodes[k1], k1), NameOf(nodes, k2) := Named(nodes[k2], k2)]
  {
    assert Cleaned(nodes, []) == map[];
    hide Cleaned;
    CleanedNext(nodes, [], k1);
    CleanedNext(nodes, [k1], k2);
    assert [] + [k1] == [k1] && [k1] + [k2] == [k1, k2];
  }

  lemma CleanedThree(nodes: Nodes, k1: string, k2: string, k3: string)
    requires k1 in nodes && k2 in nodes && k3 in nodes
    ensures forall k | k in [k1, k2, k3] :: k in nodes
    ensures Cleaned(nodes, [k1, k2, k3]) ==
      map[NameOf(nodes, k1) := Named(nodes[k1], k1), NameOf(nodes, k2) := Named(nodes[k2], k2), NameOf(nodes, k3) := Named(nodes[k3], k3)]
  {
    assert Cleaned(nodes, []) == map[];
    hide Cleaned;
    CleanedTwo(nodes, k1, k2);
    CleanedNext(nodes, [k1, k2], k3);
    assert [k1, k2] + [k3] == [k1, k2, k3];
  }

  // When names collide and are not closed, the order alone decides: of two iterations over the
  // same nodes one leaves a complete tree and the other does not.
  lemma OrderDecides() returns (nodes: Nodes, first: seq<string>, second: seq<string>)
    ensures Iterates(first, nodes) && Iterates(second, nodes)
    ensures forall key | key in nodes :: NodeOk(nodes[key], nodes.Keys)
    ensures "x" in Cleaned(nodes, first) && "x" in Cleaned(nodes, second)
    ensures Complete(Cleaned(nodes, first), "x") && !Complete(Cleaned(nodes, second), "x")
  {
    var good, bad, leaf := Node("x", "gate", [], ["b"]), Node("x", "gate", [], ["c"]), Node("b", "action", [], []);
    nodes := map["a" := good, "b" := leaf, "c" := bad];
    first, second := ["b", "c", "a"], ["b", "a", "c"];
    assert Iterates(first, nodes) && Iterates(second, nodes);
    hide Iterates, Cleaned;
    CleanedThree(nodes, "b", "c", "a");
    CleanedThree(nodes, "b", "a", "c");
    var c, d := Cleaned(nodes, first), Cleaned(nodes, second);
    assert c == map["b" := leaf, "x" := good];
    assert d == map["b" := leaf, "x" := bad];
    assert "x" in d && d["x"] == bad && bad.next[0] == "c" && "c" !in d;
    assert !Complete(d, "x") by { MissingChild(d, "x", "x", "c"); }
  }

  lemma MissingChild(nodes: Nodes, root: string, key: string, ch: string)
    requires key in nodes && ch in nodes[key].next && ch !in nodes
    ensures !Complete(nodes, root)
  {}

  // In particular when every node carries its own key.
  lemma OpenedIsComplete(root: string, nodes: Nodes, order: seq<string>)
    requires Iterates(order, nodes) && OwnNames(nodes) && root in Cleaned(nodes, order)
    requires forall key | key in nodes :: NodeOk(nodes[key], nodes.Keys)
    ensures Complete(Cleaned(nodes, order), root)
  {
    FiledIffName(nodes, order, root);
    forall key, ch | key in nodes && ch in nodes[key].next ensures IsName(nodes, ch) {
      assert NodeOk(nodes[key], nodes.Keys);
      assert NameOf(nodes, ch) == ch;
    }
    ClosedStaysComplete(nodes, order, root);
  }

  // ----- what a tree can reach -----

  ghost function Needed(nodes: Nodes, path: seq<string>): set<string> {
    set i, r | 0 <= i < |path| && r in Requirements(nodes, path[i]) :: r
  }

  // On just the facts that the path requires, each place on it is the first child of the one before.
  ghost predicate ClearPath(nodes: Nodes, root: string, path: seq<string>) {
    && path != [] && path[0] == root && Distinct(path[1..])
    && forall i | 0 <= i < |path| - 1 ::
         && path[i] in nodes && nodes[path[i]].kind != "action"
         && FirstChild(nodes, nodes[path[i]].next, Needed(nodes, path)) == Some(path[i + 1])
  }

  lemma ClearPathIsShort(nodes: Nodes, root: string, path: seq<string>)
    requires ClearPath(nodes, root, path)
    ensures |path| <= |nodes| + 2
  {
    hide FirstChild, Needed;
    if |path| > 1 {
      var inner := path[1..][..|path| - 2];
      assert forall i | 0 <= i < |inner| :: inner[i] == path[i + 1];
      DistinctFits(inner, nodes.Keys);
    }
  }

  lemma {:induction false} ClearPathIsWalked(nodes: Nodes, root: string, path: seq<string>, i: nat)
    requires ClearPath(nodes, root, path) && i < |path|
    ensures Place(Meant(nodes, Needed(nodes, path)), root, i) == Some(path[i])
  {
    hide FirstChild;
    if i > 0 {
      ClearPathIsWalked(nodes, root, path, i - 1);
      var cur := path[i - 1];
      assert Requirements(nodes, cur) == nodes[cur].require;
      assert ReqsMet(nodes[cur].require, Needed(nodes, path));
      assert Ideal(nodes, Needed(nodes, path), cur) == Go(path[i]);
    }
  }

  lemma {:induction false} FirstReturn(f: Step, root: string, k: nat, key: string) returns (n: nat)
    requires k > 0 && Place(f, root, k) == Some(key)
    ensures 0 < n <= k && Place(f, root, n) == Some(key)
    ensures forall i | 0 < i < n :: Place(f, root, i) != Some(key)
    decreases k
  {
    hide Place;
    if i :| 0 < i < k && Place(f, root, i) == Some(key) {
      n := FirstReturn(f, root, i, key);
    } else {
      n := k;
    }
  }

  lemma FirstReturnDistinct(f: Step, root: string, n: nat, key: string, path: seq<string>)
    requires n > 0 && Place(f, root, n) == Some(key) && forall i | 0 < i < n :: Place(f, root, i) != Some(key)
    requires |path| == n + 1 && Follows(f, root, path)
    ensures Distinct(path[1..])
  {
    hide Place;
    forall i, j | 0 <= i < j < n ensures path[1..][i] != path[1..][j] {
      if path[i + 1] == path[j + 1] {
        Periodic(f, root, i + 1, j + 1, n);
      }
    }
  }

  // One step of a walk, on the facts of its own path.
  lemma OwnFacts(nodes: Nodes, facts: set<string>, path: seq<string>, i: nat)
    requires i + 1 < |path| && Needed(nodes, path) <= facts && Ideal(nodes, facts, path[i]) == Go(path[i + 1])
    ensures path[i] in nodes && nodes[path[i]].kind != "action"
    ensures FirstChild(nodes, nodes[path[i]].next, Needed(nodes, path)) == Some(path[i + 1])
  {
    hide FirstChild;
    assert ReqsMet(Requirements(nodes, path[i + 1]), Needed(nodes, path));
    FewerFacts(nodes, nodes[path[i]].next, facts, Needed(nodes, path));
  }

  lemma MoveNeeds(nodes: Nodes, facts: set<string>, cur: string, next: string)
    requires Ideal(nodes, facts, cur) == Go(next)
    ensures ReqsMet(Requirements(nodes, cur), facts) && ReqsMet(Requirements(nodes, next), facts)
  {
    hide FirstChild;
    FirstChildIs(nodes, nodes[cur].next, facts);
  }

  // Wherever some facts lead the walk, a clear path leads along the same places.
  lemma WalkHasPath(nodes: Nodes, facts: set<string>, root: string, k: nat, key: string) returns (path: seq<string>)
    requires Place(Meant(nodes, facts), root, k) == Some(key)
    ensures ClearPath(nodes, root, path) && path[|path| - 1] == key && (k > 0 ==> |path| > 1)
    ensures |path| <= k + 1 && Follows(Meant(nodes, facts), root, path)
  {
    var f := Meant(nodes, facts);
    if k == 0 {
      path := [root];
    } else {
      hide Ideal, Needed, FirstChild, ReqsMet;
      var n := FirstReturn(f, root, k, key);
      forall i | 0 <= i <= n ensures Place(f, root, i).Some? {
        Earlier(f, root, i, n);
      }
      path := seq(n + 1, i requires 0 <= i <= n => Place(f, root, i).value);
      FirstReturnDistinct(f, root, n, key, path);
      forall i | 0 <= i <= n ensures ReqsMet(Requirements(nodes, path[i]), facts) {
        var j := if i < n then i else i - 1;
        Earlier(f, root, j, n);
        MoveNeeds(nodes, facts, path[j], path[j + 1]);
      }
      NeededIsMet(nodes, facts, path);
      forall i | 0 <= i < n
        ensures path[i] in nodes && nodes[path[i]].kind != "action"
        ensures FirstChild(nodes, nodes[path[i]].next, Needed(nodes, path)) == Some(path[i + 1])
      {
        Earlier(f, root, i, n);
        OwnFacts(nodes, facts, path, i);
      }
    }
  }

  lemma NeededIsMet(nodes: Nodes, facts: set<string>, path: seq<string>)
    requires forall i | 0 <= i < |path| :: ReqsMet(Requirements(nodes, path[i]), facts)
    ensures Needed(nodes, path) <= facts
  {
  }

  // From this root the code walks as meant on all facts exactly when no clear path moves to the
  // empty key.
  lemma TreeWalksAsMeantIff(nodes: Nodes, root: string)
    ensures (forall facts :: SameWalk(Coded(nodes, facts), Meant(nodes, facts), root))
      <==> !exists path :: ClearPath(nodes, root, path) && |path| > 1 && path[|path| - 1] == ""
  {
    hide SameWalk, ClearPath, Place;
    if path :| ClearPath(nodes, root, path) && |path| > 1 && path[|path| - 1] == "" {
      var facts := Needed(nodes, path);
      ClearPathIsWalked(nodes, root, path, |path| - 1);
      SameWalkIff(nodes, facts, root);
      assert !SameWalk(Coded(nodes, facts), Meant(nodes, facts), root);
    } else {
      forall facts ensures SameWalk(Coded(nodes, facts), Meant(nodes, facts), root) {
        SameWalkIff(nodes, facts, root);
        forall k: nat | k > 0 ensures Place(Meant(nodes, facts), root, k) != Some("") {
          if Place(Meant(nodes, facts), root, k) == Some("") {
            var path := WalkHasPath(nodes, facts, root, k, "");
          }
        }
      }
    }
  }

  lemma {:induction false} CodedSoFar(nodes: Nodes, facts: set<string>, root: string, k: nat)
    requires Place(Coded(nodes, facts), root, k).Some?
    ensures Place(Meant(nodes, facts), root, k) == Place(Coded(nodes, facts), root, k)
  {
    hide Ideal, MoveFrom;
    if k > 0 {
      CodedSoFar(nodes, facts, root, k - 1);
      StepsCompare(nodes, facts, Place(Coded(nodes, facts), root, k - 1).value);
    }
  }

  // A clear path to an absent key that does not lead through the empty one.
  ghost predicate Dangles(nodes: Nodes, root: string, path: seq<string>) {
    ClearPath(nodes, root, path) && path[|path| - 1] !in nodes && "" !in path[1..]
  }

  lemma MissingHasPath(nodes: Nodes, facts: set<string>, root: string, k: nat, key: string) returns (path: seq<string>)
    requires EndsAt(Coded(nodes, facts), root, k, Stuck(ErrMissing(key)))
    ensures Dangles(nodes, root, path) && path[|path| - 1] == key
  {
    hide ClearPath;
    var f := Coded(nodes, facts);
    assert Place(f, root, k) == Some(key) && key !in nodes;
    hide Place, MoveFrom, Ideal;
    CodedSoFar(nodes, facts, root, k);
    path := WalkHasPath(nodes, facts, root, k, key);
    forall i | 0 < i < |path| ensures path[i] != "" {
      Earlier(f, root, i, k);
      CodedSoFar(nodes, facts, root, i);
      SamePlace(nodes, facts, root, i);
    }
  }

  lemma DanglingIsMissing(nodes: Nodes, root: string, path: seq<string>)
    requires Dangles(nodes, root, path)
    ensures EndsAt(Coded(nodes, Needed(nodes, path)), root, |path| - 1, Stuck(ErrMissing(path[|path| - 1])))
  {
    var facts, k := Needed(nodes, path), |path| - 1;
    forall j | 0 < j <= k ensures Place(Meant(nodes, facts), root, j) != Some("") {
      ClearPathIsWalked(nodes, root, path, j);
      assert path[j] == path[1..][j - 1];
    }
    ClearPathIsWalked(nodes, root, path, k);
    SamePlace(nodes, facts, root, k);
  }

  // Some facts lead the walk to a missing node exactly when a clear path dangles.
  lemma MissesIff(nodes: Nodes, root: string)
    ensures (exists facts, k: nat, key :: EndsAt(Coded(nodes, facts), root, k, Stuck(ErrMissing(key))))
      <==> exists path :: Dangles(nodes, root, path)
  {
    hide EndsAt, Dangles;
    if facts, k: nat, key :| EndsAt(Coded(nodes, facts), root, k, Stuck(ErrMissing(key))) {
      var path := MissingHasPath(nodes, facts, root, k, key);
    }
    if path :| Dangles(nodes, root, path) {
      assert path != [] by { DanglesSome(nodes, root, path); }
      DanglingIsMissing(nodes, root, path);
    }
  }

  lemma DanglesSome(nodes: Nodes, root: string, path: seq<string>)
    requires Dangles(nodes, root, path)
    ensures path != []
  {}

  // So a complete tree never walks into a missing node, on any facts.
  lemma NeverMissing(nodes: Nodes, root: string, facts: set<string>, k: nat, key: string)
    requires Complete(nodes, root)
    ensures !EndsAt(Coded(nodes, facts), root, k, Stuck(ErrMissing(key)))
  {
    hide EndsAt, FirstChild;
    if EndsAt(Coded(nodes, facts), root, k, Stuck(ErrMissing(key))) {
      var path := MissingHasPath(nodes, facts, root, k, key);
      var n := |path| - 2;
      if n >= 0 {
        FirstChildIs(nodes, nodes[path[n]].next, Needed(nodes, path));
      }
    }
  }

  // With a name of its own that differs from its key, a child that was checked is lost: the tree
  // opens and the walk reports a missing node.
  lemma RenamedChildIsMissing() returns (nodes: Nodes, order: seq<string>)
    ensures Iterates(order, nodes) && (forall key | key in nodes :: NodeOk(nodes[key], nodes.Keys))
    ensures "a" in Cleaned(nodes, order) && EndsAt(Coded(Cleaned(nodes, order), {}), "a", 1, Stuck(ErrMissing("b")))
  {
    var gate, leaf := Node("", "gate", [], ["b"]), Node("c", "action", [], []);
    nodes := map["a" := gate, "b" := leaf];
    order := ["a", "b"];
    assert order[..1] == ["a"] && order[..1][..0] == [];
    assert Cleaned(nodes, []) == map[];
    assert Cleaned(nodes, ["a"]) == map["a" := gate.(id := "a")] by { assert ["a"][..0] == []; }
    var c := Cleaned(nodes, order);
    assert c == map["a" := gate.(id := "a"), "c" := leaf];
    assert FirstOpen(c, ["b"], {}) == "b";
    assert MoveFrom(c, {}, "a") == Go("b");
    assert Place(Coded(c, {}), "a", 0) == Some("a");
    assert Place(Coded(c, {}), "a", 1) == Some("b");
  }

  // A gate whose only child is the empty key, and what opens under that key.
  ghost predicate OverEmpty(nodes: Nodes, leaf: Node) {
    nodes == map["r" := Node("r", "gate", [], [""]), "" := leaf]
  }

  lemma OverEmptyOpens(nodes: Nodes, leaf: Node)
    requires OverEmpty(nodes, leaf) && leaf.id == "" && NodeOk(leaf, {"r", ""})
    ensures Iterates(["r", ""], nodes) && Cleaned(nodes, ["r", ""]) == nodes
    ensures OwnNames(nodes) && forall key | key in nodes :: NodeOk(nodes[key], nodes.Keys)
  {
    hide Cleaned;
    CleanedTwo(nodes, "r", "");
    assert nodes.Keys == {"r", ""};
  }

  lemma OverEmptyComplete(nodes: Nodes, leaf: Node)
    requires OverEmpty(nodes, leaf) && NodeOk(leaf, {"r", ""})
    ensures Complete(nodes, "r")
  {}

  lemma OverEmptyEnds(nodes: Nodes, leaf: Node)
    requires OverEmpty(nodes, leaf) && leaf.require == []
    ensures EndsAt(Coded(nodes, {}), "r", 0, Stuck(ErrNoPath))
    ensures Place(Meant(nodes, {}), "r", 1) == Some("")
  {
    assert FirstChild(nodes, [""], {}) == Some("");
    assert Place(Coded(nodes, {}), "r", 0) == Some("r") == Place(Meant(nodes, {}), "r", 0);
    assert Meant(nodes, {})("r") == Go("");
  }

  // An open child under the empty key is taken for none. Both trees open under their own names and
  // are complete; the first is meant to arrive and the second to go round, and the code ends both
  // at the root without a path.
  lemma EmptyChildIsLost() returns (arrives: Nodes, loops: Nodes, order: seq<string>)
    ensures forall nodes | nodes in {arrives, loops} ::
      && Iterates(order, nodes) && (forall key | key in nodes :: NodeOk(nodes[key], nodes.Keys))
      && OwnNames(nodes) && Cleaned(nodes, order) == nodes && Complete(nodes, "r")
      && EndsAt(Coded(nodes, {}), "r", 0, Stuck(ErrNoPath))
    ensures EndsAt(Meant(arrives, {}), "r", 1, Arrive(""))
    ensures Endless(Meant(loops, {}), "r")
  {
    var leaf, back := Node("", "action", [], []), Node("", "gate", [], ["r"]);
    order := ["r", ""];
    arrives, loops := map["r" := Node("r", "gate", [], [""]), "" := leaf], map["r" := Node("r", "gate", [], [""]), "" := back];
    OverEmptyOpens(arrives, leaf);
    OverEmptyOpens(loops, back);
    OverEmptyComplete(arrives, leaf);
    OverEmptyComplete(loops, back);
    OverEmptyEnds(arrives, leaf);
    OverEmptyEnds(loops, back);
    hide OverEmpty, Iterates, Cleaned, Complete, OwnNames, NodeOk;
    var g := Meant(loops, {});
    assert FirstChild(loops, ["r"], {}) == Some("r");
    assert g("") == Go("r");
    assert Place(g, "r", 2) == Some("r") == Place(g, "r", 0);
    RepeatIsEndless(g, "r", 0, 2);
  }

  // ----- the recorded walk -----

  datatype WorkflowError = MissingParty | WrongParty | Takeback | EmptyFact | DoS | Walking(e: WalkError)

  class Run {
    const id: string
    const root: string
    const nodes: Nodes
    const meter: Meter
    const actor: Party
    var executed: bool
    var path: seq<string>
    var action: string
    var closedAt: Option<Time>
    var receipts: seq<Receipt>
    var steps: nat

    constructor (id: string, root: string, nodes: Nodes, meter: Meter, actor: Party)
      ensures this.id == id && this.root == root && this.nodes == nodes && this.meter == meter && this.actor == actor
      ensures !executed && path == [] && action == "" && closedAt == None && receipts == [] && steps == 0
    {
      this.id, this.root, this.nodes, this.meter, this.actor := id, root, nodes, meter, actor;
      executed, path, action, closedAt, receipts, steps := false, [], "", None, [], 0;
    }

    // A refused append has used up a step.
    method Append(action: string, note: string, now: Time) returns (ok: bool)
      modifies `receipts, `steps
      ensures steps == old(steps) + 1 && (ok <==> steps <= meter.maxSteps)
      ensures !ok ==> receipts == old(receipts)
      ensures ok ==> receipts == old(receipts) + [Chained(id, old(receipts), actor, action, Text(note), now)]
    {
      steps := steps + 1;
      if steps > meter.maxSteps {
        return false;
      }
      var r := Receipt(|receipts| + 1, now, action, actor, Text(note), Tail(receipts), NoHash);
      receipts := receipts + [r.(hash := HashReceipt(id, r))];
      return true;
    }

    // The tree walks and the end of the walk is recorded once; a refused walk changes nothing.
    method Execute(who: Party, facts: Option<set<string>>, note: (seq<string>, string) -> string, now: Time) returns (err: Option<WorkflowError>)
      modifies this
      ensures err.Some? ==> executed == old(executed) && path == old(path) && action == old(action) && receipts == old(receipts)
      ensures err.Some? ==> closedAt == old(closedAt) && steps == old(steps) + if err == Some(DoS) then 1 else 0
      ensures err.None? <==>
        (who == actor && !old(executed) && facts.Some? && nodes != map[] && old(steps) < meter.maxSteps
        && exists k: nat, a: string :: EndsAt(Coded(nodes, facts.value), root, k, Arrive(a)))
      ensures err.None? ==> executed && closedAt == Some(now) && path != [] && Follows(Coded(nodes, facts.value), root, path)
      ensures err.None? ==> EndsAt(Coded(nodes, facts.value), root, |path| - 1, Arrive(action))
      ensures err.None? ==> Follows(Meant(nodes, facts.value), root, path)
      ensures err.None? ==> EndsAt(Meant(nodes, facts.value), root, |path| - 1, Arrive(action))
      ensures err.None? ==> receipts == old(receipts) + [Chained(id, old(receipts), actor, "execute", Text(note(path, action)), now)]
      ensures err.None? ==> steps == old(steps) + 1
    {
      hide Chained, EndsAt, Follows;
      if who != actor {
        return Some(WrongParty);
      }
      if executed {
        return Some(Takeback);
      }
      if facts.None? {
        return Some(EmptyFact);
      }
      var r := Walk(nodes, root, facts.value);
      if r.Err? {
        if nodes != map[] {
          WalkDecides(Coded(nodes, facts.value), nodes, root, r);
        }
        return Some(Walking(r.error));
      }
      var (p, a) := r.value;
      var ok := Append("execute", note(p, a), now);
      if !ok {
        return Some(DoS);
      }
      closedAt, path, action, executed := Some(now), p, a, true;
      return None;
    }
  }

  // A workflow opens with the cleaned nodes and one receipt; an unset step bound becomes 64.
  method OpenWorkflow(id: string, actor: Party, root: string, nodes: Nodes, order: seq<string>, meter: Meter, now: Time)
    returns (r: Result<Run, WorkflowError>)
    requires Iterates(order, nodes)
    ensures r == Err(MissingParty) <==> actor == ""
    ensures r.Ok? <==>
      (actor != "" && root != "" && nodes != map[] && (forall key | key in nodes :: NodeOk(nodes[key], nodes.Keys))
      && root in Cleaned(nodes, order))
    ensures r.Err? && actor != "" ==> r == Err(Walking(ErrBadTree))
    ensures r.Ok? ==>
      fresh(r.value) && r.value.nodes == Cleaned(nodes, order) && r.value.root == root && r.value.actor == actor && r.value.id == id
      && !r.value.executed && r.value.steps == 1 && r.value.meter.maxSteps == (if meter.maxSteps <= 0 then 64 else meter.maxSteps)
      && r.value.receipts == [Chained(id, [], actor, "open", Text("workflow opened"), now)]
  {
    hide Chained, NodeOk;
    if actor == "" {
      return Err(MissingParty);
    }
    var cleaned := OpenNodes(root, nodes, order);
    if cleaned.None? {
      return Err(Walking(ErrBadTree));
    }
    var m := if meter.maxSteps <= 0 then meter.(maxSteps := 64) else meter;
    var w := new Run(id, root, cleaned.value, m, actor);
    var ok := w.Append("open", "workflow opened", now);
    if !ok {
      assert false;
      return Err(DoS);
    }
    return Ok(w);
  }

  // A walk that failed has no other end.
  lemma WalkDecides(f: Step, nodes: Nodes, root: string, r: Result<(seq<string>, string), WalkError>)
    requires Describes(f, nodes, root, r) && nodes != map[] && r.Err?
    ensures !exists k: nat, a: string :: EndsAt(f, root, k, Arrive(a))
  {
    hide EndsAt;
    forall k: nat, a: string ensures !EndsAt(f, root, k, Arrive(a)) {
      if EndsAt(f, root, k, Arrive(a)) {
        if r.error == ErrWalkLoop {
          Ended(f, root, k, Arrive(a));
        } else {
          var j: nat :| EndsAt(f, root, j, Stuck(r.error));
          OneEnd(f, root, k, Arrive(a), j, Stuck(r.error));
        }
      }
    }
  }
}
