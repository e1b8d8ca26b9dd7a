// The Merkle root over receipt commitments: an odd layer repeats its last node, leaves and inner
// nodes are hashed under different tags, and sequence numbers rise.
module ReceiptTree {
  import opened Wrappers

  datatype Commitment = Commitment(sequence: int, id: string, action: string, hash: string)

  // The 32-byte Keccak-256 hash, as a parameter.
  ghost predicate Wide(k: string -> string) {
    forall x: string :: |k(x)| == 32
  }

  ghost predicate CollisionFree(k: string -> string, s: set<string>) {
    forall x, y | x in s && y in s && k(x) == k(y) :: x == y
  }

  // The serialized form of a commitment, as a parameter.
  ghost predicate Encodes(e: Commitment -> string) {
    forall c: Commitment, d: Commitment | e(c) == e(d) :: c == d
  }

  const LEAF := "nex/l2/receipt/leaf/v1\0"
  const NODE := "nex/l2/receipt/node/v1\0"

  function LeafText(e: Commitment -> string, c: Commitment): string {
    LEAF + e(c)
  }

  function NodeText(l: string, r: string): string {
    NODE + l + r
  }

  lemma TagsDiffer(e: Commitment -> string, c: Commitment, l: string, r: string)
    ensures LeafText(e, c) != NodeText(l, r)
  {
    assert LeafText(e, c)[15] == LEAF[15] == 'l';
    assert NodeText(l, r)[15] == NODE[15] == 'n';
  }

  lemma NodeTextInjective(l1: string, r1: string, l2: string, r2: string)
    requires |l1| == 32 && |l2| == 32 && NodeText(l1, r1) == NodeText(l2, r2)
    ensures l1 == l2 && r1 == r2
  {
    var s, n := NodeText(l1, r1), |NODE|;
    assert l1 == s[n..n + 32] == l2;
    assert r1 == s[n + 32..] == r2;
  }

  // ----- validity of a batch -----

  predicate HexDigit(c: char) {
    '0' <= c <= '9' || 'a' <= c <= 'f' || 'A' <= c <= 'F'
  }

  predicate WellFormed(c: Commitment) {
    |c.hash| == 64 && (forall d | d in c.hash :: HexDigit(d)) && c.id != "" && c.action != ""
  }

  function Before(cs: seq<Commitment>, i: nat): int
    requires i <= |cs|
  {
    if i == 0 then 0 else cs[i - 1].sequence
  }

  // A commitment that the loop over the batch lets pass.
  ghost predicate Admissible(cs: seq<Commitment>, i: nat)
    requires i < |cs|
  {
    WellFormed(cs[i]) && Before(cs, i) < cs[i].sequence
  }

  ghost predicate Accepted(cs: seq<Commitment>) {
    0 < |cs| <= 4096 && forall i | 0 <= i < |cs| :: Admissible(cs, i)
  }

  // A batch is refused exactly when it is empty or too long, or holds a commitment whose hash is not
  // 64 hex digits, that has no identifier or no action, or whose number does not rise.
  lemma AcceptedIff(cs: seq<Commitment>)
    ensures Accepted(cs) <==>
      && 1 <= |cs| < 4097
      && (forall i | 0 <= i < |cs| ::
            && |cs[i].hash| == 64 && |cs[i].id| > 0 && |cs[i].action| > 0
            && forall j | 0 <= j < 64 :: cs[i].hash[j] in "0123456789abcdefABCDEF")
      && (cs != [] ==> cs[0].sequence > 0) && forall i | 0 < i < |cs| :: cs[i].sequence > cs[i - 1].sequence
  {
    forall c: char ensures HexDigit(c) <==> c in "0123456789abcdefABCDEF" { IsHex(c); }
    forall i | 0 <= i < |cs| ensures (forall d | d in cs[i].hash :: HexDigit(d)) <==> forall j | 0 <= j < |cs[i].hash| :: HexDigit(cs[i].hash[j]) {}
    hide HexDigit;
    if Accepted(cs) {
      forall i | 0 <= i < |cs| ensures WellFormed(cs[i]) && Before(cs, i) < cs[i].sequence { assert Admissible(cs, i); }
    }
  }

  lemma IsHex(c: char)
    ensures HexDigit(c) <==> c in "0123456789abcdefABCDEF"
  {
    var s := "0123456789abcdefABCDEF";
    assert s[0] == '0' && s[1] == '1' && s[2] == '2' && s[3] == '3' && s[4] == '4' && s[5] == '5' && s[6] == '6' && s[7] == '7';
    assert s[8] == '8' && s[9] == '9' && s[10] == 'a' && s[11] == 'b' && s[12] == 'c' && s[13] == 'd' && s[14] == 'e' && s[15] == 'f';
    assert s[16] == 'A' && s[17] == 'B' && s[18] == 'C' && s[19] == 'D' && s[20] == 'E' && s[21] == 'F';
  }

  lemma {:induction false} RisingFar(cs: seq<Commitment>, i: nat, j: nat)
    requires Accepted(cs) && i < j < |cs|
    ensures cs[i].sequence < cs[j].sequence
  {
    hide WellFormed;
    assert Admissible(cs, j);
    if i + 1 < j {
      RisingFar(cs, i, j - 1);
    }
  }

  // ----- layers -----

  function Right(ns: seq<string>, i: nat): string
    requires i < |ns|
  {
    if i + 1 < |ns| then ns[i + 1] else ns[i]
  }

  function NodeAt(k: string -> string, ns: seq<string>, j: nat): string
    requires 2 * j < |ns|
  {
    k(NodeText(ns[2 * j], Right(ns, 2 * j)))
  }

  function Layer(k: string -> string, ns: seq<string>): (r: seq<string>)
    ensures |r| == (|ns| + 1) / 2
  {
    seq((|ns| + 1) / 2, j requires 0 <= j < (|ns| + 1) / 2 => NodeAt(k, ns, j))
  }

  function Root(k: string -> string, ns: seq<string>): string
    requires ns != []
    decreases |ns|
  {
    if |ns| == 1 then ns[0] else Root(k, Layer(k, ns))
  }

  function Leaves(k: string -> string, e: Commitment -> string, cs: seq<Commitment>): (r: seq<string>)
    ensures |r| == |cs|
  {
    seq(|cs|, i requires 0 <= i < |cs| => k(LeafText(e, cs[i])))
  }

  method ReceiptRoot(k: string -> string, e: Commitment -> string, cs: seq<Commitment>) returns (r: Option<string>)
    ensures r.Some? <==> Accepted(cs)
    ensures r.Some? ==> r.value == Root(k, Leaves(k, e, cs))
  {
    hide Root, NodeText, LeafText, WellFormed;
    if |cs| == 0 || |cs| > 4096 {
      return None;
    }
    var nodes: seq<string> := [];
    var previous := 0;
    for i := 0 to |cs|
      invariant previous == Before(cs, i)
      invariant forall j | 0 <= j < i :: Admissible(cs, j)
      invariant nodes == Leaves(k, e, cs[..i])
    {
      var c := cs[i];
      if !WellFormed(c) || c.sequence <= previous {
        assert !Admissible(cs, i);
        return None;
      }
      assert cs[..i + 1] == cs[..i] + [c];
      previous := c.sequence;
      nodes := nodes + [k(LeafText(e, c))];
    }
    assert cs[..|cs|] == cs;
    while |nodes| > 1
      invariant nodes != [] && Root(k, nodes) == Root(k, Leaves(k, e, cs))
      decreases |nodes|
    {
      var next: seq<string> := [];
      var i := 0;
      while i < |nodes|
        invariant i % 2 == 0 && |next| == i / 2 && i <= |nodes| + 1
        invariant forall j | 0 <= j < |next| :: next[j] == NodeAt(k, nodes, j)
      {
        var right := nodes[i];
        if i + 1 < |nodes| {
          right := nodes[i + 1];
        }
        assert 2 * |next| == i;
        next := next + [k(NodeText(nodes[i], right))];
        i := i + 2;
      }
      assert next == Layer(k, nodes);
      RootLayer(k, nodes);
      nodes := next;
    }
    RootSingle(k, nodes);
    return Some(nodes[0]);
  }

  lemma RootLayer(k: string -> string, ns: seq<string>)
    requires |ns| > 1
    ensures Root(k, Layer(k, ns)) == Root(k, ns)
  {}

  lemma RootSingle(k: string -> string, ns: seq<string>)
    requires |ns| == 1
    ensures Root(k, ns) == ns[0]
  {}

  // ----- the padded tree -----

  function Depth(n: nat): nat
    requires n > 0
  {
    if n == 1 then 0 else 1 + Depth((n + 1) / 2)
  }

  // Which leaf stands at place p of the complete tree that the repeated nodes fill up.
  function Cover(n: nat, p: nat): (u: nat)
    requires n > 0
    ensures u < n
    decreases n
  {
    if n == 1 then 0 else
    var u := Cover((n + 1) / 2, p / 2);
    if p % 2 == 1 && 2 * u + 1 < n then 2 * u + 1 else 2 * u
  }

  lemma {:induction false} CoverOwn(n: nat, p: nat)
    requires p < n
    ensures Cover(n, p) == p
    decreases n
  {
    if n > 1 {
      CoverOwn((n + 1) / 2, p / 2);
    }
  }

  // Past the leaves, an earlier one is repeated.
  lemma {:induction false} CoverRepeats(n: nat, p: nat)
    requires 0 < n <= p
    ensures Cover(n, p) < p
  {}

  // Everything that is hashed above a list of nodes.
  ghost function NodeTexts(k: string -> string, ns: seq<string>): set<string>
    decreases |ns|
  {
    if |ns| <= 1 then {} else (set j | 0 <= j < (|ns| + 1) / 2 :: NodeText(ns[2 * j], Right(ns, 2 * j))) + NodeTexts(k, Layer(k, ns))
  }

  ghost function LeafTexts(e: Commitment -> string, cs: seq<Commitment>): set<string> {
    set i | 0 <= i < |cs| :: LeafText(e, cs[i])
  }

  ghost predicate AllWide(ns: seq<string>) {
    forall i | 0 <= i < |ns| :: |ns[i]| == 32
  }

  // Trees of equal depth with the same root have the same complete tree.
  lemma {:induction false} SameCover(k: string -> string, ns: seq<string>, ms: seq<string>, s: set<string>, p: nat)
    requires Wide(k) && AllWide(ns) && AllWide(ms) && ns != [] && ms != []
    requires NodeTexts(k, ns) <= s && NodeTexts(k, ms) <= s && CollisionFree(k, s)
    requires Depth(|ns|) == Depth(|ms|) && Root(k, ns) == Root(k, ms)
    ensures ns[Cover(|ns|, p)] == ms[Cover(|ms|, p)]
    decreases |ns|
  {
    hide NodeText;
    if |ns| > 1 && |ms| > 1 {
      var ns1, ms1 := Layer(k, ns), Layer(k, ms);
      SameCover(k, ns1, ms1, s, p / 2);
      var u, v := Cover(|ns1|, p / 2), Cover(|ms1|, p / 2);
      assert NodeAt(k, ns, u) == ns1[u] == ms1[v] == NodeAt(k, ms, v);
      var x, y := NodeText(ns[2 * u], Right(ns, 2 * u)), NodeText(ms[2 * v], Right(ms, 2 * v));
      assert x in NodeTexts(k, ns) && y in NodeTexts(k, ms);
      NodeTextInjective(ns[2 * u], Right(ns, 2 * u), ms[2 * v], Right(ms, 2 * v));
    }
  }

  // The root of two or more nodes is itself a node, and so is the left child of every node above
  // the first layer.
  lemma {:induction false} RootIsNode(k: string -> string, ms: seq<string>) returns (t: string, l: string, r: string)
    requires |ms| > 1
    ensures t in NodeTexts(k, ms) && Root(k, ms) == k(t) && t == NodeText(l, r)
    decreases |ms|
  {
    hide NodeText;
    var up := Layer(k, ms);
    if |up| == 1 {
      l, r := ms[0], Right(ms, 0);
      t := NodeText(ms[2 * 0], Right(ms, 2 * 0));
      assert up[0] == NodeAt(k, ms, 0);
    } else {
      t, l, r := RootIsNode(k, up);
    }
  }

  lemma {:induction false} ChildIsNode(k: string -> string, ms: seq<string>, t: string)
    returns (l: string, r: string, c: string, cl: string, cr: string)
    requires |ms| > 1 && t in NodeTexts(k, Layer(k, ms))
    ensures t == NodeText(l, r) && l == k(c) && c in NodeTexts(k, ms) && c == NodeText(cl, cr)
    decreases |ms|
  {
    hide NodeText;
    var up := Layer(k, ms);
    if t in NodeTexts(k, Layer(k, up)) {
      l, r, c, cl, cr := ChildIsNode(k, up, t);
    } else {
      var j :| 0 <= j < (|up| + 1) / 2 && t == NodeText(up[2 * j], Right(up, 2 * j));
      l, r := up[2 * j], Right(up, 2 * j);
      var i := 2 * j;
      assert l == NodeAt(k, ms, i);
      cl, cr := ms[2 * i], Right(ms, 2 * i);
      c := NodeText(cl, cr);
    }
  }

  // If the second tree is deeper, the first leaf of the first is one of its inner nodes.
  lemma {:induction false} DeeperMeetsNode(k: string -> string, ns: seq<string>, ms: seq<string>, s: set<string>)
    returns (t: string, l: string, r: string)
    requires Wide(k) && AllWide(ns) && AllWide(ms) && ns != [] && ms != []
    requires NodeTexts(k, ns) <= s && NodeTexts(k, ms) <= s && CollisionFree(k, s)
    requires Depth(|ns|) < Depth(|ms|) && Root(k, ns) == Root(k, ms)
    ensures ns[0] == k(t) && t in NodeTexts(k, ms) && t == NodeText(l, r)
    decreases |ns|
  {
    hide NodeText;
    if |ns| == 1 {
      t, l, r := RootIsNode(k, ms);
    } else {
      var u, ul, ur := DeeperMeetsNode(k, Layer(k, ns), Layer(k, ms), s);
      var x := NodeText(ns[2 * 0], Right(ns, 2 * 0));
      assert Layer(k, ns)[0] == NodeAt(k, ns, 0) == k(x);
      assert x in NodeTexts(k, ns);
      assert x == u;
      var cl, cr, c, dl, dr := ChildIsNode(k, ms, u);
      NodeTextInjective(ns[0], Right(ns, 0), cl, cr);
      t, l, r := c, dl, dr;
    }
  }

  ghost function Texts(k: string -> string, e: Commitment -> string, cs: seq<Commitment>): set<string> {
    LeafTexts(e, cs) + NodeTexts(k, Leaves(k, e, cs))
  }

  lemma NotDeeper(k: string -> string, e: Commitment -> string, cs: seq<Commitment>, ds: seq<Commitment>, s: set<string>)
    requires Wide(k) && cs != [] && ds != [] && Texts(k, e, cs) <= s && Texts(k, e, ds) <= s && CollisionFree(k, s)
    requires Root(k, Leaves(k, e, cs)) == Root(k, Leaves(k, e, ds))
    ensures Depth(|cs|) >= Depth(|ds|)
  {
    hide NodeText, LeafText, Root, NodeTexts;
    if Depth(|cs|) < Depth(|ds|) {
      var t, l, r := DeeperMeetsNode(k, Leaves(k, e, cs), Leaves(k, e, ds), s);
      var x := LeafText(e, cs[0]);
      assert x in LeafTexts(e, cs);
      TagsDiffer(e, cs[0], l, r);
      assert false;
    }
  }

  // Leaves with the same hash are the same commitment.
  lemma SameLeaf(k: string -> string, e: Commitment -> string, cs: seq<Commitment>, ds: seq<Commitment>, s: set<string>, i: nat, j: nat)
    requires Encodes(e) && CollisionFree(k, s) && LeafTexts(e, cs) <= s && LeafTexts(e, ds) <= s
    requires i < |cs| && j < |ds| && Leaves(k, e, cs)[i] == Leaves(k, e, ds)[j]
    ensures cs[i] == ds[j]
  {
    var x, y := LeafText(e, cs[i]), LeafText(e, ds[j]);
    assert x in LeafTexts(e, cs) && y in LeafTexts(e, ds);
    assert x[|LEAF|..] == e(cs[i]) && y[|LEAF|..] == e(ds[j]);
  }

  lemma LeavesWide(k: string -> string, e: Commitment -> string, cs: seq<Commitment>)
    requires Wide(k)
    ensures AllWide(Leaves(k, e, cs))
  {
    forall i | 0 <= i < |cs| ensures |Leaves(k, e, cs)[i]| == 32 {
      assert Leaves(k, e, cs)[i] == k(LeafText(e, cs[i]));
    }
  }

  lemma PrefixWins(k: string -> string, e: Commitment -> string, cs: seq<Commitment>, ds: seq<Commitment>, s: set<string>)
    requires Wide(k) && Encodes(e) && Accepted(cs) && Accepted(ds) && |cs| <= |ds|
    requires Texts(k, e, cs) <= s && Texts(k, e, ds) <= s && CollisionFree(k, s)
    requires Root(k, Leaves(k, e, cs)) == Root(k, Leaves(k, e, ds))
    ensures cs == ds
  {
    assert cs != [];
    hide NodeTexts, LeafTexts, Root, Depth, CollisionFree, Encodes, Accepted, LeafText;
    NotDeeper(k, e, cs, ds, s);
    NotDeeper(k, e, ds, cs, s);
    var ns, ms := Leaves(k, e, cs), Leaves(k, e, ds);
    LeavesWide(k, e, cs);
    LeavesWide(k, e, ds);
    forall p | 0 <= p < |cs| ensures cs[p] == ds[p] {
      SameCover(k, ns, ms, s, p);
      CoverOwn(|cs|, p);
      CoverOwn(|ds|, p);
      SameLeaf(k, e, cs, ds, s, p, p);
    }
    if |cs| < |ds| {
      var p := |cs|;
      SameCover(k, ns, ms, s, p);
      CoverOwn(|ds|, p);
      CoverRepeats(|cs|, p);
      var q := Cover(|cs|, p);
      SameLeaf(k, e, cs, ds, s, q, p);
      RisingFar(ds, q, p);
      assert false;
    }
  }

  // Two accepted batches with the same root are the same batch, whatever their lengths.
  lemma RootBindsBatch(k: string -> string, e: Commitment -> string, cs: seq<Commitment>, ds: seq<Commitment>)
    requires Wide(k) && Encodes(e) && Accepted(cs) && Accepted(ds)
    requires CollisionFree(k, Texts(k, e, cs) + Texts(k, e, ds))
    requires Root(k, Leaves(k, e, cs)) == Root(k, Leaves(k, e, ds))
    ensures cs == ds
  {
    var s := Texts(k, e, cs) + Texts(k, e, ds);
    if |cs| <= |ds| {
      PrefixWins(k, e, cs, ds, s);
    } else {
      PrefixWins(k, e, ds, cs, s);
    }
  }

  // Without rising sequence numbers the repeated node is a second batch with the same root.
  lemma RepeatSharesRoot(k: string -> string, e: Commitment -> string, a: Commitment, b: Commitment, c: Commitment)
    ensures Root(k, Leaves(k, e, [a, b, c])) == Root(k, Leaves(k, e, [a, b, c, c]))
  {
    var ns, ms := Leaves(k, e, [a, b, c]), Leaves(k, e, [a, b, c, c]);
    assert Layer(k, ns)[0] == NodeAt(k, ns, 0) == NodeAt(k, ms, 0) == Layer(k, ms)[0];
    assert Layer(k, ns)[1] == NodeAt(k, ns, 1) == NodeAt(k, ms, 1) == Layer(k, ms)[1];
    assert Layer(k, ns) == Layer(k, ms);
  }
}
