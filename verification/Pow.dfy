// Proof of work: a header is valid when its hash begins with enough zero bits, and workers that
// stride over the nonces share one result and one flag.
module Pow {
  import opened NumberTheory

  datatype Header = Header(parent: string, batchRoot: string, timeUnix: int, diffBits: int, nonce: nat)

  type Byte = b: nat | b < 256

  // ----- leading zeros -----

  // The zero bits before the first one of an eight-bit number.
  function LeadingZeros8(b: Byte): nat {
    if b >= 128 then 0 else if b >= 64 then 1 else if b >= 32 then 2 else if b >= 16 then 3
    else if b >= 8 then 4 else if b >= 4 then 5 else if b >= 2 then 6 else if b >= 1 then 7 else 8
  }

  function LeadingZeros(s: seq<Byte>): nat {
    if s == [] then 0 else if s[0] == 0 then 8 + LeadingZeros(s[1..]) else LeadingZeros8(s[0])
  }

  method CountLeadingZeros(sum: seq<Byte>) returns (n: nat)
    ensures n == LeadingZeros(sum)
  {
    n := 0;
    var i := 0;
    while i < |sum|
      invariant i <= |sum|
      invariant n + LeadingZeros(sum[i..]) == LeadingZeros(sum)
    {
      var b := sum[i];
      assert sum[i..][0] == b && sum[i..][1..] == sum[i + 1..];
      if b == 0 {
        n := n + 8;
      } else {
        n := n + LeadingZeros8(b);
        break;
      }
      i := i + 1;
    }
  }

  // The hash as a number, most significant byte first.
  function Value(s: seq<Byte>): (v: nat)
    ensures v < Pow(256, |s|)
  {
    if s == [] then 0 else
    PowPositive(256, |s| - 1);
    Bound(s[0], Value(s[1..]), Pow(256, |s| - 1));
    s[0] * Pow(256, |s| - 1) + Value(s[1..])
  }

  lemma Bound(b: Byte, v: nat, p: nat)
    requires v < p
    ensures b * p + v < 256 * p
  {
    MulMonotone(b, 255, p);
  }

  lemma {:induction false} PowByte(n: nat)
    ensures Pow(256, n) == Pow(2, 8 * n)
  {
    if n > 0 {
      PowByte(n - 1);
      PowAdd(2, 8, 8 * (n - 1));
      assert Pow(2, 8) == 256 by { PowEight(); }
    }
  }

  lemma PowEight()
    ensures Pow(2, 8) == 256 && Pow(2, 7) == 128 && Pow(2, 6) == 64 && Pow(2, 5) == 32
    ensures Pow(2, 4) == 16 && Pow(2, 3) == 8 && Pow(2, 2) == 4 && Pow(2, 1) == 2 && Pow(2, 0) == 1
  {}

  lemma ByteZeros(b: Byte, d: nat)
    requires d <= 8
    ensures LeadingZeros8(b) >= d <==> b < Pow(2, 8 - d)
  {
    PowEight();
    hide Pow;
    assert d == 0 || d == 1 || d == 2 || d == 3 || d == 4 || d == 5 || d == 6 || d == 7 || d == 8;
  }

  // A number below b * p + p is below c * p exactly when b is below c.
  lemma TopByte(b: nat, v: nat, p: nat, c: nat)
    requires v < p
    ensures b * p + v < c * p <==> b < c
  {
    if b < c {
      MulMonotone(b + 1, c, p);
      assert (b + 1) * p == b * p + p;
    } else {
      MulMonotone(c, b, p);
    }
  }

  // d leading zero bits are a bound on the number.
  lemma {:induction false} ZerosAreBound(s: seq<Byte>, d: nat)
    requires d <= 8 * |s|
    ensures LeadingZeros(s) >= d <==> Value(s) < Pow(2, 8 * |s| - d)
  {
    if s == [] {
      assert Pow(2, 0) == 1;
    } else {
      var n, t := |s| - 1, s[1..];
      var p := Pow(256, n);
      PowByte(n);
      if d <= 8 {
        ByteZeros(s[0], d);
        PowPositive(2, 8 - d);
        PowAdd(2, 8 - d, 8 * n);
        TopByte(s[0], Value(t), p, Pow(2, 8 - d));
        assert (8 - d) + 8 * n == 8 * |s| - d;
      } else {
        ZerosAreBound(t, d - 8);
        assert 8 * |t| - (d - 8) == 8 * |s| - d;
        if s[0] != 0 {
          PowMonotone(2, 8 * |s| - d, 8 * n);
          MulMonotone(1, s[0], p);
        }
      }
    }
  }

  // ----- validity -----

  // The 32-byte hash of a header, as a parameter.
  ghost predicate Hash32(g: Header -> seq<Byte>) {
    forall h: Header :: |g(h)| == 32
  }

  predicate Valid(g: Header -> seq<Byte>, h: Header) {
    h.diffBits >= 0 && LeadingZeros(g(h)) >= h.diffBits
  }

  lemma {:induction false} ZerosBounded(s: seq<Byte>)
    ensures LeadingZeros(s) <= 8 * |s|
  {
    if s != [] {
      ZerosBounded(s[1..]);
    }
  }

  // A header is valid when its hash, as a number, is below two to the bits that are left over.
  lemma ValidIffSmall(g: Header -> seq<Byte>, h: Header)
    requires Hash32(g)
    ensures Valid(g, h) <==> 0 <= h.diffBits <= 256 && Value(g(h)) < Pow(2, 256 - h.diffBits)
  {
    hide LeadingZeros, Value, Pow;
    ZerosBounded(g(h));
    if 0 <= h.diffBits <= 256 {
      ZerosAreBound(g(h), h.diffBits);
    }
  }

  // ----- the search, one atomic action of one worker at a time -----

  const NONCES: nat := 0x1_0000_0000_0000_0000

  // Where a worker is in its loop: about to read the flag, to test its nonce, to store its nonce,
  // to raise the flag, or returned.
  datatype Worker = Reading(n: nat) | Testing(n: nat) | Storing(n: nat) | Raising(n: nat) | Returned

  datatype Search = Search(found: nat, ok: bool, workers: seq<Worker>)

  function Started(count: nat): Search {
    Search(NONCES - 1, false, seq(count, w => Reading(w % NONCES)))
  }

  function At(h: Header, n: nat): Header {
    h.(nonce := n)
  }

  function Act(g: Header -> seq<Byte>, h: Header, s: Search, w: nat): Search
    requires w < |s.workers|
  {
    match s.workers[w]
    case Reading(n) => s.(workers := s.workers[w := if s.ok then Returned else Testing(n)])
    case Testing(n) =>
      s.(workers := s.workers[w := if Valid(g, At(h, n)) then Storing(n) else Reading((n + |s.workers|) % NONCES)])
    case Storing(n) => s.(found := n, workers := s.workers[w := Raising(n)])
    case Raising(n) => s.(ok := true, workers := s.workers[w := Returned])
    case Returned => s
  }

  // Any interleaving of the workers' actions.
  function Interleaved(g: Header -> seq<Byte>, h: Header, s: Search, schedule: seq<nat>): (r: Search)
    requires forall i | 0 <= i < |schedule| :: schedule[i] < |s.workers|
    ensures |r.workers| == |s.workers|
    decreases |schedule|
  {
    if schedule == [] then s else
    var t := Interleaved(g, h, s, schedule[..|schedule| - 1]);
    Act(g, h, t, schedule[|schedule| - 1])
  }

  ghost predicate Sound(g: Header -> seq<Byte>, h: Header, s: Search) {
    && (s.ok ==> Valid(g, At(h, s.found)))
    && forall w | 0 <= w < |s.workers| :: WorkerSound(g, h, s, s.workers[w])
  }

  ghost predicate WorkerSound(g: Header -> seq<Byte>, h: Header, s: Search, k: Worker) {
    match k
    case Storing(n) => Valid(g, At(h, n))
    case Raising(_) => Valid(g, At(h, s.found))
    case Returned => s.ok
    case _ => true
  }

  lemma ActSound(g: Header -> seq<Byte>, h: Header, s: Search, w: nat)
    requires w < |s.workers| && Sound(g, h, s)
    ensures Sound(g, h, Act(g, h, s, w))
  {
    hide Valid;
    var t := Act(g, h, s, w);
    assert WorkerSound(g, h, s, s.workers[w]);
    forall v | 0 <= v < |t.workers| ensures WorkerSound(g, h, t, t.workers[v]) {
      assert WorkerSound(g, h, s, s.workers[v]);
    }
  }

  lemma {:induction false} RunSound(g: Header -> seq<Byte>, h: Header, count: nat, schedule: seq<nat>)
    requires forall i | 0 <= i < |schedule| :: schedule[i] < count
    ensures Sound(g, h, Interleaved(g, h, Started(count), schedule))
    decreases |schedule|
  {
    hide Valid;
    if schedule != [] {
      var front := schedule[..|schedule| - 1];
      RunSound(g, h, count, front);
      ActSound(g, h, Interleaved(g, h, Started(count), front), schedule[|schedule| - 1]);
    }
  }

  // Once every worker has returned, the nonce that is left in place is valid, whichever of them
  // stored it last: the failure that follows the join cannot happen.
  lemma JoinedIsValid(g: Header -> seq<Byte>, h: Header, count: nat, schedule: seq<nat>)
    requires count > 0 && forall i | 0 <= i < |schedule| :: schedule[i] < count
    requires forall w | 0 <= w < count :: Interleaved(g, h, Started(count), schedule).workers[w] == Returned
    ensures Valid(g, At(h, Interleaved(g, h, Started(count), schedule).found))
  {
    hide Valid;
    RunSound(g, h, count, schedule);
    var s := Interleaved(g, h, Started(count), schedule);
    assert s.workers[0] == Returned;
    assert WorkerSound(g, h, s, s.workers[0]);
  }

  // ----- the search ends -----

  // How often worker w has its turn.
  function Turns(schedule: seq<nat>, w: nat): nat {
    if schedule == [] then 0 else
    Turns(schedule[..|schedule| - 1], w) + if schedule[|schedule| - 1] == w then 1 else 0
  }

  // The nonce that worker w tests after k others.
  function Candidate(w: nat, count: nat, k: nat): nat {
    (w + k * count) % NONCES
  }

  // The worker has come to this nonce, and found none before it.
  ghost predicate CameTo(g: Header -> seq<Byte>, h: Header, count: nat, w: nat, k: int, n: nat) {
    k >= 0 && n == Candidate(w, count, k) && forall i: nat | i < k :: !Valid(g, At(h, Candidate(w, count, i)))
  }

  // Where worker w is after c turns: it reads and tests in turn, and stores and raises when it finds.
  ghost predicate Stands(g: Header -> seq<Byte>, h: Header, count: nat, w: nat, c: int, k: Worker) {
    match k
    case Reading(n) => c % 2 == 0 && CameTo(g, h, count, w, c / 2, n)
    case Testing(n) => c % 2 == 1 && CameTo(g, h, count, w, c / 2, n)
    case Storing(n) => c % 2 == 0 && CameTo(g, h, count, w, c / 2 - 1, n)
    case Raising(n) => c % 2 == 1 && CameTo(g, h, count, w, c / 2 - 1, n)
    case Returned => true
  }

  lemma OneStride(w: nat, count: nat, k: nat)
    ensures (Candidate(w, count, k) + count) % NONCES == Candidate(w, count, k + 1)
  {
    var x := k * count;
    assert (k + 1) * count == x + count;
    WrapAdd(w + x, count);
  }

  lemma WrapAdd(x: nat, c: nat)
    ensures (x % NONCES + c) % NONCES == (x + c) % NONCES
  {}

  lemma ActStands(g: Header -> seq<Byte>, h: Header, s: Search, w: nat, c: nat)
    requires w < |s.workers| && Stands(g, h, |s.workers|, w, c, s.workers[w])
    ensures Stands(g, h, |s.workers|, w, c + 1, Act(g, h, s, w).workers[w])
  {
    hide Valid, Candidate;
    if s.workers[w].Testing? { OneStride(w, |s.workers|, c / 2); }
  }

  lemma {:induction false} RunStands(g: Header -> seq<Byte>, h: Header, count: nat, schedule: seq<nat>, w: nat)
    requires w < count && forall i | 0 <= i < |schedule| :: schedule[i] < count
    ensures Stands(g, h, count, w, Turns(schedule, w), Interleaved(g, h, Started(count), schedule).workers[w])
    decreases |schedule|
  {
    hide Valid, Stands, Act;
    if schedule == [] {
      BeginStands(g, h, count, w);
    } else {
      var front, v := schedule[..|schedule| - 1], schedule[|schedule| - 1];
      RunStands(g, h, count, front, w);
      var s := Interleaved(g, h, Started(count), front);
      if v == w {
        ActStands(g, h, s, w, Turns(front, w));
      } else {
        ActElsewhere(g, h, s, v, w);
      }
    }
  }

  lemma BeginStands(g: Header -> seq<Byte>, h: Header, count: nat, w: nat)
    requires w < count
    ensures Stands(g, h, count, w, 0, Started(count).workers[w])
  {}

  lemma ActElsewhere(g: Header -> seq<Byte>, h: Header, s: Search, v: nat, w: nat)
    requires v < |s.workers| && w < |s.workers| && v != w
    ensures Act(g, h, s, v).workers[w] == s.workers[w]
  {}

  // A worker does not pass a valid nonce.
  lemma NotPassed(g: Header -> seq<Byte>, h: Header, count: nat, w: nat, c: nat, worker: Worker, k: nat)
    requires Stands(g, h, count, w, c, worker) && c >= 2 * k + 4 && Valid(g, At(h, Candidate(w, count, k)))
    ensures worker == Returned
  {
    hide Valid, Candidate;
  }

  lemma OfStride(n: nat, count: nat)
    requires count > 0 && n < NONCES
    ensures Candidate(n % count, count, n / count) == n
  {
    assert n % count + (n / count) * count == n;
  }

  // When there is a valid nonce, the worker to whose stride it belongs returns after two turns for
  // each nonce up to it and two more, whatever the others do, and then the flag is up and the stored
  // nonce is valid.
  lemma ValidIsFound(g: Header -> seq<Byte>, h: Header, count: nat, schedule: seq<nat>, n: nat)
    requires count > 0 && n < NONCES && Valid(g, At(h, n)) && forall i | 0 <= i < |schedule| :: schedule[i] < count
    requires Turns(schedule, n % count) >= 2 * (n / count) + 4
    ensures
      var s := Interleaved(g, h, Started(count), schedule);
      s.workers[n % count] == Returned && s.ok && Valid(g, At(h, s.found))
  {
    hide Valid, Interleaved, Stands;
    var w := n % count;
    RunStands(g, h, count, schedule, w);
    RunSound(g, h, count, schedule);
    var s := Interleaved(g, h, Started(count), schedule);
    OfStride(n, count);
    NotPassed(g, h, count, w, Turns(schedule, w), s.workers[w], n / count);
    assert WorkerSound(g, h, s, s.workers[w]);
  }

  // The turns a worker needs once the flag is up.
  function Left(k: Worker): nat {
    match k
    case Reading(_) => 1
    case Testing(_) => 3
    case Storing(_) => 2
    case Raising(_) => 1
    case Returned => 0
  }

  // Once the flag is up it stays up, and every worker returns within three turns of its own.
  lemma {:induction false} FlagStops(g: Header -> seq<Byte>, h: Header, s: Search, schedule: seq<nat>, w: nat)
    requires s.ok && w < |s.workers| && forall i | 0 <= i < |schedule| :: schedule[i] < |s.workers|
    ensures
      var t := Interleaved(g, h, s, schedule);
      t.ok && (t.workers[w] == Returned || Turns(schedule, w) + Left(t.workers[w]) <= 3)
    decreases |schedule|
  {
    hide Valid;
    if schedule != [] {
      FlagStops(g, h, s, schedule[..|schedule| - 1], w);
    }
  }
}
