// Runs of the store over a disk that can lose directory updates (nex/store.go: Create, View,
// Apply, withLock, read, write). Any number of handles work at once, one per contract at a
// time; any of them may fail or die at any stage, and the whole machine may crash.
module StoreRuns {
  import opened Wrappers
  import opened Kernel
  import opened KernelRuns
  import opened Checkpoint
  import opened Contracts
  import opened Store
  import opened Operations
  import opened Paillier
  import opened NumberTheory

  datatype Job = Create(c: ContractState) | Look | Submit(q: Request)

  // What a handle reports to its caller when it returns without an error.
  datatype Ack =
    | Created
    | Viewed(receipts: seq<Receipt>, head: Hash, status: Status, agreed: bool)
    | Applied(op: Operation, result: OpResult)

  // Where a handle stands: waiting for the file lock, holding it, with a written temporary
  // file, with that file synced, with the file renamed into place, with a record to confirm,
  // and with the directory synced.
  datatype Phase =
    | Waiting
    | Holding
    | Written(r: Record, ack: Ack)
    | FileSynced(r: Record, ack: Ack)
    | Renamed(ack: Ack)
    | Confirming(ack: Ack)
    | DirSynced(ack: Ack)

  // saved tells whether the contents of the temporary file are on the disk.
  datatype Task = Task(id: string, job: Job, phase: Phase, saved: bool)

  // cur is the directory every handle sees, dur the one a crash leaves behind. A crash also takes the
  // contents of a file that was never synced: loose and lost are the names of such files in cur and dur.
  datatype System = System(cur: map<string, Record>, loose: set<string>, dur: map<string, Record>, lost: set<string>,
                           tasks: map<nat, Task>, acks: seq<(string, Ack)>)

  datatype Event =
    | Begin(t: nat, id: string, job: Job)
    | Acquire(t: nat)
    | Work(t: nat)
    | SyncFile(t: nat)
    | Rename(t: nat)
    | SyncDir(t: nat)
    | Reply(t: nat)
    | Fail(t: nat)
    | Flush(id: string)
    | Crash

  const EMPTY := System(map[], {}, map[], {}, map[], [])

  // A contract handed to Create is one New returned, with a key from key generation.
  ghost predicate FreshContract(cr: Crypto, c: ContractState) {
    exists kind, buyer, seller, amount, spec, now, deadline, key :: IsNew(cr, c, kind, buyer, seller, amount, spec, now, deadline, key)
  }

  ghost predicate IsNew(cr: Crypto, c: ContractState, kind: string, buyer: Public, seller: Public, amount: int64, spec: string,
                        now: Time, deadline: Time, key: Option<Key>) {
    && (key.Some? ==> Valid(key.value) && key.value.n < Pow(2, MODULUS_BITS))
    && New(cr, kind, buyer, seller, amount, spec, now, deadline, key) == Ok(c)
  }

  predicate HasLock(task: Task) {
    !task.phase.Waiting?
  }

  function Drop(s: System, t: nat): System {
    s.(tasks := map x | x in s.tasks && x != t :: s.tasks[x])
  }

  function Advance(s: System, t: nat, phase: Phase): System
    requires t in s.tasks
  {
    s.(tasks := s.tasks[t := s.tasks[t].(phase := phase)])
  }

  function Saved(s: System, t: nat): System
    requires t in s.tasks
  {
    s.(tasks := s.tasks[t := s.tasks[t].(saved := true)])
  }

  // The handle's temporary file takes the name of its contract, with whatever of it is on the disk.
  function Renaming(s: System, t: nat): System
    requires t in s.tasks && (s.tasks[t].phase.Written? || s.tasks[t].phase.FileSynced?)
  {
    var task := s.tasks[t];
    s.(cur := s.cur[task.id := task.phase.r], loose := if task.saved then s.loose - {task.id} else s.loose + {task.id})
  }

  // The directory is written out, all of it or one name.
  function Synced(s: System): System {
    s.(dur := s.cur, lost := s.loose)
  }

  function Flushed(s: System, id: string): System
    requires id in s.cur
  {
    s.(dur := s.dur[id := s.cur[id]], lost := if id in s.loose then s.lost + {id} else s.lost - {id})
  }

  // All handles are gone, and so is what was not on the disk.
  function Crashed(s: System): System {
    var left := map id | id in s.dur && id !in s.lost :: s.dur[id];
    s.(cur := left, loose := {}, dur := left, lost := {}, tasks := map[])
  }

  // What a handle does under the lock, before anything is written: None is an error return.
  ghost function Plan(cr: Crypto, h: Oracle, s: System, id: string, job: Job): Option<Phase> {
    match job
    case Create(c) =>
      if id in s.cur || c.terms != id then None
      else (match CreateRecord(cr, c) case Err(_) => None case Ok(r) => Some(Written(r, Created)))
    case Look =>
      if id !in s.cur then None
      else (match RestoredContract(cr, s.cur[id], id)
        case None => None
        case Some(c) => Some(Confirming(Viewed(c.agreement.receipts, Head(c), c.agreement.status, c.agreed))))
    case Submit(q) =>
      if id !in s.cur then None
      else match RestoredContract(cr, s.cur[id], id)
        case None => None
        case Some(c) =>
          RestoredUsable(cr, s.cur[id], id);
          match Decide(cr, h, s.cur[id], c, id, q)
          case Refuse(_) => None
          case Retry(result) => Some(Confirming(Applied(q.op, result)))
          case Commit(r, result) => Some(Written(r, Applied(q.op, result)))
  }

  lemma RestoredUsable(cr: Crypto, r: Record, id: string)
    ensures RestoredContract(cr, r, id).Some? ==> KeyUsable(RestoredContract(cr, r, id).value.agreement)
  {
    hide HeaderOk, EntryOk, HeadsDistinct, Replay, Checkpoint.Restore;
    if RestoredContract(cr, r, id).Some? { RestoreSound(r.checkpoint); }
  }

  // One step; None when the event is not possible.
  ghost function Act(cr: Crypto, h: Oracle, s: System, e: Event): Option<System> {
    match e
    case Begin(t, id, job) =>
      if t in s.tasks || !ValidContractId(id) then None
      else Some(s.(tasks := s.tasks[t := Task(id, job, Waiting, false)]))
    case Acquire(t) =>
      if t !in s.tasks || HasLock(s.tasks[t]) || (exists u :: u in s.tasks && HasLock(s.tasks[u]) && s.tasks[u].id == s.tasks[t].id) then None
      else Some(Advance(s, t, Holding))
    case Work(t) =>
      if t !in s.tasks || !s.tasks[t].phase.Holding? then None
      else (match Plan(cr, h, s, s.tasks[t].id, s.tasks[t].job)
        case None => Some(Drop(s, t))
        case Some(phase) => Some(Advance(s, t, phase)))
    case SyncFile(t) =>
      if t !in s.tasks || !s.tasks[t].phase.Written? then None
      else Some(Advance(Saved(s, t), t, FileSynced(s.tasks[t].phase.r, s.tasks[t].phase.ack)))
    case Rename(t) =>
      if t !in s.tasks || !s.tasks[t].phase.FileSynced? then None
      else Some(Advance(Renaming(s, t), t, Renamed(s.tasks[t].phase.ack)))
    case SyncDir(t) =>
      if t !in s.tasks || !(s.tasks[t].phase.Renamed? || s.tasks[t].phase.Confirming?) then None
      else Some(Advance(Synced(s), t, DirSynced(s.tasks[t].phase.ack)))
    case Reply(t) =>
      if t !in s.tasks || !s.tasks[t].phase.DirSynced? then None
      else Some(Drop(s, t).(acks := s.acks + [(s.tasks[t].id, s.tasks[t].phase.ack)]))
    case Fail(t) => if t !in s.tasks then None else Some(Drop(s, t))
    case Flush(id) => if id !in s.cur then None else Some(Flushed(s, id))
    case Crash => Some(Crashed(s))
  }

  // Why a write takes both syncs: after a rename a crash still leaves the directory as it was last
  // written out; and a file that was renamed unsynced is gone with the crash although its name is out.
  lemma BothSyncsNeeded(s: System, t: nat)
    requires t in s.tasks && s.tasks[t].phase.Written? && !s.tasks[t].saved && s.lost == {}
    ensures Crashed(Renaming(s, t)).cur == s.dur == Crashed(Renaming(Saved(s, t), t)).cur
    ensures s.tasks[t].id !in Crashed(Synced(Renaming(s, t))).cur
    ensures s.loose == {} ==> Crashed(Synced(Renaming(Saved(s, t), t))).cur == s.cur[s.tasks[t].id := s.tasks[t].phase.r]
  {
    assert Crashed(Renaming(s, t)).cur == s.dur;
    assert Crashed(Renaming(Saved(s, t), t)).cur == s.dur;
    assert s.loose == {} ==> Crashed(Synced(Renaming(Saved(s, t), t))).cur == s.cur[s.tasks[t].id := s.tasks[t].phase.r];
  }

  // What may go wrong at any time: a handle is gone, and the disk is as it was; one name of the
  // directory is written out before its time, and is durable if its file was synced, and lost if not.
  lemma Hazards(cr: Crypto, h: Oracle, s: System, t: nat, id: string)
    ensures t in s.tasks ==>
      var left := Act(cr, h, s, Fail(t));
      && left.Some? && left.value == s.(tasks := left.value.tasks) && t !in left.value.tasks
      && forall u | u in s.tasks && u != t :: u in left.value.tasks && left.value.tasks[u] == s.tasks[u]
    ensures id in s.cur ==>
      var flushed := Act(cr, h, s, Flush(id));
      && flushed.Some?
      && (id !in s.loose ==> id in Crashed(flushed.value).cur && Crashed(flushed.value).cur[id] == s.cur[id])
      && (id in s.loose ==> id !in Crashed(flushed.value).cur)
  {
    hide Plan;
  }

  // What an acknowledgement claims about a version of the record: an application is in its index,
  // and a view is a prefix of its history with the status and consent that the operations
  // accounting for that prefix leave.
  ghost predicate Backed(cr: Crypto, ack: Ack, r: Record) {
    match ack
    case Created => true
    case Viewed(receipts, head, status, agreed) => head == Tail(receipts) && Shown(cr, r, receipts, status, agreed)
    case Applied(op, result) =>
      op.id in r.operations && r.operations[op.id].operation == op && r.operations[op.id].result == result
  }

  ghost predicate Shown(cr: Crypto, r: Record, receipts: seq<Receipt>, status: Status, agreed: bool) {
    && r.checkpoint.agreement.Some? && 2 <= |receipts| && receipts <= StoredState(r).receipts
    && exists order :: Accounts(cr, StoredState(r), r.operations, order, 2, |receipts|, Open, false, status, agreed)
  }

  lemma BackedLater(cr: Crypto, ack: Ack, r: Record, r': Record)
    requires Backed(cr, ack, r) && Extends(r, r')
    ensures Backed(cr, ack, r')
  {
    if ack.Viewed? {
      ShownLater(cr, r, r', ack.receipts, ack.status, ack.agreed);
    }
  }

  lemma ShownLater(cr: Crypto, r: Record, r': Record, receipts: seq<Receipt>, status: Status, agreed: bool)
    requires Shown(cr, r, receipts, status, agreed) && Extends(r, r')
    ensures Shown(cr, r', receipts, status, agreed)
  {
    hide Accounts;
    var order :| Accounts(cr, StoredState(r), r.operations, order, 2, |receipts|, Open, false, status, agreed);
    AccountsStable(cr, StoredState(r), StoredState(r'), r.operations, r'.operations, order, 2, |receipts|, Open, false, status, agreed);
  }

  // What View shows of a good record is backed by it.
  lemma GoodShown(cr: Crypto, r: Record, id: string)
    requires GoodRecord(cr, r, id)
    ensures r.checkpoint.agreement.Some?
    ensures Shown(cr, r, StoredState(r).receipts, StoredState(r).status, r.agreed)
  {
    hide Inv, HeaderOk, EntryOk, HeadsDistinct, Accounts, Stage, Take, Storable;
    var ms, order :| Good(cr, r, id, ms, order);
  }

  // Of one prefix only one status and one consent can be shown.
  lemma ShownOnce(cr: Crypto, r: Record, receipts: seq<Receipt>, status: Status, agreed: bool, status': Status, agreed': bool)
    requires HeadsDistinct(r.operations)
    requires Shown(cr, r, receipts, status, agreed) && Shown(cr, r, receipts, status', agreed')
    ensures status == status' && agreed == agreed'
  {
    hide Accounts, HeadsDistinct;
    var a := StoredState(r);
    var o :| Accounts(cr, a, r.operations, o, 2, |receipts|, Open, false, status, agreed);
    var o' :| Accounts(cr, a, r.operations, o', 2, |receipts|, Open, false, status', agreed');
    AccountsOnce(cr, a, r.operations, o, o', 2, |receipts|, Open, false, status, agreed, status', agreed');
  }

  lemma {:induction false} AccountsOnce(cr: Crypto, a: State, ops: map<string, Committed>, o: seq<string>, o': seq<string>, i: nat, j: nat,
    status: Status, consent: bool, final: Status, agreed: bool, final': Status, agreed': bool)
    requires 1 <= i <= j <= |a.receipts| && HeadsDistinct(ops)
    requires Accounts(cr, a, ops, o, i, j, status, consent, final, agreed)
    requires Accounts(cr, a, ops, o', i, j, status, consent, final', agreed')
    ensures o == o' && final == final' && agreed == agreed'
    decreases |o|
  {
    hide CheckedSegment;
    if o != [] {
      assert o' != [] && o[0] == o'[0];
      hide HeadsDistinct;
      var seg := CheckedSegment(cr, a, ops[o[0]], i, status, consent).value;
      AccountsOnce(cr, a, ops, o[1..], o'[1..], i + seg.count, j, seg.status, seg.consent, final, agreed, final', agreed');
      assert o == [o[0]] + o[1..] && o' == [o'[0]] + o'[1..];
    }
  }

  // ---------- the invariant ----------

  ghost predicate DiskOk(cr: Crypto, cur: map<string, Record>, dur: map<string, Record>) {
    && (forall id :: id in cur ==> GoodRecord(cr, cur[id], id))
    && (forall id :: id in dur ==> id in cur && GoodRecord(cr, dur[id], id) && Extends(dur[id], cur[id]))
  }

  ghost predicate TaskOk(cr: Crypto, cur: map<string, Record>, dur: map<string, Record>, task: Task) {
    && (task.job.Create? ==> FreshContract(cr, task.job.c))
    && match task.phase
       case Waiting => true
       case Holding => true
       case Written(r, ack) => Pending(cr, cur, task.id, r, ack)
       case FileSynced(r, ack) => task.saved && Pending(cr, cur, task.id, r, ack)
       case Renamed(ack) => task.id in cur && Backed(cr, ack, cur[task.id])
       case Confirming(ack) => task.id in cur && Backed(cr, ack, cur[task.id])
       case DirSynced(ack) => task.id in dur && Backed(cr, ack, dur[task.id])
  }

  ghost predicate Pending(cr: Crypto, cur: map<string, Record>, id: string, r: Record, ack: Ack) {
    GoodRecord(cr, r, id) && (id in cur ==> Extends(cur[id], r)) && Backed(cr, ack, r)
  }

  predicate Exclusive(tasks: map<nat, Task>) {
    forall t, u :: t in tasks && u in tasks && HasLock(tasks[t]) && HasLock(tasks[u]) && tasks[t].id == tasks[u].id ==> t == u
  }

  ghost predicate AcksBacked(cr: Crypto, acks: seq<(string, Ack)>, m: map<string, Record>) {
    forall i :: 0 <= i < |acks| ==> acks[i].0 in m && Backed(cr, acks[i].1, m[acks[i].0])
  }

  ghost predicate SysInv(cr: Crypto, s: System) {
    && DiskOk(cr, s.cur, s.dur) && s.loose == {} && s.lost == {}
    && (forall t :: t in s.tasks ==> TaskOk(cr, s.cur, s.dur, s.tasks[t]))
    && Exclusive(s.tasks)
    && AcksBacked(cr, s.acks, s.dur)
  }

  ghost predicate EventOk(cr: Crypto, e: Event) {
    e.Begin? && e.job.Create? ==> FreshContract(cr, e.job.c)
  }

  lemma GoodHasState(cr: Crypto, r: Record, id: string)
    requires GoodRecord(cr, r, id)
    ensures Extends(r, r)
  {
    hide Inv, HeaderOk, EntryOk, HeadsDistinct, Accounts, Stage, Take, Storable;
  }

  // Whatever a handle plans under the lock is backed by the record it will leave behind.
  lemma PlanOk(cr: Crypto, h: Oracle, s: System, id: string, job: Job)
    requires DiskOk(cr, s.cur, s.dur) && (job.Create? ==> FreshContract(cr, job.c))
    ensures match Plan(cr, h, s, id, job)
      case Some(Written(r, ack)) => Pending(cr, s.cur, id, r, ack)
      case Some(Confirming(ack)) => id in s.cur && Backed(cr, ack, s.cur[id])
      case Some(_) => false
      case None => true
  {
    hide GoodRecord, Decide, CreateRecord, RestoredContract, Extends, New;
    match job
    case Create(c) =>
      if id !in s.cur && c.terms == id && CreateRecord(cr, c).Ok? {
        var kind, buyer, seller, amount, spec, now, deadline, key :| IsNew(cr, c, kind, buyer, seller, amount, spec, now, deadline, key);
        CreateGood(cr, kind, buyer, seller, amount, spec, now, deadline, key);
      }
    case Look =>
      if id in s.cur {
        GoodRestores(cr, s.cur[id], id);
        GoodShown(cr, s.cur[id], id);
      }
    case Submit(q) =>
      if id in s.cur {
        GoodRestores(cr, s.cur[id], id);
        RestoredUsable(cr, s.cur[id], id);
        CommitGood(cr, h, s.cur[id], id, q);
        DecideRetry(cr, h, s.cur[id], ContractOf(s.cur[id], id, StoredState(s.cur[id])), id, q);
      }
  }

  lemma DecideRetry(cr: Crypto, h: Oracle, r: Record, c: ContractState, id: string, q: Request)
    requires KeyUsable(c.agreement)
    ensures Decide(cr, h, r, c, id, q).Retry? ==>
      q.op.id in r.operations && r.operations[q.op.id].operation == q.op
      && r.operations[q.op.id].result == Decide(cr, h, r, c, id, q).result
  {
    hide ApplyVerified;
  }

  lemma RenameKeeps(cr: Crypto, s: System, t: nat)
    requires SysInv(cr, s) && t in s.tasks && s.tasks[t].phase.FileSynced?
    ensures SysInv(cr, Advance(Renaming(s, t), t, Renamed(s.tasks[t].phase.ack)))
  {
    hide GoodRecord, Extends, Backed, FreshContract;
    var id, r, ack := s.tasks[t].id, s.tasks[t].phase.r, s.tasks[t].phase.ack;
    var s' := Advance(Renaming(s, t), t, Renamed(ack));
    assert TaskOk(cr, s.cur, s.dur, s.tasks[t]);
    forall x | x in s.dur
      ensures x in s'.cur && Extends(s.dur[x], s'.cur[x])
    {
      if x == id { ExtendsTransitive(s.dur[id], s.cur[id], r); }
    }
    forall u | u in s'.tasks
      ensures TaskOk(cr, s'.cur, s'.dur, s'.tasks[u])
    {
      if u != t {
        assert TaskOk(cr, s.cur, s.dur, s.tasks[u]);
        assert HasLock(s.tasks[u]) ==> s.tasks[u].id != id;
      }
    }
  }

  lemma SyncKeeps(cr: Crypto, s: System, t: nat)
    requires SysInv(cr, s) && t in s.tasks && (s.tasks[t].phase.Renamed? || s.tasks[t].phase.Confirming?)
    ensures SysInv(cr, Advance(Synced(s), t, DirSynced(s.tasks[t].phase.ack)))
  {
    hide GoodRecord, Extends, Backed, FreshContract;
    GrowKeeps(cr, s, s.cur);
    var s' := Advance(Synced(s), t, DirSynced(s.tasks[t].phase.ack));
    assert TaskOk(cr, s.cur, s.dur, s.tasks[t]);
    forall u | u in s'.tasks
      ensures TaskOk(cr, s'.cur, s'.dur, s'.tasks[u])
    {
      if u != t { assert TaskOk(cr, s.cur, s.cur, s.tasks[u]); }
    }
  }

  // The durable directory may move up to anything between it and the current one.
  lemma GrowKeeps(cr: Crypto, s: System, dur: map<string, Record>)
    requires SysInv(cr, s)
    requires forall id :: id in dur ==> id in s.cur && (dur[id] == s.cur[id] || (id in s.dur && dur[id] == s.dur[id]))
    requires forall id :: id in s.dur ==> id in dur
    ensures SysInv(cr, s.(dur := dur))
    ensures forall id :: id in s.dur ==> Extends(s.dur[id], dur[id])
  {
    hide GoodRecord, Extends, Backed, FreshContract;
    forall id | id in dur
      ensures GoodRecord(cr, dur[id], id) && Extends(dur[id], s.cur[id])
      ensures id in s.dur ==> Extends(s.dur[id], dur[id])
    {
      GoodHasState(cr, s.cur[id], id);
      if id in s.dur { GoodHasState(cr, s.dur[id], id); }
    }
    forall t | t in s.tasks
      ensures TaskOk(cr, s.cur, dur, s.tasks[t])
    {
      assert TaskOk(cr, s.cur, s.dur, s.tasks[t]);
      if s.tasks[t].phase.DirSynced? {
        BackedLater(cr, s.tasks[t].phase.ack, s.dur[s.tasks[t].id], dur[s.tasks[t].id]);
      }
    }
    forall i | 0 <= i < |s.acks|
      ensures s.acks[i].0 in dur && Backed(cr, s.acks[i].1, dur[s.acks[i].0])
    {
      BackedLater(cr, s.acks[i].1, s.dur[s.acks[i].0], dur[s.acks[i].0]);
    }
  }

  lemma CrashKeeps(cr: Crypto, s: System)
    requires SysInv(cr, s)
    ensures SysInv(cr, Crashed(s)) && Crashed(s).dur == s.dur
  {
    hide GoodRecord, Extends, Backed, FreshContract;
    assert Crashed(s).dur == s.dur;
    forall id | id in s.dur ensures Extends(s.dur[id], s.dur[id]) { GoodHasState(cr, s.dur[id], id); }
  }

  // Steps that only move a handle keep the invariant when its own claim holds.
  lemma MoveKeeps(cr: Crypto, s: System, t: nat, phase: Phase)
    requires SysInv(cr, s) && t in s.tasks
    requires TaskOk(cr, s.cur, s.dur, s.tasks[t].(phase := phase))
    requires phase.Waiting? || HasLock(s.tasks[t]) || forall u :: u in s.tasks && HasLock(s.tasks[u]) ==> s.tasks[u].id != s.tasks[t].id
    ensures SysInv(cr, Advance(s, t, phase))
  {
    hide TaskOk, DiskOk, AcksBacked;
  }

  lemma SaveKeeps(cr: Crypto, s: System, t: nat)
    requires SysInv(cr, s) && t in s.tasks
    ensures SysInv(cr, Saved(s, t))
  {
    hide DiskOk, AcksBacked, Pending, Backed, FreshContract;
    forall u | u in s.tasks ensures TaskOk(cr, s.cur, s.dur, Saved(s, t).tasks[u]) {
      assert TaskOk(cr, s.cur, s.dur, s.tasks[u]);
    }
  }

  lemma DropKeeps(cr: Crypto, s: System, t: nat)
    requires SysInv(cr, s)
    ensures SysInv(cr, Drop(s, t))
  {
    hide TaskOk, DiskOk, AcksBacked;
  }

  lemma WorkKeeps(cr: Crypto, h: Oracle, s: System, t: nat)
    requires SysInv(cr, s) && t in s.tasks && s.tasks[t].phase.Holding?
    ensures SysInv(cr, Act(cr, h, s, Work(t)).value)
  {
    hide Plan, GoodRecord, Extends, Backed, DiskOk, AcksBacked, Exclusive, FreshContract;
    var task := s.tasks[t];
    assert TaskOk(cr, s.cur, s.dur, task);
    PlanOk(cr, h, s, task.id, task.job);
    match Plan(cr, h, s, task.id, task.job)
    case None => DropKeeps(cr, s, t);
    case Some(phase) => MoveKeeps(cr, s, t, phase);
  }

  // Every possible step keeps the invariant.
  lemma ActKeeps(cr: Crypto, h: Oracle, s: System, e: Event)
    requires SysInv(cr, s) && EventOk(cr, e) && Act(cr, h, s, e).Some?
    ensures SysInv(cr, Act(cr, h, s, e).value)
  {
    hide Plan, GoodRecord, Extends, Backed, FreshContract, DiskOk;
    match e
    case Begin(t, id, job) =>
    case Acquire(t) =>
      assert TaskOk(cr, s.cur, s.dur, s.tasks[t]);
      MoveKeeps(cr, s, t, Holding);
    case Work(t) => WorkKeeps(cr, h, s, t);
    case SyncFile(t) =>
      assert TaskOk(cr, s.cur, s.dur, s.tasks[t]);
      SaveKeeps(cr, s, t);
      MoveKeeps(cr, Saved(s, t), t, FileSynced(s.tasks[t].phase.r, s.tasks[t].phase.ack));
    case Rename(t) => RenameKeeps(cr, s, t);
    case SyncDir(t) => SyncKeeps(cr, s, t);
    case Reply(t) =>
      assert TaskOk(cr, s.cur, s.dur, s.tasks[t]);
      DropKeeps(cr, s, t);
    case Fail(t) => DropKeeps(cr, s, t);
    case Flush(id) => FlushKeeps(cr, s, id);
    case Crash => CrashKeeps(cr, s);
  }

  lemma FlushKeeps(cr: Crypto, s: System, id: string)
    requires SysInv(cr, s) && id in s.cur
    ensures SysInv(cr, Flushed(s, id))
    ensures id in s.dur ==> Extends(s.dur[id], s.cur[id])
  {
    hide GoodRecord, Extends, Backed, FreshContract, TaskOk;
    GrowKeeps(cr, s, s.dur[id := s.cur[id]]);
    assert Flushed(s, id).lost == {};
  }

  // ---------- runs ----------

  ghost predicate IsStoreRun(cr: Crypto, h: Oracle, states: seq<System>, events: seq<Event>) {
    && |states| == |events| + 1
    && states[0] == EMPTY
    && forall i :: 0 <= i < |events| ==> EventOk(cr, events[i]) && Act(cr, h, states[i], events[i]) == Some(states[i + 1])
  }

  lemma RunStep(cr: Crypto, h: Oracle, states: seq<System>, events: seq<Event>, i: nat)
    requires IsStoreRun(cr, h, states, events) && i < |events|
    ensures EventOk(cr, events[i]) && Act(cr, h, states[i], events[i]) == Some(states[i + 1])
  {
    hide Act;
  }

  lemma {:induction false} StoreRunInv(cr: Crypto, h: Oracle, states: seq<System>, events: seq<Event>, i: nat)
    requires IsStoreRun(cr, h, states, events) && i <= |events|
    ensures SysInv(cr, states[i])
    decreases i
  {
    hide Act, TaskOk;
    if i > 0 {
      StoreRunInv(cr, h, states, events, i - 1);
      RunStep(cr, h, states, events, i - 1);
      ActKeeps(cr, h, states[i - 1], events[i - 1]);
    }
  }

  // Acknowledgements are never withdrawn, whatever happens next.
  lemma {:induction false} AcksGrow(cr: Crypto, h: Oracle, states: seq<System>, events: seq<Event>, i: nat, j: nat)
    requires IsStoreRun(cr, h, states, events) && i <= j <= |events|
    ensures states[i].acks <= states[j].acks
    decreases j
  {
    hide Plan;
    if i < j {
      AcksGrow(cr, h, states, events, i, j - 1);
      RunStep(cr, h, states, events, j - 1);
    }
  }

  // Durability: whatever any handle ever reported, of an application, a view or a creation,
  // holds of the durable directory and of the visible one at every later point of the run,
  // crashes included.
  lemma Durability(cr: Crypto, h: Oracle, states: seq<System>, events: seq<Event>, i: nat, j: nat, n: nat)
    requires IsStoreRun(cr, h, states, events) && i <= j <= |events| && n < |states[i].acks|
    ensures
      var (id, ack) := states[i].acks[n];
      && id in states[j].dur && Backed(cr, ack, states[j].dur[id])
      && id in states[j].cur && Backed(cr, ack, states[j].cur[id])
  {
    hide Act, TaskOk, Backed, Extends, GoodRecord;
    AcksGrow(cr, h, states, events, i, j);
    StoreRunInv(cr, h, states, events, j);
    var (id, ack) := states[j].acks[n];
    assert states[i].acks[n] == states[j].acks[n];
    assert AcksBacked(cr, states[j].acks, states[j].dur);
    assert id in states[j].dur && Extends(states[j].dur[id], states[j].cur[id]);
    BackedLater(cr, ack, states[j].dur[id], states[j].cur[id]);
  }

  // The durable history of a contract only ever grows.
  lemma {:induction false} DurableGrows(cr: Crypto, h: Oracle, states: seq<System>, events: seq<Event>, i: nat, j: nat, id: string)
    requires IsStoreRun(cr, h, states, events) && i <= j <= |events| && id in states[i].dur
    ensures id in states[j].dur && Extends(states[i].dur[id], states[j].dur[id])
    decreases j
  {
    hide Act, TaskOk, GoodRecord, Extends;
    StoreRunInv(cr, h, states, events, i);
    if i == j {
      GoodHasState(cr, states[i].dur[id], id);
    } else {
      DurableGrows(cr, h, states, events, i, j - 1, id);
      StoreRunInv(cr, h, states, events, j - 1);
      RunStep(cr, h, states, events, j - 1);
      DurableStep(cr, h, states[j - 1], events[j - 1], id);
      ExtendsTransitive(states[i].dur[id], states[j - 1].dur[id], states[j].dur[id]);
    }
  }

  lemma DurableStep(cr: Crypto, h: Oracle, s: System, e: Event, id: string)
    requires SysInv(cr, s) && Act(cr, h, s, e).Some? && id in s.dur
    ensures id in Act(cr, h, s, e).value.dur && Extends(s.dur[id], Act(cr, h, s, e).value.dur[id])
  {
    hide Plan, GoodRecord, Extends, TaskOk;
    GoodHasState(cr, s.dur[id], id);
  }

  // Exactly once: at every point of every run the operations of a visible contract stand in
  // one order, each once, accounting for all receipts after the opening pair.
  lemma ExactlyOnce(cr: Crypto, h: Oracle, states: seq<System>, events: seq<Event>, i: nat, id: string) returns (order: seq<string>)
    requires IsStoreRun(cr, h, states, events) && i <= |events| && id in states[i].cur
    ensures states[i].cur[id].checkpoint.agreement.Some?
    ensures
      var r := states[i].cur[id];
      var a := StoredState(r);
      && |a.receipts| >= 2
      && NoRepeats(order)
      && (forall k :: k in order <==> k in r.operations)
      && Accounts(cr, a, r.operations, order, 2, |a.receipts|, Open, false, a.status, r.agreed)
  {
    hide Act, TaskOk, GoodRecord, RestoredContract, Accounts;
    StoreRunInv(cr, h, states, events, i);
    GoodRestores(cr, states[i].cur[id], id);
    order := RestoreBijection(cr, states[i].cur[id], id);
  }

  // Whatever is in the visible index, reported or not: any authenticated retry of it, by any handle
  // and after any crash, is answered with the result stored there; another operation under the same
  // ID is refused. Neither plans a write.
  lemma RetryOfVisible(cr: Crypto, h: Oracle, states: seq<System>, events: seq<Event>, j: nat, id: string, q: Request)
    requires IsStoreRun(cr, h, states, events) && j <= |events|
    requires id in states[j].cur && q.op.id in states[j].cur[id].operations && q.op.command.terms == id
    requires ValidOperationId(q.op.id) && OperationSized(q.op)
    requires RestoredContract(cr, states[j].cur[id], id).Some?
      ==> cr.verifyOperation(Signer(RestoredContract(cr, states[j].cur[id], id).value, q.op.command.action), q.op, q.signature)
    ensures
      var entry := states[j].cur[id].operations[q.op.id];
      Plan(cr, h, states[j], id, Submit(q))
        == if q.op == entry.operation then Some(Confirming(Applied(q.op, entry.result))) else None
  {
    hide Act, TaskOk, GoodRecord, RestoredContract, Extends, ApplyVerified, ValidOperationId, OperationSized;
    StoreRunInv(cr, h, states, events, j);
    GoodRestores(cr, states[j].cur[id], id);
  }

  // So a reported application is answered with the reported result ever after.
  lemma RetryAfterReport(cr: Crypto, h: Oracle, states: seq<System>, events: seq<Event>, i: nat, j: nat, n: nat, q: Request)
    requires IsStoreRun(cr, h, states, events) && i <= j <= |events| && n < |states[i].acks| && states[i].acks[n].1.Applied?
    requires q.op.id == states[i].acks[n].1.op.id && ValidOperationId(q.op.id) && OperationSized(q.op)
    requires q.op.command.terms == states[i].acks[n].0
    requires
      var id := states[i].acks[n].0;
      id in states[j].cur && RestoredContract(cr, states[j].cur[id], id).Some?
      ==> cr.verifyOperation(Signer(RestoredContract(cr, states[j].cur[id], id).value, q.op.command.action), q.op, q.signature)
    ensures
      var (id, ack) := states[i].acks[n];
      Plan(cr, h, states[j], id, Submit(q)) == if q.op == ack.op then Some(Confirming(ack)) else None
  {
    hide Act, TaskOk, GoodRecord, RestoredContract, Extends, Plan, ValidOperationId, OperationSized;
    Durability(cr, h, states, events, i, j, n);
    RetryOfVisible(cr, h, states, events, j, states[i].acks[n].0, q);
  }

  // ---------- where an operation comes from ----------

  // At step i a handle applied a request under k to id, decided to commit, and planned to write
  // this entry, which was not in the index it read.
  ghost predicate Origin(cr: Crypto, h: Oracle, states: seq<System>, events: seq<Event>, id: string, k: string, entry: Committed, i: nat) {
    && i < |events| && i < |states| && events[i].Work? && events[i].t in states[i].tasks
    && var task := states[i].tasks[events[i].t];
       && task.id == id && task.phase.Holding? && task.job.Submit? && id in states[i].cur
       && var q := task.job.q;
          && q.op.id == k && entry.operation == q.op && entry.signature == q.signature && k !in states[i].cur[id].operations
          && match Plan(cr, h, states[i], id, task.job)
             case Some(Written(r, ack)) => k in r.operations && r.operations[k] == entry && ack == Applied(q.op, entry.result)
             case _ => false
  }

  // Every entry of the record has its origin before step j.
  ghost predicate Traced(cr: Crypto, h: Oracle, states: seq<System>, events: seq<Event>, id: string, r: Record, j: nat) {
    forall k | k in r.operations :: exists i: nat :: i < j && Origin(cr, h, states, events, id, k, r.operations[k], i)
  }

  lemma TracedLater(cr: Crypto, h: Oracle, states: seq<System>, events: seq<Event>, id: string, r: Record, j: nat)
    requires Traced(cr, h, states, events, id, r, j)
    ensures Traced(cr, h, states, events, id, r, j + 1)
  {
    hide Origin;
    forall k | k in r.operations ensures exists i: nat :: i < j + 1 && Origin(cr, h, states, events, id, k, r.operations[k], i) {
      var i: nat :| i < j && Origin(cr, h, states, events, id, k, r.operations[k], i);
    }
  }

  // An older version holds no entry that a later one does not.
  lemma TracedOlder(cr: Crypto, h: Oracle, states: seq<System>, events: seq<Event>, id: string, r: Record, r': Record, j: nat)
    requires Extends(r, r') && Traced(cr, h, states, events, id, r', j)
    ensures Traced(cr, h, states, events, id, r, j)
  {
    hide Origin;
  }

  ghost predicate Carries(task: Task, r: Record) {
    (task.phase.Written? || task.phase.FileSynced?) && task.phase.r == r
  }

  // All records in sight, visible or about to be, are traced.
  ghost predicate AllTraced(cr: Crypto, h: Oracle, states: seq<System>, events: seq<Event>, j: nat)
    requires j < |states|
  {
    && (forall id | id in states[j].cur :: Traced(cr, h, states, events, id, states[j].cur[id], j))
    && (forall t, r | t in states[j].tasks && Carries(states[j].tasks[t], r) :: Traced(cr, h, states, events, states[j].tasks[t].id, r, j))
  }

  // What a handle plans to write is what it read and, for a command, one entry that begins here.
  lemma PlanTraced(cr: Crypto, h: Oracle, states: seq<System>, events: seq<Event>, i: nat, t: nat)
    requires i < |events| && i < |states| && events[i] == Work(t) && t in states[i].tasks && states[i].tasks[t].phase.Holding?
    requires SysInv(cr, states[i]) && AllTraced(cr, h, states, events, i)
    ensures
      var task := states[i].tasks[t];
      match Plan(cr, h, states[i], task.id, task.job)
      case Some(Written(r, ack)) => Traced(cr, h, states, events, task.id, r, i + 1)
      case _ => true
  {
    hide Traced, GoodRecord, Decide, CreateRecord, RestoredContract, Extends, Origin, TaskOk;
    var s, task := states[i], states[i].tasks[t];
    var id := task.id;
    match task.job
    case Create(c) => FirstTraced(cr, h, states, events, id, c, i + 1);
    case Look =>
    case Submit(q) =>
      if id in s.cur {
        GoodRestores(cr, s.cur[id], id);
        RestoredUsable(cr, s.cur[id], id);
        CommitGood(cr, h, s.cur[id], id, q);
        var decision := Decide(cr, h, s.cur[id], ContractOf(s.cur[id], id, StoredState(s.cur[id])), id, q);
        if decision.Commit? {
          var entry := Committed(q.op, q.signature, decision.result);
          assert Plan(cr, h, s, id, task.job) == Some(Written(decision.record, Applied(q.op, decision.result)));
          OriginHere(cr, h, states, events, i, t, decision.record, entry);
          EntryTraced(cr, h, states, events, id, s.cur[id], decision.record, q.op.id, entry, i);
        }
      }
  }

  lemma FirstTraced(cr: Crypto, h: Oracle, states: seq<System>, events: seq<Event>, id: string, c: ContractState, j: nat)
    ensures CreateRecord(cr, c).Ok? ==> Traced(cr, h, states, events, id, CreateRecord(cr, c).value, j)
  {
    hide RestoredContract;
  }

  lemma OriginHere(cr: Crypto, h: Oracle, states: seq<System>, events: seq<Event>, i: nat, t: nat, r: Record, entry: Committed)
    requires i < |events| && i < |states| && events[i] == Work(t) && t in states[i].tasks
    requires
      var task := states[i].tasks[t];
      && task.phase.Holding? && task.job.Submit? && task.id in states[i].cur
      && var q := task.job.q;
         && Plan(cr, h, states[i], task.id, task.job) == Some(Written(r, Applied(q.op, entry.result)))
         && entry.operation == q.op && entry.signature == q.signature && q.op.id !in states[i].cur[task.id].operations
         && q.op.id in r.operations && r.operations[q.op.id] == entry
    ensures Origin(cr, h, states, events, states[i].tasks[t].id, states[i].tasks[t].job.q.op.id, entry, i)
  {
    hide Plan;
  }

  lemma EntryTraced(cr: Crypto, h: Oracle, states: seq<System>, events: seq<Event>, id: string, r: Record, r': Record,
                    key: string, entry: Committed, i: nat)
    requires Traced(cr, h, states, events, id, r, i) && Origin(cr, h, states, events, id, key, entry, i)
    requires r'.operations == r.operations[key := entry]
    ensures Traced(cr, h, states, events, id, r', i + 1)
  {
    hide Origin;
    TracedLater(cr, h, states, events, id, r, i);
    forall k | k in r'.operations ensures exists n: nat :: n < i + 1 && Origin(cr, h, states, events, id, k, r'.operations[k], n) {
      if k == key {
        assert Origin(cr, h, states, events, id, k, r'.operations[k], i);
      } else {
        assert k in r.operations && r'.operations[k] == r.operations[k];
      }
    }
  }

  lemma StepTraced(cr: Crypto, h: Oracle, states: seq<System>, events: seq<Event>, i: nat)
    requires IsStoreRun(cr, h, states, events) && i < |events| && SysInv(cr, states[i]) && AllTraced(cr, h, states, events, i)
    ensures AllTraced(cr, h, states, events, i + 1)
  {
    RunStep(cr, h, states, events, i);
    hide IsStoreRun, Traced, SysInv, Act, Carries;
    var s' := states[i + 1];
    assert forall id :: id in s'.cur ==> Traced(cr, h, states, events, id, s'.cur[id], i + 1) by {
      forall id | id in s'.cur ensures Traced(cr, h, states, events, id, s'.cur[id], i + 1) {
        VisibleTraced(cr, h, states, events, i, id);
        TracedLater(cr, h, states, events, id, s'.cur[id], i);
      }
    }
    forall t, r | t in s'.tasks && Carries(s'.tasks[t], r) ensures Traced(cr, h, states, events, s'.tasks[t].id, r, i + 1) {
      CarriedTraced(cr, h, states, events, i, t, r);
    }
  }

  // A handle carries what it carried, or what it has just planned.
  lemma CarriedTraced(cr: Crypto, h: Oracle, states: seq<System>, events: seq<Event>, i: nat, t: nat, r: Record)
    requires i < |events| && |states| == |events| + 1 && Act(cr, h, states[i], events[i]) == Some(states[i + 1])
    requires SysInv(cr, states[i]) && AllTraced(cr, h, states, events, i)
    requires t in states[i + 1].tasks && Carries(states[i + 1].tasks[t], r)
    ensures Traced(cr, h, states, events, states[i + 1].tasks[t].id, r, i + 1)
  {
    hide Traced, SysInv, Plan;
    var s, s' := states[i], states[i + 1];
    if t in s.tasks && Carries(s.tasks[t], r) && s.tasks[t].id == s'.tasks[t].id {
      TracedLater(cr, h, states, events, s.tasks[t].id, r, i);
    } else {
      assert events[i] == Work(t);
      PlanShape(cr, h, s, s.tasks[t].id, s.tasks[t].job);
      PlanTraced(cr, h, states, events, i, t);
    }
  }

  // A step shows a record that was visible, durable, or carried by the handle that renames it.
  lemma VisibleTraced(cr: Crypto, h: Oracle, states: seq<System>, events: seq<Event>, i: nat, id: string)
    requires i < |events| && |states| == |events| + 1 && Act(cr, h, states[i], events[i]) == Some(states[i + 1])
    requires SysInv(cr, states[i]) && AllTraced(cr, h, states, events, i) && id in states[i + 1].cur
    ensures Traced(cr, h, states, events, id, states[i + 1].cur[id], i)
  {
    hide Traced, TaskOk, Extends, GoodRecord, Plan;
    var s, s' := states[i], states[i + 1];
    if events[i].Crash? {
      TracedOlder(cr, h, states, events, id, s.dur[id], s.cur[id], i);
    } else if events[i].Rename? && s.tasks[events[i].t].id == id {
      assert Carries(s.tasks[events[i].t], s'.cur[id]);
    } else {
      assert id in s.cur && s'.cur[id] == s.cur[id];
    }
  }

  lemma {:induction false} RunTraced(cr: Crypto, h: Oracle, states: seq<System>, events: seq<Event>, j: nat)
    requires IsStoreRun(cr, h, states, events) && j <= |events|
    ensures AllTraced(cr, h, states, events, j)
    decreases j
  {
    hide Traced, SysInv, Act;
    if j > 0 {
      RunTraced(cr, h, states, events, j - 1);
      StoreRunInv(cr, h, states, events, j - 1);
      StepTraced(cr, h, states, events, j - 1);
    }
  }

  // Provenance: every operation in a visible or durable index, at any point of any run, was
  // submitted under its ID to a handle that decided to commit it, and the entry is the one that
  // handle wrote.
  lemma Provenance(cr: Crypto, h: Oracle, states: seq<System>, events: seq<Event>, j: nat, id: string, k: string)
    requires IsStoreRun(cr, h, states, events) && j <= |events|
    ensures id in states[j].cur && k in states[j].cur[id].operations
      ==> exists i: nat :: i < j && Origin(cr, h, states, events, id, k, states[j].cur[id].operations[k], i)
    ensures id in states[j].dur && k in states[j].dur[id].operations
      ==> exists i: nat :: i < j && Origin(cr, h, states, events, id, k, states[j].dur[id].operations[k], i)
  {
    hide Origin, TaskOk, Extends, GoodRecord, Act;
    RunTraced(cr, h, states, events, j);
    StoreRunInv(cr, h, states, events, j);
    if id in states[j].dur {
      TracedOlder(cr, h, states, events, id, states[j].dur[id], states[j].cur[id], j);
    }
  }

  // The handle's decision at step i on a request under k to id, when there is one: a refusal, a
  // retry and an unreadable record all plan no write.
  ghost predicate Commits(cr: Crypto, h: Oracle, s: System, e: Event, id: string, k: string) {
    && e.Work? && e.t in s.tasks
    && var task := s.tasks[e.t];
       && task.id == id && task.phase.Holding? && task.job.Submit? && task.job.q.op.id == k
       && Plan(cr, h, s, id, task.job).Some? && Plan(cr, h, s, id, task.job).value.Written?
  }

  // An ID that was only ever refused, retried or never submitted is in no index: a failed command
  // does not consume it.
  lemma RefusedStaysFree(cr: Crypto, h: Oracle, states: seq<System>, events: seq<Event>, j: nat, id: string, k: string)
    requires IsStoreRun(cr, h, states, events) && j <= |events|
    requires forall i | 0 <= i < j :: !Commits(cr, h, states[i], events[i], id, k)
    ensures id in states[j].cur ==> k !in states[j].cur[id].operations
    ensures id in states[j].dur ==> k !in states[j].dur[id].operations
  {
    hide Plan, Act;
    Provenance(cr, h, states, events, j, id, k);
  }

  // A handle that does not commit leaves the disk and all reports as they were.
  lemma RefusalChangesNothing(cr: Crypto, h: Oracle, s: System, t: nat)
    requires SysInv(cr, s) && t in s.tasks && s.tasks[t].phase.Holding? && s.tasks[t].job.Submit?
    requires !Commits(cr, h, s, Work(t), s.tasks[t].id, s.tasks[t].job.q.op.id)
    ensures Act(cr, h, s, Work(t)).Some?
    ensures
      var s' := Act(cr, h, s, Work(t)).value;
      && s'.cur == s.cur && s'.dur == s.dur && s'.acks == s.acks
      && (t in s'.tasks ==> s'.tasks[t].phase.Confirming?)
  {
    hide TaskOk, DiskOk, Exclusive, AcksBacked;
    PlanShape(cr, h, s, s.tasks[t].id, s.tasks[t].job);
    hide Plan;
  }

  lemma PlanShape(cr: Crypto, h: Oracle, s: System, id: string, job: Job)
    ensures Plan(cr, h, s, id, job).None? || Plan(cr, h, s, id, job).value.Written? || Plan(cr, h, s, id, job).value.Confirming?
  {
    hide RestoredContract, Decide, CreateRecord;
  }
}
