/** Transactions with up-front per-key locks and retry, as interleaved steps.

    A request is an arbitrary deterministic program: what it does next depends on what its
    statements returned so far.  Each attempt runs on a private overlay over the committed
    database (Read Committed, section 13.2.1 of the PostgreSQL 16 documentation) and holds
    transaction-level advisory locks (section 13.3.5) on the hashes of its keys.
 */
module Transactions {
  import opened Basics
  import opened LockOrder

  type Value = string
  type Database = map<Key, Value>
  type Id = nat

  /** Writes not yet committed; None deletes the key. */
  type Overlay = map<Key, Option<Value>>

  datatype Action = Read(key: Key) | Write(key: Key, value: Option<Value>) | Reply(reply: string)

  /** What the statements of an attempt returned, oldest first. */
  type Trace = seq<Option<Value>>

  datatype Request = Request(keys: seq<Key>, next: Trace -> Action)

  const MAX_EXEC_RETRIES: nat := 3

  function Lookup(db: Database, k: Key): Option<Value> { if k in db then Some(db[k]) else None }

  // ---------------------------------------------------------------- what a request means

  /** What k holds for the request after its first n statements: what the last of them that writes k
      writes, or what the database holds. */
  function Holding(r: Request, t: Trace, n: nat, db: Database, k: Key): Option<Value>
    requires n <= |t|
  {
    if n == 0 then Lookup(db, k)
    else
      var a := r.next(t[..n - 1]);
      if a.Write? && a.key == k then a.value else Holding(r, t, n - 1, db, k)
  }

  /** Statement n returns what a statement returns: a read sees the request's own writes. */
  ghost predicate ReturnsAt(r: Request, t: Trace, n: nat, db: Database)
    requires n < |t|
  {
    match r.next(t[..n])
    case Read(k) => t[n] == Holding(r, t, n, db, k)
    case Write(_, _) => t[n] == None
    case Reply(_) => false
  }

  /** t is what the statements of the request return when it runs alone on db. */
  ghost predicate TraceOf(r: Request, db: Database, t: Trace) {
    forall n | 0 <= n < |t| :: ReturnsAt(r, t, n, db)
  }

  /** Every key holds in db' what the request left in it. */
  ghost predicate Leaves(r: Request, t: Trace, db: Database, db': Database) {
    forall k :: Lookup(db', k) == Holding(r, t, |t|, db, k)
  }

  ghost predicate RunsThrough(r: Request, db: Database, reply: string, db': Database, t: Trace) {
    TraceOf(r, db, t) && r.next(t) == Reply(reply) && Leaves(r, t, db, db')
  }

  /** Run alone on db, the request replies `reply` and leaves db'. */
  ghost predicate RunsTo(r: Request, db: Database, reply: string, db': Database) {
    exists t :: RunsThrough(r, db, reply, db', t)
  }

  lemma {:induction false} HoldingPrefix(r: Request, t: Trace, t': Trace, n: nat, db: Database, k: Key)
    requires n <= |t| && n <= |t'| && t[..n] == t'[..n]
    ensures Holding(r, t, n, db, k) == Holding(r, t', n, db, k)
  {
    if n > 0 {
      assert t[..n - 1] == t[..n][..n - 1] && t'[..n - 1] == t'[..n][..n - 1];
      HoldingPrefix(r, t, t', n - 1, db, k);
    }
  }

  lemma {:induction false} TracesAgree(r: Request, db: Database, t: Trace, t': Trace, n: nat)
    requires TraceOf(r, db, t) && TraceOf(r, db, t') && n <= |t| && n <= |t'|
    ensures t[..n] == t'[..n]
  {
    if n > 0 {
      TracesAgree(r, db, t, t', n - 1);
      assert ReturnsAt(r, t, n - 1, db) && ReturnsAt(r, t', n - 1, db);
      var a := r.next(t[..n - 1]);
      if a.Read? { HoldingPrefix(r, t, t', n - 1, db, a.key); }
      assert t[..n] == t[..n - 1] + [t[n - 1]] && t'[..n] == t'[..n - 1] + [t'[n - 1]];
    }
  }

  /** No trace goes on after a reply. */
  lemma ShorterIsWhole(r: Request, db: Database, t: Trace, t': Trace)
    requires TraceOf(r, db, t) && TraceOf(r, db, t') && r.next(t).Reply? && |t| <= |t'|
    ensures t == t'
  {
    TracesAgree(r, db, t, t', |t|);
    assert t[..|t|] == t;
    assert |t| < |t'| ==> ReturnsAt(r, t', |t|, db);
    assert t'[..|t'|] == t';
  }

  lemma SameLookups(a: Database, b: Database)
    requires forall k :: Lookup(a, k) == Lookup(b, k)
    ensures a == b
  {
    forall k ensures k in a <==> k in b { assert Lookup(a, k) == Lookup(b, k); }
    forall k | k in a ensures a[k] == b[k] { assert Lookup(a, k) == Lookup(b, k); }
  }

  /** A request run alone has one result, so a serial order determines every reply and the database. */
  lemma RunsToIsUnique(r: Request, db: Database, reply: string, a: Database, reply': string, a': Database)
    requires RunsTo(r, db, reply, a) && RunsTo(r, db, reply', a')
    ensures reply == reply' && a == a'
  {
    var t :| RunsThrough(r, db, reply, a, t);
    var t' :| RunsThrough(r, db, reply', a', t');
    if |t| <= |t'| { ShorterIsWhole(r, db, t, t'); } else { ShorterIsWhole(r, db, t', t); }
    SameLookups(a, a');
  }

  // ---------------------------------------------------------------- running alone on an overlay

  function See(db: Database, overlay: Overlay, k: Key): Option<Value> {
    if k in overlay then overlay[k] else Lookup(db, k)
  }

  function Merge(db: Database, overlay: Overlay): Database {
    map k | k in db.Keys + overlay.Keys && See(db, overlay, k).Some? :: See(db, overlay, k).value
  }

  datatype Progress = Progress(trace: Trace, overlay: Overlay)

  /** One statement of a program over a fixed database. */
  function Perform(db: Database, p: Progress, a: Action): Progress {
    match a
    case Read(k) => Progress(p.trace + [See(db, p.overlay, k)], p.overlay)
    case Write(k, v) => Progress(p.trace + [None], p.overlay[k := v])
    case Reply(_) => p
  }

  /** The first n statements of a request that runs alone. */
  function Alone(r: Request, db: Database, n: nat): Progress {
    if n == 0 then Progress([], map[])
    else
      var p := Alone(r, db, n - 1);
      Perform(db, p, r.next(p.trace))
  }

  ghost predicate Inside(keys: set<Key>, a: Action) {
    match a
    case Read(k) => k in keys
    case Write(k, _) => k in keys
    case Reply(_) => true
  }

  /** The request touches only keys it declared. */
  ghost predicate StaysInside(r: Request) {
    forall t: Trace :: Inside(Elements(r.keys), r.next(t))
  }

  /** The overlay holds what the request means, and its reads have seen that. */
  ghost predicate ProgressOk(r: Request, db: Database, p: Progress) {
    TraceOf(r, db, p.trace) && forall k :: See(db, p.overlay, k) == Holding(r, p.trace, |p.trace|, db, k)
  }

  lemma PerformOk(r: Request, db: Database, p: Progress)
    requires ProgressOk(r, db, p)
    ensures ProgressOk(r, db, Perform(db, p, r.next(p.trace)))
  {
    var a := r.next(p.trace);
    if !a.Reply? {
      var p' := Perform(db, p, a);
      var n := |p.trace|;
      assert p'.trace[..n] == p.trace && p.trace[..n] == p.trace;
      forall k ensures See(db, p'.overlay, k) == Holding(r, p'.trace, n + 1, db, k) {
        HoldingPrefix(r, p.trace, p'.trace, n, db, k);
      }
      forall i | 0 <= i < n + 1 ensures ReturnsAt(r, p'.trace, i, db) {
        PerformReturns(r, db, p, i);
      }
    }
  }

  lemma PerformReturns(r: Request, db: Database, p: Progress, i: nat)
    requires ProgressOk(r, db, p) && i <= |p.trace| && !r.next(p.trace).Reply?
    ensures ReturnsAt(r, Perform(db, p, r.next(p.trace)).trace, i, db)
  {
    var t, t' := p.trace, Perform(db, p, r.next(p.trace)).trace;
    assert t'[..i] == t[..i] && t[..|t|] == t;
    if i < |t| { assert ReturnsAt(r, t, i, db); }
    var a := r.next(t[..i]);
    if a.Read? { HoldingPrefix(r, t, t', i, db, a.key); }
  }

  lemma {:induction false} AloneOk(r: Request, db: Database, n: nat)
    ensures ProgressOk(r, db, Alone(r, db, n))
  {
    if n > 0 {
      AloneOk(r, db, n - 1);
      PerformOk(r, db, Alone(r, db, n - 1));
    }
  }

  lemma MergeLookup(db: Database, overlay: Overlay, k: Key)
    ensures Lookup(Merge(db, overlay), k) == See(db, overlay, k)
  {
  }

  /** Committing the overlay leaves what the request means. */
  lemma {:induction false} MergeRunsTo(r: Request, db: Database, n: nat, reply: string)
    requires r.next(Alone(r, db, n).trace) == Reply(reply)
    ensures RunsTo(r, db, reply, Merge(db, Alone(r, db, n).overlay))
  {
    var p := Alone(r, db, n);
    AloneOk(r, db, n);
    forall k ensures Lookup(Merge(db, p.overlay), k) == Holding(r, p.trace, |p.trace|, db, k) {
      MergeLookup(db, p.overlay, k);
    }
    assert RunsThrough(r, db, reply, Merge(db, p.overlay), p.trace);
  }

  ghost predicate AgreeOn(a: Database, b: Database, keys: set<Key>) {
    forall k | k in keys :: Lookup(a, k) == Lookup(b, k)
  }

  /** What a request does depends only on the values of its own keys, and it writes no others. */
  lemma {:induction false} OnlyOwnKeysMatter(r: Request, a: Database, b: Database, n: nat)
    requires StaysInside(r) && AgreeOn(a, b, Elements(r.keys))
    ensures Alone(r, a, n) == Alone(r, b, n)
    ensures Alone(r, a, n).overlay.Keys <= Elements(r.keys)
  {
    if n > 0 {
      OnlyOwnKeysMatter(r, a, b, n - 1);
      var t := Alone(r, a, n - 1).trace;
      assert Inside(Elements(r.keys), r.next(t));
    }
  }

  // ---------------------------------------------------------------- steps

  datatype Outcome =
    | Committed(reply: string)   // acknowledged
    | CommitLost                 // committed, but the client got an error
    | Aborted                    // nothing persisted

  datatype Phase =
    | Starting
    | Locking(taken: nat)
    | Running(statements: nat, progress: Progress)
    | Finished(outcome: Outcome)
  {
    predicate Open() { Locking? || Running? }
  }

  /** One call of runTx. */
  datatype Job = Job(request: Request, attempt: nat, phase: Phase)

  datatype Entry = Entry(id: Id, reply: string)

  datatype State = State(db: Database, locks: map<int, Id>, jobs: map<Id, Job>, log: seq<Entry>)

  /** The lock hash (keys with equal hashes share a lock), the first database, and which replies
      report a deadlock or serialization failure. */
  datatype Config = Config(hash: Key -> int, start: Database, retryable: string -> bool)

  datatype Step =
    | Begin(id: Id)
    | GiveUp(id: Id)                        // BeginTx fails, or the context ends during backoff
    | Lock(id: Id)
    | StartBody(id: Id)
    | Statement(id: Id)
    | Fault(id: Id, retryable: bool)        // lock, statement or commit reports an error
    | Commit(id: Id, acknowledged: bool)

  function Order(j: Job): seq<Key> { LockSequence(j.request.keys) }

  function Release(locks: map<int, Id>, id: Id): map<int, Id> {
    map h | h in locks && locks[h] != id :: locks[h]
  }

  /** Rollback; the loop goes round again for retryable errors while attempts are left. */
  function RolledBack(j: Job, retryable: bool): Job {
    if retryable && j.attempt < MAX_EXEC_RETRIES
    then j.(attempt := j.attempt + 1, phase := Starting)
    else j.(phase := Finished(Aborted))
  }

  /** The body is done and its reply asks for another attempt. */
  predicate Rejected(c: Config, j: Job) {
    && j.phase.Running?
    && var a := j.request.next(j.phase.progress.trace);
       a.Reply? && c.retryable(a.reply)
  }

  ghost predicate Enabled(c: Config, s: State, step: Step) {
    && step.id in s.jobs
    && var j := s.jobs[step.id];
       match step
       case Begin(_) => j.phase.Starting?
       case GiveUp(_) => j.phase.Starting?
       case Lock(id) =>
         && j.phase.Locking? && j.phase.taken < |Order(j)|
         && var h := c.hash(Order(j)[j.phase.taken]);
            h !in s.locks || s.locks[h] == id
       case StartBody(_) => j.phase.Locking? && j.phase.taken == |Order(j)|
       case Statement(_) => j.phase.Running? && !j.request.next(j.phase.progress.trace).Reply?
       case Fault(_, again) => j.phase.Open() && (Rejected(c, j) ==> again)
       case Commit(_, _) =>
         j.phase.Running? && j.request.next(j.phase.progress.trace).Reply? && !Rejected(c, j)
  }

  function SetPhase(s: State, id: Id, phase: Phase): State
    requires id in s.jobs
  {
    s.(jobs := s.jobs[id := s.jobs[id].(phase := phase)])
  }

  ghost function Do(c: Config, s: State, step: Step): State
    requires Enabled(c, s, step)
  {
    var j := s.jobs[step.id];
    match step
    case Begin(id) => SetPhase(s, id, Locking(0))
    case GiveUp(id) => SetPhase(s, id, Finished(Aborted))
    case Lock(id) =>
      SetPhase(s, id, Locking(j.phase.taken + 1)).(locks := s.locks[c.hash(Order(j)[j.phase.taken]) := id])
    case StartBody(id) => SetPhase(s, id, Running(0, Progress([], map[])))
    case Statement(id) =>
      var p := j.phase.progress;
      SetPhase(s, id, Running(j.phase.statements + 1, Perform(s.db, p, j.request.next(p.trace))))
    case Fault(id, retryable) =>
      s.(locks := Release(s.locks, id), jobs := s.jobs[id := RolledBack(j, retryable)])
    case Commit(id, acknowledged) =>
      var reply := j.request.next(j.phase.progress.trace).reply;
      var outcome := if acknowledged then Committed(reply) else CommitLost;
      State(Merge(s.db, j.phase.progress.overlay), Release(s.locks, id),
            s.jobs[id := j.(phase := Finished(outcome))], s.log + [Entry(id, reply)])
  }

  ghost predicate Init(c: Config, s: State) {
    && s.db == c.start && s.locks == map[] && s.log == []
    && forall id | id in s.jobs ::
         s.jobs[id].phase.Starting? && s.jobs[id].attempt == 0 && StaysInside(s.jobs[id].request)
  }

  ghost predicate Next(c: Config, s: State, s': State) {
    exists step :: Enabled(c, s, step) && s' == Do(c, s, step)
  }

  ghost predicate IsRun(c: Config, run: seq<State>) {
    && |run| > 0 && Init(c, run[0])
    && forall i | 0 <= i < |run| - 1 :: Next(c, run[i], run[i + 1])
  }

  // ---------------------------------------------------------------- serial runs

  /** Running the logged requests one by one from `start` gives their logged replies and `db`. */
  ghost predicate Serial(start: Database, requests: map<Id, Request>, log: seq<Entry>, db: Database) {
    if log == [] then db == start
    else
      var last := log[|log| - 1];
      && last.id in requests
      && exists mid: Database ::
           Serial(start, requests, log[..|log| - 1], mid) && RunsTo(requests[last.id], mid, last.reply, db)
  }

  /** The serial result is determined by the log. */
  lemma {:induction false} SerialIsUnique(start: Database, requests: map<Id, Request>, log: seq<Entry>,
                                          a: Database, b: Database)
    requires Serial(start, requests, log, a) && Serial(start, requests, log, b)
    ensures a == b
    decreases |log|
  {
    if log != [] {
      var last, front := log[|log| - 1], log[..|log| - 1];
      var ma :| Serial(start, requests, front, ma) && RunsTo(requests[last.id], ma, last.reply, a);
      var mb :| Serial(start, requests, front, mb) && RunsTo(requests[last.id], mb, last.reply, b);
      SerialIsUnique(start, requests, front, ma, mb);
      RunsToIsUnique(requests[last.id], ma, last.reply, a, last.reply, b);
    }
  }

  ghost function Requests(s: State): map<Id, Request> { map id | id in s.jobs :: s.jobs[id].request }

  // ---------------------------------------------------------------- invariant

  ghost predicate HoldsLock(c: Config, locks: map<int, Id>, id: Id, k: Key) {
    c.hash(k) in locks && locks[c.hash(k)] == id
  }

  /** id holds the locks of the first n keys. */
  ghost predicate Holds(c: Config, locks: map<int, Id>, id: Id, keys: seq<Key>, n: nat)
    requires n <= |keys|
  {
    forall i | 0 <= i < n :: HoldsLock(c, locks, id, keys[i])
  }

  ghost predicate LoggedOnce(log: seq<Entry>) {
    forall i, j | 0 <= i < j < |log| :: log[i].id != log[j].id
  }

  ghost predicate Logged(log: seq<Entry>, id: Id) { exists i :: 0 <= i < |log| && log[i].id == id }

  ghost predicate JobOk(c: Config, s: State, id: Id)
    requires id in s.jobs
  {
    var j := s.jobs[id];
    && StaysInside(j.request)
    && j.attempt <= MAX_EXEC_RETRIES
    && (match j.phase
        case Starting => true
        case Locking(n) => n <= |Order(j)| && Holds(c, s.locks, id, Order(j), n)
        case Running(n, p) => Holds(c, s.locks, id, Order(j), |Order(j)|) && p == Alone(j.request, s.db, n)
        case Finished(_) => true)
    && (Logged(s.log, id) <==> j.phase.Finished? && !j.phase.outcome.Aborted?)
    && (j.phase.Finished? && j.phase.outcome.Committed? ==> Entry(id, j.phase.outcome.reply) in s.log)
  }

  ghost predicate Inv(c: Config, s: State) {
    && (forall id | id in s.jobs :: JobOk(c, s, id))
    && (forall h | h in s.locks :: s.locks[h] in s.jobs && s.jobs[s.locks[h]].phase.Open())
    && LoggedOnce(s.log)
    && (forall i | 0 <= i < |s.log| :: s.log[i].id in s.jobs)
    && Serial(c.start, Requests(s), s.log, s.db)
  }

  // ---------------------------------------------------------------- preservation

  /** Everything a step of `id` must leave alone. */
  ghost predicate OnlyTouches(s: State, s': State, id: Id) {
    && s'.jobs.Keys == s.jobs.Keys
    && (forall o | o in s.jobs && o != id :: s'.jobs[o] == s.jobs[o])
    && (forall h | h in s.locks && s.locks[h] != id :: h in s'.locks && s'.locks[h] == s.locks[h])
    && (forall h | h in s'.locks && s'.locks[h] != id :: h in s.locks && s'.locks[h] == s.locks[h])
  }

  lemma LocksKept(c: Config, s: State, s': State, id: Id, o: Id, keys: seq<Key>, n: nat)
    requires OnlyTouches(s, s', id) && o != id && n <= |keys| && Holds(c, s.locks, o, keys, n)
    ensures Holds(c, s'.locks, o, keys, n)
  {
    forall i | 0 <= i < n ensures HoldsLock(c, s'.locks, o, keys[i]) {
      assert HoldsLock(c, s.locks, o, keys[i]);
      var h := c.hash(keys[i]);
      assert h in s.locks && s.locks[h] != id;
    }
  }

  /** Without a commit, the other jobs stay as they were. */
  lemma OthersKept(c: Config, s: State, s': State, id: Id, o: Id)
    requires Inv(c, s) && OnlyTouches(s, s', id) && s'.db == s.db && s'.log == s.log
    requires o in s.jobs && o != id
    ensures JobOk(c, s', o)
  {
    var j := s.jobs[o];
    assert JobOk(c, s, o);
    match j.phase
    case Locking(n) => LocksKept(c, s, s', id, o, Order(j), n);
    case Running(_, _) => LocksKept(c, s, s', id, o, Order(j), |Order(j)|);
    case _ =>
  }

  lemma UncommittedStep(c: Config, s: State, s': State, id: Id)
    requires Inv(c, s) && OnlyTouches(s, s', id) && s'.db == s.db && s'.log == s.log
    requires id in s.jobs && s'.jobs[id].request == s.jobs[id].request
    requires JobOk(c, s', id)
    requires forall h | h in s'.locks && s'.locks[h] == id :: s'.jobs[id].phase.Open()
    ensures Inv(c, s')
  {
    forall o | o in s'.jobs ensures JobOk(c, s', o) {
      if o != id { OthersKept(c, s, s', id, o); }
    }
    assert Requests(s') == Requests(s);
  }

  lemma LockerOk(c: Config, s: State, id: Id)
    requires Inv(c, s) && Enabled(c, s, Lock(id))
    ensures JobOk(c, Do(c, s, Lock(id)), id)
  {
    var s', j := Do(c, s, Lock(id)), s.jobs[id];
    assert JobOk(c, s, id);
    forall i | 0 <= i < j.phase.taken + 1 ensures HoldsLock(c, s'.locks, id, Order(j)[i]) {
      assert i < j.phase.taken ==> HoldsLock(c, s.locks, id, Order(j)[i]);
    }
  }

  lemma LockStep(c: Config, s: State, id: Id)
    requires Inv(c, s) && Enabled(c, s, Lock(id))
    ensures Inv(c, Do(c, s, Lock(id)))
  {
    LockerOk(c, s, id);
    UncommittedStep(c, s, Do(c, s, Lock(id)), id);
  }

  lemma StatementStep(c: Config, s: State, id: Id)
    requires Inv(c, s) && Enabled(c, s, Statement(id))
    ensures Inv(c, Do(c, s, Statement(id)))
  {
    assert JobOk(c, s, id);
    UncommittedStep(c, s, Do(c, s, Statement(id)), id);
  }

  lemma StartBodyStep(c: Config, s: State, id: Id)
    requires Inv(c, s) && Enabled(c, s, StartBody(id))
    ensures Inv(c, Do(c, s, StartBody(id)))
  {
    assert JobOk(c, s, id);
    UncommittedStep(c, s, Do(c, s, StartBody(id)), id);
  }

  lemma FaultStep(c: Config, s: State, id: Id, again: bool)
    requires Inv(c, s) && Enabled(c, s, Fault(id, again))
    ensures Inv(c, Do(c, s, Fault(id, again)))
  {
    assert JobOk(c, s, id);
    UncommittedStep(c, s, Do(c, s, Fault(id, again)), id);
  }

  lemma IdleStep(c: Config, s: State, step: Step)
    requires Inv(c, s) && (step.Begin? || step.GiveUp?) && Enabled(c, s, step)
    ensures Inv(c, Do(c, s, step))
  {
    assert JobOk(c, s, step.id);
    UncommittedStep(c, s, Do(c, s, step), step.id);
  }

  lemma KeyIsLocked(c: Config, s: State, id: Id, k: Key)
    requires Inv(c, s) && id in s.jobs && s.jobs[id].phase.Running?
    requires k in Elements(s.jobs[id].request.keys)
    ensures HoldsLock(c, s.locks, id, k)
  {
    assert JobOk(c, s, id);
    LockSequenceOk(s.jobs[id].request.keys);
    var order := Order(s.jobs[id]);
    assert k in Elements(order);
    var i :| 0 <= i < |order| && order[i] == k;
    assert HoldsLock(c, s.locks, id, order[i]);
  }

  /** The writes of one running job do not meet the keys of another. */
  lemma CommitMissesOthers(c: Config, s: State, id: Id, o: Id)
    requires Inv(c, s) && id in s.jobs && o in s.jobs && id != o
    requires s.jobs[id].phase.Running? && s.jobs[o].phase.Running?
    ensures AgreeOn(s.db, Merge(s.db, s.jobs[id].phase.progress.overlay), Elements(s.jobs[o].request.keys))
  {
    var j := s.jobs[id];
    assert JobOk(c, s, id);
    OnlyOwnKeysMatter(j.request, s.db, s.db, j.phase.statements);
    forall k | k in Elements(s.jobs[o].request.keys)
      ensures Lookup(s.db, k) == Lookup(Merge(s.db, j.phase.progress.overlay), k)
    {
      KeyIsLocked(c, s, o, k);
      if k in j.phase.progress.overlay { KeyIsLocked(c, s, id, k); }
    }
  }

  lemma OthersSurviveCommit(c: Config, s: State, id: Id, acknowledged: bool, o: Id)
    requires Inv(c, s) && Enabled(c, s, Commit(id, acknowledged)) && o in s.jobs && o != id
    ensures JobOk(c, Do(c, s, Commit(id, acknowledged)), o)
  {
    var s', j := Do(c, s, Commit(id, acknowledged)), s.jobs[o];
    assert JobOk(c, s, o);
    match j.phase {
      case Locking(n) => LocksKept(c, s, s', id, o, Order(j), n);
      case Running(n, _) =>
        LocksKept(c, s, s', id, o, Order(j), |Order(j)|);
        CommitMissesOthers(c, s, id, o);
        OnlyOwnKeysMatter(j.request, s.db, s'.db, n);
      case _ =>
    }
    LoggedAfter(s.log, s'.log[|s.log|], o);
  }

  lemma LoggedAfter(log: seq<Entry>, e: Entry, o: Id)
    ensures Logged(log + [e], o) <==> Logged(log, o) || o == e.id
  {
    var log' := log + [e];
    if Logged(log, o) {
      var i :| 0 <= i < |log| && log[i].id == o;
      assert log'[i].id == o;
    }
    assert log'[|log|] == e;
  }

  lemma {:induction false} SerialExtends(start: Database, requests: map<Id, Request>, log: seq<Entry>, db: Database,
                      e: Entry, db': Database)
    requires Serial(start, requests, log, db)
    requires e.id in requests && RunsTo(requests[e.id], db, e.reply, db')
    ensures Serial(start, requests, log + [e], db')
  {
  }

  lemma CommitLogsOnce(c: Config, s: State, id: Id, acknowledged: bool)
    requires Inv(c, s) && Enabled(c, s, Commit(id, acknowledged))
    ensures LoggedOnce(Do(c, s, Commit(id, acknowledged)).log)
  {
  }

  lemma CommitKeepsSerial(c: Config, s: State, id: Id, acknowledged: bool)
    requires Inv(c, s) && Enabled(c, s, Commit(id, acknowledged))
    ensures var s' := Do(c, s, Commit(id, acknowledged)); Serial(c.start, Requests(s'), s'.log, s'.db)
  {
    var s', j := Do(c, s, Commit(id, acknowledged)), s.jobs[id];
    assert JobOk(c, s, id);
    StepKeepsRequests(c, s, Commit(id, acknowledged));
    var e := s'.log[|s.log|];
    MergeRunsTo(j.request, s.db, j.phase.statements, e.reply);
    SerialExtends(c.start, Requests(s), s.log, s.db, e, s'.db);
  }

  lemma CommitterOk(c: Config, s: State, id: Id, acknowledged: bool)
    requires Inv(c, s) && Enabled(c, s, Commit(id, acknowledged))
    ensures JobOk(c, Do(c, s, Commit(id, acknowledged)), id)
  {
    var s' := Do(c, s, Commit(id, acknowledged));
    assert JobOk(c, s, id);
    LoggedAfter(s.log, s'.log[|s.log|], id);
  }

  lemma CommitStep(c: Config, s: State, id: Id, acknowledged: bool)
    requires Inv(c, s) && Enabled(c, s, Commit(id, acknowledged))
    ensures Inv(c, Do(c, s, Commit(id, acknowledged)))
  {
    var s' := Do(c, s, Commit(id, acknowledged));
    forall o | o in s'.jobs ensures JobOk(c, s', o) {
      if o != id { OthersSurviveCommit(c, s, id, acknowledged, o); } else { CommitterOk(c, s, id, acknowledged); }
    }
    CommitLogsOnce(c, s, id, acknowledged);
    CommitKeepsSerial(c, s, id, acknowledged);
  }

  lemma StepPreserves(c: Config, s: State, step: Step)
    requires Inv(c, s) && Enabled(c, s, step)
    ensures Inv(c, Do(c, s, step))
  {
    match step
    case Begin(_) => IdleStep(c, s, step);
    case GiveUp(_) => IdleStep(c, s, step);
    case Lock(id) => LockStep(c, s, id);
    case StartBody(id) => StartBodyStep(c, s, id);
    case Statement(id) => StatementStep(c, s, id);
    case Fault(id, again) => FaultStep(c, s, id, again);
    case Commit(id, acknowledged) => CommitStep(c, s, id, acknowledged);
  }

  lemma StepKeepsRequests(c: Config, s: State, step: Step)
    requires Enabled(c, s, step)
    ensures Requests(Do(c, s, step)) == Requests(s)
  {
  }

  lemma {:induction false} RunKeepsInv(c: Config, run: seq<State>, i: nat)
    requires IsRun(c, run) && i < |run|
    ensures Inv(c, run[i]) && Requests(run[i]) == Requests(run[0])
  {
    if i > 0 {
      RunKeepsInv(c, run, i - 1);
      assert Next(c, run[i - 1], run[i - 1 + 1]);
      var step :| Enabled(c, run[i - 1], step) && run[i] == Do(c, run[i - 1], step);
      StepPreserves(c, run[i - 1], step);
      StepKeepsRequests(c, run[i - 1], step);
    } else {
      assert Inv(c, run[0]);
    }
  }

  // ---------------------------------------------------------------- main results

  /** Every reachable database, and every reply given so far, is that of running the committed
      requests one by one in commit order; a request persists at most once, and exactly when it
      is not reported as aborted. */
  lemma Serializable(c: Config, run: seq<State>, i: nat)
    requires IsRun(c, run) && i < |run|
    ensures Serial(c.start, Requests(run[0]), run[i].log, run[i].db)
    ensures LoggedOnce(run[i].log)
    ensures run[i].jobs.Keys == run[0].jobs.Keys
    ensures forall id | id in run[i].jobs ::
              var p := run[i].jobs[id].phase;
              && (Logged(run[i].log, id) <==> p.Finished? && !p.outcome.Aborted?)
              && (p.Finished? && p.outcome.Committed? ==> Entry(id, p.outcome.reply) in run[i].log)
  {
    RunKeepsInv(c, run, i);
    assert run[i].jobs.Keys == Requests(run[i]).Keys && run[0].jobs.Keys == Requests(run[0]).Keys;
    forall id | id in run[i].jobs ensures JobOk(c, run[i], id) { }
  }

  /** After every commit of every run each key holds what the last statement of the request that wrote it
      wrote, and is unchanged where none did. */
  lemma {:induction false} CommitIsThere(c: Config, run: seq<State>, i: nat, id: Id, acknowledged: bool, k: Key)
    requires IsRun(c, run) && i < |run| && Enabled(c, run[i], Commit(id, acknowledged))
    ensures var r, t := run[i].jobs[id].request, run[i].jobs[id].phase.progress.trace;
            Lookup(Do(c, run[i], Commit(id, acknowledged)).db, k) == Holding(r, t, |t|, run[i].db, k)
  {
    RunKeepsInv(c, run, i);
    var j := run[i].jobs[id];
    assert JobOk(c, run[i], id);
    AloneOk(j.request, run[i].db, j.phase.statements);
    MergeLookup(run[i].db, j.phase.progress.overlay, k);
  }

  /** In every state of every run each read of a running request has returned the value the request last
      wrote to that key before it, or else the committed one. */
  lemma ReadsSeeOwnWrites(c: Config, run: seq<State>, i: nat, id: Id, n: nat)
    requires IsRun(c, run) && i < |run| && id in run[i].jobs && run[i].jobs[id].phase.Running?
    requires n < |run[i].jobs[id].phase.progress.trace|
    ensures ReturnsAt(run[i].jobs[id].request, run[i].jobs[id].phase.progress.trace, n, run[i].db)
  {
    RunKeepsInv(c, run, i);
    var j := run[i].jobs[id];
    assert JobOk(c, run[i], id);
    AloneOk(j.request, run[i].db, j.phase.statements);
  }

  lemma StepLogsNoConflict(c: Config, s: State, step: Step)
    requires Enabled(c, s, step) && forall e | e in s.log :: !c.retryable(e.reply)
    ensures forall e | e in Do(c, s, step).log :: !c.retryable(e.reply)
  {
  }

  /** A request whose reply reports a deadlock or serialization failure is never committed. */
  lemma {:induction false} ConflictsNeverCommit(c: Config, run: seq<State>, i: nat)
    requires IsRun(c, run) && i < |run|
    ensures forall e | e in run[i].log :: !c.retryable(e.reply)
  {
    if i > 0 {
      ConflictsNeverCommit(c, run, i - 1);
      assert Next(c, run[i - 1], run[i - 1 + 1]);
      var step :| Enabled(c, run[i - 1], step) && run[i] == Do(c, run[i - 1], step);
      StepLogsNoConflict(c, run[i - 1], step);
    }
  }

  /** How often the run began an attempt of id. */
  ghost function Attempts(run: seq<State>, id: Id): nat
    requires forall i | 0 <= i < |run| :: id in run[i].jobs
  {
    if |run| <= 1 then 0
    else
      var n := |run| - 1;
      Attempts(run[..n], id) +
      (if run[n - 1].jobs[id].phase.Starting? && run[n].jobs[id].phase.Locking? then 1 else 0)
  }

  ghost function Begun(j: Job): nat { j.attempt + if j.phase.Starting? then 0 else 1 }

  lemma StepCountsBegins(c: Config, s: State, step: Step, id: Id)
    requires Enabled(c, s, step) && id in s.jobs
    ensures var s' := Do(c, s, step);
            && id in s'.jobs
            && var more := if s.jobs[id].phase.Starting? && s'.jobs[id].phase.Locking? then 1 else 0;
               && Begun(s'.jobs[id]) >= Begun(s.jobs[id]) + more
               && (!s'.jobs[id].phase.Finished? ==>
                     !s.jobs[id].phase.Finished? && Begun(s'.jobs[id]) == Begun(s.jobs[id]) + more)
  {
  }

  lemma {:induction false} AttemptsCounted(c: Config, run: seq<State>, id: Id)
    requires IsRun(c, run) && forall i | 0 <= i < |run| :: id in run[i].jobs
    ensures Attempts(run, id) <= Begun(run[|run| - 1].jobs[id])
    ensures !run[|run| - 1].jobs[id].phase.Finished? ==> Attempts(run, id) == Begun(run[|run| - 1].jobs[id])
    decreases |run|
  {
    var n := |run| - 1;
    if n > 0 {
      var front := run[..n];
      FrontIsRun(c, run);
      AttemptsCounted(c, front, id);
      assert Next(c, run[n - 1], run[n - 1 + 1]);
      var step :| Enabled(c, run[n - 1], step) && run[n] == Do(c, run[n - 1], step);
      StepCountsBegins(c, run[n - 1], step, id);
    }
  }

  lemma FrontIsRun(c: Config, run: seq<State>)
    requires IsRun(c, run) && |run| > 1
    ensures IsRun(c, run[..|run| - 1])
  {
    var front := run[..|run| - 1];
    forall i | 0 <= i < |front| - 1 ensures Next(c, front[i], front[i + 1]) {
      assert Next(c, run[i], run[i + 1]);
    }
  }

  /** No request is tried more than four times. */
  lemma {:induction false} AtMostFourAttempts(c: Config, run: seq<State>, id: Id)
    requires IsRun(c, run) && forall i | 0 <= i < |run| :: id in run[i].jobs
    ensures Attempts(run, id) <= 4
  {
    RunKeepsInv(c, run, |run| - 1);
    assert JobOk(c, run[|run| - 1], id);
    AttemptsCounted(c, run, id);
  }

  /** A fault starts the request again if and only if it is retryable and fewer than four attempts were
      begun; otherwise it is the end. */
  lemma {:induction false} RetriedExactly(c: Config, run: seq<State>, id: Id, again: bool)
    requires IsRun(c, run) && forall i | 0 <= i < |run| :: id in run[i].jobs
    requires Enabled(c, run[|run| - 1], Fault(id, again))
    ensures Do(c, run[|run| - 1], Fault(id, again)).jobs[id].phase
         == if again && Attempts(run, id) < 4 then Starting else Finished(Aborted)
  {
    AttemptsCounted(c, run, id);
    FaultRetries(c, run[|run| - 1], id, again);
  }

  lemma FaultRetries(c: Config, s: State, id: Id, again: bool)
    requires Enabled(c, s, Fault(id, again))
    ensures Do(c, s, Fault(id, again)).jobs[id].phase
         == if again && Begun(s.jobs[id]) < 4 then Starting else Finished(Aborted)
  {
  }

  /** The locks a request has taken in a state of a run are those of its least keys, and it still has to
      take those of all others. */
  lemma LocksAscend(c: Config, run: seq<State>, i: nat, id: Id, m: nat, n: nat)
    requires IsRun(c, run) && i < |run| && id in run[i].jobs && run[i].jobs[id].phase.Locking?
    requires m < run[i].jobs[id].phase.taken <= n < |Order(run[i].jobs[id])|
    ensures var order := Order(run[i].jobs[id]);
            && Less(order[m], order[n]) && HoldsLock(c, run[i].locks, id, order[m])
            && Elements(order) == Elements(run[i].jobs[id].request.keys)
  {
    RunKeepsInv(c, run, i);
    assert JobOk(c, run[i], id);
    LockSequenceOk(run[i].jobs[id].request.keys);
  }

  // ---------------------------------------------------------------- progress

  ghost predicate Reachable(c: Config, s: State) {
    exists run: seq<State> :: IsRun(c, run) && run[|run| - 1] == s
  }

  lemma ReachableStep(c: Config, s: State, step: Step)
    requires Reachable(c, s) && Enabled(c, s, step)
    ensures Reachable(c, Do(c, s, step))
  {
    var run: seq<State> :| IsRun(c, run) && run[|run| - 1] == s;
    var run' := run + [Do(c, s, step)];
    forall i | 0 <= i < |run'| - 1 ensures Next(c, run'[i], run'[i + 1]) {
      if i < |run| - 1 { assert Next(c, run[i], run[i + 1]); }
    }
    assert run'[|run'| - 1] == Do(c, s, step);
  }

  /** No other request holds a lock this one needs. */
  ghost predicate Undisturbed(c: Config, s: State, id: Id)
    requires id in s.jobs
  {
    forall i | 0 <= i < |Order(s.jobs[id])| ::
      var h := c.hash(Order(s.jobs[id])[i]); h !in s.locks || s.locks[h] == id
  }

  lemma {:induction false} TakesLocks(c: Config, s: State, id: Id) returns (s': State)
    requires Reachable(c, s) && id in s.jobs && s.jobs[id].phase.Locking? && Undisturbed(c, s, id)
    requires s.jobs[id].phase.taken <= |Order(s.jobs[id])|
    ensures Reachable(c, s') && s'.db == s.db && s'.log == s.log
    ensures s'.jobs == s.jobs[id := s.jobs[id].(phase := Locking(|Order(s.jobs[id])|))]
    decreases |Order(s.jobs[id])| - s.jobs[id].phase.taken
  {
    var j := s.jobs[id];
    if j.phase.taken == |Order(j)| {
      s' := s;
      assert s.jobs[id := j] == s.jobs;
    } else {
      ReachableStep(c, s, Lock(id));
      var s1 := Do(c, s, Lock(id));
      s' := TakesLocks(c, s1, id);
    }
  }

  lemma {:induction false} AloneFollows(r: Request, db: Database, t: Trace, n: nat)
    requires TraceOf(r, db, t) && n <= |t|
    ensures Alone(r, db, n).trace == t[..n]
  {
    if n > 0 {
      AloneFollows(r, db, t, n - 1);
      assert ReturnsAt(r, t, n - 1, db);
      AloneOk(r, db, n);
      TracesAgree(r, db, Alone(r, db, n).trace, t, n);
    }
  }

  lemma {:induction false} RunsBody(c: Config, s: State, id: Id, t: Trace) returns (s': State)
    requires Reachable(c, s) && id in s.jobs && s.jobs[id].phase.Running?
    requires var n := s.jobs[id].phase.statements;
             n <= |t| && s.jobs[id].phase.progress == Alone(s.jobs[id].request, s.db, n)
    requires TraceOf(s.jobs[id].request, s.db, t)
    ensures Reachable(c, s') && s'.db == s.db && s'.log == s.log
    ensures s'.jobs == s.jobs[id := s.jobs[id].(phase := Running(|t|, Alone(s.jobs[id].request, s.db, |t|)))]
    decreases |t| - s.jobs[id].phase.statements
  {
    var j := s.jobs[id];
    var n := j.phase.statements;
    if n == |t| {
      s' := s;
      assert s.jobs[id := j] == s.jobs;
    } else {
      AloneFollows(j.request, s.db, t, n);
      assert ReturnsAt(j.request, t, n, s.db);
      ReachableStep(c, s, Statement(id));
      s' := RunsBody(c, Do(c, s, Statement(id)), id, t);
    }
  }

  lemma Starts(c: Config, s: State, id: Id) returns (s': State)
    requires Reachable(c, s) && id in s.jobs && s.jobs[id].phase.Starting? && Undisturbed(c, s, id)
    ensures Reachable(c, s') && s'.db == s.db && s'.log == s.log
    ensures s'.jobs == s.jobs[id := s.jobs[id].(phase := Running(0, Progress([], map[])))]
  {
    ReachableStep(c, s, Begin(id));
    var s1 := Do(c, s, Begin(id));
    var s2 := TakesLocks(c, s1, id);
    ReachableStep(c, s2, StartBody(id));
    s' := Do(c, s2, StartBody(id));
  }

  /** From every reachable state a request whose locks are free can run to its acknowledged commit, with
      the reply and the database it means, if it ends at all and its reply is no conflict. */
  lemma UndisturbedCommits(c: Config, s: State, id: Id, reply: string, db: Database) returns (s': State)
    requires Reachable(c, s) && id in s.jobs && s.jobs[id].phase.Starting? && Undisturbed(c, s, id)
    requires RunsTo(s.jobs[id].request, s.db, reply, db) && !c.retryable(reply)
    ensures Reachable(c, s') && s'.db == db && s'.log == s.log + [Entry(id, reply)]
    ensures s'.jobs == s.jobs[id := s.jobs[id].(phase := Finished(Committed(reply)))]
  {
    var r := s.jobs[id].request;
    var t :| RunsThrough(r, s.db, reply, db, t);
    var s1 := Starts(c, s, id);
    var s2 := RunsBody(c, s1, id, t);
    AloneFollows(r, s.db, t, |t|);
    assert t[..|t|] == t;
    ReachableStep(c, s2, Commit(id, true));
    s' := Do(c, s2, Commit(id, true));
    MergeRunsTo(r, s.db, |t|, reply);
    RunsToIsUnique(r, s.db, reply, db, reply, s'.db);
  }
}
