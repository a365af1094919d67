/** The background cleanup of expired and emptied keys, interleaved with writers.

    The cleaner lists candidates, tries their locks, and then deletes statement by statement inside
    one transaction; writers commit in between.  Keys that share a hash share a lock.
 */
module Cleaner {
  import opened Basics

  type Id = nat
  type Time = int

  datatype Meta = Meta(kind: Kind, expires: Option<Time>)
  datatype Row = Row(table: Kind, key: Key, field: string, value: string, expires: Option<Time>)
  datatype Db = Db(meta: map<Key, Meta>, rows: set<Row>)

  /** The tables in the order they are cleaned. */
  const TABLES: seq<Kind> := [StringKind, HashKind, ListKind, SetKind, ZSetKind, HyperLogLogKind]

  predicate Past(expires: Option<Time>, now: Time) { expires.Some? && expires.value <= now }

  // ---------------------------------------------------------------- what is to go

  ghost predicate MetaExpired(db: Db, k: Key, now: Time) { k in db.meta && Past(db.meta[k].expires, now) }

  ghost predicate RowExpired(db: Db, t: Kind, k: Key, now: Time) {
    exists r :: r in db.rows && r.table == t && r.key == k && Past(r.expires, now)
  }

  ghost predicate HasRow(db: Db, t: Kind, k: Key) { exists r :: r in db.rows && r.table == t && r.key == k }

  /** The five kinds whose meta row goes with the last data row. */
  ghost predicate Emptied(db: Db, k: Key) {
    k in db.meta && !db.meta[k].kind.HyperLogLogKind? && !HasRow(db, db.meta[k].kind, k)
  }

  /** Looked for by the first query. */
  ghost predicate Candidate(db: Db, k: Key, now: Time) {
    MetaExpired(db, k, now) || (exists t :: RowExpired(db, t, k, now)) || Emptied(db, k)
  }

  ghost predicate RowGoes(db: Db, r: Row, now: Time) {
    MetaExpired(db, r.key, now) || RowExpired(db, r.table, r.key, now)
  }

  /** No row of its own kind stays. */
  ghost predicate Orphaned(db: Db, k: Key, now: Time) {
    && k in db.meta && !db.meta[k].kind.HyperLogLogKind?
    && forall r | r in db.rows && r.table == db.meta[k].kind && r.key == k :: RowGoes(db, r, now)
  }

  /** What cleaning `keys` should leave, told in one step. */
  ghost function Clean(db: Db, keys: set<Key>, now: Time): Db {
    Db(map k | k in db.meta && !(k in keys && (MetaExpired(db, k, now) || Orphaned(db, k, now))) :: db.meta[k],
       set r | r in db.rows && !(r.key in keys && RowGoes(db, r, now)))
  }

  // ---------------------------------------------------------------- the statements

  function ExpiredKeys(v: Db, keys: set<Key>, now: Time): set<Key> {
    set k | k in keys && k in v.meta && Past(v.meta[k].expires, now)
  }

  ghost function DeletedFrom(v: Db, t: Kind, keys: set<Key>, now: Time, expired: set<Key>): set<Row> {
    set r | r in v.rows && r.table == t && (r.key in expired || (r.key in keys && RowExpired(v, t, r.key, now)))
  }

  ghost function EmptiedKeys(v: Db, keys: set<Key>): set<Key> {
    set k | k in keys && k in v.meta && Emptied(v, k)
  }

  // ---------------------------------------------------------------- steps

  /** Deleted by the cleaner and not yet committed. */
  datatype Gone = Gone(meta: set<Key>, rows: set<Row>)

  datatype Phase =
    | Idle
    | Locking(now: Time, candidates: set<Key>, keys: set<Key>)
    | Deleting(now: Time, keys: set<Key>, expired: set<Key>, tables: nat, gone: Gone)
    | Swept(now: Time, keys: set<Key>, gone: Gone)

  datatype Owner = Cleaner | Writer(id: Id)

  datatype State = State(db: Db, owner: map<int, Owner>, cleaner: Phase)

  datatype Config = Config(hash: Key -> int)

  datatype Step =
    | List(now: Time, candidates: set<Key>)
    | TryLock(key: Key)
    | DeleteExpiredMeta
    | DeleteRows
    | DeleteEmptiedMeta
    | CleanerCommits
    | CleanerAborts
    | WriterLocks(id: Id, key: Key)
    | WriterCommits(id: Id, db: Db)
    | WriterAborts(id: Id)

  /** What the cleaner's own statements see. */
  ghost function View(db: Db, gone: Gone): Db {
    Db(map k | k in db.meta && k !in gone.meta :: db.meta[k], db.rows - gone.rows)
  }

  ghost predicate SameKey(a: Db, b: Db, k: Key) {
    && (k in a.meta <==> k in b.meta)
    && (k in a.meta ==> a.meta[k] == b.meta[k])
    && forall r: Row | r.key == k :: r in a.rows <==> r in b.rows
  }

  ghost predicate Holds(c: Config, s: State, who: Owner, k: Key) {
    c.hash(k) in s.owner && s.owner[c.hash(k)] == who
  }

  function Release(owner: map<int, Owner>, who: Owner): map<int, Owner> {
    map h | h in owner && owner[h] != who :: owner[h]
  }

  ghost predicate Enabled(c: Config, s: State, step: Step) {
    match step
    case List(now, candidates) =>
      s.cleaner.Idle? && forall k | k in candidates :: Candidate(s.db, k, now)
    case TryLock(k) => s.cleaner.Locking? && k in s.cleaner.candidates
    case DeleteExpiredMeta => s.cleaner.Locking? && s.cleaner.candidates == {}
    case DeleteRows => s.cleaner.Deleting? && s.cleaner.tables < |TABLES|
    case DeleteEmptiedMeta => s.cleaner.Deleting? && s.cleaner.tables == |TABLES|
    case CleanerCommits => s.cleaner.Swept?
    case CleanerAborts => !s.cleaner.Idle?
    case WriterLocks(id, k) => c.hash(k) !in s.owner
    case WriterCommits(id, db) => forall k | !Holds(c, s, Writer(id), k) :: SameKey(s.db, db, k)
    case WriterAborts(id) => true
  }

  ghost function Do(c: Config, s: State, step: Step): State
    requires Enabled(c, s, step)
  {
    match step
    case List(now, candidates) => s.(cleaner := Locking(now, candidates, {}))
    case TryLock(k) =>
      var p := s.cleaner;
      if c.hash(k) in s.owner && s.owner[c.hash(k)] != Cleaner
      then s.(cleaner := p.(candidates := p.candidates - {k}))
      else s.(cleaner := p.(candidates := p.candidates - {k}, keys := p.keys + {k}),
              owner := s.owner[c.hash(k) := Cleaner])
    case DeleteExpiredMeta =>
      var expired := ExpiredKeys(s.db, s.cleaner.keys, s.cleaner.now);
      s.(cleaner := Deleting(s.cleaner.now, s.cleaner.keys, expired, 0, Gone(expired, {})))
    case DeleteRows =>
      var p := s.cleaner;
      var rows := DeletedFrom(View(s.db, p.gone), TABLES[p.tables], p.keys, p.now, p.expired);
      s.(cleaner := p.(tables := p.tables + 1, gone := Gone(p.gone.meta, p.gone.rows + rows)))
    case DeleteEmptiedMeta =>
      var p := s.cleaner;
      var emptied := EmptiedKeys(View(s.db, p.gone), p.keys);
      s.(cleaner := Swept(p.now, p.keys, Gone(p.gone.meta + emptied, p.gone.rows)))
    case CleanerCommits => State(View(s.db, s.cleaner.gone), Release(s.owner, Cleaner), Idle)
    case CleanerAborts => State(s.db, Release(s.owner, Cleaner), Idle)
    case WriterLocks(id, k) => s.(owner := s.owner[c.hash(k) := Writer(id)])
    case WriterCommits(id, db) => State(db, Release(s.owner, Writer(id)), s.cleaner)
    case WriterAborts(id) => s.(owner := Release(s.owner, Writer(id)))
  }

  ghost predicate Next(c: Config, s: State, s': State) {
    exists step :: Enabled(c, s, step) && s' == Do(c, s, step)
  }

  ghost predicate IsRun(c: Config, run: seq<State>) {
    && |run| > 0 && run[0].owner == map[] && run[0].cleaner == Idle
    && forall i | 0 <= i < |run| - 1 :: Next(c, run[i], run[i + 1])
  }

  // ---------------------------------------------------------------- invariant

  predicate Done(tables: nat, t: Kind)
    requires tables <= |TABLES|
  {
    exists i | 0 <= i < tables :: TABLES[i] == t
  }

  ghost function RowsGone(db: Db, keys: set<Key>, now: Time, tables: nat): set<Row>
    requires tables <= |TABLES|
  {
    set r | r in db.rows && r.key in keys && Done(tables, r.table) && RowGoes(db, r, now)
  }

  ghost function MetaGone(db: Db, keys: set<Key>, now: Time): set<Key> {
    set k | k in keys && k in db.meta && (MetaExpired(db, k, now) || Orphaned(db, k, now))
  }

  ghost predicate Locked(c: Config, s: State, keys: set<Key>) { forall k | k in keys :: Holds(c, s, Cleaner, k) }

  ghost predicate Inv(c: Config, s: State) {
    match s.cleaner
    case Idle => true
    case Locking(_, _, keys) => Locked(c, s, keys)
    case Deleting(now, keys, expired, tables, gone) =>
      && Locked(c, s, keys) && tables <= |TABLES|
      && expired == ExpiredKeys(s.db, keys, now)
      && gone == Gone(expired, RowsGone(s.db, keys, now, tables))
    case Swept(now, keys, gone) =>
      && Locked(c, s, keys)
      && gone == Gone(MetaGone(s.db, keys, now), RowsGone(s.db, keys, now, |TABLES|))
  }

  // ---------------------------------------------------------------- a key's fate is its own

  /** What is to go for some keys does not depend on the others. */
  lemma GoneIsLocal(a: Db, b: Db, keys: set<Key>, now: Time, tables: nat)
    requires tables <= |TABLES| && forall k | k in keys :: SameKey(a, b, k)
    ensures ExpiredKeys(a, keys, now) == ExpiredKeys(b, keys, now)
    ensures RowsGone(a, keys, now, tables) == RowsGone(b, keys, now, tables)
    ensures MetaGone(a, keys, now) == MetaGone(b, keys, now)
  {
  }

  // ---------------------------------------------------------------- the statements add up

  lemma TableStatement(db: Db, keys: set<Key>, now: Time, tables: nat)
    requires tables < |TABLES|
    ensures var expired := ExpiredKeys(db, keys, now);
            var gone := RowsGone(db, keys, now, tables);
            gone + DeletedFrom(View(db, Gone(expired, gone)), TABLES[tables], keys, now, expired)
              == RowsGone(db, keys, now, tables + 1)
  {
  }

  lemma AllTablesDone(t: Kind)
    ensures Done(|TABLES|, t)
  {
    assert TABLES[0] == StringKind && TABLES[1] == HashKind && TABLES[2] == ListKind;
    assert TABLES[3] == SetKind && TABLES[4] == ZSetKind && TABLES[5] == HyperLogLogKind;
  }

  /** After all tables, the emptied keys are the orphaned ones that had not expired. */
  lemma EmptiedAreOrphaned(db: Db, keys: set<Key>, now: Time, k: Key)
    requires k in keys && k in db.meta && !MetaExpired(db, k, now)
    ensures Emptied(View(db, Gone(ExpiredKeys(db, keys, now), RowsGone(db, keys, now, |TABLES|))), k)
            <==> Orphaned(db, k, now)
  {
    var v := View(db, Gone(ExpiredKeys(db, keys, now), RowsGone(db, keys, now, |TABLES|)));
    var t := db.meta[k].kind;
    AllTablesDone(t);
    if !Orphaned(db, k, now) && !t.HyperLogLogKind? {
      var r :| r in db.rows && r.table == t && r.key == k && !RowGoes(db, r, now);
      assert r in v.rows;
    }
    if HasRow(v, t, k) {
      var r :| r in v.rows && r.table == t && r.key == k;
      assert r in db.rows && !RowGoes(db, r, now);
    }
  }

  lemma LastStatement(db: Db, keys: set<Key>, now: Time)
    ensures var expired := ExpiredKeys(db, keys, now);
            var rowsGone := RowsGone(db, keys, now, |TABLES|);
            expired + EmptiedKeys(View(db, Gone(expired, rowsGone)), keys) == MetaGone(db, keys, now)
  {
    var expired := ExpiredKeys(db, keys, now);
    var v := View(db, Gone(expired, RowsGone(db, keys, now, |TABLES|)));
    forall k ensures k in expired + EmptiedKeys(v, keys) <==> k in MetaGone(db, keys, now) {
      if k in keys && k in db.meta && !MetaExpired(db, k, now) { EmptiedAreOrphaned(db, keys, now, k); }
    }
  }

  /** All statements together clean the keys. */
  lemma StatementsClean(db: Db, keys: set<Key>, now: Time)
    ensures View(db, Gone(MetaGone(db, keys, now), RowsGone(db, keys, now, |TABLES|))) == Clean(db, keys, now)
  {
    var v := View(db, Gone(MetaGone(db, keys, now), RowsGone(db, keys, now, |TABLES|)));
    forall r: Row ensures r in v.rows <==> r in Clean(db, keys, now).rows { AllTablesDone(r.table); }
    assert v.meta == Clean(db, keys, now).meta;
  }

  // ---------------------------------------------------------------- preservation

  lemma WriterStep(c: Config, s: State, step: Step)
    requires Inv(c, s) && Enabled(c, s, step) && (step.WriterLocks? || step.WriterCommits? || step.WriterAborts?)
    ensures Inv(c, Do(c, s, step))
  {
    var s' := Do(c, s, step);
    if !s.cleaner.Idle? {
      var keys := s.cleaner.keys;
      forall k | k in keys ensures Holds(c, s', Cleaner, k) && SameKey(s.db, s'.db, k) {
        assert Holds(c, s, Cleaner, k);
      }
      if !s.cleaner.Locking? {
        GoneIsLocal(s.db, s'.db, keys, s.cleaner.now, if s.cleaner.Deleting? then s.cleaner.tables else |TABLES|);
      }
    }
  }

  lemma StepPreserves(c: Config, s: State, step: Step)
    requires Inv(c, s) && Enabled(c, s, step)
    ensures Inv(c, Do(c, s, step))
  {
    match step
    case TryLock(k) =>
      var s' := Do(c, s, step);
      forall x | x in s'.cleaner.keys ensures Holds(c, s', Cleaner, x) {
        assert x in s.cleaner.keys ==> Holds(c, s, Cleaner, x);
      }
    case DeleteExpiredMeta =>
      assert RowsGone(s.db, s.cleaner.keys, s.cleaner.now, 0) == {};
    case DeleteRows => TableStatement(s.db, s.cleaner.keys, s.cleaner.now, s.cleaner.tables);
    case DeleteEmptiedMeta => LastStatement(s.db, s.cleaner.keys, s.cleaner.now);
    case WriterLocks(_, _) => WriterStep(c, s, step);
    case WriterCommits(_, _) => WriterStep(c, s, step);
    case WriterAborts(_) => WriterStep(c, s, step);
    case _ =>
  }

  lemma {:induction false} RunKeepsInv(c: Config, run: seq<State>, i: nat)
    requires IsRun(c, run) && i < |run|
    ensures Inv(c, run[i])
  {
    if i > 0 {
      RunKeepsInv(c, run, i - 1);
      assert Next(c, run[i - 1], run[i - 1 + 1]);
      var step :| Enabled(c, run[i - 1], step) && run[i] == Do(c, run[i - 1], step);
      StepPreserves(c, run[i - 1], step);
    }
  }

  // ---------------------------------------------------------------- main results

  /** No time of k has come, and if it is there it has a data row of its kind. */
  ghost predicate Safe(db: Db, k: Key, now: Time) {
    && (k in db.meta ==>
          && (db.meta[k].expires.Some? ==> now < db.meta[k].expires.value)
          && (db.meta[k].kind.HyperLogLogKind? || exists r | r in db.rows :: r.table == db.meta[k].kind && r.key == k))
    && forall r | r in db.rows && r.key == k && r.expires.Some? :: now < r.expires.value
  }

  /** Whenever the cleaner is about to commit, whatever the writers did meanwhile, its deletions are
      exactly the cleaning of the database as it is then. */
  lemma CommitCleansCurrentData(c: Config, run: seq<State>, i: nat)
    requires IsRun(c, run) && i < |run| && run[i].cleaner.Swept?
    ensures View(run[i].db, run[i].cleaner.gone) == Clean(run[i].db, run[i].cleaner.keys, run[i].cleaner.now)
  {
    RunKeepsInv(c, run, i);
    StatementsClean(run[i].db, run[i].cleaner.keys, run[i].cleaner.now);
  }

  /** A cleaned key survives whole exactly when it is safe; other keys always do. */
  lemma CleanKeepsExactly(db: Db, keys: set<Key>, now: Time, k: Key)
    ensures SameKey(db, Clean(db, keys, now), k) <==> k !in keys || Safe(db, k, now)
  {
  }

  /** What the cleaner's commit leaves whole, in any run: keys it did not lock, and safe ones. */
  lemma CommitKeepsExactly(c: Config, run: seq<State>, i: nat, k: Key)
    requires IsRun(c, run) && i < |run| && run[i].cleaner.Swept?
    ensures SameKey(run[i].db, Do(c, run[i], CleanerCommits).db, k)
            <==> k !in run[i].cleaner.keys || Safe(run[i].db, k, run[i].cleaner.now)
  {
    CommitCleansCurrentData(c, run, i);
    CleanKeepsExactly(run[i].db, run[i].cleaner.keys, run[i].cleaner.now, k);
  }

  /** The time of k, or of a row of k in table t, has come; a time that is now has come. */
  ghost predicate KeyDue(db: Db, k: Key, now: Time) {
    k in db.meta && db.meta[k].expires.Some? && db.meta[k].expires.value <= now
  }

  ghost predicate TableDue(db: Db, k: Key, t: Kind, now: Time) {
    exists r | r in db.rows :: r.key == k && r.table == t && r.expires.Some? && r.expires.value <= now
  }

  /** What the cleaner's commit removes, in any run: of the keys it locked, every row of a key that is due
      and of a table with a due row of the key; and the meta rows of keys that are due, or whose kind has
      no data row left. */
  lemma CommitRemovesExactly(c: Config, run: seq<State>, i: nat, k: Key, r: Row)
    requires IsRun(c, run) && i < |run| && run[i].cleaner.Swept?
    ensures var db, db' := run[i].db, Do(c, run[i], CleanerCommits).db;
            var keys, now := run[i].cleaner.keys, run[i].cleaner.now;
            && (r in db'.rows <==>
                  r in db.rows && !(r.key in keys && (KeyDue(db, r.key, now) || TableDue(db, r.key, r.table, now))))
            && (k in db'.meta <==>
                  && k in db.meta
                  && !(k in keys && (KeyDue(db, k, now) || (!db.meta[k].kind.HyperLogLogKind?
                         && !exists x | x in db'.rows :: x.key == k && x.table == db.meta[k].kind))))
            && (k in db'.meta ==> db'.meta[k] == db.meta[k])
  {
    CommitCleansCurrentData(c, run, i);
    var db, keys, now := run[i].db, run[i].cleaner.keys, run[i].cleaner.now;
    DueIsPast(db, now);
    if k in db.meta && k in keys && !db.meta[k].kind.HyperLogLogKind? { OrphanedLeavesNone(db, keys, now, k); }
  }

  /** A locked key whose time has come, this moment included, is gone after the commit; one whose times are
      all still to come, or none, and which has a data row of its kind, is as it was. */
  lemma CommitGoesByTheClock(c: Config, run: seq<State>, i: nat, k: Key)
    requires IsRun(c, run) && i < |run| && run[i].cleaner.Swept? && k in run[i].db.meta
    ensures var db, db', now := run[i].db, Do(c, run[i], CleanerCommits).db, run[i].cleaner.now;
            && (k in run[i].cleaner.keys && db.meta[k].expires.Some? && db.meta[k].expires.value <= now ==>
                  k !in db'.meta && forall r | r in db'.rows :: r.key != k)
            && ((db.meta[k].expires.Some? ==> db.meta[k].expires.value > now)
                && (forall r | r in db.rows && r.key == k && r.expires.Some? :: r.expires.value > now)
                && (exists r | r in db.rows :: r.key == k && r.table == db.meta[k].kind)
                ==> SameKey(db, db', k))
  {
    CommitCleansCurrentData(c, run, i);
    CommitKeepsExactly(c, run, i, k);
  }

  lemma DueIsPast(db: Db, now: Time)
    ensures forall k :: KeyDue(db, k, now) <==> MetaExpired(db, k, now)
    ensures forall k, t :: TableDue(db, k, t, now) <==> RowExpired(db, t, k, now)
  {
  }

  lemma OrphanedLeavesNone(db: Db, keys: set<Key>, now: Time, k: Key)
    requires k in keys && k in db.meta && !db.meta[k].kind.HyperLogLogKind?
    ensures Orphaned(db, k, now)
       <==> !exists x | x in Clean(db, keys, now).rows :: x.key == k && x.table == db.meta[k].kind
  {
  }

  /** A key is there and not empty at time t. */
  ghost predicate Live(db: Db, k: Key, t: Time) {
    && k in db.meta && (db.meta[k].expires.Some? ==> t < db.meta[k].expires.value)
    && (db.meta[k].kind.HyperLogLogKind? || HasRow(db, db.meta[k].kind, k))
  }

  /** No data row expires before its key. */
  ghost predicate RowsOutlast(db: Db, k: Key) {
    k in db.meta ==>
      forall r | r in db.rows && r.key == k && r.expires.Some? ::
        db.meta[k].expires.Some? && db.meta[k].expires.value <= r.expires.value
  }

  lemma LiveIsSafe(db: Db, k: Key, now: Time, t: Time)
    requires now <= t && Live(db, k, t) && RowsOutlast(db, k)
    ensures Safe(db, k, now)
  {
  }

  /** A live key whose rows outlast it loses nothing in any step of any run but the commit of a writer
      that holds its lock: a key refilled or renewed after the cleaner listed it is left alone. */
  lemma LiveKeysSurvive(c: Config, run: seq<State>, i: nat, step: Step, k: Key, t: Time)
    requires IsRun(c, run) && i < |run| && Enabled(c, run[i], step)
    requires Live(run[i].db, k, t) && RowsOutlast(run[i].db, k)
    requires run[i].cleaner.Swept? ==> run[i].cleaner.now <= t
    requires step.WriterCommits? ==> !Holds(c, run[i], Writer(step.id), k)
    ensures SameKey(run[i].db, Do(c, run[i], step).db, k)
  {
    if step.CleanerCommits? {
      LiveIsSafe(run[i].db, k, run[i].cleaner.now, t);
      CommitKeepsExactly(c, run, i, k);
    }
  }

  /** After the commit no locked key has anything left to clean, and cleaning again changes nothing. */
  lemma CleanLeavesNothing(db: Db, keys: set<Key>, now: Time, k: Key)
    requires k in keys
    ensures !Candidate(Clean(db, keys, now), k, now)
  {
  }

  // ---------------------------------------------------------------- a key that loses its value

  ghost predicate Reachable(c: Config, s: State) {
    exists run: seq<State> :: IsRun(c, run) && run[|run| - 1] == s
  }

  lemma ReachableStep(c: Config, s: State, step: Step)
    requires Reachable(c, s) && Enabled(c, s, step)
    ensures Reachable(c, Do(c, s, step))
  {
    var run: seq<State> :| IsRun(c, run) && run[|run| - 1] == s;
    var run' := run + [Do(c, s, step)];
    forall i | 0 <= i < |run'| - 1 ensures Next(c, run'[i], run'[i + 1]) {
      if i < |run| - 1 { assert Next(c, run[i], run[i + 1]); }
    }
    assert run'[|run'| - 1] == Do(c, s, step);
  }

  /** SET with an expiry: all of the key goes, then a meta row and a string row with that expiry. */
  function SetEx(db: Db, k: Key, value: string, expires: Time): Db {
    Db(db.meta[k := Meta(StringKind, Some(expires))],
       (set r | r in db.rows && r.key != k) + {Row(StringKind, k, "", value, Some(expires))})
  }

  function StringRows(db: Db, k: Key): set<Row> { set r | r in db.rows && r.table == StringKind && r.key == k }

  /** INCR and its like: setMeta without an expiry, then an upsert that only sets the value. */
  function Overwrite(db: Db, k: Key, value: string): Db {
    var rows := StringRows(db, k);
    Db(db.meta[k := Meta(StringKind, None)],
       if rows == {} then db.rows + {Row(StringKind, k, "", value, None)}
       else (db.rows - rows) + set r | r in rows :: r.(value := value))
  }

  lemma OverwrittenRows(db: Db, k: Key, v: string, w: string, expires: Time)
    ensures var db' := Overwrite(SetEx(db, k, v, expires), k, w);
            && db'.meta == db.meta[k := Meta(StringKind, None)]
            && db'.rows == (set r | r in db.rows && r.key != k) + {Row(StringKind, k, "", w, Some(expires))}
  {
    var first := SetEx(db, k, v, expires);
    var row := Row(StringKind, k, "", v, Some(expires));
    assert StringRows(first, k) == {row} by { assert row in first.rows; }
    assert (set r | r in {row} :: r.(value := w)) == {row.(value := w)} by { assert row in {row}; }
  }

  /** A writer that takes the lock of k may leave any database that differs only in k. */
  lemma WriterReaches(c: Config, s: State, k: Key, db: Db)
    requires Reachable(c, s) && s.owner == map[] && forall x | x != k :: SameKey(s.db, db, x)
    ensures Reachable(c, State(db, map[], s.cleaner))
  {
    ReachableStep(c, s, WriterLocks(0, k));
    var s1 := Do(c, s, WriterLocks(0, k));
    assert Holds(c, s1, Writer(0), k);
    ReachableStep(c, s1, WriterCommits(0, db));
    assert Release(s1.owner, Writer(0)) == map[];
  }

  lemma {:induction false} TablesReach(c: Config, s: State) returns (s': State)
    requires Reachable(c, s) && s.cleaner.Deleting? && s.cleaner.tables <= |TABLES|
    ensures Reachable(c, s') && s'.db == s.db && s'.cleaner.Swept?
    ensures s'.cleaner.keys == s.cleaner.keys && s'.cleaner.now == s.cleaner.now
    decreases |TABLES| - s.cleaner.tables
  {
    if s.cleaner.tables == |TABLES| {
      ReachableStep(c, s, DeleteEmptiedMeta);
      s' := Do(c, s, DeleteEmptiedMeta);
    } else {
      ReachableStep(c, s, DeleteRows);
      s' := TablesReach(c, Do(c, s, DeleteRows));
    }
  }

  /** The cleaner reaches the point before its commit with any one candidate. */
  lemma CleanerReaches(c: Config, s: State, k: Key, now: Time) returns (s': State)
    requires Reachable(c, s) && s.owner == map[] && s.cleaner.Idle? && Candidate(s.db, k, now)
    ensures Reachable(c, s') && s'.db == s.db
    ensures s'.cleaner.Swept? && s'.cleaner.keys == {k} && s'.cleaner.now == now
  {
    ReachableStep(c, s, List(now, {k}));
    var s1 := Do(c, s, List(now, {k}));
    ReachableStep(c, s1, TryLock(k));
    var s2 := Do(c, s1, TryLock(k));
    assert s2.cleaner == Locking(now, {}, {k});
    ReachableStep(c, s2, DeleteExpiredMeta);
    s' := TablesReach(c, Do(c, s2, DeleteExpiredMeta));
  }

  /** A key that is due can be cleaned whenever no lock is held and the cleaner is idle: a run reaches a
      commit after which nothing of it is left. */
  lemma DueKeyCanGo(c: Config, s: State, k: Key, now: Time) returns (s': State)
    requires Reachable(c, s) && s.owner == map[] && s.cleaner.Idle?
    requires k in s.db.meta && s.db.meta[k].expires.Some? && s.db.meta[k].expires.value <= now
    ensures Reachable(c, s') && k !in s'.db.meta && forall r | r in s'.db.rows :: r.key != k
    ensures forall x | x != k :: SameKey(s.db, s'.db, x)
  {
    var s1 := CleanerReaches(c, s, k, now);
    ReachableStep(c, s1, CleanerCommits);
    s' := Do(c, s1, CleanerCommits);
    var run: seq<State> :| IsRun(c, run) && run[|run| - 1] == s1;
    CommitCleansCurrentData(c, run, |run| - 1);
    forall x | x != k ensures SameKey(s.db, s'.db, x) { CleanKeepsExactly(s.db, {k}, now, x); }
  }

  /** So can a key without data rows of its kind, unless it is a HyperLogLog. */
  lemma EmptyKeyCanGo(c: Config, s: State, k: Key, now: Time) returns (s': State)
    requires Reachable(c, s) && s.owner == map[] && s.cleaner.Idle? && k in s.db.meta
    requires !s.db.meta[k].kind.HyperLogLogKind?
    requires forall r | r in s.db.rows && r.key == k :: r.table != s.db.meta[k].kind
    ensures Reachable(c, s') && k !in s'.db.meta && forall x | x != k :: SameKey(s.db, s'.db, x)
  {
    assert Emptied(s.db, k);
    var s1 := CleanerReaches(c, s, k, now);
    ReachableStep(c, s1, CleanerCommits);
    s' := Do(c, s1, CleanerCommits);
    var run: seq<State> :| IsRun(c, run) && run[|run| - 1] == s1;
    CommitCleansCurrentData(c, run, |run| - 1);
    forall x | x != k ensures SameKey(s.db, s'.db, x) { CleanKeepsExactly(s.db, {k}, now, x); }
  }

  /** The cleaner passes over a key whose lock a writer holds: no step but the writer's own end frees it. */
  lemma WriterKeepsLock(c: Config, s: State, step: Step, id: Id, k: Key)
    requires Enabled(c, s, step) && Holds(c, s, Writer(id), k)
    requires !(step.WriterCommits? && step.id == id) && !(step.WriterAborts? && step.id == id)
    ensures Holds(c, Do(c, s, step), Writer(id), k)
    ensures step == TryLock(k) ==> Do(c, s, step).cleaner.keys == s.cleaner.keys
  {
  }

  /** Without that provision a key with no expiry can lose its data, whatever else is stored: after SET
      with an expiry, INCR, INCRBYFLOAT, APPEND, SETRANGE and SETBIT clear the expiry of the key's meta
      row but not that of the row that holds the value.  Once that time is past a run reaches a commit
      of the cleaner that takes the key away. */
  lemma ShortLivedRowLosesKey(c: Config, db: Db, k: Key, v: string, w: string, expires: Time, now: Time)
    returns (s: State)
    requires expires <= now
    ensures Reachable(c, s) && Enabled(c, s, CleanerCommits)
    ensures s.db == Overwrite(SetEx(db, k, v, expires), k, w) && forall t :: Live(s.db, k, t)
    ensures var db' := Do(c, s, CleanerCommits).db; k !in db'.meta && forall r | r in db'.rows :: r.key != k
  {
    var s0 := State(db, map[], Idle);
    assert IsRun(c, [s0]) && [s0][|[s0]| - 1] == s0;
    var db1 := SetEx(db, k, v, expires);
    WriterReaches(c, s0, k, db1);
    var db2 := Overwrite(db1, k, w);
    OverwrittenRows(db, k, v, w, expires);
    WriterReaches(c, State(db1, map[], Idle), k, db2);
    var row := Row(StringKind, k, "", w, Some(expires));
    assert row in db2.rows;
    assert RowExpired(db2, StringKind, k, now) && HasRow(db2, StringKind, k);
    s := CleanerReaches(c, State(db2, map[], Idle), k, now);
    DueKeyIsTaken(c, s, k, row);
  }

  /** A locked string key whose only row is due goes whole. */
  lemma DueKeyIsTaken(c: Config, s: State, k: Key, row: Row)
    requires Reachable(c, s) && s.cleaner.Swept? && s.cleaner.keys == {k}
    requires k in s.db.meta && s.db.meta[k].kind == row.table
    requires row in s.db.rows && row.key == k && Past(row.expires, s.cleaner.now)
    requires !row.table.HyperLogLogKind? && forall r | r in s.db.rows && r.key == k :: r == row
    ensures var db' := Do(c, s, CleanerCommits).db; k !in db'.meta && forall r | r in db'.rows :: r.key != k
  {
    var run: seq<State> :| IsRun(c, run) && run[|run| - 1] == s;
    CommitCleansCurrentData(c, run, |run| - 1);
    assert RowExpired(s.db, row.table, k, s.cleaner.now);
    assert Orphaned(s.db, k, s.cleaner.now);
  }
}
