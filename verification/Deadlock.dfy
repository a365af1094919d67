/** Waiting for advisory locks: when can transactions wait for each other in a circle?

    A transaction asks only for keys it has, or keys above all it has.  Locks are per hash of a
    key, exclusive, held to the end of the transaction and granted in order of arrival.  The
    cleaner only tries locks and never waits.
 */
module Deadlock {
  import opened Basics
  import opened LockOrder

  type Id = nat

  datatype Tx =
    | Running(held: set<Key>)
    | Waiting(held: set<Key>, key: Key, ticket: nat)   // arrived as number `ticket`
    | Cleaning

  datatype State = State(txs: map<Id, Tx>, owner: map<int, Id>, clock: nat)

  datatype Config = Config(hash: Key -> int, used: iset<Key>)

  datatype Step =
    | Start(id: Id)
    | StartCleaner(id: Id)
    | Ask(id: Id, key: Key)
    | Grant(id: Id)
    | Try(id: Id, hash: int)
    | End(id: Id)              // commit, rollback or cancellation

  // ---------------------------------------------------------------- what transactions ask for

  /** k may be asked for by who holds `held`. */
  ghost predicate InOrder(held: set<Key>, k: Key) {
    k in held || forall x | x in held :: Less(x, k)
  }

  /** Asked in this order, every key is held already or above all that are held. */
  ghost predicate Disciplined(held: set<Key>, asks: seq<Key>)
    decreases |asks|
  {
    asks == [] || (InOrder(held, asks[0]) && Disciplined(held + {asks[0]}, asks[1..]))
  }

  /** del goes over its sorted keys, with repeats, and skips any of them. */
  ghost predicate Selects(part: seq<Key>, whole: seq<Key>) {
    if part == [] then true
    else
      && whole != []
      && if part[0] == whole[0] && Selects(part[1..], whole[1..]) then true else Selects(part, whole[1..])
  }

  lemma {:induction false} SortedIsDisciplined(held: set<Key>, asks: seq<Key>)
    requires Sorted(asks)
    requires forall x, i | x in held && 0 <= i < |asks| :: x == asks[i] || Less(x, asks[i])
    ensures Disciplined(held, asks)
    decreases |asks|
  {
    if asks != [] {
      if asks[0] !in held {
        forall x | x in held ensures Less(x, asks[0]) { }
      }
      forall x, i | x in held + {asks[0]} && 0 <= i < |asks[1..]| ensures x == asks[1..][i] || Less(x, asks[1..][i]) {
        assert asks[1..][i] == asks[i + 1];
      }
      SortedIsDisciplined(held + {asks[0]}, asks[1..]);
    }
  }

  lemma {:induction false} SelectsSorted(part: seq<Key>, whole: seq<Key>)
    requires Selects(part, whole) && Sorted(whole)
    ensures Sorted(part) && Elements(part) <= Elements(whole)
    decreases |whole|
  {
    if part != [] {
      assert Sorted(whole[1..]);
      HeadElements(whole);
      if part[0] == whole[0] && Selects(part[1..], whole[1..]) {
        SelectsSorted(part[1..], whole[1..]);
        HeadElements(part);
        forall i | 0 <= i < |part[1..]| ensures part[0] == part[1..][i] || Less(part[0], part[1..][i]) {
          assert part[1..][i] in Elements(whole[1..]);
          var j :| 0 <= j < |whole[1..]| && whole[1..][j] == part[1..][i];
          assert whole[0] == whole[j + 1] || Less(whole[0], whole[j + 1]);
        }
        SortedCons(part[0], part[1..]);
        assert part == [part[0]] + part[1..];
      } else {
        SelectsSorted(part, whole[1..]);
      }
    }
  }

  /** DEL obeys the order whichever of its keys exist. */
  lemma {:induction false} DelIsDisciplined(keys: seq<Key>, present: seq<Key>)
    requires Selects(present, Sort(keys))
    ensures Disciplined({}, present)
  {
    SortOk(keys);
    SelectsSorted(present, Sort(keys));
    SortedIsDisciplined({}, present);
  }

  lemma {:induction false} HeldIsDisciplined(held: set<Key>, asks: seq<Key>)
    requires Elements(asks) <= held
    ensures Disciplined(held, asks)
    decreases |asks|
  {
    if asks != [] {
      HeadElements(asks);
      assert held + {asks[0]} == held;
      HeldIsDisciplined(held, asks[1..]);
    }
  }

  lemma {:induction false} DisciplinedAppend(held: set<Key>, first: seq<Key>, second: seq<Key>)
    requires Disciplined(held, first) && Disciplined(held + Elements(first), second)
    ensures Disciplined(held, first + second)
    decreases |first|
  {
    if first == [] {
      assert held + Elements(first) == held && first + second == second;
    } else {
      HeadElements(first);
      assert held + Elements(first) == held + {first[0]} + Elements(first[1..]);
      DisciplinedAppend(held + {first[0]}, first[1..], second);
      assert (first + second)[1..] == first[1..] + second;
    }
  }

  /** EXEC and scripts lock all their keys up front; whatever their commands then ask for among
      those keys, in whatever order, obeys the order. */
  lemma {:induction false} UpFrontIsDisciplined(keys: seq<Key>, later: seq<Key>)
    requires Elements(later) <= Elements(keys)
    ensures Disciplined({}, LockSequence(keys) + later)
  {
    LockSequenceOk(keys);
    SortedIsDisciplined({}, LockSequence(keys));
    HeldIsDisciplined(Elements(LockSequence(keys)), later);
    assert {} + Elements(LockSequence(keys)) == Elements(LockSequence(keys));
    DisciplinedAppend({}, LockSequence(keys), later);
  }

  // ---------------------------------------------------------------- steps

  ghost predicate Contended(c: Config, s: State, h: int) {
    h in s.owner || exists w :: w in s.txs && s.txs[w].Waiting? && c.hash(s.txs[w].key) == h
  }

  /** First in line for a lock nobody has. */
  ghost predicate Grantable(c: Config, s: State, id: Id) {
    && id in s.txs && s.txs[id].Waiting?
    && var h := c.hash(s.txs[id].key);
       && h !in s.owner
       && forall w | w in s.txs && s.txs[w].Waiting? && c.hash(s.txs[w].key) == h ::
            s.txs[id].ticket <= s.txs[w].ticket
  }

  ghost predicate Enabled(c: Config, s: State, step: Step) {
    match step
    case Start(id) => id !in s.txs
    case StartCleaner(id) => id !in s.txs
    case Ask(id, k) => id in s.txs && s.txs[id].Running? && k in c.used && InOrder(s.txs[id].held, k)
    case Grant(id) => Grantable(c, s, id)
    case Try(id, _) => id in s.txs && s.txs[id].Cleaning?
    case End(id) => id in s.txs
  }

  function Acquire(c: Config, s: State, id: Id, held: set<Key>, k: Key): State {
    s.(txs := s.txs[id := Running(held + {k})], owner := s.owner[c.hash(k) := id])
  }

  ghost function Do(c: Config, s: State, step: Step): State
    requires Enabled(c, s, step)
  {
    match step
    case Start(id) => s.(txs := s.txs[id := Running({})])
    case StartCleaner(id) => s.(txs := s.txs[id := Cleaning])
    case Ask(id, k) =>
      var h, held := c.hash(k), s.txs[id].held;
      if (h in s.owner && s.owner[h] == id) || !Contended(c, s, h) then Acquire(c, s, id, held, k)
      else s.(txs := s.txs[id := Waiting(held, k, s.clock)], clock := s.clock + 1)
    case Grant(id) => Acquire(c, s, id, s.txs[id].held, s.txs[id].key)
    case Try(id, h) => if Contended(c, s, h) then s else s.(owner := s.owner[h := id])
    case End(id) => s.(txs := s.txs - {id}, owner := map h | h in s.owner && s.owner[h] != id :: s.owner[h])
  }

  ghost predicate Next(c: Config, s: State, s': State) {
    exists step :: Enabled(c, s, step) && s' == Do(c, s, step)
  }

  ghost predicate IsRun(c: Config, run: seq<State>) {
    && |run| > 0 && run[0] == State(map[], map[], 0)
    && forall i | 0 <= i < |run| - 1 :: Next(c, run[i], run[i + 1])
  }

  // ---------------------------------------------------------------- waiting

  /** a waits for b: b has the lock, or is ahead of a in the line for it. */
  ghost predicate WaitsFor(c: Config, s: State, a: Id, b: Id) {
    && a in s.txs && s.txs[a].Waiting? && b in s.txs
    && var h := c.hash(s.txs[a].key);
       || (h in s.owner && s.owner[h] == b)
       || (s.txs[b].Waiting? && c.hash(s.txs[b].key) == h && s.txs[b].ticket < s.txs[a].ticket)
  }

  ghost predicate IsPath(c: Config, s: State, p: seq<Id>) {
    |p| > 0 && forall i | 0 <= i < |p| - 1 :: WaitsFor(c, s, p[i], p[i + 1])
  }

  ghost predicate Deadlocked(c: Config, s: State) {
    exists p: seq<Id> :: |p| > 1 && IsPath(c, s, p) && p[0] == p[|p| - 1]
  }

  /** No used key between two keys of one hash has another hash. */
  ghost predicate NoSandwich(c: Config) {
    forall x, y, z | x in c.used && y in c.used && z in c.used && Less(x, y) && Less(y, z) && c.hash(x) == c.hash(z) ::
      c.hash(y) == c.hash(x)
  }

  ghost predicate Injective(c: Config) {
    forall x, y | x in c.used && y in c.used && c.hash(x) == c.hash(y) :: x == y
  }

  // ---------------------------------------------------------------- invariant

  ghost predicate TxOk(c: Config, s: State, id: Id)
    requires id in s.txs
  {
    match s.txs[id]
    case Running(held) => Owns(c, s, id, held)
    case Waiting(held, k, _) =>
      && Owns(c, s, id, held)
      && k in c.used
      && (forall x | x in held :: Less(x, k))
      && !(c.hash(k) in s.owner && s.owner[c.hash(k)] == id)
    case Cleaning => true
  }

  ghost predicate Owns(c: Config, s: State, id: Id, held: set<Key>) {
    && (forall k | k in held :: k in c.used && c.hash(k) in s.owner && s.owner[c.hash(k)] == id)
    && (forall h | h in s.owner && s.owner[h] == id :: HasKey(c, held, h))
  }

  ghost predicate HasKey(c: Config, held: set<Key>, h: int) { exists k :: k in held && c.hash(k) == h }

  ghost predicate Inv(c: Config, s: State) {
    && (forall id | id in s.txs :: TxOk(c, s, id))
    && (forall h | h in s.owner :: s.owner[h] in s.txs)
  }

  /** A step of id changes neither another transaction nor what it owns. */
  ghost predicate OnlyTouches(s: State, s': State, id: Id) {
    && (forall o | o != id :: o in s.txs <==> o in s'.txs)
    && (forall o | o != id && o in s.txs :: s'.txs[o] == s.txs[o])
    && (forall h | h in s.owner && s.owner[h] != id :: h in s'.owner && s'.owner[h] == s.owner[h])
    && (forall h | h in s'.owner && s'.owner[h] != id :: h in s.owner && s'.owner[h] == s.owner[h])
  }

  lemma OwnsKept(c: Config, s: State, s': State, id: Id, o: Id, held: set<Key>)
    requires OnlyTouches(s, s', id) && o != id && Owns(c, s, o, held)
    ensures Owns(c, s', o, held)
  {
    forall k | k in held ensures c.hash(k) in s'.owner && s'.owner[c.hash(k)] == o {
      var h := c.hash(k);
      assert h in s.owner && s.owner[h] != id;
    }
  }

  lemma OtherKept(c: Config, s: State, s': State, id: Id, o: Id)
    requires Inv(c, s) && OnlyTouches(s, s', id) && o != id && o in s.txs
    ensures TxOk(c, s', o)
  {
    assert TxOk(c, s, o);
    match s.txs[o]
    case Running(held) => OwnsKept(c, s, s', id, o, held);
    case Waiting(held, k, _) =>
      OwnsKept(c, s, s', id, o, held);
      var h := c.hash(k);
      assert h in s'.owner && s'.owner[h] != id ==> h in s.owner && s.owner[h] == s'.owner[h];
    case Cleaning =>
  }

  lemma Preserved(c: Config, s: State, s': State, id: Id)
    requires Inv(c, s) && OnlyTouches(s, s', id)
    requires id in s'.txs ==> TxOk(c, s', id)
    requires id !in s'.txs ==> forall h | h in s'.owner :: s'.owner[h] != id
    ensures Inv(c, s')
  {
    forall o | o in s'.txs ensures TxOk(c, s', o) {
      if o != id { OtherKept(c, s, s', id, o); }
    }
    forall h | h in s'.owner ensures s'.owner[h] in s'.txs {
      if s'.owner[h] != id { assert s.owner[h] in s.txs; }
    }
  }

  lemma AcquireKeeps(c: Config, s: State, id: Id, held: set<Key>, k: Key)
    requires Inv(c, s) && id in s.txs && k in c.used && Owns(c, s, id, held)
    requires c.hash(k) in s.owner ==> s.owner[c.hash(k)] == id
    ensures Inv(c, Acquire(c, s, id, held, k))
  {
    var s' := Acquire(c, s, id, held, k);
    forall h | h in s'.owner && s'.owner[h] == id ensures HasKey(c, held + {k}, h) {
      if h == c.hash(k) {
        assert k in held + {k};
      } else {
        assert HasKey(c, held, h);
        var x :| x in held && c.hash(x) == h;
        assert x in held + {k};
      }
    }
    Preserved(c, s, s', id);
  }

  lemma StepPreserves(c: Config, s: State, step: Step)
    requires Inv(c, s) && Enabled(c, s, step)
    ensures Inv(c, Do(c, s, step))
  {
    var s' := Do(c, s, step);
    match step
    case Start(id) => Preserved(c, s, s', id);
    case StartCleaner(id) => Preserved(c, s, s', id);
    case Ask(id, k) =>
      assert TxOk(c, s, id);
      if s'.txs[id].Waiting? { Preserved(c, s, s', id); } else { AcquireKeeps(c, s, id, s.txs[id].held, k); }
    case Grant(id) =>
      assert TxOk(c, s, id);
      AcquireKeeps(c, s, id, s.txs[id].held, s.txs[id].key);
    case Try(id, h) => Preserved(c, s, s', id);
    case End(id) => Preserved(c, s, s', id);
  }

  lemma {:induction false} RunKeepsInv(c: Config, run: seq<State>, i: nat)
    requires IsRun(c, run) && i < |run|
    ensures Inv(c, run[i])
  {
    if i > 0 {
      RunKeepsInv(c, run, i - 1);
      assert Next(c, run[i - 1], run[i - 1 + 1]);
      var step :| Enabled(c, run[i - 1], step) && run[i] == Do(c, run[i - 1], step);
      StepPreserves(c, run[i - 1], step);
    }
  }

  // ---------------------------------------------------------------- no circle

  /** Two hashes met in one order by some keys are met in that order by all. */
  lemma {:induction false} ClassesOrdered(c: Config, x: Key, y: Key, x': Key, y': Key)
    requires NoSandwich(c) && x in c.used && y in c.used && x' in c.used && y' in c.used
    requires c.hash(x) == c.hash(x') != c.hash(y) == c.hash(y') && Less(x, y)
    ensures Less(x', y')
  {
    LessTotal(x', y');
    if Less(y', x') {
      LessTotal(x', y);
      assert false;
    }
  }

  /** How waiters rise: to a greater key under another hash, or up the line for the same one. */
  ghost predicate Below(c: Config, s: State, a: Id, b: Id) {
    && a in s.txs && b in s.txs && s.txs[a].Waiting? && s.txs[b].Waiting?
    && if c.hash(s.txs[a].key) == c.hash(s.txs[b].key) then s.txs[b].ticket < s.txs[a].ticket
       else Less(s.txs[a].key, s.txs[b].key)
  }

  lemma WaitingRises(c: Config, s: State, a: Id, b: Id)
    requires Inv(c, s) && NoSandwich(c) && WaitsFor(c, s, a, b) && s.txs[b].Waiting?
    ensures Below(c, s, a, b)
  {
    var h := c.hash(s.txs[a].key);
    assert TxOk(c, s, a) && TxOk(c, s, b);
    if h in s.owner && s.owner[h] == b {
      assert HasKey(c, s.txs[b].held, h);
      var k :| k in s.txs[b].held && c.hash(k) == h;
      ClassesOrdered(c, k, s.txs[b].key, s.txs[a].key, s.txs[b].key);
    }
  }

  lemma BelowTransitive(c: Config, s: State, a: Id, b: Id, d: Id)
    requires Inv(c, s) && NoSandwich(c) && Below(c, s, a, b) && Below(c, s, b, d)
    ensures Below(c, s, a, d)
  {
    assert TxOk(c, s, a) && TxOk(c, s, b) && TxOk(c, s, d);
    var ka, kb, kd := s.txs[a].key, s.txs[b].key, s.txs[d].key;
    if c.hash(ka) == c.hash(kb) {
      if c.hash(kb) != c.hash(kd) { ClassesOrdered(c, kb, kd, ka, kd); }
    } else if c.hash(kb) == c.hash(kd) {
      ClassesOrdered(c, ka, kb, ka, kd);
    } else {
      LessTransitive(ka, kb, kd);
    }
  }

  lemma {:induction false} PathRises(c: Config, s: State, p: seq<Id>, n: nat)
    requires Inv(c, s) && NoSandwich(c) && IsPath(c, s, p) && 0 < n < |p|
    requires p[n] in s.txs && s.txs[p[n]].Waiting?
    ensures Below(c, s, p[0], p[n])
  {
    assert WaitsFor(c, s, p[n - 1], p[n - 1 + 1]);
    WaitingRises(c, s, p[n - 1], p[n]);
    if n > 1 {
      PathRises(c, s, p, n - 1);
      BelowTransitive(c, s, p[0], p[n - 1], p[n]);
    }
  }

  lemma NoCircle(c: Config, s: State)
    requires Inv(c, s) && NoSandwich(c)
    ensures !Deadlocked(c, s)
  {
    if Deadlocked(c, s) {
      var p: seq<Id> :| |p| > 1 && IsPath(c, s, p) && p[0] == p[|p| - 1];
      assert WaitsFor(c, s, p[0], p[0 + 1]);
      PathRises(c, s, p, |p| - 1);
      assert false;
    }
  }

  // ---------------------------------------------------------------- a circle

  /** Two transactions that meet the hashes in opposite orders. */
  ghost function CircleRun(c: Config, x: Key, y: Key, z: Key): seq<State> {
    var hx, hy := c.hash(x), c.hash(y);
    [State(map[], map[], 0),
     State(map[0 := Running({})], map[], 0),
     State(map[0 := Running({}), 1 := Running({})], map[], 0),
     State(map[0 := Running({x}), 1 := Running({})], map[hx := 0], 0),
     State(map[0 := Running({x}), 1 := Running({y})], map[hx := 0, hy := 1], 0),
     State(map[0 := Waiting({x}, y, 0), 1 := Running({y})], map[hx := 0, hy := 1], 1),
     State(map[0 := Waiting({x}, y, 0), 1 := Waiting({y}, z, 1)], map[hx := 0, hy := 1], 2)]
  }

  ghost function CircleStep(x: Key, y: Key, z: Key, i: nat): Step {
    if i == 0 then Start(0) else if i == 1 then Start(1)
    else if i == 2 then Ask(0, x) else if i == 3 then Ask(1, y)
    else if i == 4 then Ask(0, y) else Ask(1, z)
  }

  lemma CircleOpens(c: Config, x: Key, y: Key, z: Key, i: nat)
    requires x in c.used && y in c.used && c.hash(x) != c.hash(y) && i < 4
    ensures Next(c, CircleRun(c, x, y, z)[i], CircleRun(c, x, y, z)[i + 1])
  {
    var run, step := CircleRun(c, x, y, z), CircleStep(x, y, z, i);
    assert Enabled(c, run[i], step);
    assert {} + {x} == {x} && {} + {y} == {y};
    assert run[i + 1] == Do(c, run[i], step);
  }

  lemma {:induction false} CircleCloses(c: Config, x: Key, y: Key, z: Key, i: nat)
    requires y in c.used && z in c.used && Less(x, y) && Less(y, z)
    requires c.hash(x) == c.hash(z) != c.hash(y) && 4 <= i < 6
    ensures Next(c, CircleRun(c, x, y, z)[i], CircleRun(c, x, y, z)[i + 1])
  {
    var run, step := CircleRun(c, x, y, z), CircleStep(x, y, z, i);
    assert Enabled(c, run[i], step);
    assert run[i + 1] == Do(c, run[i], step);
  }

  lemma {:induction false} SandwichDeadlocks(c: Config, x: Key, y: Key, z: Key)
    requires x in c.used && y in c.used && z in c.used && Less(x, y) && Less(y, z)
    requires c.hash(x) == c.hash(z) != c.hash(y)
    ensures exists run :: IsRun(c, run) && Deadlocked(c, run[|run| - 1])
  {
    var run := CircleRun(c, x, y, z);
    forall i | 0 <= i < |run| - 1 ensures Next(c, run[i], run[i + 1]) {
      if i < 4 { CircleOpens(c, x, y, z, i); } else { CircleCloses(c, x, y, z, i); }
    }
    assert IsRun(c, run);
    var p := [0, 1, 0];
    assert IsPath(c, run[6], p);
    assert Deadlocked(c, run[|run| - 1]);
  }

  // ---------------------------------------------------------------- main results

  ghost predicate NeverDeadlocks(c: Config) {
    forall run, i | IsRun(c, run) && 0 <= i < |run| :: !Deadlocked(c, run[i])
  }

  /** No mix of transactions ever waits in a circle, exactly when no used key lies between two keys
      of one hash while having another. */
  lemma DeadlockFreeExactly(c: Config)
    ensures NeverDeadlocks(c) <==> NoSandwich(c)
  {
    if NoSandwich(c) {
      forall run, i | IsRun(c, run) && 0 <= i < |run| ensures !Deadlocked(c, run[i]) {
        RunKeepsInv(c, run, i);
        NoCircle(c, run[i]);
      }
    }
    if !NoSandwich(c) {
      var x, y, z :| x in c.used && y in c.used && z in c.used && Less(x, y) && Less(y, z)
        && c.hash(x) == c.hash(z) && c.hash(y) != c.hash(x);
      SandwichDeadlocks(c, x, y, z);
      var run :| IsRun(c, run) && Deadlocked(c, run[|run| - 1]);
      assert 0 <= |run| - 1 < |run|;
    }
  }

  /** In particular when the hash tells the used keys apart. */
  lemma InjectiveNeverDeadlocks(c: Config)
    requires Injective(c)
    ensures NeverDeadlocks(c)
  {
    forall x, y, z | x in c.used && y in c.used && z in c.used && Less(x, y) && Less(y, z)
      ensures c.hash(x) != c.hash(z)
    {
      LessTransitive(x, y, z);
      LessIrreflexive(x);
    }
    DeadlockFreeExactly(c);
  }

  // ---------------------------------------------------------------- progress

  /** Not waiting, or next to be served. */
  ghost predicate CanMove(c: Config, s: State, id: Id) {
    id in s.txs && (!s.txs[id].Waiting? || Grantable(c, s, id))
  }

  ghost predicate LeadsToMover(c: Config, s: State, id: Id) {
    exists p: seq<Id> :: IsPath(c, s, p) && p[0] == id && CanMove(c, s, p[|p| - 1])
  }

  lemma PathExtends(c: Config, s: State, a: Id, b: Id)
    requires WaitsFor(c, s, a, b) && LeadsToMover(c, s, b)
    ensures LeadsToMover(c, s, a)
  {
    var p: seq<Id> :| IsPath(c, s, p) && p[0] == b && CanMove(c, s, p[|p| - 1]);
    var q := [a] + p;
    forall i | 0 <= i < |q| - 1 ensures WaitsFor(c, s, q[i], q[i + 1]) {
      if i > 0 { assert WaitsFor(c, s, p[i - 1], p[i - 1 + 1]); }
    }
    assert q[|q| - 1] == p[|p| - 1];
  }

  lemma SomeoneAhead(c: Config, s: State, a: Id) returns (b: Id)
    requires Inv(c, s) && a in s.txs && !CanMove(c, s, a)
    ensures WaitsFor(c, s, a, b)
  {
    var h := c.hash(s.txs[a].key);
    if h in s.owner {
      b := s.owner[h];
    } else {
      b :| b in s.txs && s.txs[b].Waiting? && c.hash(s.txs[b].key) == h && s.txs[b].ticket < s.txs[a].ticket;
    }
  }

  lemma Follow(c: Config, s: State, a: Id, seen: set<Id>)
    requires Inv(c, s) && NoSandwich(c) && a in s.txs
    requires seen <= s.txs.Keys
    requires forall v | v in seen :: s.txs[a].Waiting? ==> Below(c, s, v, a)
    ensures LeadsToMover(c, s, a)
    decreases |s.txs.Keys - seen|
  {
    if CanMove(c, s, a) {
      assert IsPath(c, s, [a]);
    } else {
      var b := SomeoneAhead(c, s, a);
      assert a !in seen by { assert !Below(c, s, a, a); }
      if s.txs[b].Waiting? {
        WaitingRises(c, s, a, b);
        forall v | v in seen + {a} ensures Below(c, s, v, b) {
          if v != a { BelowTransitive(c, s, v, a, b); }
        }
      }
      assert s.txs.Keys - (seen + {a}) < s.txs.Keys - seen by { assert a in s.txs.Keys - seen; }
      SmallerSet(s.txs.Keys - (seen + {a}), s.txs.Keys - seen);
      Follow(c, s, b, seen + {a});
      PathExtends(c, s, a, b);
    }
  }

  lemma SmallerSet(a: set<Id>, b: set<Id>)
    requires a < b
    ensures |a| < |b|
  {
    assert b == a + (b - a);
    assert |b| == |a| + |b - a|;
  }

  /** Every waiter, in every reachable state, waits in the end for one that can go on. */
  lemma WaitersProgress(c: Config, run: seq<State>, i: nat, id: Id)
    requires NoSandwich(c) && IsRun(c, run) && i < |run| && id in run[i].txs
    ensures LeadsToMover(c, run[i], id)
  {
    RunKeepsInv(c, run, i);
    Follow(c, run[i], id, {});
  }

  /** Grants, and ends of transactions that do not wait. */
  ghost predicate Serves(s: State, step: Step) {
    step.Grant? || (step.End? && step.id in s.txs && !s.txs[step.id].Waiting?)
  }

  ghost predicate ServingNext(c: Config, s: State, s': State) {
    exists step :: Enabled(c, s, step) && s' == Do(c, s, step) && Serves(s, step)
  }

  ghost predicate ServingRun(c: Config, run: seq<State>) {
    |run| > 0 && forall i | 0 <= i < |run| - 1 :: ServingNext(c, run[i], run[i + 1])
  }

  ghost function Waiters(s: State): set<Id> { set w | w in s.txs && s.txs[w].Waiting? }

  lemma ServingStep(c: Config, s: State, b: Id) returns (step: Step)
    requires CanMove(c, s, b)
    ensures Enabled(c, s, step) && Serves(s, step) && OnlyTouchesTx(s, Do(c, s, step), b)
    ensures |Do(c, s, step).txs.Keys| + |Waiters(Do(c, s, step))| < |s.txs.Keys| + |Waiters(s)|
    ensures s.txs[b].Waiting? ==> step == Grant(b)
  {
    step := if s.txs[b].Waiting? then Grant(b) else End(b);
    var s' := Do(c, s, step);
    if s.txs[b].Waiting? {
      assert s'.txs.Keys == s.txs.Keys;
      assert Waiters(s') == Waiters(s) - {b};
    } else {
      assert s'.txs.Keys == s.txs.Keys - {b};
      assert Waiters(s') == Waiters(s);
    }
  }

  ghost predicate OnlyTouchesTx(s: State, s': State, b: Id) {
    forall o | o != b && o in s.txs :: o in s'.txs && s'.txs[o] == s.txs[o]
  }

  /** What a grant gives: the lock, and the key among those held. */
  lemma GrantGives(c: Config, s: State, a: Id)
    requires Grantable(c, s, a)
    ensures Enabled(c, s, Grant(a)) && Served(c, s, Do(c, s, Grant(a)), a)
  {
  }

  ghost predicate Served(c: Config, s: State, s': State, a: Id)
    requires a in s.txs && s.txs[a].Waiting?
  {
    && a in s'.txs && s'.txs[a] == Running(s.txs[a].held + {s.txs[a].key})
    && c.hash(s.txs[a].key) in s'.owner && s'.owner[c.hash(s.txs[a].key)] == a
  }

  lemma ServingCons(c: Config, s: State, run: seq<State>)
    requires ServingRun(c, run) && ServingNext(c, s, run[0])
    ensures ServingRun(c, [s] + run)
  {
    var all := [s] + run;
    forall i | 0 <= i < |all| - 1 ensures ServingNext(c, all[i], all[i + 1]) {
      if i > 0 { assert ServingNext(c, run[i - 1], run[i - 1 + 1]); }
    }
  }

  lemma {:induction false} Serve(c: Config, s: State, a: Id) returns (run: seq<State>)
    requires NoSandwich(c) && Inv(c, s) && a in s.txs && s.txs[a].Waiting?
    ensures ServingRun(c, run) && run[0] == s && Served(c, s, run[|run| - 1], a)
    decreases |s.txs.Keys| + |Waiters(s)|
  {
    Follow(c, s, a, {});
    var p: seq<Id> :| IsPath(c, s, p) && p[0] == a && CanMove(c, s, p[|p| - 1]);
    var b := p[|p| - 1];
    var step := ServingStep(c, s, b);
    var s1 := Do(c, s, step);
    assert ServingNext(c, s, s1);
    if b == a {
      GrantGives(c, s, a);
      run := [s, s1];
    } else {
      StepPreserves(c, s, step);
      var rest := Serve(c, s1, a);
      ServingCons(c, s, rest);
      run := [s] + rest;
    }
  }

  /** Without a sandwiched hash, every waiter in every state of every run can be given its lock by grants and
      ends of transactions that do not wait: nobody has to be cancelled. */
  lemma WaiterIsServed(c: Config, run: seq<State>, i: nat, a: Id) returns (more: seq<State>)
    requires NoSandwich(c) && IsRun(c, run) && i < |run| && a in run[i].txs && run[i].txs[a].Waiting?
    ensures ServingRun(c, more) && more[0] == run[i] && Served(c, run[i], more[|more| - 1], a)
  {
    RunKeepsInv(c, run, i);
    more := Serve(c, run[i], a);
  }

  /** The cleaner never waits, and a try gives it the lock exactly when nobody has it or waits for it. */
  lemma CleanerTries(c: Config, s: State, id: Id, h: int)
    requires Enabled(c, s, Try(id, h))
    ensures var s' := Do(c, s, Try(id, h));
            && s'.txs == s.txs
            && (h in s'.owner && s'.owner[h] == id <==> (h in s.owner && s.owner[h] == id) || !Contended(c, s, h))
            && forall x | x != h :: x in s'.owner <==> x in s.owner
  {
  }
}
