/** The storage wrapper that answers GET from the cache, and the transaction wrapper that remembers
    which keys it wrote. */
module CachedStore {
  import opened Basics
  import opened LockOrder
  import C = Cache
  import opened Cache
  import opened Backend

  datatype Settings = Settings(ttl: Time, maxSize: int, shouldCache: Key -> bool)

  /** The tables behind the wrapper and the items in its cache. */
  datatype View = View(tables: Tables, items: Items)

  // ---------------------------------------------------------------- what the wrappers invalidate

  datatype When = Always | IfChanged | Never

  /** When the wrapper of a collection command invalidates its key. */
  function Invalidates(op: Collection): When {
    match op
    case HIncrBy | HIncrByFloat | LRem | LTrim | LSet | LInsert => Always
    case ZRemRange | ZIncrBy | ZPopMin | PFAdd | PFMerge => Always
    case HSetNX | ZPopMax => IfChanged
    case HSet | HDel | LPush | RPush | LPop | RPop | LMPop | SAdd | SRem | ZAdd | ZRem | ZMPop => Never
  }

  /** When the transaction wrapper marks it: the same, but ZPOPMIN only if it popped something. */
  function MarksWhen(op: Collection): When { if op.ZPopMin? then IfChanged else Invalidates(op) }

  function KeyWhen(w: When, k: Key, c: Collected): set<Key> {
    if w.Always? || (w.IfChanged? && c.Collected? && c.changed) then {k} else {}
  }

  /** Invalidated by the wrapper of a single command that succeeded with this result. */
  function Invalidated(t: Tables, c: Command): set<Key> {
    match c
    case Set(k, _) => {k}
    case SetNX(k, _) => if k in t.meta then {} else {k}
    case MSet(pairs) => pairs.Keys
    case Update(k, _, _) => {k}
    case BitField(k, _) => {k}
    case GetEx(k) => {k}
    case GetDel(k) => {k}
    case GetSet(k, _) => {k}
    case Persist(k) => {k}
    case Del(keys) => Elements(keys)
    case Rename(from, to) => {from, to}
    case Copy(_, to, _, _) => if Raw(t, c).reply == Number(1) then {to} else {}
    case BitOp(to, _) => {to}
    case Store(to, _, _) => {to}
    case ZRangeStore(to, _) => {to}
    case Collect(op, k, compute) => KeyWhen(Invalidates(op), k, compute(t))
    case RPopLPush(from, to, _) => {from, to}
    case Get(_) => {}
    case Query(_) => {}
  }

  /** Marked by the transaction wrapper, which has no ZRangeStore of its own. */
  function Marked(t: Tables, c: Command): set<Key> {
    if c.ZRangeStore? || !Raw(t, c).outcome.Succeeds? then {}
    else if c.Collect? then KeyWhen(MarksWhen(c.op), c.key, c.compute(t))
    else Invalidated(t, c)
  }

  function MarkedAll(t: Tables, cs: seq<Command>): set<Key> {
    if cs == [] then {}
    else
      var front := RawAll(t, cs[..|cs| - 1]);
      MarkedAll(t, cs[..|cs| - 1]) + if front.aborted then {} else Marked(front.tables, cs[|cs| - 1])
  }

  // ---------------------------------------------------------------- the wrapper as a function

  function CachedGet(s: Settings, v: View, k: Key, now: Time): (View, Reply) {
    var cached := Lookup(v.items, k, now);
    if s.shouldCache(k) && cached.Some? then (v, Text(cached.value))
    else
      var found := Value(v.tables, k);
      (if found.Some? && s.shouldCache(k)
       then v.(items := Stored(v.items, k, found.value, now, s.ttl, s.maxSize)) else v,
       Found(found))
  }

  function CachedRun(s: Settings, v: View, c: Command, now: Time): (View, Reply) {
    if c.Get? then CachedGet(s, v, c.key, now)
    else
      var (t, reply) := Run(v.tables, c);
      (View(t, if Raw(v.tables, c).outcome.Succeeds? then v.items - Invalidated(v.tables, c) else v.items), reply)
  }

  function CachedTx(v: View, cs: seq<Command>): (View, Reply) {
    var (t, reply) := RunTx(v.tables, cs);
    (View(t, if RawAll(v.tables, cs).aborted then v.items else v.items - MarkedAll(v.tables, cs)), reply)
  }

  // ---------------------------------------------------------------- coherence

  /** Whatever the cache holds is what the string table holds. */
  ghost predicate Coherent(v: View) {
    forall k | k in v.items :: Value(v.tables, k) == Some(v.items[k].value)
  }

  lemma {:induction false} DeleteEachValue(t: Tables, keys: seq<Key>, k: Key)
    requires k !in Elements(keys)
    ensures Value(DeleteEach(t, keys).0, k) == Value(t, k)
    decreases |keys|
  {
    if keys != [] {
      assert forall i | 0 <= i < |keys[1..]| :: keys[1..][i] == keys[i + 1];
      DeleteEachValue(if keys[0] in t.meta then DeleteAll(t, keys[0]) else t, keys[1..], k);
      assert keys[0] in Elements(keys);
    }
  }

  lemma RenameCovers(t: Tables, from: Key, to: Key, k: Key)
    requires k != from && k != to
    ensures Value(DoRename(t, from, to).tables, k) == Value(t, k)
  {
  }

  lemma CopyCovers(t: Tables, from: Key, to: Key, replace: bool, rowsCopied: bool, k: Key)
    ensures var d := DoCopy(t, from, to, replace, rowsCopied);
            k != to || d.reply == Number(0) ==> Value(d.tables, k) == Value(t, k)
  {
  }

  lemma CollectKeepsStrings(t: Tables, op: Collection, k: Key, c: Collected)
    ensures DoCollect(t, op, k, c).tables.strings == t.strings
  {
  }

  /** A command that succeeds changes the string value of no key but those it invalidates. */
  lemma InvalidationCovers(t: Tables, c: Command, k: Key)
    requires Raw(t, c).outcome.Succeeds? && k !in Invalidated(t, c)
    ensures Value(Raw(t, c).tables, k) == Value(t, k)
  {
    match c
    case Del(keys) => DeleteEachValue(t, keys, k);
    case Rename(from, to) => RenameCovers(t, from, to, k);
    case Copy(from, to, replace, rowsCopied) => CopyCovers(t, from, to, replace, rowsCopied, k);
    case _ => if OneString(c) { OneStringCovers(t, c, k); }
  }

  predicate OneString(c: Command) {
    c.Set? || c.SetNX? || c.Update? || c.BitField? || c.GetDel? || c.GetSet? || c.BitOp?
  }

  lemma OneStringCovers(t: Tables, c: Command, k: Key)
    requires OneString(c) && k !in Invalidated(t, c)
    ensures Value(Raw(t, c).tables, k) == Value(t, k)
  {
  }

  /** The commands that, inside a transaction, change a string value behind the cache's back:
      ZRANGESTORE over a string; RENAME of a HyperLogLog and a COPY that fails, onto a string. */
  predicate LeavesStale(t: Tables, c: Command) {
    match c
    case ZRangeStore(to, compute) => to in t.strings && compute(DeleteAll(t, to)).Collected?
    case Rename(from, to) => from in t.meta && t.meta[from].HyperLogLogKind? && to in t.strings
    case Copy(from, to, replace, rowsCopied) =>
      && from in t.meta && to in t.meta && replace && to in t.strings
      && (match t.meta[from]
          case StringKind => from == to || from !in t.strings
          case HyperLogLogKind => false
          case _ => !rowsCopied)
    case _ => false
  }

  lemma StaleIsLost(t: Tables, c: Command)
    requires LeavesStale(t, c)
    ensures Value(Raw(t, c).tables, c.to) == None && Marked(t, c) == {} && !Raw(t, c).outcome.Aborts?
  {
  }

  lemma FailureLosesNothingElse(t: Tables, c: Command, k: Key)
    requires Raw(t, c).outcome.Fails? && !LeavesStale(t, c)
    ensures Value(Raw(t, c).tables, k) == Value(t, k)
  {
  }

  /** Inside a transaction, a change to a string value goes unmarked exactly then. */
  lemma MarksCoverExactly(t: Tables, c: Command)
    requires !Raw(t, c).outcome.Aborts?
    ensures (exists k :: k !in Marked(t, c) && Value(Raw(t, c).tables, k) != Value(t, k)) <==> LeavesStale(t, c)
  {
    if LeavesStale(t, c) {
      StaleIsLost(t, c);
      assert c.to !in Marked(t, c) && Value(Raw(t, c).tables, c.to) != Value(t, c.to);
    } else {
      forall k | k !in Marked(t, c) ensures Value(Raw(t, c).tables, k) == Value(t, k) {
        if Raw(t, c).outcome.Fails? {
          FailureLosesNothingElse(t, c, k);
        } else if c.Collect? {
          CollectKeepsStrings(t, c.op, c.key, c.compute(t));
        } else if !c.ZRangeStore? {
          InvalidationCovers(t, c, k);
        }
      }
    }
  }

  /** A transaction whose commands all succeed and are no ZRANGESTORE leaves nothing stale. */
  lemma SuccessLeavesNothingStale(t: Tables, c: Command)
    requires Raw(t, c).outcome.Succeeds? && !c.ZRangeStore?
    ensures !LeavesStale(t, c)
  {
  }

  /** Command n of the transaction, where it runs, takes a string value away unmarked. */
  ghost predicate LosesAt(t: Tables, cs: seq<Command>, n: nat, k: Key)
    requires n < |cs|
  {
    LeavesStale(RawAll(t, cs[..n]).tables, cs[n]) && cs[n].to == k
  }

  ghost predicate Loses(t: Tables, cs: seq<Command>, k: Key) {
    exists n | 0 <= n < |cs| :: LosesAt(t, cs, n, k)
  }

  /** The transaction commits, and no command of it marks a key that one of them lost. */
  ghost predicate TxStale(t: Tables, cs: seq<Command>) {
    !RawAll(t, cs).aborted && exists k :: k !in MarkedAll(t, cs) && Loses(t, cs, k)
  }

  /** A command that leaves a key stale changes no other string value. */
  lemma OnlyStaleChanges(t: Tables, c: Command, k: Key)
    requires !Raw(t, c).outcome.Aborts? && k !in Marked(t, c)
    requires LeavesStale(t, c) ==> k != c.to
    ensures Value(Raw(t, c).tables, k) == Value(t, k)
  {
    if !LeavesStale(t, c) { MarksCoverExactly(t, c); }
  }

  lemma {:induction false} LosesStep(t: Tables, cs: seq<Command>, c: Command, k: Key)
    ensures Loses(t, cs + [c], k) <==> Loses(t, cs, k) || (LeavesStale(RawAll(t, cs).tables, c) && c.to == k)
  {
    var all := cs + [c];
    assert all[..|cs|] == cs && all[|cs|] == c;
    assert LosesAt(t, all, |cs|, k) <==> LeavesStale(RawAll(t, cs).tables, c) && c.to == k;
    forall n | 0 <= n < |cs| ensures LosesAt(t, all, n, k) == LosesAt(t, cs, n, k) {
      assert all[..n] == cs[..n] && all[n] == cs[n];
    }
  }

  /** What a committed transaction does to a string value it does not mark: once lost it stays lost,
      and otherwise it is as before. */
  lemma {:induction false} UnmarkedExactly(t: Tables, cs: seq<Command>, k: Key)
    requires !RawAll(t, cs).aborted && k !in MarkedAll(t, cs)
    ensures Loses(t, cs, k) ==> k in t.strings && Value(RawAll(t, cs).tables, k) == None
    ensures !Loses(t, cs, k) ==> Value(RawAll(t, cs).tables, k) == Value(t, k)
    decreases |cs|
  {
    if cs != [] {
      var front, c := cs[..|cs| - 1], cs[|cs| - 1];
      assert cs == front + [c];
      RawAllStep(t, front, c);
      LosesStep(t, front, c, k);
      UnmarkedExactly(t, front, k);
      var before := RawAll(t, front).tables;
      if LeavesStale(before, c) && c.to == k { StaleIsLost(before, c); } else { OnlyStaleChanges(before, c, k); }
    }
  }

  lemma {:induction false} TwoCommands(t: Tables, a: Command, b: Command)
    requires !Raw(t, a).outcome.Aborts?
    ensures var t1 := Raw(t, a).tables;
            && RawAll(t, [a, b]).aborted == Raw(t1, b).outcome.Aborts?
            && MarkedAll(t, [a, b]) == Marked(t, a) + Marked(t1, b)
            && forall k :: Loses(t, [a, b], k)
                      <==> (LeavesStale(t, a) && a.to == k) || (LeavesStale(t1, b) && b.to == k)
  {
    assert [] + [a] == [a] && [a] + [b] == [a, b];
    RawAllStep(t, [], a);
    RawAllStep(t, [a], b);
    forall k
      ensures Loses(t, [a, b], k)
         <==> (LeavesStale(t, a) && a.to == k) || (LeavesStale(Raw(t, a).tables, b) && b.to == k)
    {
      LosesStep(t, [], a, k);
      LosesStep(t, [a], b, k);
    }
  }

  /** After ZRANGESTORE over a string, a command on that collection leaves the transaction stale exactly
      when its wrapper does not mark the key: ZINCRBY repairs what ZADD does not. */
  lemma CollectAfterZRangeStore(t: Tables, k: Key, store: Tables -> Collected,
                                op: Collection, compute: Tables -> Collected)
    requires k in t.strings && store(DeleteAll(t, k)).Collected?
    requires Raw(Raw(t, ZRangeStore(k, store)).tables, Collect(op, k, compute)).outcome.Succeeds?
    ensures TxStale(t, [ZRangeStore(k, store), Collect(op, k, compute)])
            <==> match op
                 case HSet | HDel | LPush | RPush | LPop | RPop | LMPop => true
                 case SAdd | SRem | ZAdd | ZRem | ZMPop => true
                 case HSetNX | ZPopMin | ZPopMax => !compute(Raw(t, ZRangeStore(k, store)).tables).changed
                 case _ => false
  {
    var a, b := ZRangeStore(k, store), Collect(op, k, compute);
    TwoCommands(t, a, b);
    assert Loses(t, [a, b], k);
  }

  /** A transaction keeps every coherent cache coherent if and only if it leaves nothing stale. */
  lemma CoherentExactly(t: Tables, cs: seq<Command>)
    ensures (forall items :: Coherent(View(t, items)) ==> Coherent(CachedTx(View(t, items), cs).0)) <==> !TxStale(t, cs)
  {
    if TxStale(t, cs) {
      var k :| k !in MarkedAll(t, cs) && Loses(t, cs, k);
      UnmarkedExactly(t, cs, k);
      var items: Items := map[k := Entry(t.strings[k], 0)];
      assert k in items - MarkedAll(t, cs);
      assert Coherent(View(t, items)) && !Coherent(CachedTx(View(t, items), cs).0);
    } else {
      forall items | Coherent(View(t, items)) ensures Coherent(CachedTx(View(t, items), cs).0) {
        CoherentKept(View(t, items), cs);
      }
    }
  }

  lemma CoherentKept(v: View, cs: seq<Command>)
    requires Coherent(v) && !TxStale(v.tables, cs)
    ensures Coherent(CachedTx(v, cs).0)
  {
    if !RawAll(v.tables, cs).aborted {
      forall k | k in v.items && k !in MarkedAll(v.tables, cs)
        ensures Value(RawAll(v.tables, cs).tables, k) == Some(v.items[k].value)
      {
        UnmarkedExactly(v.tables, cs, k);
      }
    }
  }

  // ---------------------------------------------------------------- transparency

  /** One command: same reply and tables as without the cache, and the cache stays coherent. */
  lemma CommandTransparent(s: Settings, v: View, c: Command, now: Time)
    requires Coherent(v)
    ensures var (v', reply) := CachedRun(s, v, c, now); Coherent(v') && (v'.tables, reply) == Run(v.tables, c)
  {
    if !c.Get? && Raw(v.tables, c).outcome.Succeeds? {
      forall k | k in v.items && k !in Invalidated(v.tables, c)
        ensures Value(Raw(v.tables, c).tables, k) == Some(v.items[k].value)
      {
        InvalidationCovers(v.tables, c, k);
      }
    }
  }

  lemma TransactionTransparent(v: View, cs: seq<Command>)
    requires Coherent(v) && !TxStale(v.tables, cs)
    ensures var (v', reply) := CachedTx(v, cs); Coherent(v') && (v'.tables, reply) == RunTx(v.tables, cs)
  {
    CoherentKept(v, cs);
  }

  datatype Request = Single(command: Command, now: Time) | Multi(commands: seq<Command>)

  function Plain(t: Tables, r: Request): (Tables, Reply) {
    match r
    case Single(c, _) => Run(t, c)
    case Multi(cs) => RunTx(t, cs)
  }

  function Cached(s: Settings, v: View, r: Request): (View, Reply) {
    match r
    case Single(c, now) => CachedRun(s, v, c, now)
    case Multi(cs) => CachedTx(v, cs)
  }

  function PlainSession(t: Tables, rs: seq<Request>): (replies: seq<Reply>)
    ensures |replies| == |rs|
    decreases |rs|
  {
    if rs == [] then [] else var (t', reply) := Plain(t, rs[0]); [reply] + PlainSession(t', rs[1..])
  }

  function CachedSession(s: Settings, v: View, rs: seq<Request>): (replies: seq<Reply>)
    ensures |replies| == |rs|
    decreases |rs|
  {
    if rs == [] then [] else var (v', reply) := Cached(s, v, rs[0]); [reply] + CachedSession(s, v', rs[1..])
  }

  ghost predicate NeverStale(t: Tables, rs: seq<Request>)
    decreases |rs|
  {
    rs == [] || ((rs[0].Multi? ==> !TxStale(t, rs[0].commands)) && NeverStale(Plain(t, rs[0]).0, rs[1..]))
  }

  /** Every session whose transactions leave nothing stale gets the same replies with and without
      the cache, whatever the cache's size, TTL and policy and whenever the commands come. */
  lemma {:induction false} SessionTransparent(s: Settings, v: View, rs: seq<Request>)
    requires Coherent(v) && NeverStale(v.tables, rs)
    ensures CachedSession(s, v, rs) == PlainSession(v.tables, rs)
    decreases |rs|
  {
    if rs != [] {
      match rs[0] {
        case Single(c, now) => CommandTransparent(s, v, c, now);
        case Multi(cs) => TransactionTransparent(v, cs);
      }
      SessionTransparent(s, Cached(s, v, rs[0]).0, rs[1..]);
    }
  }

  /** Every key may be cached, and there is room for it. */
  ghost predicate CachesAll(s: Settings) { s.ttl >= 0 && s.maxSize <= 0 && forall k :: s.shouldCache(k) }

  lemma {:induction false} SessionCons(s: Settings, v: View, r: Request, rs: seq<Request>)
    ensures PlainSession(v.tables, [r] + rs) == [Plain(v.tables, r).1] + PlainSession(Plain(v.tables, r).0, rs)
    ensures CachedSession(s, v, [r] + rs) == [Cached(s, v, r).1] + CachedSession(s, Cached(s, v, r).0, rs)
  {
    assert ([r] + rs)[1..] == rs;
  }

  /** A transaction between two GETs of a key, and more requests. */
  function Around(k: Key, cs: seq<Command>, now: Time, rest: seq<Request>): (rs: seq<Request>)
    ensures |rs| == 3 + |rest|
  {
    [Single(Get(k), now)] + ([Multi(cs)] + ([Single(Get(k), now)] + rest))
  }

  lemma {:induction false} AroundSession(s: Settings, v: View, k: Key, cs: seq<Command>, now: Time, rest: seq<Request>)
    ensures var v1 := CachedGet(s, v, k, now).0;
            var v2 := CachedTx(v1, cs).0;
            CachedSession(s, v, Around(k, cs, now, rest))[2] == CachedGet(s, v2, k, now).1
    ensures PlainSession(v.tables, Around(k, cs, now, rest))[2] == Found(Value(RunTx(v.tables, cs).0, k))
  {
    var get, tx := Single(Get(k), now), Multi(cs);
    var v1 := CachedGet(s, v, k, now).0;
    SessionCons(s, v, get, [tx] + ([get] + rest));
    SessionCons(s, v1, tx, [get] + rest);
    SessionCons(s, CachedTx(v1, cs).0, get, rest);
  }

  lemma GetCaches(s: Settings, v: View, k: Key, now: Time)
    requires Coherent(v) && CachesAll(s) && k in v.tables.strings
    ensures var v1 := CachedGet(s, v, k, now).0;
            v1.tables == v.tables && Lookup(v1.items, k, now) == Some(v.tables.strings[k])
  {
  }

  /** A stale transaction shows: from every coherent cache, a GET after it still gives the value that
      is gone. */
  lemma StaleTransactionShows(s: Settings, v: View, cs: seq<Command>, now: Time, rest: seq<Request>) returns (k: Key)
    requires Coherent(v) && CachesAll(s) && TxStale(v.tables, cs)
    ensures k in v.tables.strings
    ensures CachedSession(s, v, Around(k, cs, now, rest))[2] == Text(v.tables.strings[k])
    ensures PlainSession(v.tables, Around(k, cs, now, rest))[2] == Nil
  {
    k :| k !in MarkedAll(v.tables, cs) && Loses(v.tables, cs, k);
    UnmarkedExactly(v.tables, cs, k);
    AroundSession(s, v, k, cs, now, rest);
    GetCaches(s, v, k, now);
    var v1 := CachedGet(s, v, k, now).0;
    assert k in v1.items - MarkedAll(v.tables, cs);
  }

  /** `more` is `rs` with GETs put in anywhere. */
  ghost predicate WithGets(more: seq<Request>, rs: seq<Request>)
    decreases |more|
  {
    if more == [] then rs == []
    else
      || (rs != [] && more[0] == rs[0] && WithGets(more[1..], rs[1..]))
      || (more[0].Single? && more[0].command.Get? && WithGets(more[1..], rs))
  }

  lemma {:induction false} WithGetsCons(r: Request, more: seq<Request>, rs: seq<Request>)
    requires WithGets(more, rs)
    ensures WithGets([r] + more, [r] + rs)
    ensures r.Single? && r.command.Get? ==> WithGets([r] + more, rs)
  {
    assert ([r] + more)[1..] == more && ([r] + rs)[1..] == rs;
  }

  lemma {:induction false} WithGetsSelf(rs: seq<Request>)
    ensures WithGets(rs, rs)
    decreases |rs|
  {
    if rs != [] {
      WithGetsSelf(rs[1..]);
      assert rs == [rs[0]] + rs[1..];
    }
  }

  lemma {:induction false} GetsAreNeverStale(t: Tables, more: seq<Request>, rs: seq<Request>)
    requires NeverStale(t, rs) && WithGets(more, rs)
    ensures NeverStale(t, more)
    decreases |more|
  {
    if more != [] {
      if rs != [] && more[0] == rs[0] && WithGets(more[1..], rs[1..]) {
        GetsAreNeverStale(Plain(t, more[0]).0, more[1..], rs[1..]);
      } else {
        GetsAreNeverStale(t, more[1..], rs);
      }
    }
  }

  ghost predicate Differs(s: Settings, v: View, rs: seq<Request>) {
    CachedSession(s, v, rs) != PlainSession(v.tables, rs)
  }

  lemma DiffersCons(s: Settings, v: View, r: Request, rs: seq<Request>)
    requires Differs(s, Cached(s, v, r).0, rs) && Cached(s, v, r).0.tables == Plain(v.tables, r).0
    ensures Differs(s, v, [r] + rs)
  {
    SessionCons(s, v, r, rs);
    assert CachedSession(s, v, [r] + rs)[1..] == CachedSession(s, Cached(s, v, r).0, rs);
    assert PlainSession(v.tables, [r] + rs)[1..] == PlainSession(Plain(v.tables, r).0, rs);
  }

  /** A session with a stale transaction can be asked so that it shows. */
  lemma {:induction false} StaleSessionShows(s: Settings, v: View, rs: seq<Request>, now: Time)
    returns (more: seq<Request>)
    requires Coherent(v) && CachesAll(s) && !NeverStale(v.tables, rs)
    ensures WithGets(more, rs) && Differs(s, v, more)
    decreases |rs|
  {
    var r, rest := rs[0], rs[1..];
    assert rs == [r] + rest;
    if r.Multi? && TxStale(v.tables, r.commands) {
      var k := StaleTransactionShows(s, v, r.commands, now, rest);
      more := Around(k, r.commands, now, rest);
      WithGetsSelf(rest);
      WithGetsCons(Single(Get(k), now), rest, rest);
      WithGetsCons(r, [Single(Get(k), now)] + rest, rest);
      WithGetsCons(Single(Get(k), now), [r] + ([Single(Get(k), now)] + rest), rs);
    } else {
      if r.Single? { CommandTransparent(s, v, r.command, r.now); } else { TransactionTransparent(v, r.commands); }
      var tail := StaleSessionShows(s, Cached(s, v, r).0, rest, now);
      WithGetsCons(r, tail, rest);
      DiffersCons(s, v, r, tail);
      more := [r] + tail;
    }
  }

  /** With GETs put in anywhere, a session gets the same replies with and without the cache, if and
      only if none of its transactions leaves a key stale. */
  lemma {:induction false} SessionTransparentExactly(s: Settings, v: View, rs: seq<Request>)
    requires Coherent(v) && CachesAll(s)
    ensures (forall more | WithGets(more, rs) :: !Differs(s, v, more)) <==> NeverStale(v.tables, rs)
  {
    if NeverStale(v.tables, rs) {
      forall more | WithGets(more, rs) ensures !Differs(s, v, more) {
        GetsAreNeverStale(v.tables, more, rs);
        SessionTransparent(s, v, more);
      }
    } else {
      var more := StaleSessionShows(s, v, rs, 0);
    }
  }

  // ---------------------------------------------------------------- the wrappers as objects

  class Store {
    var tables: Tables
    const cache: C.Cache
    const shouldCache: Key -> bool

    ghost predicate Valid() reads this, cache { cache.Valid() }

    ghost function Contents(): View reads this, cache { View(tables, cache.items) }

    ghost function Configured(): Settings { Settings(cache.ttl, cache.maxSize, shouldCache) }

    constructor (tables: Tables, ttl: Time, maxSize: int, shouldCache: Key -> bool)
      ensures Valid() && fresh(cache)
      ensures Contents() == View(tables, map[]) && Configured() == Settings(ttl, maxSize, shouldCache)
    {
      this.tables, this.shouldCache := tables, shouldCache;
      this.cache := new C.Cache(ttl, maxSize);
    }

    method Get(key: Key, now: Time) returns (reply: Reply)
      requires Valid()
      modifies cache
      ensures Valid()
      ensures (Contents(), reply) == CachedGet(Configured(), old(Contents()), key, now)
    {
      if shouldCache(key) {
        var cached, hit := cache.Get(key, now);
        if hit { return Text(cached); }
      }
      if key !in tables.strings { return Nil; }
      var value := tables.strings[key];
      if shouldCache(key) { cache.Set(key, value, now); }
      return Text(value);
    }

    /** The wrapper of every other command. */
    method Execute(c: Command, now: Time) returns (reply: Reply)
      requires Valid()
      modifies this, cache
      ensures Valid()
      ensures (Contents(), reply) == CachedRun(Configured(), old(Contents()), c, now)
    {
      if c.Get? {
        reply := Get(c.key, now);
        return;
      }
      var done, stale := Raw(tables, c), Invalidated(tables, c);
      reply := done.reply;
      if !done.outcome.Succeeds? { return; }
      tables := done.tables;
      InvalidateAfter(c, stale);
    }

    /** DEL and RENAME hand over a list of keys, the others go key by key. */
    method InvalidateAfter(c: Command, stale: set<Key>)
      requires Valid()
      requires (c.Del? ==> stale == Elements(c.keys)) && (c.Rename? ==> stale == {c.from, c.to})
      modifies cache
      ensures Valid() && cache.items == old(cache.items) - stale
    {
      if c.Del? {
        cache.DeleteMulti(c.keys);
      } else if c.Rename? {
        assert Elements([c.from, c.to]) == {c.from, c.to} by {
          assert [c.from, c.to][0] == c.from && [c.from, c.to][1] == c.to;
        }
        cache.DeleteMulti([c.from, c.to]);
      } else {
        InvalidateAll(stale);
      }
    }

    method InvalidateAll(keys: set<Key>)
      requires Valid()
      modifies cache
      ensures Valid() && cache.items == old(cache.items) - keys
    {
      var todo := keys;
      RemoveNone(cache.items, keys);
      while todo != {}
        invariant Valid() && todo <= keys && cache.items == old(cache.items) - (keys - todo)
        decreases |todo|
      {
        var key: Key :| key in todo;
        RemoveMore(old(cache.items), keys, todo, key);
        cache.Delete(key);
        todo := todo - {key};
      }
      assert keys - {} == keys;
    }

    method ExecuteTx(cs: seq<Command>) returns (reply: Reply)
      requires Valid()
      modifies this, cache
      ensures Valid()
      ensures (Contents(), reply) == CachedTx(old(Contents()), cs)
    {
      var tx := RunCommands(tables, cs);
      if tx.aborted { return Failure("transaction commit failed"); }
      tables := tx.tables;
      InvalidateAll(tx.dirty);
      return Many(tx.replies);
    }
  }

  lemma RemoveNone(items: Items, keys: set<Key>)
    ensures items - (keys - keys) == items
  {
  }

  lemma RemoveMore(items: Items, keys: set<Key>, todo: set<Key>, key: Key)
    requires key in todo && todo <= keys
    ensures items - (keys - todo) - {key} == items - (keys - (todo - {key})) && todo - {key} <= keys
  {
  }

  /** The commands of one transaction, in order. */
  method RunCommands(t: Tables, cs: seq<Command>) returns (tx: CachingTx)
    ensures fresh(tx) && tx.Now() == RawAll(t, cs) && tx.dirty == MarkedAll(t, cs)
  {
    tx := new CachingTx(t);
    for n := 0 to |cs|
      invariant fresh(tx) && tx.Now() == RawAll(t, cs[..n]) && tx.dirty == MarkedAll(t, cs[..n])
    {
      RawAllStep(t, cs[..n], cs[n]);
      assert cs[..n + 1] == cs[..n] + [cs[n]];
      tx.Apply(cs[n]);
    }
    assert cs[..|cs|] == cs;
  }

  lemma {:induction false} RawAllStep(t: Tables, cs: seq<Command>, c: Command)
    ensures RawAll(t, cs + [c]) == RawNext(RawAll(t, cs), c)
    ensures MarkedAll(t, cs + [c])
         == MarkedAll(t, cs) + if RawAll(t, cs).aborted then {} else Marked(RawAll(t, cs).tables, c)
  {
  }

  /** An open transaction and the keys its commands wrote. */
  class CachingTx {
    var tables: Tables
    var replies: seq<Reply>
    var aborted: bool
    var dirty: set<Key>

    ghost function Now(): TxDone reads this { TxDone(tables, replies, aborted) }

    constructor (tables: Tables)
      ensures Now() == TxDone(tables, [], false) && dirty == {}
    {
      this.tables, this.replies, this.aborted, this.dirty := tables, [], false, {};
    }

    method Apply(c: Command)
      modifies this
      ensures Now() == RawNext(old(Now()), c)
      ensures dirty == old(dirty) + if old(aborted) then {} else Marked(old(tables), c)
    {
      if aborted {
        replies := replies + [Failure("current transaction is aborted")];
        return;
      }
      var d := Raw(tables, c);
      if d.outcome.Succeeds? {
        if c.Collect? {
          dirty := dirty + KeyWhen(MarksWhen(c.op), c.key, c.compute(tables));
        } else if !c.ZRangeStore? {
          dirty := dirty + Invalidated(tables, c);
        }
      }
      tables, replies, aborted := d.tables, replies + [d.reply], d.outcome.Aborts?;
    }
  }
}
