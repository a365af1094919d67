/** Subscriptions: two indices of one relation, the replies that count them, delivery, and the
    pub/sub mode of each client. */
module PubSub {
  import opened LockOrder
  import Glob

  type Id = int
  type Name = string

  /** The names each client is subscribed to; a client with none is absent. */
  type Index = map<Id, set<Name>>

  function Of(m: Index, id: Id): set<Name> { if id in m then m[id] else {} }

  function Put(m: Index, id: Id, names: set<Name>): Index { if names == {} then m - {id} else m[id := names] }

  ghost predicate NoneEmpty(m: Index) { forall id | id in m :: m[id] != {} }

  /** The other index says the same. */
  ghost predicate Mirrors(byName: map<Name, set<Id>>, byClient: Index) {
    && (forall n | n in byName :: byName[n] != {})
    && (forall n, id :: Agree(byName, byClient, n, id))
  }

  ghost predicate Agree(byName: map<Name, set<Id>>, byClient: Index, n: Name, id: Id) {
    Listed(byName, n, id) <==> n in Of(byClient, id)
  }

  predicate Listed(byName: map<Name, set<Id>>, n: Name, id: Id) { n in byName && id in byName[n] }

  function WithClient(byName: map<Name, set<Id>>, n: Name, id: Id): map<Name, set<Id>> {
    byName[n := (if n in byName then byName[n] else {}) + {id}]
  }

  function WithoutClient(byName: map<Name, set<Id>>, n: Name, id: Id): map<Name, set<Id>> {
    if n !in byName then byName
    else if byName[n] - {id} == {} then byName - {n}
    else byName[n := byName[n] - {id}]
  }

  lemma WithoutListed(byName: map<Name, set<Id>>, n: Name, id: Id, m: Name, o: Id)
    ensures Listed(WithoutClient(byName, n, id), m, o) <==> Listed(byName, m, o) && !(m == n && o == id)
  {
    if n in byName && m == n { assert o in byName[n] && o != id ==> o in byName[n] - {id}; }
  }

  lemma MirrorsInsert(byName: map<Name, set<Id>>, byClient: Index, n: Name, id: Id)
    requires Mirrors(byName, byClient) && id in byClient
    ensures Mirrors(WithClient(byName, n, id), byClient[id := byClient[id] + {n}])
  {
    var byName', byClient' := WithClient(byName, n, id), byClient[id := byClient[id] + {n}];
    forall m, o ensures Agree(byName', byClient', m, o) { assert Agree(byName, byClient, m, o); }
  }

  lemma MirrorsDelete(byName: map<Name, set<Id>>, byClient: Index, n: Name, id: Id)
    requires Mirrors(byName, byClient)
    ensures Mirrors(WithoutClient(byName, n, id), Put(byClient, id, Of(byClient, id) - {n}))
  {
    var byName', byClient' := WithoutClient(byName, n, id), Put(byClient, id, Of(byClient, id) - {n});
    forall m, o ensures Agree(byName', byClient', m, o) {
      WithoutListed(byName, n, id, m, o);
      assert Agree(byName, byClient, m, o);
    }
  }

  lemma MirrorsEmptyBucket(byName: map<Name, set<Id>>, byClient: Index, id: Id)
    requires Mirrors(byName, byClient) && id !in byClient
    ensures Mirrors(byName, byClient[id := {}])
  {
    var byClient' := byClient[id := {}];
    forall m, o ensures Agree(byName, byClient', m, o) { assert Agree(byName, byClient, m, o); }
  }

  lemma SnocElements(names: seq<Name>, n: Name)
    ensures Elements(names + [n]) == Elements(names) + {n}
  {
    var all := names + [n];
    assert all[|names|] == n;
    assert forall i | 0 <= i < |names| :: all[i] == names[i];
  }

  /** The client's names after the first n of `names` were added, or removed. */
  ghost function Added(m: Index, id: Id, names: seq<Name>, n: nat): set<Name>
    requires n <= |names|
  {
    Of(m, id) + Elements(names[..n])
  }

  ghost function Left(m: Index, id: Id, names: seq<Name>, n: nat): set<Name>
    requires n <= |names|
  {
    Of(m, id) - Elements(names[..n])
  }

  lemma AddedStep(m: Index, id: Id, names: seq<Name>, n: nat)
    requires n < |names|
    ensures Added(m, id, names, n) + {names[n]} == Added(m, id, names, n + 1)
    ensures m[id := Added(m, id, names, n)][id := Added(m, id, names, n + 1)] == m[id := Added(m, id, names, n + 1)]
  {
  }

  lemma LeftStep(m: Index, id: Id, names: seq<Name>, n: nat)
    requires n < |names|
    ensures Left(m, id, names, n) - {names[n]} == Left(m, id, names, n + 1)
    ensures var now := Put(m, id, Left(m, id, names, n));
            && Of(now, id) == Left(m, id, names, n)
            && Put(now, id, Left(m, id, names, n + 1)) == Put(m, id, Left(m, id, names, n + 1))
  {
  }

  /** Each count is that of the client's names at that point. */
  ghost predicate CountsAdded(m: Index, id: Id, names: seq<Name>, counts: seq<nat>, n: nat) {
    n <= |names| && |counts| == n && forall i | 0 <= i < n :: counts[i] == |Added(m, id, names, i + 1)|
  }

  lemma CountsAddedStep(m: Index, id: Id, names: seq<Name>, counts: seq<nat>, n: nat, count: nat)
    requires n < |names| && CountsAdded(m, id, names, counts, n) && count == |Added(m, id, names, n + 1)|
    ensures CountsAdded(m, id, names, counts + [count], n + 1)
  {
  }

  ghost predicate CountsLeft(m: Index, id: Id, names: seq<Name>, counts: seq<nat>, n: nat) {
    n <= |names| && |counts| == n && forall i | 0 <= i < n :: counts[i] == |Left(m, id, names, i + 1)|
  }

  lemma CountsLeftStep(m: Index, id: Id, names: seq<Name>, counts: seq<nat>, n: nat, count: nat)
    requires n < |names| && CountsLeft(m, id, names, counts, n) && count == |Left(m, id, names, n + 1)|
    ensures CountsLeft(m, id, names, counts + [count], n + 1)
  {
  }

  lemma PutSame(m: Index, id: Id)
    requires NoneEmpty(m)
    ensures Put(m, id, Of(m, id)) == m
  {
  }

  lemma PutTwice(m: Index, id: Id, a: set<Name>, b: set<Name>)
    ensures Put(Put(m, id, a), id, b) == Put(m, id, b) && Of(Put(m, id, a), id) == a
  {
  }

  /** One half of the hub, the channels or the patterns: both indices. */
  datatype Registry = Registry(byName: map<Name, set<Id>>, byClient: Index) {
    ghost predicate Valid() { Mirrors(byName, byClient) && NoneEmpty(byClient) }

    function Count(id: Id): nat { |Of(byClient, id)| }
  }

  /** The loop of Subscribe and of PSubscribe.  Without names it would leave an empty bucket. */
  method Add(before: Registry, id: Id, names: seq<Name>) returns (r: Registry, counts: seq<nat>)
    requires before.Valid()
    ensures Mirrors(r.byName, r.byClient) && (names != [] ==> r.Valid())
    ensures r.byClient == before.byClient[id := Added(before.byClient, id, names, |names|)]
    ensures CountsAdded(before.byClient, id, names, counts, |names|)
  {
    var byName: map<Name, set<Id>>, byClient: Index := before.byName, before.byClient;
    counts := [];
    if id !in byClient {
      MirrorsEmptyBucket(byName, byClient, id);
      byClient := byClient[id := {}];
    }
    assert Added(before.byClient, id, names, 0) == Of(before.byClient, id);
    for n := 0 to |names|
      invariant Mirrors(byName, byClient)
      invariant byClient == before.byClient[id := Added(before.byClient, id, names, n)]
      invariant CountsAdded(before.byClient, id, names, counts, n)
    {
      MirrorsInsert(byName, byClient, names[n], id);
      AddedStep(before.byClient, id, names, n);
      byName := byName[names[n] := (if names[n] in byName then byName[names[n]] else {}) + {id}];
      byClient := byClient[id := byClient[id] + {names[n]}];
      CountsAddedStep(before.byClient, id, names, counts, n, |byClient[id]|);
      counts := counts + [|byClient[id]|];
    }
    if names != [] { assert names[..|names|][0] in Elements(names[..|names|]); }
    r := Registry(byName, byClient);
  }

  method Delete(before: Registry, id: Id, n: Name) returns (r: Registry, count: nat)
    requires before.Valid()
    ensures r.Valid() && r.byClient == Put(before.byClient, id, Of(before.byClient, id) - {n})
    ensures count == |Of(before.byClient, id) - {n}|
  {
    var byName: map<Name, set<Id>>, byClient: Index := before.byName, before.byClient;
    MirrorsDelete(byName, byClient, n, id);
    if n in byName {
      var rest := byName[n] - {id};
      byName := if rest == {} then byName - {n} else byName[n := rest];
    }
    count := 0;
    if id in byClient {
      var left := byClient[id] - {n};
      count := |left|;
      byClient := if left == {} then byClient - {id} else byClient[id := left];
    } else {
      assert byClient - {id} == byClient;
    }
    r := Registry(byName, byClient);
  }

  /** The loop of Unsubscribe and of PUnsubscribe. */
  method Remove(before: Registry, id: Id, names: seq<Name>) returns (r: Registry, counts: seq<nat>)
    requires before.Valid()
    ensures r.Valid() && r.byClient == Put(before.byClient, id, Left(before.byClient, id, names, |names|))
    ensures CountsLeft(before.byClient, id, names, counts, |names|)
  {
    r, counts := before, [];
    PutSame(r.byClient, id);
    assert Left(before.byClient, id, names, 0) == Of(before.byClient, id);
    for n := 0 to |names|
      invariant r.Valid() && r.byClient == Put(before.byClient, id, Left(before.byClient, id, names, n))
      invariant CountsLeft(before.byClient, id, names, counts, n)
    {
      LeftStep(before.byClient, id, names, n);
      var count;
      r, count := Delete(r, id, names[n]);
      CountsLeftStep(before.byClient, id, names, counts, n, count);
      counts := counts + [count];
    }
  }

  /** Drops everything of one client. */
  method RemoveClient(before: Registry, id: Id) returns (r: Registry)
    requires before.Valid()
    ensures r.Valid() && r.byClient == before.byClient - {id}
  {
    var byName: map<Name, set<Id>>, byClient: Index := before.byName, before.byClient;
    if id in byClient {
      var todo := byClient[id];
      PutSame(byClient, id);
      while todo != {}
        invariant Mirrors(byName, Put(byClient, id, todo))
        decreases |todo|
      {
        var n: Name :| n in todo;
        MirrorsDelete(byName, Put(byClient, id, todo), n, id);
        PutTwice(byClient, id, todo, todo - {n});
        assert Agree(byName, Put(byClient, id, todo), n, id);
        var rest := byName[n] - {id};
        byName := if rest == {} then byName - {n} else byName[n := rest];
        todo := todo - {n};
      }
    } else {
      assert byClient - {id} == byClient;
    }
    r := Registry(byName, byClient - {id});
  }

  /** The client's names, in any order. */
  method SubscribedNames(r: Registry, id: Id) returns (names: seq<Name>)
    ensures Elements(names) == Of(r.byClient, id) && |names| == |Of(r.byClient, id)|
  {
    names := [];
    var todo := Of(r.byClient, id);
    while todo != {}
      invariant todo !! Elements(names) && todo + Elements(names) == Of(r.byClient, id)
      invariant |names| + |todo| == |Of(r.byClient, id)|
      decreases |todo|
    {
      var n: Name :| n in todo;
      SnocElements(names, n);
      names := names + [n];
      todo := todo - {n};
    }
  }

  // ---------------------------------------------------------------- clients

  /** Subscriptions, and which clients are in pub/sub mode and which speak RESP3. */
  datatype State = State(channels: Index, patterns: Index, mode: set<Id>, resp3: set<Id>)

  datatype Command =
    | Subscribe(id: Id, names: seq<Name>)
    | Unsubscribe(id: Id, names: seq<Name>)
    | PSubscribe(id: Id, names: seq<Name>)
    | PUnsubscribe(id: Id, names: seq<Name>)
    | Reset(id: Id)
    | Hello(id: Id, resp3: bool)
    | Disconnect(id: Id)

  function With(m: Index, id: Id, names: seq<Name>): Index { Put(m, id, Of(m, id) + Elements(names)) }

  /** No names means all. */
  function Without(m: Index, id: Id, names: seq<Name>): Index {
    if names == [] then m - {id} else Put(m, id, Of(m, id) - Elements(names))
  }

  predicate Subscribed(s: State, id: Id) { Of(s.channels, id) != {} || Of(s.patterns, id) != {} }

  function LeaveIfDone(s: State, id: Id): State {
    if Subscribed(s, id) then s else s.(mode := s.mode - {id})
  }

  lemma LeaveIfDoneCounts(s: State, id: Id)
    ensures LeaveIfDone(s, id).mode ==
            if |Of(s.channels, id)| == 0 && |Of(s.patterns, id)| == 0 then s.mode - {id} else s.mode
    ensures LeaveIfDone(s, id) == s.(mode := LeaveIfDone(s, id).mode)
  {
  }

  /** In RESP2 pub/sub mode only the subscription commands, and HELLO, are served. */
  predicate Restricted(s: State, id: Id) { id in s.mode && id !in s.resp3 }

  function Apply(s: State, c: Command): State {
    match c
    case Subscribe(id, names) =>
      if names == [] then s else s.(channels := With(s.channels, id, names), mode := s.mode + {id})
    case PSubscribe(id, names) =>
      if names == [] then s else s.(patterns := With(s.patterns, id, names), mode := s.mode + {id})
    case Unsubscribe(id, names) => LeaveIfDone(s.(channels := Without(s.channels, id, names)), id)
    case PUnsubscribe(id, names) => LeaveIfDone(s.(patterns := Without(s.patterns, id, names)), id)
    case Reset(id) =>
      if Restricted(s, id) then s
      else s.(channels := s.channels - {id}, patterns := s.patterns - {id}, resp3 := s.resp3 - {id})
    case Hello(id, resp3) => s.(resp3 := if resp3 then s.resp3 + {id} else s.resp3 - {id})
    case Disconnect(id) => State(s.channels - {id}, s.patterns - {id}, s.mode - {id}, s.resp3 - {id})
  }

  function ApplyAll(s: State, cs: seq<Command>): State {
    if cs == [] then s else Apply(ApplyAll(s, cs[..|cs| - 1]), cs[|cs| - 1])
  }

  const NOBODY := State(map[], map[], {}, {})

  /** A subscribed client is in pub/sub mode. */
  ghost predicate InMode(s: State) { forall id :: Subscribed(s, id) ==> id in s.mode }

  /** And only a subscribed one is. */
  ghost predicate ModeExact(s: State) { forall id :: Subscribed(s, id) <==> id in s.mode }

  /** The one way to be in the mode with no subscription: RESET by a RESP3 client in it. */
  predicate LeavesModeOn(s: State, c: Command) { c.Reset? && c.id in s.mode && c.id in s.resp3 }

  lemma OthersUntouched(s: State, c: Command, id: Id)
    requires id != c.id
    ensures Of(Apply(s, c).channels, id) == Of(s.channels, id) && Of(Apply(s, c).patterns, id) == Of(s.patterns, id)
    ensures id in Apply(s, c).mode <==> id in s.mode
  {
  }

  lemma StepInMode(s: State, c: Command)
    requires InMode(s)
    ensures InMode(Apply(s, c))
  {
    var s' := Apply(s, c);
    forall id ensures Subscribed(s', id) ==> id in s'.mode {
      assert Subscribed(s, id) ==> id in s.mode;
      if id != c.id { OthersUntouched(s, c, id); }
    }
  }

  /** In the mode with no subscription. */
  predicate Stuck(s: State, id: Id) { id in s.mode && !Subscribed(s, id) }

  /** What takes a client out of that: a subscription, an unsubscription of anything, the end. */
  predicate Settles(c: Command, id: Id) {
    c.id == id && match c {
      case Subscribe(_, names) => names != []
      case PSubscribe(_, names) => names != []
      case Unsubscribe(_, _) => true
      case PUnsubscribe(_, _) => true
      case Disconnect(_) => true
      case _ => false
    }
  }

  lemma StuckStep(s: State, c: Command, id: Id)
    requires InMode(s)
    ensures Stuck(Apply(s, c), id) <==> (LeavesModeOn(s, c) && c.id == id) || (Stuck(s, id) && !Settles(c, id))
  {
    assert Subscribed(s, id) ==> id in s.mode;
    if id != c.id {
      OthersUntouched(s, c, id);
    } else {
      match c
      case Subscribe(id, names) => if names != [] { assert names[0] in Elements(names); }
      case PSubscribe(id, names) => if names != [] { assert names[0] in Elements(names); }
      case _ =>
    }
  }

  /** A step from a state where the mode is exact keeps it so exactly when it is not such a RESET. */
  lemma StepModeExact(s: State, c: Command)
    requires ModeExact(s)
    ensures ModeExact(Apply(s, c)) <==> !LeavesModeOn(s, c)
  {
    var s' := Apply(s, c);
    StepInMode(s, c);
    forall id ensures Stuck(s', id) <==> LeavesModeOn(s, c) && c.id == id {
      StuckStep(s, c, id);
      assert Subscribed(s, id) <==> id in s.mode;
    }
    ExactMeansNoneStuck(s');
  }

  lemma ExactMeansNoneStuck(s: State)
    requires InMode(s)
    ensures ModeExact(s) <==> forall id :: !Stuck(s, id)
  {
    if !ModeExact(s) {
      var id :| !(Subscribed(s, id) <==> id in s.mode);
      assert Stuck(s, id);
    }
  }

  /** After every sequence of commands a client with a subscription is in pub/sub mode. */
  lemma {:induction false} SubscribedIsInMode(cs: seq<Command>)
    ensures InMode(ApplyAll(NOBODY, cs))
    decreases |cs|
  {
    if cs != [] {
      SubscribedIsInMode(cs[..|cs| - 1]);
      StepInMode(ApplyAll(NOBODY, cs[..|cs| - 1]), cs[|cs| - 1]);
    }
  }

  /** The n-th command was such a RESET by the client, and nothing it sent later settled that. */
  predicate StuckSince(cs: seq<Command>, id: Id, n: nat)
    requires n < |cs|
  {
    && LeavesModeOn(ApplyAll(NOBODY, cs[..n]), cs[n]) && cs[n].id == id
    && forall m | n < m < |cs| :: !Settles(cs[m], id)
  }

  lemma StuckSinceBefore(cs: seq<Command>, id: Id, n: nat)
    requires n < |cs| - 1
    ensures StuckSince(cs, id, n) <==> StuckSince(cs[..|cs| - 1], id, n) && !Settles(cs[|cs| - 1], id)
  {
    var before := cs[..|cs| - 1];
    assert before[..n] == cs[..n] && forall m | 0 <= m < |before| :: before[m] == cs[m];
  }

  predicate LeftOn(cs: seq<Command>, id: Id) { exists n: nat | n < |cs| :: StuckSince(cs, id, n) }

  lemma LeftOnLast(cs: seq<Command>, id: Id)
    requires cs != []
    ensures var before, last := cs[..|cs| - 1], cs[|cs| - 1];
            LeftOn(cs, id) <==> (LeavesModeOn(ApplyAll(NOBODY, before), last) && last.id == id)
                                || (LeftOn(before, id) && !Settles(last, id))
  {
    var before, last := cs[..|cs| - 1], cs[|cs| - 1];
    if LeftOn(cs, id) {
      var n: nat :| n < |cs| && StuckSince(cs, id, n);
      if n < |before| { StuckSinceBefore(cs, id, n); }
    }
    if LeftOn(before, id) && !Settles(last, id) {
      var n: nat :| n < |before| && StuckSince(before, id, n);
      StuckSinceBefore(cs, id, n);
    }
    if LeavesModeOn(ApplyAll(NOBODY, before), last) && last.id == id { assert StuckSince(cs, id, |before|); }
  }

  lemma {:induction false} StuckExactly(cs: seq<Command>, id: Id)
    ensures Stuck(ApplyAll(NOBODY, cs), id) <==> LeftOn(cs, id)
    decreases |cs|
  {
    if cs != [] {
      var before := cs[..|cs| - 1];
      StuckExactly(before, id);
      SubscribedIsInMode(before);
      StuckStep(ApplyAll(NOBODY, before), cs[|cs| - 1], id);
      LeftOnLast(cs, id);
    }
  }

  /** Over every sequence of commands: a client is in the mode exactly while it has a subscription,
      if and only if no client is stuck since some RESET of its own. */
  lemma {:induction false} ModeExactly(cs: seq<Command>)
    ensures ModeExact(ApplyAll(NOBODY, cs)) <==> forall id :: !LeftOn(cs, id)
  {
    var s := ApplyAll(NOBODY, cs);
    SubscribedIsInMode(cs);
    ExactMeansNoneStuck(s);
    forall id ensures Stuck(s, id) <==> LeftOn(cs, id) { StuckExactly(cs, id); }
  }

  /** Without RESET a client is in the mode exactly while it has a subscription. */
  lemma {:induction false} ModeIsExactWithoutReset(cs: seq<Command>)
    requires forall i | 0 <= i < |cs| :: !cs[i].Reset?
    ensures ModeExact(ApplyAll(NOBODY, cs))
  {
    ModeExactly(cs);
  }

  /** With it, a RESP3 client can end up in the mode, restricted to the subscription commands, with
      no subscription left. */
  lemma ResetLeavesModeOn(id: Id, channel: Name)
    ensures var s := ApplyAll(NOBODY, [Hello(id, true), Subscribe(id, [channel]), Reset(id)]);
            Restricted(s, id) && !Subscribed(s, id)
  {
    var cs := [Hello(id, true), Subscribe(id, [channel]), Reset(id)];
    var one, two := [cs[0]], [cs[0], cs[1]];
    assert one[..0] == [] && two[..1] == one && cs[..2] == two;
    assert ApplyAll(NOBODY, one) == Apply(NOBODY, cs[0]);
    assert ApplyAll(NOBODY, two) == Apply(Apply(NOBODY, cs[0]), cs[1]);
    assert [channel][0] in Elements([channel]);
  }

  // ---------------------------------------------------------------- delivery

  datatype Message = Direct(id: Id) | ByPattern(id: Id, pattern: Name)

  /** Who is to get a message: each client once for the channel, and once for each of its patterns
      that matches. */
  ghost function Receivers(s: State, channel: Name): set<Message> {
    (set id | id in s.channels && channel in s.channels[id] :: Direct(id)) +
    (set id, p | id in s.patterns && p in s.patterns[id] && Glob.Accepts(p, channel) :: ByPattern(id, p))
  }

  ghost function DirectTo(ids: set<Id>): set<Message> { set id | id in ids :: Direct(id) }

  ghost function ByPatternTo(ids: set<Id>, p: Name): set<Message> { set id | id in ids :: ByPattern(id, p) }

  lemma {:induction false} DirectCount(ids: set<Id>)
    ensures |DirectTo(ids)| == |ids|
  {
    if ids != {} {
      assert (forall y: Id :: y !in ids) ==> ids == {};
      var id :| id in ids;
      DirectCount(ids - {id});
      assert DirectTo(ids) == DirectTo(ids - {id}) + {Direct(id)};
    }
  }

  lemma {:induction false} ByPatternCount(ids: set<Id>, p: Name)
    ensures |ByPatternTo(ids, p)| == |ids|
  {
    if ids != {} {
      assert (forall y: Id :: y !in ids) ==> ids == {};
      var id :| id in ids;
      ByPatternCount(ids - {id}, p);
      assert ByPatternTo(ids, p) == ByPatternTo(ids - {id}, p) + {ByPattern(id, p)};
    }
  }

  /** The messages by the patterns in `done`. */
  ghost function ByPatterns(byName: map<Name, set<Id>>, channel: Name, done: set<Name>): set<Message> {
    set p, id | p in done && p in byName && id in byName[p] && Glob.Accepts(p, channel) :: ByPattern(id, p)
  }

  lemma OnePatternMore(byName: map<Name, set<Id>>, channel: Name, done: set<Name>, p: Name)
    requires p in byName && p !in done
    ensures var more := if Glob.Accepts(p, channel) then ByPatternTo(byName[p], p) else {};
            && ByPatterns(byName, channel, done + {p}) == ByPatterns(byName, channel, done) + more
            && ByPatterns(byName, channel, done) !! more
  {
  }

  /** The index by name finds the receivers. */
  lemma ReceiversByName(s: State, channels: map<Name, set<Id>>, patterns: map<Name, set<Id>>, channel: Name)
    requires Mirrors(channels, s.channels) && Mirrors(patterns, s.patterns)
    ensures var direct := DirectTo(if channel in channels then channels[channel] else {});
            var byPattern := ByPatterns(patterns, channel, patterns.Keys);
            Receivers(s, channel) == direct + byPattern && direct !! byPattern
  {
    var direct := DirectTo(if channel in channels then channels[channel] else {});
    var byPattern := ByPatterns(patterns, channel, patterns.Keys);
    forall m: Message ensures m in Receivers(s, channel) <==> m in direct + byPattern {
      match m
      case Direct(id) => assert Agree(channels, s.channels, channel, id);
      case ByPattern(id, p) => assert Agree(patterns, s.patterns, p, id);
    }
  }

  lemma ReceiversAre(s: State, id: Id, p: Name, channel: Name)
    ensures Direct(id) in Receivers(s, channel) <==> channel in Of(s.channels, id)
    ensures ByPattern(id, p) in Receivers(s, channel) <==> p in Of(s.patterns, id) && Glob.Accepts(p, channel)
  {
  }

  lemma InElements(names: seq<Name>, n: Name)
    ensures n in Elements(names) <==> n in names
  {
    if n in names {
      var i :| 0 <= i < |names| && names[i] == n;
      assert names[i] in Elements(names);
    }
  }

  /** A client gets the messages of the channels it subscribed to, until it unsubscribes from them. */
  lemma SubscribedReceives(s: State, id: Id, names: seq<Name>, channel: Name)
    requires names != []
    ensures Direct(id) in Receivers(Apply(s, Subscribe(id, names)), channel)
       <==> Direct(id) in Receivers(s, channel) || channel in names
    ensures Direct(id) in Receivers(Apply(s, Unsubscribe(id, names)), channel)
       <==> Direct(id) in Receivers(s, channel) && channel !in names
    ensures Direct(id) !in Receivers(Apply(s, Unsubscribe(id, [])), channel)
  {
    InElements(names, channel);
    ReceiversAre(s, id, "", channel);
    ReceiversAre(Apply(s, Subscribe(id, names)), id, "", channel);
    ReceiversAre(Apply(s, Unsubscribe(id, names)), id, "", channel);
    ReceiversAre(Apply(s, Unsubscribe(id, [])), id, "", channel);
  }

  /** And by each of its patterns that matches. */
  lemma PatternReceives(s: State, id: Id, names: seq<Name>, p: Name, channel: Name)
    requires names != []
    ensures ByPattern(id, p) in Receivers(Apply(s, PSubscribe(id, names)), channel)
       <==> ByPattern(id, p) in Receivers(s, channel) || (p in names && Glob.Accepts(p, channel))
    ensures ByPattern(id, p) in Receivers(Apply(s, PUnsubscribe(id, names)), channel)
       <==> ByPattern(id, p) in Receivers(s, channel) && p !in names
    ensures ByPattern(id, p) !in Receivers(Apply(s, PUnsubscribe(id, [])), channel)
  {
    InElements(names, p);
    ReceiversAre(s, id, p, channel);
    ReceiversAre(Apply(s, PSubscribe(id, names)), id, p, channel);
    ReceiversAre(Apply(s, PUnsubscribe(id, names)), id, p, channel);
    ReceiversAre(Apply(s, PUnsubscribe(id, [])), id, p, channel);
  }

  /** A client that disconnects gets nothing more, and no command changes what another client gets. */
  lemma OthersReceive(s: State, c: Command, m: Message, channel: Name)
    ensures c.Disconnect? && m.id == c.id ==> m !in Receivers(Apply(s, c), channel)
    ensures m.id != c.id ==> (m in Receivers(Apply(s, c), channel) <==> m in Receivers(s, channel))
  {
    if m.id != c.id { OthersUntouched(s, c, m.id); }
  }

  // ---------------------------------------------------------------- the hub and its handlers

  datatype Confirmation = Confirmed(name: Name, count: nat) | WrongArguments

  /** One confirmation per name, each with its count and `extra` more. */
  ghost predicate Confirms(replies: seq<Confirmation>, names: seq<Name>, counts: seq<nat>, extra: nat) {
    && |replies| == |names| == |counts|
    && forall i | 0 <= i < |names| :: replies[i] == Confirmed(names[i], counts[i] + extra)
  }

  method Confirm(names: seq<Name>, counts: seq<nat>, extra: nat) returns (replies: seq<Confirmation>)
    requires |counts| == |names|
    ensures Confirms(replies, names, counts, extra)
  {
    replies := [];
    for n := 0 to |names|
      invariant |replies| == n
      invariant forall i | 0 <= i < n :: replies[i] == Confirmed(names[i], counts[i] + extra)
    {
      replies := replies + [Confirmed(names[n], counts[n] + extra)];
    }
  }

  lemma AddedAll(m: Index, id: Id, names: seq<Name>)
    requires names != []
    ensures m[id := Added(m, id, names, |names|)] == With(m, id, names)
  {
    assert names[..|names|] == names && names[0] in Elements(names);
  }

  /** The names an unsubscription goes over: those given, or all the client has, in any order. */
  ghost predicate GoesOver(order: seq<Name>, m: Index, id: Id, names: seq<Name>) {
    if names != [] then order == names else Elements(order) == Of(m, id) && |order| == |Of(m, id)|
  }

  lemma LeftAll(m: Index, id: Id, names: seq<Name>, order: seq<Name>)
    requires NoneEmpty(m) && GoesOver(order, m, id, names)
    ensures Put(m, id, Left(m, id, order, |order|)) == Without(m, id, names)
  {
    assert order[..|order|] == order;
    if names == [] { assert Of(m, id) - Elements(order) == {}; }
  }

  /** The reply to each name counts what the client then has of its kind, and all of the other kind. */
  ghost predicate JoinReplies(replies: seq<Confirmation>, m: Index, id: Id, names: seq<Name>, others: nat) {
    if names == [] then replies == [WrongArguments]
    else exists counts :: CountsAdded(m, id, names, counts, |names|) && Confirms(replies, names, counts, others)
  }

  /** The same for what is left; with nothing to leave there is one reply, without a name. */
  ghost predicate LeaveReplies(replies: seq<Confirmation>, m: Index, id: Id, names: seq<Name>, others: nat) {
    if names == [] && Of(m, id) == {} then replies == [Confirmed("", others)]
    else exists order, counts :: GoesOver(order, m, id, names) && CountsLeft(m, id, order, counts, |order|)
                                 && Confirms(replies, order, counts, others)
  }

  method Join(before: Registry, id: Id, names: seq<Name>, others: nat)
    returns (r: Registry, replies: seq<Confirmation>)
    requires before.Valid() && names != []
    ensures r.Valid() && r.byClient == With(before.byClient, id, names)
    ensures JoinReplies(replies, before.byClient, id, names, others)
  {
    AddedAll(before.byClient, id, names);
    var counts;
    r, counts := Add(before, id, names);
    replies := Confirm(names, counts, others);
  }

  /** Removes the names given, or all the client has. */
  method Leave(before: Registry, id: Id, names: seq<Name>, others: nat)
    returns (r: Registry, replies: seq<Confirmation>)
    requires before.Valid()
    ensures r.Valid() && r.byClient == Without(before.byClient, id, names)
    ensures LeaveReplies(replies, before.byClient, id, names, others)
  {
    var order := names;
    if names == [] { order := SubscribedNames(before, id); }
    LeftAll(before.byClient, id, names, order);
    var counts;
    r, counts := Remove(before, id, order);
    if order == [] { return r, [Confirmed("", others)]; }
    assert order[0] in Elements(order);
    replies := Confirm(order, counts, others);
  }

  /** What a command is answered in state s; only the subscription commands confirm anything. */
  ghost predicate ReplyOk(s: State, c: Command, replies: seq<Confirmation>) {
    match c
    case Subscribe(id, names) => JoinReplies(replies, s.channels, id, names, |Of(s.patterns, id)|)
    case PSubscribe(id, names) => JoinReplies(replies, s.patterns, id, names, |Of(s.channels, id)|)
    case Unsubscribe(id, names) => LeaveReplies(replies, s.channels, id, names, |Of(s.patterns, id)|)
    case PUnsubscribe(id, names) => LeaveReplies(replies, s.patterns, id, names, |Of(s.channels, id)|)
    case _ => replies == []
  }

  /** The replies to the first n commands, each as of its own moment. */
  ghost predicate RepliesOk(cs: seq<Command>, replies: seq<seq<Confirmation>>, n: nat) {
    n <= |cs| && |replies| == n && forall i | 0 <= i < n :: ReplyOk(ApplyAll(NOBODY, cs[..i]), cs[i], replies[i])
  }

  lemma RepliesStep(cs: seq<Command>, replies: seq<seq<Confirmation>>, n: nat, reply: seq<Confirmation>)
    requires n < |cs| && RepliesOk(cs, replies, n) && ReplyOk(ApplyAll(NOBODY, cs[..n]), cs[n], reply)
    ensures RepliesOk(cs, replies + [reply], n + 1)
    ensures ApplyAll(NOBODY, cs[..n + 1]) == Apply(ApplyAll(NOBODY, cs[..n]), cs[n])
  {
    assert cs[..n + 1][..n] == cs[..n];
    var all := replies + [reply];
    forall i | 0 <= i < n + 1 ensures ReplyOk(ApplyAll(NOBODY, cs[..i]), cs[i], all[i]) {
      assert all[i] == if i < n then replies[i] else reply;
    }
  }

  class Hub {
    var channels: Registry
    var patterns: Registry
    var mode: set<Id>
    var resp3: set<Id>

    ghost predicate Valid() reads this { channels.Valid() && patterns.Valid() }

    ghost function Now(): State reads this { State(channels.byClient, patterns.byClient, mode, resp3) }

    constructor ()
      ensures Valid() && Now() == NOBODY
    {
      channels, patterns := Registry(map[], map[]), Registry(map[], map[]);
      mode, resp3 := {}, {};
    }

    method HandleSubscribe(id: Id, names: seq<Name>) returns (replies: seq<Confirmation>)
      requires Valid()
      modifies this
      ensures Valid() && Now() == Apply(old(Now()), Subscribe(id, names))
      ensures JoinReplies(replies, old(channels.byClient), id, names, |Of(patterns.byClient, id)|)
    {
      if names == [] { return [WrongArguments]; }
      mode := mode + {id};
      channels, replies := Join(channels, id, names, patterns.Count(id));
    }

    method HandlePSubscribe(id: Id, names: seq<Name>) returns (replies: seq<Confirmation>)
      requires Valid()
      modifies this
      ensures Valid() && Now() == Apply(old(Now()), PSubscribe(id, names))
      ensures JoinReplies(replies, old(patterns.byClient), id, names, |Of(channels.byClient, id)|)
    {
      if names == [] { return [WrongArguments]; }
      mode := mode + {id};
      patterns, replies := Join(patterns, id, names, channels.Count(id));
    }

    method HandleUnsubscribe(id: Id, names: seq<Name>) returns (replies: seq<Confirmation>)
      requires Valid()
      modifies this
      ensures Valid() && Now() == Apply(old(Now()), Unsubscribe(id, names))
      ensures LeaveReplies(replies, old(channels.byClient), id, names, |Of(patterns.byClient, id)|)
    {
      var r;
      r, replies := Leave(channels, id, names, patterns.Count(id));
      LeaveIfDoneCounts(Now().(channels := r.byClient), id);
      channels := r;
      mode := if channels.Count(id) == 0 && patterns.Count(id) == 0 then mode - {id} else mode;
    }

    method HandlePUnsubscribe(id: Id, names: seq<Name>) returns (replies: seq<Confirmation>)
      requires Valid()
      modifies this
      ensures Valid() && Now() == Apply(old(Now()), PUnsubscribe(id, names))
      ensures LeaveReplies(replies, old(patterns.byClient), id, names, |Of(channels.byClient, id)|)
    {
      var r;
      r, replies := Leave(patterns, id, names, channels.Count(id));
      LeaveIfDoneCounts(Now().(patterns := r.byClient), id);
      patterns := r;
      mode := if channels.Count(id) == 0 && patterns.Count(id) == 0 then mode - {id} else mode;
    }

    method HandleReset(id: Id)
      requires Valid()
      modifies this
      ensures Valid() && Now() == Apply(old(Now()), Reset(id))
    {
      if id in mode && id !in resp3 { return; }
      channels := RemoveClient(channels, id);
      patterns := RemoveClient(patterns, id);
      resp3 := resp3 - {id};
    }

    method HandleHello(id: Id, version3: bool)
      requires Valid()
      modifies this
      ensures Valid() && Now() == Apply(old(Now()), Hello(id, version3))
    {
      resp3 := if version3 then resp3 + {id} else resp3 - {id};
    }

    method HandleDisconnect(id: Id)
      requires Valid()
      modifies this
      ensures Valid() && Now() == Apply(old(Now()), Disconnect(id))
    {
      channels := RemoveClient(channels, id);
      patterns := RemoveClient(patterns, id);
      mode, resp3 := mode - {id}, resp3 - {id};
    }

    method Execute(c: Command) returns (replies: seq<Confirmation>)
      requires Valid()
      modifies this
      ensures Valid() && Now() == Apply(old(Now()), c)
      ensures ReplyOk(old(Now()), c, replies)
    {
      replies := [];
      match c
      case Subscribe(id, names) => replies := HandleSubscribe(id, names);
      case Unsubscribe(id, names) => replies := HandleUnsubscribe(id, names);
      case PSubscribe(id, names) => replies := HandlePSubscribe(id, names);
      case PUnsubscribe(id, names) => replies := HandlePUnsubscribe(id, names);
      case Reset(id) => HandleReset(id);
      case Hello(id, version3) => HandleHello(id, version3);
      case Disconnect(id) => HandleDisconnect(id);
    }

    /** After any commands of any clients the two indices of each kind are inverses of the relation
        the commands leave, without empty buckets, the mode is on for every subscribed client, and
        each command has been answered with the counts of its own moment. */
    method ExecuteAll(cs: seq<Command>) returns (replies: seq<seq<Confirmation>>)
      requires Valid() && Now() == NOBODY
      modifies this
      ensures Now() == ApplyAll(NOBODY, cs) && InMode(Now())
      ensures Mirrors(channels.byName, channels.byClient) && NoneEmpty(channels.byClient)
      ensures Mirrors(patterns.byName, patterns.byClient) && NoneEmpty(patterns.byClient)
      ensures RepliesOk(cs, replies, |cs|)
      ensures ModeExact(Now()) <==> forall id :: !LeftOn(cs, id)
    {
      replies := [];
      for n := 0 to |cs|
        invariant Valid() && Now() == ApplyAll(NOBODY, cs[..n])
        invariant RepliesOk(cs, replies, n)
      {
        var reply := Execute(cs[n]);
        RepliesStep(cs, replies, n, reply);
        replies := replies + [reply];
      }
      assert cs[..|cs|] == cs;
      SubscribedIsInMode(cs);
      ModeExactly(cs);
    }

    /** What PUBLISH answers: the number of messages a delivery now would send. */
    method CountSubscribers(channel: Name) returns (count: nat)
      requires Valid()
      ensures count == |Receivers(Now(), channel)|
    {
      var direct := if channel in channels.byName then channels.byName[channel] else {};
      var byPattern := CountByPatterns(patterns.byName, channel);
      ReceiversByName(Now(), channels.byName, patterns.byName, channel);
      DirectCount(direct);
      return |direct| + byPattern;
    }

    /** Sends to every receiver, once each. */
    method Deliver(channel: Name) returns (sent: seq<Message>)
      requires Valid()
      ensures Sent(sent) == Receivers(Now(), channel) && |sent| == |Receivers(Now(), channel)|
    {
      var direct := SendDirect(if channel in channels.byName then channels.byName[channel] else {});
      var byPattern := SendByPatterns(patterns.byName, channel);
      ReceiversByName(Now(), channels.byName, patterns.byName, channel);
      SentAppend(direct, byPattern);
      return direct + byPattern;
    }
  }

  ghost function Sent(ms: seq<Message>): set<Message> { set i | 0 <= i < |ms| :: ms[i] }

  lemma SentAppend(a: seq<Message>, b: seq<Message>)
    ensures Sent(a + b) == Sent(a) + Sent(b)
  {
    assert forall i | 0 <= i < |a| :: (a + b)[i] == a[i];
    assert forall i | 0 <= i < |b| :: (a + b)[|a| + i] == b[i];
  }

  lemma SentOneMore(ms: seq<Message>, m: Message)
    ensures Sent(ms + [m]) == Sent(ms) + {m}
  {
    SentAppend(ms, [m]);
    assert [m][0] in Sent([m]);
  }

  method CountByPatterns(byName: map<Name, set<Id>>, channel: Name) returns (total: nat)
    ensures total == |ByPatterns(byName, channel, byName.Keys)|
  {
    var todo := byName.Keys;
    total := 0;
    assert ByPatterns(byName, channel, {}) == {};
    while todo != {}
      invariant todo <= byName.Keys
      invariant total == |ByPatterns(byName, channel, byName.Keys - todo)|
      decreases |todo|
    {
      var p: Name :| p in todo;
      OnePatternMore(byName, channel, byName.Keys - todo, p);
      ByPatternCount(byName[p], p);
      assert byName.Keys - (todo - {p}) == byName.Keys - todo + {p};
      var matches := Glob.GlobMatch(p, channel);
      if matches { total := total + |byName[p]|; }
      todo := todo - {p};
    }
    assert byName.Keys - {} == byName.Keys;
  }

  method SendDirect(ids: set<Id>) returns (sent: seq<Message>)
    ensures Sent(sent) == DirectTo(ids) && |sent| == |DirectTo(ids)|
  {
    sent := [];
    var todo := ids;
    while todo != {}
      invariant todo <= ids && Sent(sent) == DirectTo(ids - todo) && |sent| + |todo| == |ids|
      decreases |todo|
    {
      assert (forall y: Id :: y !in todo) ==> todo == {};
      var id: Id :| id in todo;
      SentOneMore(sent, Direct(id));
      assert DirectTo(ids - (todo - {id})) == DirectTo(ids - todo) + {Direct(id)};
      sent := sent + [Direct(id)];
      todo := todo - {id};
    }
    assert ids - {} == ids;
    DirectCount(ids);
  }

  method SendByPattern(ids: set<Id>, p: Name) returns (sent: seq<Message>)
    ensures Sent(sent) == ByPatternTo(ids, p) && |sent| == |ByPatternTo(ids, p)|
  {
    sent := [];
    var todo := ids;
    while todo != {}
      invariant todo <= ids && Sent(sent) == ByPatternTo(ids - todo, p) && |sent| + |todo| == |ids|
      decreases |todo|
    {
      assert (forall y: Id :: y !in todo) ==> todo == {};
      var id: Id :| id in todo;
      SentOneMore(sent, ByPattern(id, p));
      assert ByPatternTo(ids - (todo - {id}), p) == ByPatternTo(ids - todo, p) + {ByPattern(id, p)};
      sent := sent + [ByPattern(id, p)];
      todo := todo - {id};
    }
    assert ids - {} == ids;
    ByPatternCount(ids, p);
  }

  method SendByPatterns(byName: map<Name, set<Id>>, channel: Name) returns (sent: seq<Message>)
    ensures Sent(sent) == ByPatterns(byName, channel, byName.Keys)
    ensures |sent| == |ByPatterns(byName, channel, byName.Keys)|
  {
    var todo := byName.Keys;
    sent := [];
    assert ByPatterns(byName, channel, {}) == {};
    while todo != {}
      invariant todo <= byName.Keys
      invariant Sent(sent) == ByPatterns(byName, channel, byName.Keys - todo)
      invariant |sent| == |ByPatterns(byName, channel, byName.Keys - todo)|
      decreases |todo|
    {
      var p: Name :| p in todo;
      OnePatternMore(byName, channel, byName.Keys - todo, p);
      assert byName.Keys - (todo - {p}) == byName.Keys - todo + {p};
      var matches := Glob.GlobMatch(p, channel);
      if matches {
        var more := SendByPattern(byName[p], p);
        SentAppend(sent, more);
        sent := sent + more;
      }
      todo := todo - {p};
    }
    assert byName.Keys - {} == byName.Keys;
  }
}
