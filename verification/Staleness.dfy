/** How old a cached answer can be.

    Any number of processes share one backend; each has a cache.  Reads, fills, writes, cleanup and
    invalidations of any part of any cache interleave; an invalidation broadcast that is lost is one
    that does not happen.  Time is the same for all.
 */
module Staleness {
  import opened Basics
  import opened Cache

  type Pod = nat
  type Id = nat

  /** A call of CachedStore.Get. */
  datatype Call =
    | Missed(pod: Pod, key: Key)
    | Fetched(pod: Pod, key: Key, result: Option<string>, readAt: Time)
    | Answered(key: Key, result: Option<string>, at: Time, hit: bool)

  datatype State = State(now: Time, backend: map<Key, string>, caches: map<Pod, Items>, calls: map<Id, Call>)

  /** maxDelay is the longest time from a backend read to the end of the call. */
  datatype Config = Config(ttl: Time, maxSize: int, maxDelay: Time, shouldCache: Key -> bool) {
    predicate Valid() { ttl >= 0 && maxDelay >= 0 }
  }

  datatype Step =
    | Tick(elapsed: nat)
    | Get(id: Id, pod: Pod, key: Key)
    | Fetch(id: Id)
    | Finish(id: Id)
    | Write(key: Key, value: Option<string>)
    | Invalidate(pod: Pod, keys: set<Key>)
    | Cleanup(pod: Pod)

  ghost predicate Enabled(c: Config, s: State, step: Step) {
    match step
    case Tick(_) => true
    case Get(id, pod, _) => id !in s.calls && pod in s.caches
    case Fetch(id) => id in s.calls && s.calls[id].Missed?
    case Finish(id) =>
      id in s.calls && s.calls[id].Fetched? && s.now <= s.calls[id].readAt + c.maxDelay && s.calls[id].pod in s.caches
    case Write(_, _) => true
    case Invalidate(pod, _) => pod in s.caches
    case Cleanup(pod) => pod in s.caches
  }

  function Current(backend: map<Key, string>, key: Key): Option<string> {
    if key in backend then Some(backend[key]) else None
  }

  ghost function Do(c: Config, s: State, step: Step): State
    requires Enabled(c, s, step)
  {
    match step
    case Tick(elapsed) => s.(now := s.now + elapsed)
    case Get(id, pod, key) =>
      var found := Lookup(s.caches[pod], key, s.now);
      s.(calls := s.calls[id := if c.shouldCache(key) && found.Some? then Answered(key, found, s.now, true)
                                else Missed(pod, key)])
    case Fetch(id) =>
      var call := s.calls[id];
      s.(calls := s.calls[id := Fetched(call.pod, call.key, Current(s.backend, call.key), s.now)])
    case Finish(id) =>
      var call := s.calls[id];
      var s' := s.(calls := s.calls[id := Answered(call.key, call.result, s.now, false)]);
      if call.result.Some? && c.shouldCache(call.key)
      then
        var filled := Stored(s.caches[call.pod], call.key, call.result.value, s.now, c.ttl, c.maxSize);
        s'.(caches := s.caches[call.pod := filled])
      else s'
    case Write(key, value) =>
      s.(backend := if value.Some? then s.backend[key := value.value] else s.backend - {key})
    case Invalidate(pod, keys) => s.(caches := s.caches[pod := s.caches[pod] - keys])
    case Cleanup(pod) => s.(caches := s.caches[pod := s.caches[pod] - Expired(s.caches[pod], s.now)])
  }

  ghost predicate Next(c: Config, s: State, s': State) {
    exists step :: Enabled(c, s, step) && s' == Do(c, s, step)
  }

  ghost predicate IsRun(c: Config, run: seq<State>) {
    && |run| > 0
    && (forall pod | pod in run[0].caches :: run[0].caches[pod] == map[])
    && run[0].calls == map[]
    && forall i | 0 <= i < |run| - 1 :: Next(c, run[i], run[i + 1])
  }

  // ---------------------------------------------------------------- invariant

  /** At some instant of the run up to i, not before `since`, the backend gave this result. */
  ghost predicate WasCurrent(run: seq<State>, i: nat, key: Key, result: Option<string>, since: Time)
    requires i < |run|
  {
    exists j :: 0 <= j <= i && run[j].now >= since && Current(run[j].backend, key) == result
  }

  ghost predicate CallOk(c: Config, run: seq<State>, i: nat, call: Call)
    requires i < |run|
  {
    match call
    case Missed(_, _) => true
    case Fetched(_, key, result, readAt) => readAt <= run[i].now && WasCurrent(run, i, key, result, readAt)
    case Answered(key, result, at, hit) =>
      && at <= run[i].now
      && WasCurrent(run, i, key, result, at - c.maxDelay - if hit then c.ttl else 0)
      && (hit ==> result.Some?)
  }

  ghost predicate EntryOk(c: Config, run: seq<State>, i: nat, key: Key, e: Entry)
    requires i < |run|
  {
    WasCurrent(run, i, key, Some(e.value), e.expiresAt - c.ttl - c.maxDelay)
  }

  ghost predicate Inv(c: Config, run: seq<State>, i: nat)
    requires i < |run|
  {
    && (forall id | id in run[i].calls :: CallOk(c, run, i, run[i].calls[id]))
    && (forall pod, key | pod in run[i].caches && key in run[i].caches[pod] ::
          EntryOk(c, run, i, key, run[i].caches[pod][key]))
  }

  lemma CallKept(c: Config, run: seq<State>, i: nat, call: Call)
    requires i + 1 < |run| && CallOk(c, run, i, call) && run[i].now <= run[i + 1].now
    ensures CallOk(c, run, i + 1, call)
  {
  }

  /** The call a step moves on. */
  lemma MovedCallOk(c: Config, run: seq<State>, i: nat, step: Step)
    requires c.Valid() && i + 1 < |run| && Inv(c, run, i)
    requires Enabled(c, run[i], step) && run[i + 1] == Do(c, run[i], step)
    requires step.Get? || step.Fetch? || step.Finish?
    ensures CallOk(c, run, i + 1, run[i + 1].calls[step.id])
  {
  }

  /** An entry after a step was there before, or is the one a call just filled in. */
  lemma EntryStep(c: Config, run: seq<State>, i: nat, step: Step, pod: Pod, key: Key)
    requires c.Valid() && i + 1 < |run| && Inv(c, run, i)
    requires Enabled(c, run[i], step) && run[i + 1] == Do(c, run[i], step)
    requires pod in run[i + 1].caches && key in run[i + 1].caches[pod]
    ensures EntryOk(c, run, i + 1, key, run[i + 1].caches[pod][key])
  {
  }

  lemma StepPreserves(c: Config, run: seq<State>, i: nat, step: Step)
    requires c.Valid() && i + 1 < |run| && Inv(c, run, i)
    requires Enabled(c, run[i], step) && run[i + 1] == Do(c, run[i], step)
    ensures Inv(c, run, i + 1)
  {
    var s' := run[i + 1];
    forall id | id in s'.calls ensures CallOk(c, run, i + 1, s'.calls[id]) {
      if id in run[i].calls && s'.calls[id] == run[i].calls[id] {
        CallKept(c, run, i, run[i].calls[id]);
      } else {
        MovedCallOk(c, run, i, step);
      }
    }
    forall pod, key | pod in s'.caches && key in s'.caches[pod]
      ensures EntryOk(c, run, i + 1, key, s'.caches[pod][key])
    {
      EntryStep(c, run, i, step, pod, key);
    }
  }

  lemma NextPreserves(c: Config, run: seq<State>, i: nat)
    requires c.Valid() && i + 1 < |run| && Inv(c, run, i) && Next(c, run[i], run[i + 1])
    ensures Inv(c, run, i + 1)
  {
    var step :| Enabled(c, run[i], step) && run[i + 1] == Do(c, run[i], step);
    StepPreserves(c, run, i, step);
  }

  lemma {:induction false} RunKeepsInv(c: Config, run: seq<State>, i: nat)
    requires c.Valid() && IsRun(c, run) && i < |run|
    ensures Inv(c, run, i)
  {
    if i > 0 {
      RunKeepsInv(c, run, i - 1);
      assert Next(c, run[i - 1], run[i - 1 + 1]);
      NextPreserves(c, run, i - 1);
    }
  }

  // ---------------------------------------------------------------- main results

  /** Every answer was the backend's at an instant of the run: no earlier than the longest delay
      before it if it came from the backend, and the TTL more if it came from the cache; "not
      found" never comes from the cache. */
  lemma BoundedStaleness(c: Config, run: seq<State>, i: nat, id: Id)
    requires c.Valid() && IsRun(c, run) && i < |run| && id in run[i].calls && run[i].calls[id].Answered?
    ensures var a := run[i].calls[id];
            && WasCurrent(run, i, a.key, a.result, a.at - c.maxDelay - if a.hit then c.ttl else 0)
            && (a.result.None? ==> !a.hit)
  {
    RunKeepsInv(c, run, i);
    assert CallOk(c, run, i, run[i].calls[id]);
  }

  /** A run with an answer as old as allowed. */
  ghost function OldestRun(c: Config, key: Key, v: string, w: string): seq<State> {
    var full: Items := map[key := Entry(v, c.maxDelay + c.ttl)];
    var t := c.maxDelay + c.ttl;
    var filled := Answered(key, Some(v), c.maxDelay, false);
    [State(0, map[key := v], map[0 := map[]], map[]),
     State(0, map[key := v], map[0 := map[]], map[0 := Missed(0, key)]),
     State(0, map[key := v], map[0 := map[]], map[0 := Fetched(0, key, Some(v), 0)]),
     State(0, map[key := w], map[0 := map[]], map[0 := Fetched(0, key, Some(v), 0)]),
     State(c.maxDelay, map[key := w], map[0 := map[]], map[0 := Fetched(0, key, Some(v), 0)]),
     State(c.maxDelay, map[key := w], map[0 := full], map[0 := filled]),
     State(t, map[key := w], map[0 := full], map[0 := filled]),
     State(t, map[key := w], map[0 := full], map[0 := filled, 1 := Answered(key, Some(v), t, true)])]
  }

  ghost function OldestStep(c: Config, key: Key, w: string, i: nat): Step
    requires c.Valid()
  {
    if i == 0 then Get(0, 0, key) else if i == 1 then Fetch(0) else if i == 2 then Write(key, Some(w))
    else if i == 3 then Tick(c.maxDelay) else if i == 4 then Finish(0)
    else if i == 5 then Tick(c.ttl) else Get(1, 0, key)
  }

  /** The bound cannot be lowered: an answer may be wrong at every instant after t - ttl - maxDelay. */
  lemma BoundIsTight(c: Config, key: Key, v: string, w: string)
    requires c.Valid() && c.shouldCache(key) && v != w
    ensures exists run: seq<State>, i: nat :: i < |run| && IsRun(c, run) && 1 in run[i].calls
              && var a := run[i].calls[1];
                 && a == Answered(key, Some(v), run[i].now, true)
                 && !WasCurrent(run, i, key, a.result, a.at - c.maxDelay - c.ttl + 1)
  {
    var run := OldestRun(c, key, v, w);
    forall i | 0 <= i < |run| - 1 ensures Next(c, run[i], run[i + 1]) {
      if i < 4 { OldestRunFills(c, key, v, w, i); } else { OldestRunHits(c, key, v, w, i); }
    }
    assert IsRun(c, run);
    assert 7 < |run| && 1 in run[7].calls;
    assert !WasCurrent(run, 7, key, Some(v), 1);
  }

  lemma OldestRunFills(c: Config, key: Key, v: string, w: string, i: nat)
    requires c.Valid() && i < 4
    ensures Next(c, OldestRun(c, key, v, w)[i], OldestRun(c, key, v, w)[i + 1])
  {
    var run, step := OldestRun(c, key, v, w), OldestStep(c, key, w, i);
    assert Enabled(c, run[i], step);
    assert run[i + 1] == Do(c, run[i], step);
  }

  lemma OldestRunHits(c: Config, key: Key, v: string, w: string, i: nat)
    requires c.Valid() && c.shouldCache(key) && 4 <= i < 7
    ensures Next(c, OldestRun(c, key, v, w)[i], OldestRun(c, key, v, w)[i + 1])
  {
    var run, step := OldestRun(c, key, v, w), OldestStep(c, key, w, i);
    assert Enabled(c, run[i], step);
    assert run[i + 1] == Do(c, run[i], step);
  }
}
