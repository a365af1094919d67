/** Leader election over one shared Kubernetes Lease.

    Every process step of the election loop (tick, attempt, surrender) is a step of a
    state machine.  Time is counted in nanoseconds; the Lease stores a wall-clock time
    truncated to microseconds.  The API server offers read, create-if-absent and
    update-if-version-matches.  A request may be applied late, more than once, or never,
    and its reply may be lost.
 */
module LeaderElection {
  import opened Basics

  const SECOND: int := 1_000_000_000
  const MICROSECOND: int := 1_000

  const LEASE_DURATION_SECONDS: int := 15
  const RENEW_DEADLINE: int := 10 * SECOND
  const RETRY_PERIOD: int := 2 * SECOND

  /** How far apart two clocks may be: a second, less what truncation to microseconds can take. */
  const MAX_SKEW: int := SECOND - (MICROSECOND - 1)

  type Name = string

  datatype Lease =
    | Absent
    | Lease(holder: Name, renewTime: Option<int>, durationSeconds: Option<int>, version: nat)
  {
    /** An absent Lease counts as version 0; stored ones start at 1. */
    function Version(): nat { if Absent? then 0 else version }
  }

  datatype RequestKind = Creation | Renewal | Takeover | Release

  /** A write sent to the API server: POST for Creation, PUT for the rest. */
  datatype Request = Request(
    kind: RequestKind, from: Name, sentAt: int, expected: nat,
    holder: Name, renewTime: int, durationSeconds: Option<int>)

  datatype Outcome = Acquired | HeldByOther | Failed

  datatype Phase =
    | Off
    | Idle(next: int, first: bool)
    | Reading(start: int, first: bool)
    | Choosing(start: int, first: bool, seen: Lease)
    | Writing(start: int, first: bool, id: nat)
    | Deciding(start: int, first: bool, outcome: Outcome)
    | Labelling(start: int, first: bool)
    | Halting
    | HaltingAfterRead(seen: Lease)
  {
    predicate InTick() { Reading? || Choosing? || Writing? || Deciding? || Labelling? }
    predicate LoopRunning() { InTick() || Idle? }
  }

  /** One election process.  `lastGood` (start of the last tick that acquired) and `grid`
      (an anchor of the ticker) are history; no step reads them. */
  datatype Pod = Pod(phase: Phase, isLeader: bool, lastRenew: int, lastGood: int, grid: int)
  {
    predicate RunningLeader() { isLeader && phase.LoopRunning() }
  }

  /** `offset[p]` is how far p's wall clock is ahead of the reference time. */
  datatype Config = Config(offset: map<Name, int>)

  datatype State = State(
    now: int, lease: Lease, pods: map<Name, Pod>,
    sent: map<nat, Request>, applied: set<nat>)

  ghost predicate ClocksClose(c: Config) {
    forall p, q | p in c.offset && q in c.offset :: c.offset[p] - c.offset[q] <= MAX_SKEW
  }

  /** No pod has the name that marks a released Lease. */
  ghost predicate ValidConfig(c: Config) { "" !in c.offset && ClocksClose(c) }

  function Clock(c: Config, p: Name, t: int): int
    requires p in c.offset
  {
    t + c.offset[p]
  }

  /** The Lease's microsecond timestamp format drops the sub-microsecond part. */
  function MicroTime(t: int): int { t - t % MICROSECOND }

  function LeaseExpired(l: Lease, wall: int): bool
    requires l.Lease?
  {
    l.renewTime.None? || l.durationSeconds.None? ||
    wall > l.renewTime.value + l.durationSeconds.value * SECOND
  }

  /** What `attempt` writes after it has read `seen`; None when another valid holder exists. */
  function Attempt(c: Config, p: Name, seen: Lease, t: int): Option<Request>
    requires p in c.offset
  {
    var stamp := MicroTime(Clock(c, p, t));
    if seen.Absent? then
      Some(Request(Creation, p, t, 0, p, stamp, Some(LEASE_DURATION_SECONDS)))
    else if seen.holder == p then
      Some(Request(Renewal, p, t, seen.version, p, stamp,
                   if seen.durationSeconds.None? then Some(LEASE_DURATION_SECONDS) else seen.durationSeconds))
    else if !LeaseExpired(seen, Clock(c, p, t)) then
      None
    else
      Some(Request(Takeover, p, t, seen.version, p, stamp, Some(LEASE_DURATION_SECONDS)))
  }

  predicate Accepts(lease: Lease, r: Request) {
    if r.kind.Creation? then lease.Absent? else lease.Lease? && lease.version == r.expected
  }

  function Stored(lease: Lease, r: Request): Lease {
    Lease(r.holder, Some(r.renewTime), r.durationSeconds, lease.Version() + 1)
  }

  // ---------------------------------------------------------------- steps

  datatype Step =
    | Advance(t: int)
    | Launch(p: Name)
    | BeginTick(p: Name)
    | ReadFails(p: Name)
    | ReadReplies(p: Name)
    | Choose(p: Name, id: nat)
    | ServerHandles(id: nat)
    | WriteReplies(p: Name, outcome: Outcome)
    | Decide(p: Name)
    | EndTick(p: Name)
    | Stop(p: Name)
    | SurrenderRead(p: Name)
    | SurrenderWrite(p: Name, id: nat)
    | SurrenderDone(p: Name)

  /** Every tick starts on its pod's grid and finishes within one period. */
  predicate MayWaitUntil(pod: Pod, t: int) {
    match pod.phase
    case Idle(next, _) => t <= next
    case _ => pod.phase.InTick() ==> t <= pod.phase.start + RETRY_PERIOD
  }

  ghost predicate Enabled(c: Config, s: State, step: Step) {
    match step
    case Advance(t) => s.now <= t && forall p | p in s.pods :: MayWaitUntil(s.pods[p], t)
    case Launch(p) => p in s.pods && s.pods[p].phase.Off?
    case BeginTick(p) => p in s.pods && s.pods[p].phase.Idle? && s.now == s.pods[p].phase.next
    case ReadFails(p) => p in s.pods && s.pods[p].phase.Reading?
    case ReadReplies(p) => p in s.pods && s.pods[p].phase.Reading?
    case Choose(p, id) => p in s.pods && p in c.offset && s.pods[p].phase.Choosing? && id !in s.sent
    case ServerHandles(id) => id in s.sent
    case WriteReplies(p, outcome) =>
      && p in s.pods && s.pods[p].phase.Writing?
      && (outcome.Acquired? ==> s.pods[p].phase.id in s.applied)
    case Decide(p) => p in s.pods && s.pods[p].phase.Deciding?
    case EndTick(p) => p in s.pods && s.pods[p].phase.Labelling?
    case Stop(p) => p in s.pods && s.pods[p].phase.Idle?
    case SurrenderRead(p) => p in s.pods && s.pods[p].phase.Halting?
    case SurrenderWrite(p, id) =>
      && p in s.pods && p in c.offset && id !in s.sent
      && s.pods[p].phase.HaltingAfterRead?
      && s.pods[p].phase.seen.Lease? && s.pods[p].phase.seen.holder == p
    case SurrenderDone(p) => p in s.pods && (s.pods[p].phase.Halting? || s.pods[p].phase.HaltingAfterRead?)
  }

  function SetPhase(s: State, p: Name, phase: Phase): State
    requires p in s.pods
  {
    s.(pods := s.pods[p := s.pods[p].(phase := phase)])
  }

  /** The end of `tick`: what the pod believes after `attempt` returned `outcome` at time `now`. */
  function Decided(pod: Pod, now: int): Pod
    requires pod.phase.Deciding?
  {
    var start, first := pod.phase.start, pod.phase.first;
    var done := pod.(phase := Labelling(start, first));
    if pod.phase.outcome.Acquired? then
      done.(lastRenew := now, isLeader := true, lastGood := start, grid := start)
    else if !pod.isLeader then
      done
    else if pod.phase.outcome.Failed? && now - pod.lastRenew < RENEW_DEADLINE then
      done
    else
      done.(isLeader := false)
  }

  /** The ticker is created after the first tick; later ticks follow it. */
  function Ended(pod: Pod, now: int): Pod
    requires pod.phase.Labelling?
  {
    if pod.phase.first then
      pod.(phase := Idle(now + RETRY_PERIOD, false), grid := now - RETRY_PERIOD)
    else
      pod.(phase := Idle(pod.phase.start + RETRY_PERIOD, false))
  }

  ghost function Do(c: Config, s: State, step: Step): State
    requires Enabled(c, s, step)
  {
    match step
    case Advance(t) => s.(now := t)
    case Launch(p) => SetPhase(s, p, Idle(s.now, true))
    case BeginTick(p) => SetPhase(s, p, Reading(s.now, s.pods[p].phase.first))
    case ReadFails(p) => SetPhase(s, p, Deciding(s.pods[p].phase.start, s.pods[p].phase.first, Failed))
    case ReadReplies(p) => SetPhase(s, p, Choosing(s.pods[p].phase.start, s.pods[p].phase.first, s.lease))
    case Choose(p, id) =>
      var ph := s.pods[p].phase;
      var request := Attempt(c, p, ph.seen, s.now);
      if request.None? then SetPhase(s, p, Deciding(ph.start, ph.first, HeldByOther))
      else SetPhase(s, p, Writing(ph.start, ph.first, id)).(sent := s.sent[id := request.value])
    case ServerHandles(id) =>
      if Accepts(s.lease, s.sent[id])
      then s.(lease := Stored(s.lease, s.sent[id]), applied := s.applied + {id})
      else s
    case WriteReplies(p, outcome) =>
      SetPhase(s, p, Deciding(s.pods[p].phase.start, s.pods[p].phase.first, outcome))
    case Decide(p) => s.(pods := s.pods[p := Decided(s.pods[p], s.now)])
    case EndTick(p) => s.(pods := s.pods[p := Ended(s.pods[p], s.now)])
    case Stop(p) => SetPhase(s, p, if s.pods[p].isLeader then Halting else Off)
    case SurrenderRead(p) => SetPhase(s, p, HaltingAfterRead(s.lease))
    case SurrenderWrite(p, id) =>
      var seen := s.pods[p].phase.seen;
      SetPhase(s, p, Halting).(sent := s.sent[id :=
        Request(Release, p, s.now, seen.version, "", 0, seen.durationSeconds)])
    case SurrenderDone(p) => s.(pods := s.pods[p := s.pods[p].(phase := Off, isLeader := false)])
  }

  /** No process runs yet.  The Lease may be left over from earlier deployments. */
  ghost predicate Init(c: Config, s: State) {
    && s.pods.Keys == c.offset.Keys
    && (forall p | p in s.pods :: s.pods[p].phase.Off? && !s.pods[p].isLeader)
    && s.sent == map[] && s.applied == {}
    && DurationKept(s.lease)
    && (s.lease.Lease? ==> s.lease.version > 0)
  }

  ghost predicate DurationKept(l: Lease) {
    l.Lease? && l.durationSeconds.Some? ==> l.durationSeconds.value >= LEASE_DURATION_SECONDS
  }

  ghost predicate IsRun(c: Config, run: seq<State>) {
    && |run| > 0
    && Init(c, run[0])
    && forall i | 0 <= i < |run| - 1 :: Next(c, run[i], run[i + 1])
  }

  ghost predicate Next(c: Config, s: State, s': State) {
    exists step :: Enabled(c, s, step) && s' == Do(c, s, step)
  }

  // ---------------------------------------------------------------- invariant

  /** p may rely on the Lease for everything it did since `since`. */
  ghost predicate Protected(c: Config, s: State, p: Name, since: int) {
    && p in c.offset
    && s.lease.Lease? && s.lease.holder == p
    && s.lease.renewTime.Some? && s.lease.renewTime.value >= MicroTime(Clock(c, p, since))
    && s.lease.durationSeconds.Some?
    && forall id | id in s.sent && s.sent[id].from == p && s.sent[id].expected == s.lease.version ::
         s.sent[id].kind.Renewal? && s.sent[id].sentAt >= since
  }

  /** A request that could still be applied says what `attempt` or `surrender` saw in the current Lease. */
  ghost predicate RequestOk(c: Config, s: State, r: Request) {
    && r.from in c.offset && r.from in s.pods
    && r.sentAt <= s.now
    && r.expected <= s.lease.Version()
    && (r.kind.Creation? <==> r.expected == 0)
    && (r.durationSeconds.Some? ==> r.durationSeconds.value >= LEASE_DURATION_SECONDS)
    && (!r.kind.Release? ==>
          r.holder == r.from && r.renewTime == MicroTime(Clock(c, r.from, r.sentAt)) && r.durationSeconds.Some?)
    && (r.expected == s.lease.Version() && s.lease.Lease? ==>
          match r.kind
          case Creation => false
          case Renewal => s.lease.holder == r.from
          case Release => s.lease.holder == r.from
          case Takeover => s.lease.holder != r.from && LeaseExpired(s.lease, Clock(c, r.from, r.sentAt)))
  }

  ghost predicate SeenOk(s: State, seen: Lease) {
    && seen.Version() <= s.lease.Version()
    && (seen.Version() == s.lease.Version() ==> seen == s.lease)
    && DurationKept(seen)
    && (seen.Lease? ==> seen.version > 0)
  }

  /** No older request of p can be applied after the one p is waiting for. */
  ghost predicate NewestRequest(s: State, p: Name, expected: nat) {
    forall id | id in s.sent && s.sent[id].from == p :: s.sent[id].expected <= expected
  }

  ghost predicate PhaseOk(c: Config, s: State, p: Name)
    requires p in s.pods
  {
    match s.pods[p].phase
    case Choosing(start, _, seen) => SeenOk(s, seen) && NewestRequest(s, p, seen.Version())
    case Writing(start, _, id) =>
      && id in s.sent && s.sent[id].from == p && s.sent[id].sentAt >= start
      && NewestRequest(s, p, s.sent[id].expected)
      && (id in s.applied ==> Protected(c, s, p, start))
      && !s.sent[id].kind.Release?
    case Deciding(start, _, outcome) => outcome.Acquired? ==> Protected(c, s, p, start)
    case HaltingAfterRead(seen) => SeenOk(s, seen)
    case _ => true
  }

  ghost predicate TimingOk(s: State, pod: Pod) {
    match pod.phase
    case Idle(next, _) => s.now <= next
    case _ => pod.phase.InTick() ==> pod.phase.start <= s.now <= pod.phase.start + RETRY_PERIOD
  }

  predicate OnGrid(pod: Pod, t: int) { (t - pod.grid) % RETRY_PERIOD == 0 }

  /** A leader whose last good tick began at `lastGood` is gone by `lastGood` + 14 s. */
  ghost predicate LeaderTimingOk(s: State, pod: Pod)
    requires pod.RunningLeader()
  {
    && pod.lastGood <= pod.lastRenew <= s.now
    && if pod.phase.first then
         pod.phase.Labelling? && pod.lastGood == pod.phase.start
       else
         && pod.grid <= pod.lastGood
         && pod.lastRenew <= pod.grid + RETRY_PERIOD
         && (match pod.phase
             case Idle(next, _) => OnGrid(pod, next) && pod.lastGood <= next <= pod.grid + 12 * SECOND
             case Labelling(start, _) => OnGrid(pod, start) && pod.lastGood <= start <= pod.grid + 10 * SECOND
             case _ => OnGrid(pod, pod.phase.start) && pod.lastGood <= pod.phase.start <= pod.grid + 12 * SECOND)
  }

  ghost predicate PodOk(c: Config, s: State, p: Name)
    requires p in s.pods
  {
    var pod := s.pods[p];
    && TimingOk(s, pod)
    && PhaseOk(c, s, p)
    && (pod.RunningLeader() ==> LeaderTimingOk(s, pod) && Protected(c, s, p, pod.lastGood))
    && (pod.phase.Off? ==> !pod.isLeader)
  }

  ghost predicate Inv(c: Config, s: State) {
    && s.pods.Keys == c.offset.Keys
    && DurationKept(s.lease)
    && (s.lease.Lease? ==> s.lease.version > 0)
    && (forall id | id in s.sent :: RequestOk(c, s, s.sent[id]))
    && (forall id | id in s.applied :: id in s.sent && s.sent[id].expected < s.lease.Version())
    && (forall p | p in s.pods :: PodOk(c, s, p))
  }

  // ---------------------------------------------------------------- proofs

  lemma LeaderDeadline(s: State, pod: Pod)
    requires pod.RunningLeader() && LeaderTimingOk(s, pod) && TimingOk(s, pod)
    ensures s.now <= pod.lastGood + 14 * SECOND
  {
  }

  /** No other pod can have seen the Lease of a protected pod as expired. */
  lemma NoTakeoverWhileProtected(c: Config, s: State, p: Name, since: int, r: Request)
    requires ValidConfig(c) && DurationKept(s.lease)
    requires Protected(c, s, p, since) && s.now <= since + 14 * SECOND
    requires r.from in c.offset && r.sentAt <= s.now
    ensures !LeaseExpired(s.lease, Clock(c, r.from, r.sentAt))
  {
  }

  /** s' differs from s only in other pods and in requests of other pods. */
  ghost predicate SameFor(s: State, s': State, q: Name) {
    && q in s.pods && q in s'.pods && s'.pods[q] == s.pods[q]
    && s'.now == s.now && s'.lease == s.lease && s'.applied == s.applied
    && (forall i | i in s.sent :: i in s'.sent && s'.sent[i] == s.sent[i])
    && (forall i | i in s'.sent && s'.sent[i].from == q :: i in s.sent)
  }

  lemma OtherPodKept(c: Config, s: State, s': State, q: Name)
    requires SameFor(s, s', q) && PodOk(c, s, q)
    ensures PodOk(c, s', q)
  {
  }

  /** A step that changes one pod only has to re-establish that pod's part. */
  lemma LocalStep(c: Config, s: State, p: Name, pod: Pod)
    requires Inv(c, s) && p in s.pods
    requires var s' := s.(pods := s.pods[p := pod]); PodOk(c, s', p)
    ensures Inv(c, s.(pods := s.pods[p := pod]))
  {
    var s' := s.(pods := s.pods[p := pod]);
    assert forall id | id in s'.sent :: RequestOk(c, s', s'.sent[id]) by {
      assert forall id | id in s.sent :: RequestOk(c, s, s.sent[id]);
    }
    forall q | q in s'.pods ensures PodOk(c, s', q) {
      if q != p { OtherPodKept(c, s, s', q); }
    }
  }

  lemma AdvancePreserves(c: Config, s: State, t: int)
    requires Inv(c, s) && Enabled(c, s, Advance(t))
    ensures Inv(c, Do(c, s, Advance(t)))
  {
    var s' := Do(c, s, Advance(t));
    forall id | id in s'.sent ensures RequestOk(c, s', s'.sent[id]) {
      assert RequestOk(c, s, s.sent[id]);
    }
    forall q | q in s'.pods ensures PodOk(c, s', q) {
      assert PodOk(c, s, q);
      assert MayWaitUntil(s.pods[q], t);
    }
  }

  lemma DecidePreserves(c: Config, s: State, p: Name)
    requires Inv(c, s) && Enabled(c, s, Decide(p))
    ensures Inv(c, Do(c, s, Decide(p)))
  {
    DecidedPodOk(c, s, p);
    LocalStep(c, s, p, Decided(s.pods[p], s.now));
  }

  lemma DecidedPodOk(c: Config, s: State, p: Name)
    requires Inv(c, s) && Enabled(c, s, Decide(p))
    ensures PodOk(c, Do(c, s, Decide(p)), p)
  {
    assert PodOk(c, s, p);
    var pod := s.pods[p];
    if Decided(pod, s.now).isLeader { DecidedLeaderTiming(s, pod); }
  }

  lemma DecidedLeaderTiming(s: State, pod: Pod)
    requires pod.phase.Deciding? && TimingOk(s, pod) && Decided(pod, s.now).isLeader
    requires pod.RunningLeader() ==> LeaderTimingOk(s, pod)
    ensures LeaderTimingOk(s, Decided(pod, s.now))
  {
  }

  lemma EndTickPreserves(c: Config, s: State, p: Name)
    requires Inv(c, s) && Enabled(c, s, EndTick(p))
    ensures Inv(c, Do(c, s, EndTick(p)))
  {
    EndedPodOk(c, s, p);
    LocalStep(c, s, p, Ended(s.pods[p], s.now));
  }

  lemma EndedPodOk(c: Config, s: State, p: Name)
    requires Inv(c, s) && Enabled(c, s, EndTick(p))
    ensures PodOk(c, Do(c, s, EndTick(p)), p)
  {
    assert PodOk(c, s, p);
    var pod := s.pods[p];
    if pod.RunningLeader() { EndedLeaderTiming(s, pod); }
  }

  lemma EndedLeaderTiming(s: State, pod: Pod)
    requires pod.phase.Labelling? && pod.RunningLeader() && TimingOk(s, pod) && LeaderTimingOk(s, pod)
    ensures LeaderTimingOk(s, Ended(pod, s.now))
  {
  }

  lemma ReadRepliesPreserves(c: Config, s: State, p: Name)
    requires Inv(c, s) && Enabled(c, s, ReadReplies(p))
    ensures Inv(c, Do(c, s, ReadReplies(p)))
  {
    assert PodOk(c, s, p);
    forall id | id in s.sent && s.sent[id].from == p ensures s.sent[id].expected <= s.lease.Version() {
      assert RequestOk(c, s, s.sent[id]);
    }
    LocalStep(c, s, p, s.pods[p].(phase := Choosing(s.pods[p].phase.start, s.pods[p].phase.first, s.lease)));
  }

  /** Steps that only move one pod from one phase to the next. */
  lemma LoopStepPreserves(c: Config, s: State, step: Step)
    requires Inv(c, s) && Enabled(c, s, step)
    requires step.Launch? || step.ReadFails? || step.WriteReplies?
    ensures Inv(c, Do(c, s, step))
  {
    var p := step.p;
    assert PodOk(c, s, p);
    LocalStep(c, s, p, Do(c, s, step).pods[p]);
  }

  lemma BeginTickPreserves(c: Config, s: State, p: Name)
    requires Inv(c, s) && Enabled(c, s, BeginTick(p))
    ensures Inv(c, Do(c, s, BeginTick(p)))
  {
    assert PodOk(c, s, p);
    LocalStep(c, s, p, Do(c, s, BeginTick(p)).pods[p]);
  }

  lemma StopStepPreserves(c: Config, s: State, step: Step)
    requires Inv(c, s) && Enabled(c, s, step)
    requires step.Stop? || step.SurrenderRead? || step.SurrenderDone?
    ensures Inv(c, Do(c, s, step))
  {
    var p := step.p;
    assert PodOk(c, s, p);
    LocalStep(c, s, p, Do(c, s, step).pods[p]);
  }

  /** A new request of p that is consistent with the current Lease disturbs nobody else. */
  lemma SendPreserves(c: Config, s: State, p: Name, id: nat, r: Request, pod: Pod)
    requires Inv(c, s) && p in s.pods && id !in s.sent && r.from == p
    requires RequestOk(c, s, r)
    requires PodOk(c, s.(pods := s.pods[p := pod], sent := s.sent[id := r]), p)
    ensures Inv(c, s.(pods := s.pods[p := pod], sent := s.sent[id := r]))
  {
    var s' := s.(pods := s.pods[p := pod], sent := s.sent[id := r]);
    forall i | i in s'.sent ensures RequestOk(c, s', s'.sent[i]) {
      if i != id { assert RequestOk(c, s, s.sent[i]); }
    }
    forall q | q in s'.pods ensures PodOk(c, s', q) {
      if q != p { OtherPodKept(c, s, s', q); }
    }
  }

  lemma AttemptIsConsistent(c: Config, s: State, p: Name, seen: Lease)
    requires Inv(c, s) && p in s.pods && SeenOk(s, seen)
    ensures var r := Attempt(c, p, seen, s.now);
            r.Some? ==> RequestOk(c, s, r.value) && r.value.expected == seen.Version()
  {
  }

  lemma ChooserOk(c: Config, s: State, p: Name, id: nat)
    requires Inv(c, s) && Enabled(c, s, Choose(p, id))
    ensures PodOk(c, Do(c, s, Choose(p, id)), p)
  {
    assert PodOk(c, s, p);
    AttemptIsConsistent(c, s, p, s.pods[p].phase.seen);
    if s.pods[p].RunningLeader() { ChooserStaysProtected(c, s, p, id); }
    assert id !in s.applied;
  }

  lemma ChooserStaysProtected(c: Config, s: State, p: Name, id: nat)
    requires Inv(c, s) && Enabled(c, s, Choose(p, id)) && s.pods[p].RunningLeader()
    ensures Protected(c, Do(c, s, Choose(p, id)), p, s.pods[p].lastGood)
  {
  }

  lemma ChoosePreserves(c: Config, s: State, p: Name, id: nat)
    requires Inv(c, s) && Enabled(c, s, Choose(p, id))
    ensures Inv(c, Do(c, s, Choose(p, id)))
  {
    var s' := Do(c, s, Choose(p, id));
    assert PodOk(c, s, p);
    AttemptIsConsistent(c, s, p, s.pods[p].phase.seen);
    ChooserOk(c, s, p, id);
    var request := Attempt(c, p, s.pods[p].phase.seen, s.now);
    if request.None? {
      LocalStep(c, s, p, s'.pods[p]);
    } else {
      SendPreserves(c, s, p, id, request.value, s'.pods[p]);
    }
  }

  lemma SurrenderWritePreserves(c: Config, s: State, p: Name, id: nat)
    requires Inv(c, s) && Enabled(c, s, SurrenderWrite(p, id))
    ensures Inv(c, Do(c, s, SurrenderWrite(p, id)))
  {
    var s' := Do(c, s, SurrenderWrite(p, id));
    assert PodOk(c, s, p);
    SendPreserves(c, s, p, id, s'.sent[id], s'.pods[p]);
  }

  /** While p is protected, the server can only apply p's own renewals, and they keep p protected. */
  lemma ServerKeepsProtected(c: Config, s: State, id: nat, p: Name, since: int)
    requires ValidConfig(c) && Inv(c, s) && id in s.sent && Accepts(s.lease, s.sent[id])
    requires Protected(c, s, p, since) && s.now <= since + 14 * SECOND
    ensures s.sent[id].from == p
    ensures Protected(c, Do(c, s, ServerHandles(id)), p, since)
  {
    NoTakeoverWhileProtected(c, s, p, since, s.sent[id]);
  }

  /** The request p waits for has just been applied. */
  lemma ServerProtectsWriter(c: Config, s: State, id: nat, p: Name)
    requires Inv(c, s) && id in s.sent && Accepts(s.lease, s.sent[id])
    requires p in s.pods && s.pods[p].phase.Writing? && s.pods[p].phase.id == id
    ensures Protected(c, Do(c, s, ServerHandles(id)), p, s.pods[p].phase.start)
  {
  }

  lemma ServerKeepsPod(c: Config, s: State, id: nat, p: Name)
    requires ValidConfig(c) && Inv(c, s) && id in s.sent && Accepts(s.lease, s.sent[id])
    requires p in s.pods
    ensures PodOk(c, Do(c, s, ServerHandles(id)), p)
  {
    var s' := Do(c, s, ServerHandles(id));
    var pod := s.pods[p];
    assert PodOk(c, s, p);
    if pod.RunningLeader() {
      LeaderDeadline(s, pod);
      ServerKeepsProtected(c, s, id, p, pod.lastGood);
    }
    match pod.phase {
      case Writing(start, _, mine) =>
        if mine in s.applied {
          ServerKeepsProtected(c, s, id, p, start);
        } else if mine == id {
          ServerProtectsWriter(c, s, id, p);
        }
      case Deciding(start, _, outcome) =>
        if outcome.Acquired? { ServerKeepsProtected(c, s, id, p, start); }
      case _ =>
    }
  }

  lemma ServerHandlesPreserves(c: Config, s: State, id: nat)
    requires ValidConfig(c) && Inv(c, s) && Enabled(c, s, ServerHandles(id))
    ensures Inv(c, Do(c, s, ServerHandles(id)))
  {
    if Accepts(s.lease, s.sent[id]) {
      var s' := Do(c, s, ServerHandles(id));
      assert RequestOk(c, s, s.sent[id]);
      forall i | i in s'.sent ensures RequestOk(c, s', s'.sent[i]) {
        assert RequestOk(c, s, s.sent[i]);
      }
      forall p | p in s'.pods ensures PodOk(c, s', p) {
        ServerKeepsPod(c, s, id, p);
      }
    }
  }

  lemma StepPreserves(c: Config, s: State, step: Step)
    requires ValidConfig(c) && Inv(c, s) && Enabled(c, s, step)
    ensures Inv(c, Do(c, s, step))
  {
    match step
    case Advance(t) => AdvancePreserves(c, s, t);
    case ReadReplies(p) => ReadRepliesPreserves(c, s, p);
    case Choose(p, id) => ChoosePreserves(c, s, p, id);
    case ServerHandles(id) => ServerHandlesPreserves(c, s, id);
    case Decide(p) => DecidePreserves(c, s, p);
    case EndTick(p) => EndTickPreserves(c, s, p);
    case SurrenderWrite(p, id) => SurrenderWritePreserves(c, s, p, id);
    case Launch(_) => LoopStepPreserves(c, s, step);
    case BeginTick(p) => BeginTickPreserves(c, s, p);
    case ReadFails(_) => LoopStepPreserves(c, s, step);
    case WriteReplies(_, _) => LoopStepPreserves(c, s, step);
    case _ => StopStepPreserves(c, s, step);
  }

  lemma NextKeepsInv(c: Config, s: State, s': State)
    requires ValidConfig(c) && Inv(c, s) && Next(c, s, s')
    ensures Inv(c, s')
  {
    var step :| Enabled(c, s, step) && s' == Do(c, s, step);
    StepPreserves(c, s, step);
  }

  lemma {:induction false} RunKeepsInv(c: Config, run: seq<State>, i: nat)
    requires ValidConfig(c) && IsRun(c, run) && i < |run|
    ensures Inv(c, run[i])
  {
    if i > 0 {
      RunKeepsInv(c, run, i - 1);
      assert Next(c, run[i - 1], run[i - 1 + 1]);
      NextKeepsInv(c, run[i - 1], run[i]);
    }
  }

  /** Leader mutual exclusion: in every state of every run at most one pod whose election
      loop still runs believes it leads, and the Lease then names it. */
  lemma MutualExclusion(c: Config, run: seq<State>, i: nat, p: Name, q: Name)
    requires ValidConfig(c) && IsRun(c, run) && i < |run|
    requires p in run[i].pods && run[i].pods[p].RunningLeader()
    ensures run[i].lease.Lease? && run[i].lease.holder == p
    ensures q in run[i].pods && run[i].pods[q].RunningLeader() ==> p == q
  {
    RunKeepsInv(c, run, i);
    assert PodOk(c, run[i], p);
    if q in run[i].pods && run[i].pods[q].RunningLeader() {
      assert PodOk(c, run[i], q);
    }
  }

  /** A leader that stops renewing has given up before any other pod may take over. */
  lemma GivesUpInTime(c: Config, run: seq<State>, i: nat, p: Name)
    requires ValidConfig(c) && IsRun(c, run) && i < |run|
    requires p in run[i].pods && run[i].pods[p].RunningLeader()
    ensures run[i].now <= run[i].pods[p].lastGood + 14 * SECOND
    ensures run[i].lease.Lease?
    ensures forall q | q in c.offset :: !LeaseExpired(run[i].lease, Clock(c, q, run[i].now))
  {
    RunKeepsInv(c, run, i);
    var s := run[i];
    assert PodOk(c, s, p);
    LeaderDeadline(s, s.pods[p]);
    forall q | q in c.offset ensures !LeaseExpired(s.lease, Clock(c, q, s.now)) {
      assert c.offset[q] - c.offset[p] <= MAX_SKEW;
    }
  }

  ghost predicate Reachable(c: Config, s: State) {
    exists run: seq<State> :: IsRun(c, run) && run[|run| - 1] == s
  }

  lemma ReachableStep(c: Config, s: State, step: Step)
    requires Reachable(c, s) && Enabled(c, s, step)
    ensures Reachable(c, Do(c, s, step))
  {
    var run: seq<State> :| IsRun(c, run) && run[|run| - 1] == s;
    var run' := run + [Do(c, s, step)];
    forall i | 0 <= i < |run'| - 1 ensures Next(c, run'[i], run'[i + 1]) {
      if i < |run| - 1 { assert Next(c, run[i], run[i + 1]); }
    }
    assert run'[|run'| - 1] == Do(c, s, step);
  }

  /** A pod that starts reads the Lease in its first tick. */
  lemma Reads(c: Config, s: State, p: Name) returns (s': State)
    requires Reachable(c, s) && p in s.pods && s.pods[p].phase.Off?
    ensures Reachable(c, s')
    ensures s' == s.(pods := s.pods[p := s.pods[p].(phase := Choosing(s.now, true, s.lease))])
  {
    ReachableStep(c, s, Launch(p));
    var s1 := Do(c, s, Launch(p));
    ReachableStep(c, s1, BeginTick(p));
    var s2 := Do(c, s1, BeginTick(p));
    ReachableStep(c, s2, ReadReplies(p));
    s' := Do(c, s2, ReadReplies(p));
  }

  /** It sends what its attempt says. */
  lemma Sends(c: Config, s: State, p: Name, id: nat) returns (s': State)
    requires Reachable(c, s) && p in s.pods && p in c.offset && s.pods[p].phase.Choosing? && id !in s.sent
    requires Attempt(c, p, s.pods[p].phase.seen, s.now).Some?
    ensures Reachable(c, s')
    ensures var ph := s.pods[p].phase;
            s' == s.(pods := s.pods[p := s.pods[p].(phase := Writing(ph.start, ph.first, id))],
                     sent := s.sent[id := Attempt(c, p, ph.seen, s.now).value])
  {
    ReachableStep(c, s, Choose(p, id));
    s' := Do(c, s, Choose(p, id));
  }

  /** The server accepts, and the reply arrives. */
  lemma Wins(c: Config, s: State, p: Name) returns (s': State)
    requires Reachable(c, s) && p in s.pods && s.pods[p].phase.Writing? && s.pods[p].phase.id in s.sent
    requires Accepts(s.lease, s.sent[s.pods[p].phase.id])
    ensures Reachable(c, s')
    ensures var ph := s.pods[p].phase;
            s' == s.(lease := Stored(s.lease, s.sent[ph.id]), applied := s.applied + {ph.id},
                     pods := s.pods[p := s.pods[p].(phase := Deciding(ph.start, ph.first, Acquired))])
  {
    var id := s.pods[p].phase.id;
    ReachableStep(c, s, ServerHandles(id));
    var s1 := Do(c, s, ServerHandles(id));
    ReachableStep(c, s1, WriteReplies(p, Acquired));
    s' := Do(c, s1, WriteReplies(p, Acquired));
  }

  lemma ReadsThenSends(c: Config, s: State, p: Name, id: nat) returns (s': State)
    requires Reachable(c, s) && p in s.pods && p in c.offset && s.pods[p].phase.Off? && id !in s.sent
    requires Attempt(c, p, s.lease, s.now).Some?
    ensures Reachable(c, s')
    ensures s' == s.(pods := s.pods[p := s.pods[p].(phase := Writing(s.now, true, id))],
                     sent := s.sent[id := Attempt(c, p, s.lease, s.now).value])
  {
    var s1 := Reads(c, s, p);
    s' := Sends(c, s1, p, id);
    assert s'.pods == s.pods[p := s.pods[p].(phase := Writing(s.now, true, id))];
  }

  /** A first tick, up to the reply to a write that the server accepts. */
  lemma FirstTickWins(c: Config, s: State, p: Name, id: nat) returns (s': State)
    requires Reachable(c, s) && p in s.pods && p in c.offset && s.pods[p].phase.Off? && id !in s.sent
    requires var r := Attempt(c, p, s.lease, s.now); r.Some? && Accepts(s.lease, r.value)
    ensures Reachable(c, s')
    ensures var r := Attempt(c, p, s.lease, s.now).value;
            s' == State(s.now, Stored(s.lease, r),
                        s.pods[p := s.pods[p].(phase := Deciding(s.now, true, Acquired))],
                        s.sent[id := r], s.applied + {id})
  {
    var s1 := ReadsThenSends(c, s, p, id);
    s' := Wins(c, s1, p);
    assert s'.pods == s.pods[p := s.pods[p].(phase := Deciding(s.now, true, Acquired))];
  }

  function AllOff(c: Config, now: int): State {
    State(now, Absent, map p | p in c.offset :: Pod(Off, false, 0, 0, 0), map[], {})
  }

  lemma AllOffReachable(c: Config, now: int)
    ensures Reachable(c, AllOff(c, now))
  {
    var s := AllOff(c, now);
    assert IsRun(c, [s]) && [s][|[s]| - 1] == s;
  }

  lemma FreshWin(c: Config, p: Name, now: int) returns (s: State)
    requires p in c.offset
    ensures Reachable(c, s) && s.now == now
    ensures s.lease == Lease(p, Some(MicroTime(Clock(c, p, now))), Some(LEASE_DURATION_SECONDS), 1)
    ensures s.pods == AllOff(c, now).pods[p := Pod(Deciding(now, true, Acquired), false, 0, 0, 0)]
    ensures s.sent.Keys == {0}
  {
    AllOffReachable(c, now);
    s := FirstTickWins(c, AllOff(c, now), p, 0);
  }

  /** The protocol is not safe by doing nothing: any pod can win a fresh election. */
  lemma AnyPodCanLead(c: Config, p: Name) returns (s: State)
    requires p in c.offset
    ensures Reachable(c, s) && p in s.pods && s.pods[p].RunningLeader()
  {
    var s0 := FreshWin(c, p, 0);
    ReachableStep(c, s0, Decide(p));
    s := Do(c, s0, Decide(p));
  }

  // ---------------------------------------------------------------- renewal

  predicate Leads(s: State, p: Name) { p in s.pods && s.pods[p].RunningLeader() }

  lemma ReachableInv(c: Config, s: State)
    requires ValidConfig(c) && Reachable(c, s)
    ensures Inv(c, s)
  {
    var run: seq<State> :| IsRun(c, run) && run[|run| - 1] == s;
    RunKeepsInv(c, run, |run| - 1);
  }

  /** The first half of a tick without a fault: p reads the Lease and sends a renewal. */
  lemma SendsRenewal(c: Config, s: State, p: Name, id: nat) returns (s1: State, s2: State, s3: State)
    requires ValidConfig(c) && Reachable(c, s) && Leads(s, p) && id !in s.sent
    requires s.pods[p].phase.Idle? && s.now == s.pods[p].phase.next
    ensures Enabled(c, s, BeginTick(p)) && s1 == Do(c, s, BeginTick(p))
    ensures Enabled(c, s1, ReadReplies(p)) && s2 == Do(c, s1, ReadReplies(p))
    ensures Enabled(c, s2, Choose(p, id)) && s3 == Do(c, s2, Choose(p, id))
    ensures p in c.offset && s.lease.Lease?
    ensures s3.pods == s.pods[p := s.pods[p].(phase := Writing(s.now, s.pods[p].phase.first, id))]
    ensures id in s3.sent && Accepts(s3.lease, s3.sent[id])
    ensures s3.sent[id].holder == p && s3.sent[id].renewTime == MicroTime(Clock(c, p, s.now))
    ensures s3.now == s.now && s3.lease == s.lease && s3.applied == s.applied
  {
    ReachableInv(c, s);
    assert PodOk(c, s, p);
    s1 := Do(c, s, BeginTick(p));
    s2 := Do(c, s1, ReadReplies(p));
    s3 := Do(c, s2, Choose(p, id));
    assert s2.pods[p].phase == Choosing(s.now, s.pods[p].phase.first, s.lease);
  }

  /** The second half: the server accepts, the reply arrives, and p decides. */
  lemma GetsRenewal(c: Config, s: State, p: Name) returns (s1: State, s2: State, s3: State)
    requires p in s.pods && s.pods[p].phase.Writing? && s.pods[p].phase.id in s.sent
    requires Accepts(s.lease, s.sent[s.pods[p].phase.id])
    ensures Enabled(c, s, ServerHandles(s.pods[p].phase.id)) && s1 == Do(c, s, ServerHandles(s.pods[p].phase.id))
    ensures Enabled(c, s1, WriteReplies(p, Acquired)) && s2 == Do(c, s1, WriteReplies(p, Acquired))
    ensures Enabled(c, s2, Decide(p)) && s3 == Do(c, s2, Decide(p))
    ensures Leads(s3, p) && s3.pods[p].lastGood == s.pods[p].phase.start && s3.now == s.now
    ensures s3.lease == Stored(s.lease, s.sent[s.pods[p].phase.id])
  {
    s1 := Do(c, s, ServerHandles(s.pods[p].phase.id));
    s2 := Do(c, s1, WriteReplies(p, Acquired));
    s3 := Do(c, s2, Decide(p));
    assert s2.pods[p] == s.pods[p].(phase := Deciding(s.pods[p].phase.start, s.pods[p].phase.first, Acquired));
  }

  /** From every reachable state in which p leads and its tick is due, the tick without a fault can be
      taken step by step.  It renews: p still leads, and the Lease has the time of p's clock. */
  lemma LeaderCanRenew(c: Config, s: State, p: Name, id: nat) returns (steps: seq<State>)
    requires ValidConfig(c) && Reachable(c, s) && Leads(s, p) && id !in s.sent
    requires s.pods[p].phase.Idle? && s.now == s.pods[p].phase.next
    ensures |steps| == 6 && p in c.offset
    ensures Enabled(c, s, BeginTick(p)) && steps[0] == Do(c, s, BeginTick(p))
    ensures Enabled(c, steps[0], ReadReplies(p)) && steps[1] == Do(c, steps[0], ReadReplies(p))
    ensures Enabled(c, steps[1], Choose(p, id)) && steps[2] == Do(c, steps[1], Choose(p, id))
    ensures Enabled(c, steps[2], ServerHandles(id)) && steps[3] == Do(c, steps[2], ServerHandles(id))
    ensures Enabled(c, steps[3], WriteReplies(p, Acquired)) && steps[4] == Do(c, steps[3], WriteReplies(p, Acquired))
    ensures Enabled(c, steps[4], Decide(p)) && steps[5] == Do(c, steps[4], Decide(p))
    ensures Leads(steps[5], p) && steps[5].pods[p].lastGood == s.now
    ensures steps[5].lease.Lease? && steps[5].lease.holder == p
    ensures steps[5].lease.renewTime == Some(MicroTime(Clock(c, p, s.now)))
  {
    var s1, s2, s3 := SendsRenewal(c, s, p, id);
    var s4, s5, s6 := GetsRenewal(c, s3, p);
    steps := [s1, s2, s3, s4, s5, s6];
  }

  /** A read or write of p that fails or is refused, or the end of p. */
  predicate FaultOf(step: Step, p: Name) {
    step == ReadFails(p) || step == Stop(p) || (step.WriteReplies? && step.p == p && !step.outcome.Acquired?)
  }

  ghost predicate FaultFreeNext(c: Config, s: State, s': State, p: Name) {
    exists step :: Enabled(c, s, step) && s' == Do(c, s, step) && !FaultOf(step, p)
  }

  ghost predicate FaultFree(c: Config, run: seq<State>, k: nat, p: Name)
    requires k + 1 < |run|
  {
    FaultFreeNext(c, run[k], run[k + 1], p)
  }

  /** p leads, has met no fault in this tick, and has renewed if it has decided. */
  ghost predicate Steady(s: State, p: Name) {
    && Leads(s, p)
    && match s.pods[p].phase
       case Choosing(_, _, seen) => seen.Lease? && seen.holder == p
       case Deciding(_, _, outcome) => outcome.Acquired?
       case Labelling(start, _) => s.pods[p].lastGood == start
       case _ => true
  }

  lemma OtherStepSteady(c: Config, s: State, step: Step, p: Name)
    requires Enabled(c, s, step) && Steady(s, p)
    requires step.Advance? || step.ServerHandles? || step.p != p
    ensures Steady(Do(c, s, step), p)
  {
    assert Do(c, s, step).pods[p] == s.pods[p];
  }

  lemma OwnStepSteady(c: Config, s: State, step: Step, p: Name)
    requires Inv(c, s) && Enabled(c, s, step) && Steady(s, p) && !FaultOf(step, p)
    requires !step.Advance? && !step.ServerHandles? && step.p == p
    ensures Steady(Do(c, s, step), p)
  {
    assert PodOk(c, s, p);
  }

  lemma SteadyStep(c: Config, s: State, s': State, p: Name)
    requires Inv(c, s) && FaultFreeNext(c, s, s', p) && Steady(s, p)
    ensures Steady(s', p)
  {
    var step :| Enabled(c, s, step) && s' == Do(c, s, step) && !FaultOf(step, p);
    if step.Advance? || step.ServerHandles? || step.p != p {
      OtherStepSteady(c, s, step, p);
    } else {
      OwnStepSteady(c, s, step, p);
    }
  }

  lemma StaysSteadyAt(c: Config, run: seq<State>, k: nat, p: Name)
    requires ValidConfig(c) && IsRun(c, run) && k + 1 < |run| && Steady(run[k], p) && FaultFree(c, run, k, p)
    ensures Steady(run[k + 1], p)
  {
    RunKeepsInv(c, run, k);
    SteadyStep(c, run[k], run[k + 1], p);
  }

  ghost predicate SteadyLink(run: seq<State>, k: nat, p: Name)
    requires k + 1 < |run|
  {
    Steady(run[k], p) ==> Steady(run[k + 1], p)
  }

  lemma {:induction false} StaysSteady(run: seq<State>, i: nat, j: nat, p: Name)
    requires i <= j < |run| && Steady(run[i], p) && forall k | i <= k < j :: SteadyLink(run, k, p)
    ensures Steady(run[j], p)
    decreases j
  {
    if i < j {
      StaysSteady(run, i, j - 1, p);
      assert SteadyLink(run, j - 1, p);
    }
  }

  lemma SteadyHasRenewed(c: Config, s: State, p: Name)
    requires Inv(c, s) && Steady(s, p)
    ensures s.lease.Lease? && s.lease.holder == p && s.lease.renewTime.Some? && p in c.offset
    ensures var pod := s.pods[p]; pod.phase.Labelling? ==>
              pod.lastGood == pod.phase.start && s.lease.renewTime.value >= MicroTime(Clock(c, p, pod.phase.start))
  {
    assert PodOk(c, s, p);
  }

  /** A leader whose ticks meet no fault leads at every later state of every run, whatever the other
      pods and their requests do, and every tick it has decided has renewed the Lease. */
  lemma FaultFreeLeaderLeads(c: Config, run: seq<State>, i: nat, j: nat, p: Name)
    requires ValidConfig(c) && IsRun(c, run) && i <= j < |run|
    requires Leads(run[i], p) && run[i].pods[p].phase.Idle?
    requires forall k | i <= k < j :: FaultFree(c, run, k, p)
    ensures Leads(run[j], p)
    ensures run[j].lease.Lease? && run[j].lease.holder == p && run[j].lease.renewTime.Some? && p in c.offset
    ensures var pod := run[j].pods[p]; pod.phase.Labelling? ==>
              && pod.lastGood == pod.phase.start
              && run[j].lease.renewTime.value >= MicroTime(Clock(c, p, pod.phase.start))
  {
    assert Steady(run[j], p) by {
      forall k | i <= k < j ensures SteadyLink(run, k, p) {
        if Steady(run[k], p) { StaysSteadyAt(c, run, k, p); }
      }
      StaysSteady(run, i, j, p);
    }
    RunKeepsInv(c, run, j);
    SteadyHasRenewed(c, run[j], p);
  }

  // ---------------------------------------------------------------- release

  /** What the release leaves, applied before any other write: nobody's Lease, last renewed in 1970. */
  function Freed(l: Lease): Lease
    requires l.Lease?
  {
    Lease("", Some(0), l.durationSeconds, l.version + 1)
  }

  lemma ReleaseApplies(c: Config, s: State, p: Name, id: nat) returns (s1: State, s2: State)
    requires Enabled(c, s, SurrenderWrite(p, id)) && s.pods[p].phase.seen == s.lease
    ensures s1 == Do(c, s, SurrenderWrite(p, id))
    ensures Enabled(c, s1, ServerHandles(id)) && s2 == Do(c, s1, ServerHandles(id))
    ensures s2.lease == Freed(s.lease) && s2.now == s.now
    ensures s2.pods == s.pods[p := s.pods[p].(phase := Halting)]
  {
    s1 := Do(c, s, SurrenderWrite(p, id));
    s2 := Do(c, s1, ServerHandles(id));
  }

  /** An attempt of any pod then takes the Lease over if and only if the pod's clock is past the Lease's
      duration after the start of 1970. */
  lemma ReleasedIsTakeable(c: Config, l: Lease, q: Name, t: int)
    requires l.Lease? && q in c.offset && "" !in c.offset
    ensures var r := Attempt(c, q, Freed(l), t);
            && (r.Some? <==> l.durationSeconds.None? || Clock(c, q, t) > l.durationSeconds.value * SECOND)
            && (r.Some? ==> r.value.holder == q && Accepts(Freed(l), r.value))
  {
  }

  /** After a release at such a time a pod that is off can start, take the Lease over and lead. */
  lemma ReleasedIsTaken(c: Config, s: State, p: Name, id: nat, q: Name) returns (s': State)
    requires "" !in c.offset && Reachable(c, s) && Enabled(c, s, SurrenderWrite(p, id))
    requires s.pods[p].phase.seen == s.lease && q in s.pods && s.pods[q].phase.Off?
    requires q in c.offset && (s.lease.durationSeconds.Some? ==>
                                 Clock(c, q, s.now) > s.lease.durationSeconds.value * SECOND)
    ensures Reachable(c, s') && Leads(s', q) && s'.lease.Lease? && s'.lease.holder == q
  {
    var s1, s2 := ReleaseApplies(c, s, p, id);
    ReachableStep(c, s, SurrenderWrite(p, id));
    ReachableStep(c, s1, ServerHandles(id));
    ReleasedIsTakeable(c, s.lease, q, s.now);
    s' := TakesOver(c, s2, q);
  }

  lemma TakesOver(c: Config, s: State, q: Name) returns (s': State)
    requires Reachable(c, s) && q in s.pods && q in c.offset && s.pods[q].phase.Off?
    requires var r := Attempt(c, q, s.lease, s.now); r.Some? && Accepts(s.lease, r.value)
    ensures Reachable(c, s') && Leads(s', q) && s'.lease.Lease? && s'.lease.holder == q
  {
    var id := FreshId(s.sent.Keys);
    var s1 := FirstTickWins(c, s, q, id);
    ReachableStep(c, s1, Decide(q));
    s' := Do(c, s1, Decide(q));
  }

  lemma {:induction false} FreshId(ids: set<nat>) returns (id: nat)
    ensures id !in ids && forall i | i in ids :: i < id
  {
    if ids == {} {
      id := 0;
    } else {
      var i :| i in ids;
      var rest := FreshId(ids - {i});
      id := if rest <= i then i + 1 else rest;
      assert ids == ids - {i} + {i};
    }
  }

  /** From every reachable state in which p leads and is idle, stopping it without a fault can be taken step
      by step, and ends with the Lease free and p off. */
  lemma LeaderCanRelease(c: Config, s: State, p: Name, id: nat) returns (steps: seq<State>)
    requires ValidConfig(c) && Reachable(c, s) && Leads(s, p) && s.pods[p].phase.Idle? && id !in s.sent
    ensures |steps| == 5
    ensures Enabled(c, s, Stop(p)) && steps[0] == Do(c, s, Stop(p))
    ensures Enabled(c, steps[0], SurrenderRead(p)) && steps[1] == Do(c, steps[0], SurrenderRead(p))
    ensures Enabled(c, steps[1], SurrenderWrite(p, id)) && steps[2] == Do(c, steps[1], SurrenderWrite(p, id))
    ensures Enabled(c, steps[2], ServerHandles(id)) && steps[3] == Do(c, steps[2], ServerHandles(id))
    ensures Enabled(c, steps[3], SurrenderDone(p)) && steps[4] == Do(c, steps[3], SurrenderDone(p))
    ensures s.lease.Lease? && steps[4].lease == Freed(s.lease)
    ensures p in steps[4].pods && steps[4].pods[p].phase.Off? && !steps[4].pods[p].isLeader
  {
    var s1, s2 := StopsAndReads(c, s, p);
    var s3, s4 := ReleaseApplies(c, s2, p, id);
    var s5 := SurrenderEnds(c, s4, p);
    steps := [s1, s2, s3, s4, s5];
  }

  lemma SurrenderEnds(c: Config, s: State, p: Name) returns (s': State)
    requires p in s.pods && s.pods[p].phase.Halting?
    ensures Enabled(c, s, SurrenderDone(p)) && s' == Do(c, s, SurrenderDone(p))
    ensures s'.lease == s.lease && p in s'.pods && s'.pods[p].phase.Off? && !s'.pods[p].isLeader
  {
    s' := Do(c, s, SurrenderDone(p));
  }

  lemma StopsAndReads(c: Config, s: State, p: Name) returns (s1: State, s2: State)
    requires ValidConfig(c) && Reachable(c, s) && Leads(s, p) && s.pods[p].phase.Idle?
    ensures Enabled(c, s, Stop(p)) && s1 == Do(c, s, Stop(p))
    ensures Enabled(c, s1, SurrenderRead(p)) && s2 == Do(c, s1, SurrenderRead(p))
    ensures p in c.offset && s.lease.Lease? && s.lease.holder == p
    ensures s2 == s.(pods := s.pods[p := s.pods[p].(phase := HaltingAfterRead(s.lease))])
  {
    ReachableInv(c, s);
    assert PodOk(c, s, p);
    s1 := Do(c, s, Stop(p));
    s2 := Do(c, s1, SurrenderRead(p));
  }

  // ---------------------------------------------------------------- clocks further apart

  /** A start time at which p's clock is at the end of a microsecond. */
  function Start(c: Config, p: Name): int
    requires p in c.offset
  {
    MICROSECOND - 1 - c.offset[p]
  }

  /** Since it started, only p has run, and only its first write has reached the server. */
  ghost predicate Alone(c: Config, p: Name, s: State) {
    && Reachable(c, s) && p in s.pods && s.pods.Keys == c.offset.Keys
    && (forall q | q in s.pods && q != p :: s.pods[q].phase.Off?)
    && s.lease == Lease(p, Some(0), Some(LEASE_DURATION_SECONDS), 1) && 1 !in s.sent
  }

  /** Then p alone leads, has renewed `renewed` last, and waits for its next tick. */
  ghost predicate Holding(c: Config, p: Name, s: State, renewed: int) {
    && Alone(c, p, s) && s.pods[p].isLeader && s.pods[p].lastRenew == renewed
    && s.pods[p].phase == Idle(s.now + RETRY_PERIOD, false)
  }

  lemma Wait(c: Config, p: Name, s: State, t: int) returns (s': State)
    requires Alone(c, p, s) && s.now <= t && MayWaitUntil(s.pods[p], t)
    ensures Alone(c, p, s') && s' == s.(now := t)
  {
    ReachableStep(c, s, Advance(t));
    s' := Do(c, s, Advance(t));
  }

  lemma OnlyP(c: Config, p: Name, s: State, step: Step) returns (s': State)
    requires Alone(c, p, s) && Enabled(c, s, step)
    requires step == Decide(p) || step == EndTick(p) || step == BeginTick(p) || step == ReadFails(p)
    ensures s' == Do(c, s, step) && Alone(c, p, s')
  {
    ReachableStep(c, s, step);
    s' := Do(c, s, step);
    assert s' == s.(pods := s.pods[p := s'.pods[p]]);
  }

  lemma Acquires(c: Config, p: Name) returns (s: State)
    requires p in c.offset
    ensures Alone(c, p, s) && s.now == Start(c, p)
    ensures s.pods[p].phase == Deciding(s.now, true, Acquired)
  {
    s := FreshWin(c, p, Start(c, p));
  }

  lemma TickEnds(c: Config, p: Name, s: State) returns (s': State)
    requires Alone(c, p, s) && s.pods[p].phase.Deciding?
    ensures Alone(c, p, s') && s'.now == s.now
    ensures s'.pods[p] == Ended(Decided(s.pods[p], s.now), s.now)
  {
    var s1 := OnlyP(c, p, s, Decide(p));
    assert s1.pods[p] == Decided(s.pods[p], s.now);
    s' := OnlyP(c, p, s1, EndTick(p));
  }

  /** A tick whose read fails within the grace window. */
  lemma FailedTick(c: Config, p: Name, s: State, renewed: int) returns (s': State)
    requires Holding(c, p, s, renewed) && s.now + RETRY_PERIOD - renewed < RENEW_DEADLINE
    ensures Holding(c, p, s', renewed) && s'.now == s.now + RETRY_PERIOD
  {
    var s1 := Wait(c, p, s, s.now + RETRY_PERIOD);
    var s2 := OnlyP(c, p, s1, BeginTick(p));
    var s3 := OnlyP(c, p, s2, ReadFails(p));
    assert s3.pods[p] == s.pods[p].(phase := Deciding(s1.now, false, Failed));
    s' := TickEnds(c, p, s3);
  }

  /** It holds on through four failing ticks. */
  lemma HoldsOn(c: Config, p: Name) returns (s: State)
    requires p in c.offset
    ensures Holding(c, p, s, Start(c, p) + 2 * SECOND) && s.now == Start(c, p) + 10 * SECOND
  {
    var t := Start(c, p) + 2 * SECOND;
    s := Acquires(c, p);
    s := Wait(c, p, s, t);
    s := TickEnds(c, p, s);
    s := FailedTick(c, p, s, t);
    s := FailedTick(c, p, s, t);
    s := FailedTick(c, p, s, t);
    s := FailedTick(c, p, s, t);
  }

  /** Its last tick starts after 12 s and may last until 14 s. */
  lemma LastTick(c: Config, p: Name) returns (s: State)
    requires p in c.offset
    ensures Alone(c, p, s) && s.now == Start(c, p) + 14 * SECOND && s.pods[p].RunningLeader()
  {
    s := HoldsOn(c, p);
    s := Wait(c, p, s, s.now + RETRY_PERIOD);
    s := OnlyP(c, p, s, BeginTick(p));
    s := Wait(c, p, s, s.now + RETRY_PERIOD);
  }

  /** By then the clock of q, more than MAX_SKEW ahead, says that the Lease has expired. */
  lemma SeesExpired(c: Config, p: Name, q: Name, now: int)
    requires p in c.offset && q in c.offset && c.offset[q] - c.offset[p] > MAX_SKEW
    requires now == Start(c, p) + 14 * SECOND
    ensures p != q
    ensures LeaseExpired(Lease(p, Some(0), Some(LEASE_DURATION_SECONDS), 1), Clock(c, q, now))
  {
  }

  lemma TwoLeaders(c: Config, p: Name, q: Name) returns (s: State)
    requires p in c.offset && q in c.offset && c.offset[q] - c.offset[p] > MAX_SKEW
    ensures Reachable(c, s) && Leads(s, p) && Leads(s, q) && p != q
  {
    var s0 := LastTick(c, p);
    SeesExpired(c, p, q, s0.now);
    var s1 := FirstTickWins(c, s0, q, 1);
    ReachableStep(c, s1, Decide(q));
    s := Do(c, s1, Decide(q));
  }

  ghost predicate AlwaysExclusive(c: Config) {
    forall s: State, p, q | Reachable(c, s) && Leads(s, p) && Leads(s, q) :: p == q
  }

  lemma ExclusiveWithin(c: Config)
    requires ValidConfig(c)
    ensures AlwaysExclusive(c)
  {
    forall s: State, p, q | Reachable(c, s) && Leads(s, p) && Leads(s, q) ensures p == q {
      var run: seq<State> :| IsRun(c, run) && run[|run| - 1] == s;
      MutualExclusion(c, run, |run| - 1, p, q);
    }
  }

  /** A deployment never has two running leaders, in any run, if and only if no two of its clocks are
      further apart than one second less 999 ns. */
  lemma ExclusionExactly(c: Config)
    requires "" !in c.offset
    ensures AlwaysExclusive(c) <==> ClocksClose(c)
  {
    if ClocksClose(c) {
      ExclusiveWithin(c);
    } else {
      var p, q :| p in c.offset && q in c.offset && c.offset[q] - c.offset[p] > MAX_SKEW;
      var s := TwoLeaders(c, p, q);
    }
  }
}
