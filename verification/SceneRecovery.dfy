/** Bounded automatic recovery of a stopped scene: at most three retries, each after a delay and only over an
    empty, disabled pair, with refusals that only an explicit start or stop clears. */
module SceneRecovery {
  import opened PairModel
  import PairController

  const MAXIMUM_RETRIES: nat := 3
  const RETRY_DELAY: nat := 2000
  const PROGRESS_GAP: nat := 2000
  const HEALTHY_SPAN: nat := 10000

  datatype StopReason = NoStop | ExplicitStop | InspectionUnavailable | OwnedEntryAbsent | ResolutionChanged | CaptureStalled |
                        IdentityRefused | PoseInvalid | CreationFailed | ExceptionStop

  datatype Recovery = Recovery(requested: bool, pending: bool, attempts: nat, sequence: nat, stoppedAt: nat,
                               healthySince: nat, lastProgress: nat, reason: StopReason)

  const UNSTARTED: Recovery := Recovery(false, false, 0, 0, 0, 0, 0, NoStop)

  predicate Retryable(r: StopReason) { r.InspectionUnavailable? || r.OwnedEntryAbsent? }

  predicate Latched(r: StopReason) { r.IdentityRefused? || r.CreationFailed? }

  /** Nothing owned, requested or failed: the pair a retry may start from. */
  predicate EmptyDisabled(pair: Snapshot) {
    && pair.ids[0] == 0 && pair.ids[1] == 0 && !pair.requestPending && !pair.creationPending
    && pair.state == Disabled && pair.failure == NoFailure && pair.blocked == NotBlocked
  }

  // ----- the policy -----

  function Started(s: Recovery): Recovery {
    s.(requested := true, pending := false, attempts := 0, reason := NoStop, healthySince := 0, lastProgress := 0)
  }

  function Stopped(s: Recovery): Recovery {
    s.(requested := false, pending := false, reason := ExplicitStop, sequence := s.sequence + 1)
  }

  function Failing(s: Recovery, reason: StopReason, now: nat): Recovery {
    if Latched(s.reason) && reason != s.reason then s
    else if s.pending && s.reason == reason then s
    else
      s.(reason := reason, stoppedAt := now, healthySince := 0, lastProgress := 0,
         pending := s.requested && Retryable(reason) && s.attempts < MAXIMUM_RETRIES, sequence := s.sequence + 1)
  }

  predicate MayRetry(s: Recovery, now: nat, pair: Snapshot, freshPose: bool) {
    s.requested && s.pending && freshPose && now >= s.stoppedAt && now - s.stoppedAt >= RETRY_DELAY && EmptyDisabled(pair)
  }

  function Retried(s: Recovery): Recovery { s.(pending := false, attempts := s.attempts + 1) }

  function Resumed(s: Recovery): Recovery {
    if s.requested && !s.pending && s.reason == ResolutionChanged then s.(reason := NoStop, sequence := s.sequence + 1) else s
  }

  predicate Counts(s: Recovery) { s.requested && !s.pending && Retryable(s.reason) }

  /** A progress sample that does not continue the one before. */
  predicate Breaks(s: Recovery, now: nat) {
    s.lastProgress == 0 || now < s.lastProgress || now - s.lastProgress > PROGRESS_GAP
  }

  predicate Heals(s: Recovery, now: nat) {
    Counts(s) && !Breaks(s, now) && now >= s.healthySince && now - s.healthySince >= HEALTHY_SPAN
  }

  function Progressed(s: Recovery, now: nat): Recovery {
    if !Counts(s) then s
    else
      var p := s.(healthySince := if Breaks(s, now) then now else s.healthySince, lastProgress := now);
      if Heals(s, now) then p.(attempts := 0, reason := NoStop) else p
  }

  class Policy {
    var requested: bool
    var pending: bool
    var attempts: nat
    var sequence: nat
    var stoppedAt: nat
    var healthySince: nat
    var lastProgress: nat
    var reason: StopReason

    function Value(): Recovery
      reads this
    {
      Recovery(requested, pending, attempts, sequence, stoppedAt, healthySince, lastProgress, reason)
    }

    constructor ()
      ensures Value() == UNSTARTED
    {
      requested, pending, attempts, sequence, stoppedAt, healthySince, lastProgress, reason := false, false, 0, 0, 0, 0, 0, NoStop;
    }

    method Start()
      modifies this
      ensures Value() == Started(old(Value()))
    {
      requested, pending, attempts, reason, healthySince, lastProgress := true, false, 0, NoStop, 0, 0;
    }

    method Stop()
      modifies this
      ensures Value() == Stopped(old(Value()))
    {
      requested, pending, reason, sequence := false, false, ExplicitStop, sequence + 1;
    }

    method Failed(r: StopReason, now: nat)
      modifies this
      ensures Value() == Failing(old(Value()), r, now)
    {
      if Latched(reason) && r != reason { return; }
      if pending && reason == r { return; }
      reason, stoppedAt, healthySince, lastProgress := r, now, 0, 0;
      pending := requested && Retryable(r) && attempts < MAXIMUM_RETRIES;
      sequence := sequence + 1;
    }

    method Retry(now: nat, pair: Snapshot, freshPose: bool) returns (ok: bool)
      modifies this`pending, this`attempts
      ensures ok <==> MayRetry(old(Value()), now, pair, freshPose)
      ensures Value() == if ok then Retried(old(Value())) else old(Value())
    {
      if !requested || !pending || !freshPose || now < stoppedAt || now - stoppedAt < RETRY_DELAY || pair.ids[0] != 0 || pair.ids[1] != 0 ||
         pair.requestPending || pair.creationPending || pair.state != Disabled || pair.failure != NoFailure || pair.blocked != NotBlocked
      {
        return false;
      }
      pending := false;
      attempts := attempts + 1;
      return true;
    }

    method ResumedRetainedResolution()
      modifies this`reason, this`sequence
      ensures Value() == Resumed(old(Value()))
    {
      if requested && !pending && reason == ResolutionChanged {
        reason := NoStop;
        sequence := sequence + 1;
      }
    }

    method CaptureProgress(now: nat)
      modifies this
      ensures Value() == Progressed(old(Value()), now)
    {
      if !requested || pending || !Retryable(reason) { return; }
      if lastProgress == 0 || now < lastProgress || now - lastProgress > PROGRESS_GAP { healthySince := now; }
      lastProgress := now;
      if now >= healthySince && now - healthySince >= HEALTHY_SPAN {
        attempts := 0;
        reason := NoStop;
      }
    }
  }

  // ----- runs -----

  datatype Op =
    | StartOp
    | StopOp
    | FailOp(reason: StopReason, now: nat)
    | RetryOp(now: nat, pair: Snapshot, freshPose: bool)
    | ResumeOp
    | ProgressOp(now: nat)

  /** The policy with what it remembers only implicitly: the progress samples counted since health last
      restarted, and how many retries succeeded since the last start or heal. */
  datatype World = World(s: Recovery, chain: seq<nat>, retries: nat)

  const BEGINNING: World := World(UNSTARTED, [], 0)

  function After(w: World, op: Op): World {
    match op
    case StartOp => World(Started(w.s), [], 0)
    case StopOp => w.(s := Stopped(w.s))
    case FailOp(reason, now) =>
      var f := Failing(w.s, reason, now);
      w.(s := f, chain := if f == w.s then w.chain else [])
    case RetryOp(now, pair, freshPose) =>
      if MayRetry(w.s, now, pair, freshPose) then w.(s := Retried(w.s), retries := w.retries + 1) else w
    case ResumeOp => w.(s := Resumed(w.s))
    case ProgressOp(now) =>
      if !Counts(w.s) then w
      else World(Progressed(w.s, now), if Breaks(w.s, now) then [now] else w.chain + [now], if Heals(w.s, now) then 0 else w.retries)
  }

  /** Progress samples with gaps of at most 2000 ms, never running back. */
  predicate Steady(chain: seq<nat>) {
    forall k | 0 <= k < |chain| - 1 :: chain[k] <= chain[k + 1] <= chain[k] + 2000
  }

  predicate Inv(w: World) {
    && w.retries == w.s.attempts <= MAXIMUM_RETRIES && (w.s.pending ==> w.s.attempts < MAXIMUM_RETRIES && w.s.requested && Retryable(w.s.reason))
    && Steady(w.chain) && (w.s.lastProgress != 0 ==> w.chain != [])
    && (w.chain != [] ==> w.s.healthySince == w.chain[0] && w.s.lastProgress == w.chain[|w.chain| - 1])
  }

  lemma Kept(w: World, op: Op)
    requires Inv(w)
    ensures Inv(After(w, op))
  {
    hide EmptyDisabled;
  }

  function AfterAll(w: World, ops: seq<Op>): World
    decreases |ops|
  {
    if |ops| == 0 then w else AfterAll(After(w, ops[0]), ops[1..])
  }

  lemma {:induction false} AllKept(w: World, ops: seq<Op>)
    requires Inv(w)
    ensures Inv(AfterAll(w, ops))
    decreases |ops|
  {
    hide Inv, After;
    if |ops| > 0 {
      Kept(w, ops[0]);
      AllKept(After(w, ops[0]), ops[1..]);
    }
  }

  /** This step restores the full allowance: a start, or enough healthy progress. */
  predicate Restores(w: World, op: Op) { op.StartOp? || (op.ProgressOp? && Heals(w.s, op.now)) }

  function Retries(w: World, ops: seq<Op>): nat
    decreases |ops|
  {
    if |ops| == 0 then 0
    else (if After(w, ops[0]).retries == w.retries + 1 then 1 else 0) + Retries(After(w, ops[0]), ops[1..])
  }

  predicate NeverRestores(w: World, ops: seq<Op>)
    decreases |ops|
  {
    |ops| == 0 || (!Restores(w, ops[0]) && NeverRestores(After(w, ops[0]), ops[1..]))
  }

  lemma RetryCounts(w: World, op: Op)
    requires Inv(w) && !Restores(w, op)
    ensures After(w, op).retries == w.retries + if op.RetryOp? && MayRetry(w.s, op.now, op.pair, op.freshPose) then 1 else 0
  {
  }

  /** Between restorations at most three retries happen. */
  lemma {:induction false} AtMostThree(w: World, ops: seq<Op>)
    requires Inv(w) && NeverRestores(w, ops)
    ensures Retries(w, ops) + w.retries <= 3
    decreases |ops|
  {
    hide Inv, After, Restores;
    if |ops| == 0 {
      Bounded(w);
    } else {
      Kept(w, ops[0]);
      RetryCounts(w, ops[0]);
      AtMostThree(After(w, ops[0]), ops[1..]);
    }
  }

  lemma Bounded(w: World)
    requires Inv(w)
    ensures w.retries <= 3
  {
  }

  /** Only a start, or progress samples at most 2000 ms apart spanning at least 10000 ms, restore the allowance. */
  lemma HealNeedsSpan(ops: seq<Op>, now: nat)
    requires Heals(AfterAll(BEGINNING, ops).s, now)
    ensures var chain := AfterAll(BEGINNING, ops).chain + [now];
            |chain| > 1 && Steady(chain) && now - chain[0] >= 10000
  {
    hide AfterAll;
    AllKept(BEGINNING, ops);
    var w := AfterAll(BEGINNING, ops);
    assert forall k | 0 <= k < |w.chain| :: (w.chain + [now])[k] == w.chain[k];
  }

  /** From the beginning: three retries at most after the last restoration. */
  lemma RetryBudget(before: seq<Op>, after: seq<Op>)
    requires NeverRestores(AfterAll(BEGINNING, before), after)
    ensures Retries(AfterAll(BEGINNING, before), after) <= 3
  {
    hide AfterAll, NeverRestores, Retries;
    AllKept(BEGINNING, before);
    AtMostThree(AfterAll(BEGINNING, before), after);
  }

  /** A failure is recorded, with its time, unless it repeats the pending one or a latched refusal hides it. */
  predicate Recorded(s: Recovery, reason: StopReason) {
    !(s.pending && s.reason == reason) && !(Latched(s.reason) && reason != s.reason)
  }

  /** The operation at k is a failure recorded then, scheduling the retry now pending. */
  predicate Answered(w: World, ops: seq<Op>, k: nat, s: Recovery)
    requires k < |ops|
  {
    var u := AfterAll(w, ops[..k]);
    && ops[k].FailOp? && Recorded(u.s, ops[k].reason) && After(u, ops[k]).s.pending
    && s.reason == ops[k].reason && s.stoppedAt == ops[k].now
  }

  /** Whatever happened, a pending retry answers a recorded failure of the run, or was pending at the start. */
  lemma {:induction false} PendingAnswers(w: World, ops: seq<Op>)
    requires Inv(w) && AfterAll(w, ops).s.pending
    ensures var s := AfterAll(w, ops).s;
            (w.s.pending && w.s.stoppedAt == s.stoppedAt && w.s.reason == s.reason) || exists k :: 0 <= k < |ops| && Answered(w, ops, k, s)
    decreases |ops|
  {
    hide Inv, Answered;
    if |ops| > 0 {
      var v, s := After(w, ops[0]), AfterAll(w, ops).s;
      Kept(w, ops[0]);
      PendingAnswers(v, ops[1..]);
      if k :| 0 <= k < |ops[1..]| && Answered(v, ops[1..], k, s) {
        AnsweredEarlier(w, ops, k, s);
      } else {
        FirstAnswers(w, ops, s);
      }
    }
  }

  lemma AnsweredEarlier(w: World, ops: seq<Op>, k: nat, s: Recovery)
    requires k + 1 < |ops| && Answered(After(w, ops[0]), ops[1..], k, s)
    ensures Answered(w, ops, k + 1, s)
  {
    hide After, Recorded;
    assert ops[..k + 1][1..] == ops[1..][..k];
  }

  lemma FirstAnswers(w: World, ops: seq<Op>, s: Recovery)
    requires Inv(w) && |ops| > 0
    requires var v := After(w, ops[0]); v.s.pending && v.s.stoppedAt == s.stoppedAt && v.s.reason == s.reason
    ensures (w.s.pending && w.s.stoppedAt == s.stoppedAt && w.s.reason == s.reason) || Answered(w, ops, 0, s)
  {
    hide EmptyDisabled;
    assert ops[..0] == [];
  }

  /** In every run each retry answers a failure recorded at least two seconds before and sees an empty disabled pair. */
  lemma RetriesAreLate(ops: seq<Op>, now: nat, pair: Snapshot, freshPose: bool)
    requires MayRetry(AfterAll(BEGINNING, ops).s, now, pair, freshPose)
    ensures EmptyDisabled(pair)
    ensures exists k :: 0 <= k < |ops| && Answered(BEGINNING, ops, k, AfterAll(BEGINNING, ops).s) && now >= ops[k].now + 2000
  {
    hide AfterAll, EmptyDisabled;
    PendingAnswers(BEGINNING, ops);
    var s := AfterAll(BEGINNING, ops).s;
    var k :| 0 <= k < |ops| && Answered(BEGINNING, ops, k, s);
    assert now >= ops[k].now + RETRY_DELAY;
  }

  /** Forward from a recorded failure: while it stays the pending one, no retry comes within two seconds of it. */
  lemma RetryIsLate(w: World, reason: StopReason, failedAt: nat, waits: seq<Op>, now: nat, pair: Snapshot, freshPose: bool)
    requires Inv(w) && Recorded(w.s, reason) && Failing(w.s, reason, failedAt).pending
    requires StillPending(After(w, FailOp(reason, failedAt)), waits, reason)
    requires MayRetry(AfterAll(After(w, FailOp(reason, failedAt)), waits).s, now, pair, freshPose)
    ensures now >= failedAt + 2000 && EmptyDisabled(pair)
  {
    hide EmptyDisabled;
    PendingSince(After(w, FailOp(reason, failedAt)), waits, reason);
  }

  /** The failure stays the pending one: repeated reports of it, and anything that does not replace it. */
  predicate StillPending(w: World, ops: seq<Op>, reason: StopReason)
    decreases |ops|
  {
    |ops| == 0 ||
    (After(w, ops[0]).s.pending && !(ops[0].FailOp? && ops[0].reason != reason) && StillPending(After(w, ops[0]), ops[1..], reason))
  }

  lemma {:induction false} PendingSince(w: World, ops: seq<Op>, reason: StopReason)
    requires w.s.pending && w.s.reason == reason && StillPending(w, ops, reason)
    ensures AfterAll(w, ops).s.stoppedAt == w.s.stoppedAt
    decreases |ops|
  {
    hide EmptyDisabled;
    if |ops| > 0 { PendingSince(After(w, ops[0]), ops[1..], reason); }
  }

  /** A latched refusal survives everything but a start or a stop, and nothing is retried meanwhile. */
  lemma {:induction false} RefusalSurvives(w: World, ops: seq<Op>)
    requires Inv(w) && Latched(w.s.reason) && forall k | 0 <= k < |ops| :: !ops[k].StartOp? && !ops[k].StopOp?
    ensures AfterAll(w, ops).s.reason == w.s.reason && Retries(w, ops) == 0
    decreases |ops|
  {
    hide EmptyDisabled;
    if |ops| > 0 {
      Kept(w, ops[0]);
      RefusalSurvives(After(w, ops[0]), ops[1..]);
    }
  }

  // ----- single calls, literally -----

  /** A retry is granted exactly when one is pending, somebody wants the scene, the pose is fresh, two seconds have
      passed since the failure, and the pair is disabled with nothing owned, requested, failed or blocked. */
  lemma GrantedExactly(w: World, now: nat, pair: Snapshot, freshPose: bool)
    ensures After(w, RetryOp(now, pair, freshPose)).s.attempts > w.s.attempts <==>
              && w.s.requested && w.s.pending && freshPose && now >= w.s.stoppedAt + 2000
              && pair.state == Disabled && pair.ids == [0, 0] && !pair.requestPending && !pair.creationPending
              && pair.failure == NoFailure && pair.blocked == NotBlocked
    ensures var r := After(w, RetryOp(now, pair, freshPose)).s; r.attempts > w.s.attempts ==> r.attempts == w.s.attempts + 1 && !r.pending
  {
  }

  /** A failure schedules a retry exactly when the scene is wanted, the reason is a lost inspection or a lost entry, and
      fewer than three retries were spent; an identity or creation refusal hides every other reason. */
  lemma ScheduledExactly(w: World, reason: StopReason, now: nat)
    requires !(w.s.pending && w.s.reason == reason)
    ensures var f, hidden := After(w, FailOp(reason, now)).s, (w.s.reason == IdentityRefused || w.s.reason == CreationFailed) && reason != w.s.reason;
            && (hidden ==> f == w.s)
            && (!hidden ==>
                  && f.reason == reason && f.stoppedAt == now && f.sequence == w.s.sequence + 1 && f.attempts == w.s.attempts
                  && f.requested == w.s.requested && f.healthySince == 0 && f.lastProgress == 0
                  && (f.pending <==> w.s.requested && (reason == InspectionUnavailable || reason == OwnedEntryAbsent) && w.s.attempts < 3))
  {
  }

  /** A start wants the scene with the full allowance; a stop no longer wants it. */
  lemma StartsAndStops(w: World)
    ensures var t := After(w, StartOp).s; t.requested && !t.pending && t.attempts == 0 && t.reason == NoStop && t.lastProgress == 0
    ensures var t := After(w, StopOp).s; !t.requested && !t.pending && t.reason == ExplicitStop && t.sequence == w.s.sequence + 1
  {
  }

  /** A retained resolution clears exactly the reason of a changed one, while the scene is wanted and nothing pends. */
  lemma ResumesExactly(w: World)
    ensures var t := After(w, ResumeOp).s;
            t == if w.s.requested && !w.s.pending && w.s.reason == ResolutionChanged then w.s.(reason := NoStop, sequence := w.s.sequence + 1)
                 else w.s
  {
  }

  // ----- what does happen -----

  /** After a failure that may be retried, two seconds and an empty disabled pair bring the retry. */
  lemma FailureIsRetried(w: World, reason: StopReason, failedAt: nat, now: nat, pair: Snapshot)
    requires w.s.requested && !w.s.pending && w.s.attempts < 3 && (reason == InspectionUnavailable || reason == OwnedEntryAbsent)
    requires w.s.reason != IdentityRefused && w.s.reason != CreationFailed
    requires now >= failedAt + 2000
    requires pair.ids == [0, 0] && pair.state == Disabled && pair.failure == NoFailure && pair.blocked == NotBlocked
    requires !pair.requestPending && !pair.creationPending
    ensures var r := AfterAll(w, [FailOp(reason, failedAt), RetryOp(now, pair, true)]);
            r.s.attempts == w.s.attempts + 1 && r.retries == w.retries + 1 && !r.s.pending && r.s.requested
  {
    var f := After(w, FailOp(reason, failedAt));
    assert [FailOp(reason, failedAt), RetryOp(now, pair, true)][1..] == [RetryOp(now, pair, true)];
    assert AfterAll(f, [RetryOp(now, pair, true)]) == After(f, RetryOp(now, pair, true)) by {
      assert [RetryOp(now, pair, true)][1..] == [];
    }
  }

  /** Nothing is retried until somebody wants the scene again. */
  lemma {:induction false} UnwantedStays(w: World, ops: seq<Op>)
    requires Inv(w) && !w.s.requested && forall k | 0 <= k < |ops| :: !ops[k].StartOp?
    ensures !AfterAll(w, ops).s.requested && Retries(w, ops) == 0
    decreases |ops|
  {
    hide EmptyDisabled;
    if |ops| > 0 {
      Kept(w, ops[0]);
      UnwantedStays(After(w, ops[0]), ops[1..]);
    }
  }

  function Progresses(times: seq<nat>): seq<Op> { seq(|times|, k requires 0 <= k < |times| => ProgressOp(times[k])) }

  predicate Healed(w: World) { w.s.attempts == 0 && w.s.reason == NoStop && w.retries == 0 }

  /** Healed, or on the way: the last sample was at `at` and health began by `since`. */
  predicate Healing(w: World, at: nat, since: nat) {
    Healed(w) || (Counts(w.s) && w.s.lastProgress == at && w.s.healthySince <= since)
  }

  lemma HealingOn(w: World, at: nat, since: nat, now: nat)
    requires Inv(w) && Healing(w, at, since) && 0 < at <= now <= at + 2000 && since <= now
    ensures Healing(After(w, ProgressOp(now)), now, since)
    ensures now >= since + 10000 ==> Healed(After(w, ProgressOp(now)))
  {
  }

  lemma HealingStarts(w: World, now: nat)
    requires Inv(w) && Counts(w.s)
    ensures Healing(After(w, ProgressOp(now)), now, now)
  {
    if w.chain != [] { SteadyOrder(w.chain); }
  }

  lemma {:induction false} SteadyOrder(chain: seq<nat>)
    requires Steady(chain) && chain != []
    ensures chain[0] <= chain[|chain| - 1]
  {
    if |chain| > 1 {
      var rest := chain[..|chain| - 1];
      assert forall k | 0 <= k < |rest| :: rest[k] == chain[k];
      SteadyOrder(rest);
    }
  }

  lemma SteadyTail(at: nat, times: seq<nat>)
    requires Steady([at] + times) && times != []
    ensures at <= times[0] <= at + 2000 && Steady([times[0]] + times[1..])
  {
    var all := [at] + times;
    assert all[1] == times[0] && all[0] == at;
    assert [times[0]] + times[1..] == all[1..];
  }

  lemma {:induction false} HealingRuns(w: World, at: nat, since: nat, times: seq<nat>)
    requires Inv(w) && Healing(w, at, since) && since <= at && at > 0 && Steady([at] + times)
    requires if times != [] then times[|times| - 1] >= since + 10000 else Healed(w)
    ensures Healed(AfterAll(w, Progresses(times)))
    decreases |times|
  {
    hide After, Inv, Healing, Healed, Steady;
    if times != [] {
      var now := times[0];
      SteadyTail(at, times);
      HealingOn(w, at, since, now);
      Kept(w, ProgressOp(now));
      assert Progresses(times)[0] == ProgressOp(now) && Progresses(times)[1..] == Progresses(times[1..]);
      HealingRuns(After(w, ProgressOp(now)), now, since, times[1..]);
    }
  }

  /** Progress samples at most 2000 ms apart that span 10000 ms restore the allowance and clear the reason. */
  lemma SteadyHeals(w: World, times: seq<nat>)
    requires Inv(w) && Counts(w.s) && Steady(times) && |times| > 1 && times[0] > 0 && times[|times| - 1] >= times[0] + 10000
    ensures var h := AfterAll(w, Progresses(times)); h.s.attempts == 0 && h.s.reason == NoStop && h.retries == 0
  {
    hide After, Inv, Healing;
    HealingStarts(w, times[0]);
    Kept(w, ProgressOp(times[0]));
    assert Progresses(times)[0] == ProgressOp(times[0]) && Progresses(times)[1..] == Progresses(times[1..]);
    assert [times[0]] + times[1..] == times;
    HealingRuns(After(w, ProgressOp(times[0])), times[0], times[0], times[1..]);
  }

  // ----- deferring a failed first creation -----

  predicate MayDefer(s: Recovery, pair: Snapshot, temporaryPose: bool, created: nat, inspected: nat, current: nat) {
    && temporaryPose && created == 0 && inspected == current && s.requested && s.attempts < 3
    && (s.reason == NoStop || Retryable(s.reason))
    && pair.state == State.Failed && pair.failure == InitializerFailed && pair.blocked == NotBlocked && pair.owner == NO_MANAGER
    && pair.ids[0] == 0 && pair.ids[1] == 0 && !pair.requestPending && !pair.creationPending
  }

  /** Clears a controller whose first initializer was refused by a temporary pose problem, and schedules a
      retry. It succeeds exactly when its guards hold, calls the engine never, and leaves the pair disabled. */
  method DeferInitialPoseFailure(controller: PairController.Controller, manager: ManagerToken, recovery: Policy, temporaryPose: bool,
                                 created: nat, inspected: nat, current: nat, now: nat) returns (ok: bool)
    requires !controller.processing && RunInv(controller.Whole())
    modifies controller, recovery
    ensures ok <==> MayDefer(old(recovery.Value()), old(controller.published.(requestPending := controller.mailbox.command != NoCommand)),
                             temporaryPose, created, inspected, current)
    ensures !ok ==> controller.Whole() == old(controller.Whole()) && recovery.Value() == old(recovery.Value())
    ensures ok ==> controller.published.state == Disabled && !Owns(controller.core) && controller.mailbox.command == NoCommand
    ensures ok ==> recovery.Value() == Failing(old(recovery.Value()), InspectionUnavailable, now) && recovery.pending
    ensures ok ==> |controller.log| == |old(controller.log)| + 2 && old(controller.log) <= controller.log &&
                   controller.log[|old(controller.log)|].Taken? && controller.log[|old(controller.log)| + 1].Shown?
    ensures RunInv(controller.Whole()) && !controller.processing
  {
    hide Run, Tied, Advance, AdvanceAll;
    var pair := controller.GetSnapshot();
    if !temporaryPose || created != 0 || inspected != current || !recovery.requested || recovery.attempts >= MAXIMUM_RETRIES ||
       (recovery.reason != NoStop && !Retryable(recovery.reason)) ||
       pair.state != State.Failed || pair.failure != InitializerFailed || pair.blocked != NotBlocked || pair.owner != NO_MANAGER ||
       pair.ids[0] != 0 || pair.ids[1] != 0 || pair.requestPending || pair.creationPending
    {
      return false;
    }
    ok := ClearFailure(controller, manager);
    if !ok { return; }
    var clean := controller.GetSnapshot();
    if !EmptyDisabled(clean) { return false; }
    recovery.Failed(InspectionUnavailable, now);
    return recovery.pending;
  }

  /** Disable and update without callbacks: an empty controller only publishes. */
  method ClearFailure(controller: PairController.Controller, manager: ManagerToken) returns (ok: bool)
    requires !controller.processing && RunInv(controller.Whole()) && !Owns(controller.core) && !controller.core.creationPending
    modifies controller
    ensures ok && RunInv(controller.Whole()) && !controller.processing
    ensures controller.published.state == Disabled && !Owns(controller.core)
    ensures |controller.log| == |old(controller.log)| + 2 && old(controller.log) <= controller.log &&
            controller.log[|old(controller.log)|].Taken? && controller.log[|old(controller.log)| + 1].Shown?
    ensures controller.mailbox.command == NoCommand
    ensures EmptyDisabled(controller.published)
  {
    hide Run, Tied, Advance, AdvanceAll, RunInv;
    ghost var before := controller.Whole();
    controller.RequestDisable();
    AfterKeeps(before, Post(controller.mailbox));
    ghost var r;
    ok, r := controller.ProcessUpdate(manager, EngineCallbacks(false, false, false));
    AfterKeeps(before.(mailbox := Request(Disable, NO_KEYS, false)), UpdateOp(manager, EngineCallbacks(false, false, false), r, controller.mailbox));
  }
}
