/** The two-bit handshake that invalidates the camera world: callbacks set bit 0 at any time, the worker
    services it under the exclusive lock, readers clear bit 1 under the shared lock once telemetry is
    fresh again. Every interleaving is covered, with any number of readers. */
module Invalidation {
  const FRESH_MS: nat := 500
  const LAST_EPOCH: nat := 0xFFFF_FFFF_FFFF_FFFF

  type Epoch = e: nat | e <= 0xFFFF_FFFF_FFFF_FFFF

  /** Bit 0: notified; bit 1: serviced. */
  datatype Word = Word(notified: bool, serviced: bool)

  const CLEAR: Word := Word(false, false)
  const SERVICED: Word := Word(false, true)

  /** What the lock protects, and the epoch shown to readers without the lock. Sample times are zero when there is
      no sample. */
  datatype Session = Session(epoch: Epoch, shown: Epoch, loading: bool, running: bool, profile: nat, identityMs: nat, bodyMs: nat, cameraMs: nat)

  predicate Fresh(sample: nat, now: nat) { sample != 0 && now >= sample && now - sample <= FRESH_MS }

  predicate Telemetry(s: Session, now: nat) {
    Fresh(s.identityMs, now) && s.profile != 0 && Fresh(s.bodyMs, now) && Fresh(s.cameraMs, now)
  }

  /** Ready as far as the lock-protected state and the loaded word tell. */
  predicate ReadyBefore(s: Session, pending: Word, now: nat) {
    !s.loading && s.running && !pending.notified && Telemetry(s, now)
  }

  function ResetSamples(s: Session): Session { s.(profile := 0, identityMs := 0, bodyMs := 0, cameraMs := 0) }

  /** A changed session gets the next epoch; the last one is kept. */
  function Changed(s: Session): Session { if s.epoch != LAST_EPOCH then s.(epoch := s.epoch + 1) else s }

  function Shows(s: Session): Session { s.(shown := s.epoch) }

  function Serviced(s: Session, pending: Word): Session {
    Shows(ResetSamples(if !pending.serviced && !s.loading then Changed(s) else s))
  }

  /** A whole service step: word and session afterwards. */
  function ServiceEffect(word: Word, s: Session): (Word, Session) {
    if word.notified then (SERVICED, Serviced(s, word)) else (word, s)
  }

  /** A whole readiness check: its answer and the word afterwards. */
  function ReadEffect(word: Word, s: Session, now: nat): (bool, Word) {
    var ready := ReadyBefore(s, word, now);
    (ready, if ready then CLEAR else word)
  }

  /** A notification is serviced by taking the word, dropping every sample and, the first time since the word was
      zero, outside loading and below the last epoch, raising the epoch by one; without one nothing changes. */
  lemma ServiceExactly(word: Word, s: Session)
    ensures !word.notified ==> ServiceEffect(word, s) == (word, s)
    ensures word.notified ==>
              var after := ServiceEffect(word, s);
              && after.0 == Word(false, true)
              && after.1.epoch == (if !word.serviced && !s.loading && s.epoch < 0xFFFF_FFFF_FFFF_FFFF then s.epoch + 1 else s.epoch)
              && after.1.shown == after.1.epoch && after.1.loading == s.loading && after.1.running == s.running
              && after.1.profile == 0 && after.1.identityMs == 0 && after.1.bodyMs == 0 && after.1.cameraMs == 0
  {
  }

  /** Ready exactly when nothing loads, the simulator runs, no notification waits, and identity, body and camera are
      known from samples at most 500 ms old; being ready ends the recovery. */
  lemma ReadyExactly(word: Word, s: Session, now: nat)
    ensures ReadEffect(word, s, now).0 <==>
              && !s.loading && s.running && !word.notified && s.profile != 0
              && 0 < s.identityMs <= now <= s.identityMs + 500 && 0 < s.bodyMs <= now <= s.bodyMs + 500
              && 0 < s.cameraMs <= now <= s.cameraMs + 500
    ensures ReadEffect(word, s, now).1 == if ReadEffect(word, s, now).0 then Word(false, false) else word
  {
  }

  // ----- the operations one after another -----

  class BodyPoseProvider {
    var invalidWorld: Word
    var session: Session

    constructor (session: Session)
      ensures invalidWorld == CLEAR && this.session == session
    {
      invalidWorld, this.session := CLEAR, session;
    }

    method NotifyInvalidCameraWorld()
      modifies this`invalidWorld
      ensures invalidWorld == old(invalidWorld).(notified := true)
    {
      invalidWorld := invalidWorld.(notified := true);
    }

    method CompareExchange(expected: Word, desired: Word) returns (ok: bool, observed: Word)
      modifies this`invalidWorld
      ensures observed == old(invalidWorld) && (ok <==> observed == expected)
      ensures invalidWorld == if ok then desired else old(invalidWorld)
    {
      observed := invalidWorld;
      ok := observed == expected;
      if ok { invalidWorld := desired; }
    }

    method ServiceWorldInvalidation()
      modifies this
      ensures (invalidWorld, session) == ServiceEffect(old(invalidWorld), old(session))
      ensures session.epoch == old(session.epoch) +
                if old(invalidWorld) == Word(true, false) && !old(session.loading) && old(session.epoch) < 0xFFFF_FFFF_FFFF_FFFF then 1 else 0
    {
      var pending := invalidWorld;
      if pending.notified {
        var ok, observed := CompareExchange(pending, SERVICED);
        if ok {
          if !pending.serviced && !session.loading && session.epoch != LAST_EPOCH { session := session.(epoch := session.epoch + 1); }
          session := ResetSamples(session);
          session := session.(shown := session.epoch);
        }
      }
    }

    method Readiness(now: nat) returns (ready: bool)
      modifies this`invalidWorld
      ensures (ready, invalidWorld) == ReadEffect(old(invalidWorld), session, now)
    {
      var pending := invalidWorld;
      ready := !session.loading && session.running && !pending.notified && Telemetry(session, now);
      if ready && pending == SERVICED {
        var ok, observed := CompareExchange(SERVICED, CLEAR);
        ready := ok || observed == CLEAR;
      }
    }
  }

  // ----- every interleaving -----

  datatype Service = Idle | Entered | Loaded(pending: Word) | Exchanged(before: Word)

  /** A reader inside the shared lock; `seen` is how many notifications preceded its load. */
  datatype Reader = Waiting | Holding(pending: Word, seen: nat) | Clearing(cleared: nat, at: nat)

  /** What a reader returned, with the ghost counts of that moment. */
  datatype Outcome = Outcome(ready: bool, seen: nat, served: nat, telemetry: bool, acceptedSince: bool)

  /** `notices` counts notifications; `served` how many of them the last service covered; `services` counts
      services; each `...At` is the service count when that sample was accepted; `raised` is by how much services
      raised the epoch since the word was last zero; `epochAt` is the epoch of the last session packet, and since then
      `episodes` counts the services that began a recovery outside loading, and the changes of identity. */
  datatype World = World(word: Word, session: Session, service: Service, readers: map<nat, Reader>,
                         notices: nat, served: nat, services: nat, identityAt: nat, bodyAt: nat, cameraAt: nat,
                         raised: nat, epochAt: Epoch, episodes: nat, results: seq<Outcome>)

  datatype Action =
    | Notify
    | ServiceEnter
    | ServiceLoad
    | ServiceExchange
    | ServiceReset
    | AcceptIdentity(time: nat, profile: nat)
    | ChangeIdentity
    | AcceptBody(time: nat)
    | AcceptCamera(time: nat)
    | SessionPacket(epoch: Epoch, loading: bool, running: bool, reset: bool)
    | ReaderEnter(id: nat)
    | ReaderLoad(id: nat)
    | ReaderDecide(id: nat, now: nat)
    | ReaderClear(id: nat)

  /** The exclusive lock is free: no service under way and no reader inside. */
  predicate Unlocked(w: World) { w.service.Idle? && w.readers == map[] }

  predicate Enabled(w: World, a: Action) {
    match a
    case Notify => true
    case ServiceEnter => Unlocked(w)
    case ServiceLoad => w.service.Entered?
    case ServiceExchange => w.service.Loaded?
    case ServiceReset => w.service.Exchanged?
    case AcceptIdentity(_, _) => Unlocked(w)
    case ChangeIdentity => Unlocked(w)
    case AcceptBody(_) => Unlocked(w)
    case AcceptCamera(_) => Unlocked(w)
    case SessionPacket(_, _, _, _) => Unlocked(w)
    case ReaderEnter(id) => w.service.Idle? && id !in w.readers
    case ReaderLoad(id) => id in w.readers && w.readers[id].Waiting?
    case ReaderDecide(id, _) => id in w.readers && w.readers[id].Holding?
    case ReaderClear(id) => id in w.readers && w.readers[id].Clearing?
  }

  predicate AcceptedSince(w: World) {
    w.identityAt == w.services && w.bodyAt == w.services && w.cameraAt == w.services
  }

  function Leave(w: World, id: nat, ready: bool, seen: nat, telemetry: bool): World {
    w.(readers := w.readers - {id}, results := w.results + [Outcome(ready, seen, w.served, telemetry, AcceptedSince(w))])
  }

  function Rise(s: Session, t: Session): nat { if t.epoch > s.epoch then t.epoch - s.epoch else 0 }

  function Next(w: World, a: Action): World
    requires Enabled(w, a)
  {
    match a
    case Notify => w.(word := w.word.(notified := true), notices := w.notices + 1)
    case ServiceEnter => w.(service := Entered)
    case ServiceLoad => w.(service := if w.word.notified then Loaded(w.word) else Idle)
    case ServiceExchange =>
      if w.word == w.service.pending then w.(word := SERVICED, service := Exchanged(w.word), served := w.notices)
      else w.(service := Idle)
    case ServiceReset =>
      var s := Serviced(w.session, w.service.before);
      w.(session := s, service := Idle, services := w.services + 1, raised := w.raised + Rise(w.session, s),
         episodes := if !w.service.before.serviced && !w.session.loading then w.episodes + 1 else w.episodes)
    case AcceptIdentity(time, profile) => w.(session := w.session.(identityMs := time, profile := profile), identityAt := w.services)
    case ChangeIdentity => w.(session := Shows(ResetSamples(Changed(w.session))), episodes := w.episodes + 1)
    case AcceptBody(time) => w.(session := w.session.(bodyMs := time), bodyAt := w.services)
    case AcceptCamera(time) => w.(session := w.session.(cameraMs := time), cameraAt := w.services)
    case SessionPacket(epoch, loading, running, reset) =>
      var s := Shows(w.session.(epoch := epoch, loading := loading, running := running));
      w.(session := if reset then ResetSamples(s) else s, epochAt := epoch, episodes := 0)
    case ReaderEnter(id) => w.(readers := w.readers[id := Waiting])
    case ReaderLoad(id) => w.(readers := w.readers[id := Holding(w.word, w.notices)])
    case ReaderDecide(id, now) =>
      var pending, seen := w.readers[id].pending, w.readers[id].seen;
      if !ReadyBefore(w.session, pending, now) then Leave(w, id, false, seen, Telemetry(w.session, now))
      else if pending == SERVICED then w.(readers := w.readers[id := Clearing(seen, now)])
      else Leave(w, id, true, seen, Telemetry(w.session, now))
    case ReaderClear(id) =>
      var seen := w.readers[id].cleared;
      var cleared := w.word == SERVICED;
      var v := if cleared then w.(word := CLEAR, raised := 0) else w;
      Leave(v, id, cleared || w.word == CLEAR, seen, Telemetry(w.session, w.readers[id].at))
  }

  // ----- nothing is lost -----

  /** A sample held was accepted after the last service. */
  predicate SamplesCurrent(w: World) {
    (w.session.identityMs != 0 ==> w.identityAt == w.services) && (w.session.bodyMs != 0 ==> w.bodyAt == w.services) &&
    (w.session.cameraMs != 0 ==> w.cameraAt == w.services)
  }

  predicate ReaderSafe(w: World, r: Reader) {
    match r
    case Waiting => true
    case Holding(pending, seen) => seen <= w.notices && (!pending.notified ==> seen <= w.served)
    case Clearing(cleared, at) => cleared <= w.served && !w.session.loading && w.session.running && Telemetry(w.session, at)
  }

  predicate GoodOutcome(o: Outcome) { o.ready ==> o.seen <= o.served && o.telemetry && o.acceptedSince }

  /** The session epoch, which everybody is shown, counts the recovery episodes and identity changes since the last
      session packet, and stops at the last epoch. */
  predicate EpochCounts(w: World) {
    w.session.shown == w.session.epoch &&
    w.session.epoch == if w.epochAt + w.episodes <= 0xFFFF_FFFF_FFFF_FFFF then w.epochAt + w.episodes else 0xFFFF_FFFF_FFFF_FFFF
  }

  predicate Safe(w: World) {
    && (w.word.notified <==> w.notices > w.served) && w.served <= w.notices
    && (w.service.Exchanged? || SamplesCurrent(w))
    && (w.service.Loaded? ==> w.service.pending.notified && w.word == w.service.pending)
    && (w.service.Exchanged? ==> w.word.serviced && w.service.before.notified && (!w.service.before.serviced ==> w.raised == 0))
    && (!w.service.Idle? ==> w.readers == map[])
    && (!w.word.serviced ==> w.raised == 0) && w.raised <= 1 && EpochCounts(w)
    && (forall id | id in w.readers :: ReaderSafe(w, w.readers[id]))
    && forall k | 0 <= k < |w.results| :: GoodOutcome(w.results[k])
  }

  lemma WorkerKeeps(w: World, a: Action)
    requires Safe(w) && Enabled(w, a) && !a.ReaderEnter? && !a.ReaderLoad? && !a.ReaderDecide? && !a.ReaderClear?
    ensures Safe(Next(w, a))
  {
    hide Telemetry;
  }

  lemma ReaderKeeps(w: World, a: Action)
    requires Safe(w) && Enabled(w, a) && (a.ReaderEnter? || a.ReaderLoad? || a.ReaderDecide? || a.ReaderClear?)
    ensures Safe(Next(w, a))
  {
  }

  /** While it holds the exclusive lock the worker's exchange cannot fail. */
  lemma ExchangeSucceeds(w: World)
    requires Safe(w) && Enabled(w, ServiceExchange)
    ensures Next(w, ServiceExchange).service.Exchanged? && Next(w, ServiceExchange).served == w.notices
  {
  }

  predicate AllEnabled(w: World, actions: seq<Action>)
    decreases |actions|
  {
    |actions| == 0 || (Enabled(w, actions[0]) && AllEnabled(Next(w, actions[0]), actions[1..]))
  }

  function RunAll(w: World, actions: seq<Action>): World
    requires AllEnabled(w, actions)
    decreases |actions|
  {
    if |actions| == 0 then w else RunAll(Next(w, actions[0]), actions[1..])
  }

  lemma {:induction false} RunSafe(w: World, actions: seq<Action>)
    requires Safe(w) && AllEnabled(w, actions)
    ensures Safe(RunAll(w, actions))
    decreases |actions|
  {
    hide Safe, Next;
    if |actions| > 0 {
      StepSafe(w, actions[0]);
      RunSafe(Next(w, actions[0]), actions[1..]);
    }
  }

  lemma StepSafe(w: World, a: Action)
    requires Safe(w) && Enabled(w, a)
    ensures Safe(Next(w, a))
  {
    hide Safe, Next;
    if a.ReaderEnter? || a.ReaderLoad? || a.ReaderDecide? || a.ReaderClear? { ReaderKeeps(w, a); } else { WorkerKeeps(w, a); }
  }

  function Opening(session: Session): World {
    World(CLEAR, Shows(session), Idle, map[], 0, 0, 0, 0, 0, 0, 0, session.epoch, 0, [])
  }

  /** No invalidation is lost: whatever the interleaving, a reader that returned ready had every
      notification before its load serviced, and fresh identity, body and camera samples all accepted
      after the last service; and services raise the epoch at most once between two zero words. */
  lemma NothingLost(session: Session, actions: seq<Action>)
    requires AllEnabled(Opening(session), actions)
    ensures var w := RunAll(Opening(session), actions);
            w.raised <= 1 && forall k | 0 <= k < |w.results| && w.results[k].ready ::
              w.results[k].seen <= w.results[k].served && w.results[k].telemetry && w.results[k].acceptedSince
  {
    hide RunAll, AllEnabled;
    RunSafe(Opening(session), actions);
  }

  // ----- the epoch counts the recoveries -----

  /** The recoveries that services began outside loading, and the identity changes, along a run. */
  function Recoveries(w: World, actions: seq<Action>): nat
    requires AllEnabled(w, actions)
    decreases |actions|
  {
    if |actions| == 0 then 0
    else (if BeginsRecovery(w, actions[0]) then 1 else 0) + Recoveries(Next(w, actions[0]), actions[1..])
  }

  /** The worker has taken a notification that came while the word was zero, or the identity changed. */
  predicate BeginsRecovery(w: World, a: Action) {
    (a.ServiceReset? && w.service.Exchanged? && w.service.before == Word(true, false) && !w.session.loading) || a.ChangeIdentity?
  }

  lemma {:induction false} EpisodesCount(w: World, actions: seq<Action>)
    requires Safe(w) && AllEnabled(w, actions) && forall k | 0 <= k < |actions| :: !actions[k].SessionPacket?
    ensures RunAll(w, actions).episodes == w.episodes + Recoveries(w, actions) && RunAll(w, actions).epochAt == w.epochAt
    decreases |actions|
  {
    hide Safe, Next, Enabled, BeginsRecovery;
    if |actions| > 0 {
      StepCounts(w, actions[0]);
      StepSafe(w, actions[0]);
      EpisodesCount(Next(w, actions[0]), actions[1..]);
    }
  }

  lemma StepCounts(w: World, a: Action)
    requires Safe(w) && Enabled(w, a) && !a.SessionPacket?
    ensures Next(w, a).episodes == w.episodes + (if BeginsRecovery(w, a) then 1 else 0) && Next(w, a).epochAt == w.epochAt
  {
  }

  /** Over every run without session packets the epoch, and what everybody is shown of it, grows by exactly the number
      of recoveries begun, up to the last epoch. */
  lemma EpochGrows(w: World, actions: seq<Action>)
    requires Safe(w) && AllEnabled(w, actions) && forall k | 0 <= k < |actions| :: !actions[k].SessionPacket?
    ensures var e, n := RunAll(w, actions).session, w.session.epoch + Recoveries(w, actions);
            e.epoch == (if n <= 0xFFFF_FFFF_FFFF_FFFF then n else 0xFFFF_FFFF_FFFF_FFFF) && e.shown == e.epoch
  {
    hide RunAll, AllEnabled, Recoveries;
    EpisodesCount(w, actions);
    RunSafe(w, actions);
  }

  // ----- an undisturbed operation does what the class says -----

  lemma RunsOne(w: World, a: Action, rest: seq<Action>)
    requires Enabled(w, a) && AllEnabled(Next(w, a), rest)
    ensures AllEnabled(w, [a] + rest) && RunAll(w, [a] + rest) == RunAll(Next(w, a), rest)
  {
    hide Next, Enabled;
    assert ([a] + rest)[0] == a && ([a] + rest)[1..] == rest;
  }

  /** The worker's steps, taken without anything between them, are one service step. */
  lemma ServiceUndisturbed(w: World)
    requires Unlocked(w)
    ensures var steps := [ServiceEnter, ServiceLoad] + if w.word.notified then [ServiceExchange, ServiceReset] else [];
            AllEnabled(w, steps) && var v := RunAll(w, steps); Unlocked(v) && (v.word, v.session) == ServiceEffect(w.word, w.session)
  {
    hide RunAll, AllEnabled, Serviced;
    var entered := Next(w, ServiceEnter);
    var loaded := Next(entered, ServiceLoad);
    if w.word.notified {
      var exchanged := Next(loaded, ServiceExchange);
      RunsNone(Next(exchanged, ServiceReset));
      RunsOne(exchanged, ServiceReset, []);
      RunsOne(loaded, ServiceExchange, [ServiceReset] + []);
      assert [ServiceReset] + [] == [ServiceReset] && [ServiceExchange] + [ServiceReset] == [ServiceExchange, ServiceReset];
      RunsTwo(w, ServiceEnter, ServiceLoad, [ServiceExchange, ServiceReset]);
    } else {
      RunsNone(loaded);
      RunsTwo(w, ServiceEnter, ServiceLoad, []);
    }
  }

  lemma RunsNone(w: World)
    ensures AllEnabled(w, []) && RunAll(w, []) == w
  {
  }

  lemma RunsTwo(w: World, a: Action, b: Action, rest: seq<Action>)
    requires Enabled(w, a) && Enabled(Next(w, a), b) && AllEnabled(Next(Next(w, a), b), rest)
    ensures AllEnabled(w, [a, b] + rest) && RunAll(w, [a, b] + rest) == RunAll(Next(Next(w, a), b), rest)
  {
    hide RunAll, AllEnabled, Next, Enabled;
    RunsOne(Next(w, a), b, rest);
    RunsOne(w, a, [b] + rest);
    assert [a] + ([b] + rest) == [a, b] + rest;
  }

  /** A reader's steps, taken without anything between them, are one readiness check. */
  lemma ReadUndisturbed(w: World, id: nat, now: nat)
    requires w.service.Idle? && id !in w.readers
    ensures var clears := ReadyBefore(w.session, w.word, now) && w.word == SERVICED;
            var steps := [ReaderEnter(id), ReaderLoad(id)] + ([ReaderDecide(id, now)] + if clears then [ReaderClear(id)] else []);
            AllEnabled(w, steps) &&
            var v := RunAll(w, steps);
            |v.results| == |w.results| + 1 && (v.results[|w.results|].ready, v.word) == ReadEffect(w.word, w.session, now) &&
            v.session == w.session && v.readers == w.readers && v.service == w.service
  {
    hide RunAll, AllEnabled, Telemetry;
    var loaded := Next(Next(w, ReaderEnter(id)), ReaderLoad(id));
    var decided := Next(loaded, ReaderDecide(id, now));
    if ReadyBefore(w.session, w.word, now) && w.word == SERVICED {
      RunsNone(Next(decided, ReaderClear(id)));
      RunsOne(decided, ReaderClear(id), []);
      assert [ReaderClear(id)] + [] == [ReaderClear(id)];
      RunsOne(loaded, ReaderDecide(id, now), [ReaderClear(id)]);
    } else {
      RunsNone(decided);
      RunsOne(loaded, ReaderDecide(id, now), []);
    }
    RunsTwo(w, ReaderEnter(id), ReaderLoad(id), [ReaderDecide(id, now)] + if ReadyBefore(w.session, w.word, now) && w.word == SERVICED then [ReaderClear(id)] else []);
  }

  // ----- recovery ends -----

  lemma {:induction false} RunsOn(w: World, first: seq<Action>, later: seq<Action>)
    requires AllEnabled(w, first) && AllEnabled(RunAll(w, first), later)
    ensures AllEnabled(w, first + later) && RunAll(w, first + later) == RunAll(RunAll(w, first), later)
    decreases |first|
  {
    hide Next, Enabled;
    if first == [] {
      assert first + later == later;
    } else {
      RunsOn(Next(w, first[0]), first[1..], later);
      assert (first + later)[0] == first[0] && (first + later)[1..] == first[1..] + later;
    }
  }

  /** From every moment at which nothing is under way and the session runs, one service, three samples and one reader
      end the recovery: the reader returns ready, the word is zero, and the epoch has risen by one exactly if a
      notification was waiting on a word not yet serviced. */
  lemma RecoveryEnds(w: World, now: nat, profile: nat) returns (actions: seq<Action>)
    requires Unlocked(w) && !w.session.loading && w.session.running && now > 0 && profile != 0
    ensures AllEnabled(w, actions)
    ensures var v := RunAll(w, actions);
            && |v.results| > 0 && v.results[|v.results| - 1].ready && v.word == CLEAR && Unlocked(v)
            && v.session.epoch == w.session.epoch + if w.word == Word(true, false) && w.session.epoch < 0xFFFF_FFFF_FFFF_FFFF then 1 else 0
  {
    hide RunAll, AllEnabled;
    ServiceUndisturbed(w);
    actions := [ServiceEnter, ServiceLoad] + if w.word.notified then [ServiceExchange, ServiceReset] else [];
    var served := RunAll(w, actions);
    var sampling := [AcceptIdentity(now, profile), AcceptBody(now)] + [AcceptCamera(now)];
    RunsNone(Next(Next(Next(served, AcceptIdentity(now, profile)), AcceptBody(now)), AcceptCamera(now)));
    RunsOne(Next(Next(served, AcceptIdentity(now, profile)), AcceptBody(now)), AcceptCamera(now), []);
    assert [AcceptCamera(now)] + [] == [AcceptCamera(now)];
    RunsTwo(served, AcceptIdentity(now, profile), AcceptBody(now), [AcceptCamera(now)]);
    RunsOn(w, actions, sampling);
    actions := actions + sampling;
    var sampled := RunAll(w, actions);
    ReadUndisturbed(sampled, 0, now);
    var clears := ReadyBefore(sampled.session, sampled.word, now) && sampled.word == SERVICED;
    var reading := [ReaderEnter(0), ReaderLoad(0)] + ([ReaderDecide(0, now)] + if clears then [ReaderClear(0)] else []);
    RunsOn(w, actions, reading);
    actions := actions + reading;
  }
}
