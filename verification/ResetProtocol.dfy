/** Session reset as an interleaving: the observer inside an update, cut at every mailbox, flag and engine
    callback, against callers that begin a reset, cancel, retire and consume. Safety: a consumed reset
    leaves no entry owned and no creation in flight. Refinement: the cut update still does exactly what
    one uninterrupted update does. */
module ResetProtocol {
  import opened PairModel

  // ----- reset authorization -----

  datatype Reset = Reset(profile: nat, retired: bool)

  predicate Holding(r: Reset) { r.profile != 0 }

  predicate EmptySnapshot(s: Snapshot) {
    !ValidManager(s.owner) && s.ids[0] == 0 && s.ids[1] == 0 && !s.requestPending && !s.creationPending
  }

  predicate WorkAllowed(resetRequested: bool, authorizedEpoch: nat, publicEpoch: nat, publicReady: bool) {
    !resetRequested && authorizedEpoch == publicEpoch && publicReady
  }

  function Observed(r: Reset, cancelled: EmptyPairCancel, pair: Snapshot): Reset {
    if Holding(r) && cancelled == CancelDone && EmptySnapshot(pair) then r.(retired := true) else r
  }

  predicate ReadyToConsume(r: Reset, publicReady: bool, pair: Snapshot) {
    Holding(r) && r.retired && publicReady && EmptySnapshot(pair)
  }

  class SceneSessionReset {
    var profile: nat
    var retired: bool

    function Value(): Reset
      reads this
    {
      Reset(profile, retired)
    }

    constructor ()
      ensures Value() == Reset(0, false)
    {
      profile, retired := 0, false;
    }

    method Begin(newProfile: nat)
      modifies this
      ensures Value() == Reset(newProfile, false)
    {
      profile, retired := newProfile, false;
    }

    method ObserveEmpty(cancelled: EmptyPairCancel, pair: Snapshot)
      modifies this`retired
      ensures Value() == Observed(old(Value()), cancelled, pair)
    {
      if profile != 0 && cancelled == CancelDone && EmptySnapshot(pair) { retired := true; }
    }

    method Consume(publicReady: bool, pair: Snapshot) returns (ok: bool)
      modifies this
      ensures ok <==> ReadyToConsume(old(Value()), publicReady, pair)
      ensures Value() == if ok then Reset(0, false) else old(Value())
    {
      if !(profile != 0 && retired && publicReady && EmptySnapshot(pair)) { return false; }
      profile, retired := 0, false;
      return true;
    }
  }

  // ----- the interleaved world -----

  datatype Holder = Free | ByObserver | ByCaller

  /** Where the observer stands. */
  datatype Stage =
    | Resting
    | Flagged(manager: ManagerToken, engine: EngineCallbacks)
    | Planning(manager: ManagerToken, engine: EngineCallbacks)
    | Erasing(left: nat, undo: bool, manager: ManagerToken)
    | Preparing(second: bool, manager: ManagerToken)
    | Creating(second: bool, packed: Descriptor, manager: ManagerToken)
    | Publishing(state: State, blocked: BlockReason)
    | Releasing
    | CancelHeld
    | CancelTried(result: EmptyPairCancel)
    | CancelSeen(result: EmptyPairCancel, seen: Snapshot)

  /** Where the caller stands; outside `Outside` it owns the runtime mutex. */
  datatype Caller =
    | Outside
    | Beginning
    | BeginHeld
    | BeginTried(tried: EmptyPairCancel)
    | BeginSeen(outcome: EmptyPairCancel, shown: Snapshot)
    | ConsumeSeen(pair: Snapshot)
    | Clearing

  datatype World = World(core: Core, mailbox: Request, published: Snapshot, flag: Holder, stage: Stage,
                         caller: Caller, reset: Reset, requested: bool)

  const FIRST_WORLD: World := World(START, NO_REQUEST, EMPTY_SNAPSHOT, Free, Resting, Outside, Reset(0, false), false)

  datatype Action =
    | Post(request: Request, authorizedEpoch: nat, publicEpoch: nat, publicReady: bool)
    | Enter(manager: ManagerToken, engine: EngineCallbacks)
    | TakeMail
    | Decide
    | EraseStep(confirmed: bool)
    | FinishErase
    | InitStep(init: Init)
    | CreateStep(id: EntryId)
    | PublishStep
    | Release
    | ObserverCancel
    | ObserverCancelUnderLock
    | ObserverSnapshot
    | ObserverRetire
    | ObserverDrop
    | Begin(profile: nat)
    | CallerCancel
    | CallerCancelUnderLock
    | CallerSnapshot
    | CallerRetire(observerOff: bool)
    | ConsumeSnapshot
    | Consume(publicReady: bool)
    | ClearRequested

  predicate Enabled(w: World, a: Action) {
    match a
    case Post(request, authorizedEpoch, publicEpoch, publicReady) =>
      request.command == Enable ==> WorkAllowed(w.requested, authorizedEpoch, publicEpoch, publicReady)
    case Enter(_, _) => w.stage.Resting?
    case TakeMail => w.stage.Flagged?
    case Decide => w.stage.Planning?
    case EraseStep(_) => w.stage.Erasing? && 0 < w.stage.left <= 2
    case FinishErase => w.stage.Erasing? && w.stage.left == 0
    case InitStep(_) => w.stage.Preparing?
    case CreateStep(_) => w.stage.Creating?
    case PublishStep => w.stage.Publishing?
    case Release => w.stage.Releasing?
    case ObserverCancel => w.stage.Resting?
    case ObserverCancelUnderLock => w.stage.CancelHeld?
    case ObserverSnapshot => w.stage.CancelTried?
    case ObserverRetire => w.stage.CancelSeen? && w.caller.Outside?
    case ObserverDrop => w.stage.CancelTried? || w.stage.CancelSeen?
    case Begin(_) => w.caller.Outside?
    case CallerCancel => w.caller.Beginning?
    case CallerCancelUnderLock => w.caller.BeginHeld?
    case CallerSnapshot => w.caller.BeginTried?
    case CallerRetire(_) => w.caller.BeginSeen?
    case ConsumeSnapshot => w.caller.Outside?
    case Consume(_) => w.caller.ConsumeSeen?
    case ClearRequested => w.caller.Clearing?
  }

  function Seen(w: World): Snapshot {
    w.published.(requestPending := w.mailbox.command != NoCommand)
  }

  function CancelOutcome(w: World): EmptyPairCancel {
    if Owns(w.core) || w.core.owner != NO_MANAGER then CancelOwned else CancelDone
  }

  function CancelNow(w: World): World {
    if CancelOutcome(w) == CancelOwned then w
    else w.(core := PairModel.Cancel(w.core), mailbox := NO_REQUEST, published := EMPTY_SNAPSHOT)
  }

  /** After a failed creation: erase what exists, or publish the failure. */
  function FailStage(w: World, failure: Failure, manager: ManagerToken): World {
    var f := w.core.(failure := failure);
    if Owns(f) then w.(core := f.(activePair := false), stage := Erasing(2, true, manager))
    else w.(core := f, stage := Publishing(Failed, NotBlocked))
  }

  function NextErase(w: World, confirmed: bool): World
    requires w.stage.Erasing? && 0 < w.stage.left <= 2
  {
    var k := w.stage.left - 1;
    w.(core := if w.core.ids[k] != 0 && confirmed then w.core.(ids := w.core.ids[k := 0]) else w.core,
       stage := w.stage.(left := k))
  }

  function NextFinish(w: World): World
    requires w.stage.Erasing?
  {
    var c := if Owns(w.core) then w.core else w.core.(owner := NO_MANAGER);
    if w.stage.undo then
      w.(core := c, stage := Publishing(if Owns(c) then CleanupPending else Failed, NotBlocked))
    else AfterCleanup(w.(core := c), w.stage.manager)
  }

  function AfterCleanup(w: World, manager: ManagerToken): World {
    if Owns(w.core) then w.(stage := Publishing(CleanupPending, NotBlocked))
    else if !w.core.desiredEnabled || !w.core.creationPending then w.(stage := Publishing(Idle(w.core), NotBlocked))
    else w.(core := w.core.(creationPending := false), stage := Preparing(false, manager))
  }

  function NextDecide(w: World): World
    requires w.stage.Planning?
  {
    match PlanFor(w.core, w.stage.manager, w.stage.engine)
    case Report(state, blocked) => w.(stage := Publishing(state, blocked))
    case Proceed =>
      if Owns(w.core) then w.(core := w.core.(activePair := false), stage := Erasing(2, false, w.stage.manager))
      else AfterCleanup(w, w.stage.manager)
  }

  function NextInit(w: World, init: Init): World
    requires w.stage.Preparing?
  {
    var key := if w.stage.second then w.core.desiredKeys.second else w.core.desiredKeys.first;
    match Prepare(w.core, key, init)
    case NotReady(failure) => FailStage(w, failure, w.stage.manager)
    case Ready(packed) => w.(stage := Creating(w.stage.second, packed, w.stage.manager))
  }

  function NextCreate(w: World, id: EntryId): World
    requires w.stage.Creating?
  {
    var m := w.stage.manager;
    if !w.stage.second then
      if id == 0 then FailStage(w, FirstCreateFailed, m)
      else w.(core := w.core.(owner := m, ids := [id, w.core.ids[1]]), stage := Preparing(true, m))
    else if id == 0 then FailStage(w, SecondCreateFailed, m)
    else if id == w.core.ids[0] then FailStage(w, DuplicateId, m)
    else
      w.(core := w.core.(ids := [w.core.ids[0], id], ownedKeys := w.core.desiredKeys,
                         ownedIndependent := w.core.desiredIndependent, activePair := true),
         stage := Publishing(Active, NotBlocked))
  }

  function Next(w: World, a: Action): World
    requires Enabled(w, a)
  {
    match a
    case Post(request, _, _, _) => w.(mailbox := request)
    case Enter(manager, engine) => if w.flag == Free then w.(flag := ByObserver, stage := Flagged(manager, engine)) else w
    case TakeMail => w.(core := Take(w.core, w.mailbox), mailbox := NO_REQUEST, stage := Planning(w.stage.manager, w.stage.engine))
    case Decide => NextDecide(w)
    case EraseStep(confirmed) => NextErase(w, confirmed)
    case FinishErase => NextFinish(w)
    case InitStep(init) => NextInit(w, init)
    case CreateStep(id) => NextCreate(w, id)
    case PublishStep => w.(published := Show(w.core, w.stage.state, w.stage.blocked), stage := Releasing)
    case Release => w.(flag := Free, stage := Resting)
    case ObserverCancel => if w.flag == Free then w.(flag := ByObserver, stage := CancelHeld) else w.(stage := CancelTried(CancelBusy))
    case ObserverCancelUnderLock => CancelNow(w).(flag := Free, stage := CancelTried(CancelOutcome(w)))
    case ObserverSnapshot => w.(stage := CancelSeen(w.stage.result, Seen(w)))
    case ObserverRetire => w.(reset := Observed(w.reset, w.stage.result, w.stage.seen), stage := Resting)
    case ObserverDrop => w.(stage := Resting)
    case Begin(profile) => w.(requested := true, reset := Reset(profile, false), caller := Beginning)
    case CallerCancel => if w.flag == Free then w.(flag := ByCaller, caller := BeginHeld) else w.(caller := BeginTried(CancelBusy))
    case CallerCancelUnderLock => CancelNow(w).(flag := Free, caller := BeginTried(CancelOutcome(w)))
    case CallerSnapshot => w.(caller := BeginSeen(w.caller.tried, Seen(w)))
    case CallerRetire(observerOff) =>
      w.(reset := if observerOff then Observed(w.reset, w.caller.outcome, w.caller.shown) else w.reset, caller := Outside)
    case ConsumeSnapshot => w.(caller := ConsumeSeen(Seen(w)))
    case Consume(publicReady) =>
      if ReadyToConsume(w.reset, publicReady, w.caller.pair) then w.(reset := Reset(0, false), caller := Clearing)
      else w.(caller := Outside)
    case ClearRequested => w.(requested := false, caller := Outside)
  }

  // ----- safety -----

  predicate CreationInFlight(w: World) { w.stage.Preparing? || w.stage.Creating? }

  predicate ObserverHolds(s: Stage) {
    s.Flagged? || s.Planning? || s.Erasing? || s.Preparing? || s.Creating? || s.Publishing? || s.Releasing? || s.CancelHeld?
  }

  predicate InsideUpdate(s: Stage) {
    s.Planning? || s.Erasing? || s.Preparing? || s.Creating? || s.Publishing?
  }

  /** Nothing exists and nothing can come to exist without a new enable. */
  predicate Quiet(w: World) {
    && w.mailbox.command != Enable && !w.core.creationPending && !Owns(w.core) && w.core.owner == NO_MANAGER
    && !w.stage.Erasing? && !CreationInFlight(w)
  }

  predicate ObserverDrained(s: Stage) {
    (s.CancelTried? && s.result == CancelDone) || (s.CancelSeen? && s.result == CancelDone)
  }

  predicate CallerDrained(c: Caller) {
    (c.BeginTried? && c.tried == CancelDone) || (c.BeginSeen? && c.outcome == CancelDone)
  }

  /** A reset that has not yet reached its own cancel. */
  predicate BeforeCancel(c: Caller) { c.Beginning? || c.BeginHeld? }

  predicate InBegin(c: Caller) { BeforeCancel(c) || c.BeginTried? || c.BeginSeen? }

  ghost predicate Safe(w: World) {
    && (w.flag == ByObserver <==> ObserverHolds(w.stage))
    && (w.flag == ByCaller <==> w.caller.BeginHeld?)
    && (!InsideUpdate(w.stage) ==> Faithful(w.core, w.published))
    && (!w.stage.Erasing? ==> (w.core.owner == NO_MANAGER <==> !Owns(w.core)))
    && (w.stage.Erasing? ==> ValidManager(w.stage.manager) && w.core.owner != NO_MANAGER)
    && (CreationInFlight(w) ==> ValidManager(w.stage.manager) && !w.core.creationPending)
    && (CreationInFlight(w) && w.stage.second ==> w.core.ids[0] != 0 && !BothOwned(w.core) && w.core.owner == w.stage.manager)
    && (CreationInFlight(w) && !w.stage.second ==> !Owns(w.core))
    && (w.stage.Publishing? && w.stage.state == Active ==> Settled(w.core))
    && Orderly(w.core) && (Owns(w.core) ==> ValidManager(w.core.owner)) && (w.stage.Erasing? ==> !w.core.activePair) && (CreationInFlight(w) ==> Making(w.core))
  }

  ghost predicate Retiring(w: World) {
    && (Holding(w.reset) || InBegin(w.caller) ==> w.requested)
    && (Holding(w.reset) && w.reset.retired ==> Quiet(w))
    && (ObserverDrained(w.stage) ==> !Owns(w.core) && !w.core.creationPending)
    && (ObserverDrained(w.stage) && w.requested && !BeforeCancel(w.caller) ==> w.mailbox.command != Enable)
    && (CallerDrained(w.caller) ==> Quiet(w))
    && (BeforeCancel(w.caller) ==> !w.reset.retired)
    && (w.caller.Clearing? ==> !Holding(w.reset))
  }

  lemma SafeKept(w: World, a: Action)
    requires Safe(w) && Enabled(w, a)
    ensures Safe(Next(w, a))
  {
    match a
    case Decide => DecideSafe(w);
    case EraseStep(confirmed) => EraseSafe(w, confirmed);
    case FinishErase =>
    case InitStep(init) => InitSafe(w, init);
    case CreateStep(id) => CreateSafe(w, id);
    case _ => OtherSafe(w, a);
  }

  lemma DecideSafe(w: World)
    requires Safe(w) && w.stage.Planning?
    ensures Safe(NextDecide(w))
  {
  }

  lemma EraseSafe(w: World, confirmed: bool)
    requires Safe(w) && w.stage.Erasing? && 0 < w.stage.left <= 2
    ensures Safe(NextErase(w, confirmed))
  {
  }

  lemma InitSafe(w: World, init: Init)
    requires Safe(w) && w.stage.Preparing?
    ensures Safe(NextInit(w, init))
  {
    hide Prepare;
  }

  lemma CreateSafe(w: World, id: EntryId)
    requires Safe(w) && w.stage.Creating?
    ensures Safe(NextCreate(w, id))
  {
  }

  lemma OtherSafe(w: World, a: Action)
    requires Safe(w) && Enabled(w, a)
    requires !a.Decide? && !a.EraseStep? && !a.FinishErase? && !a.InitStep? && !a.CreateStep?
    ensures Safe(Next(w, a))
  {
    hide NextDecide, NextErase, NextFinish, NextInit, NextCreate;
  }

  lemma RetiringKept(w: World, a: Action)
    requires Safe(w) && Retiring(w) && Enabled(w, a)
    ensures Retiring(Next(w, a))
  {
    hide Prepare, EmptySnapshot;
    if a.Decide? || a.EraseStep? || a.FinishErase? || a.InitStep? || a.CreateStep? {
      UpdateRetiring(w, a);
    } else if a.CallerCancelUnderLock? || a.ObserverCancelUnderLock? {
      CancelRetiring(w, a);
    } else {
      OtherRetiring(w, a);
    }
  }

  lemma UpdateRetiring(w: World, a: Action)
    requires Safe(w) && Retiring(w) && Enabled(w, a)
    requires a.Decide? || a.EraseStep? || a.FinishErase? || a.InitStep? || a.CreateStep?
    ensures Retiring(Next(w, a))
  {
    hide Prepare, EmptySnapshot;
    if a.Decide? {
      DecideRetiring(w);
    } else if a.EraseStep? || a.FinishErase? {
      ErasingRetiring(w, a);
    } else {
      CreatingRetiring(w, a);
    }
  }

  lemma DecideRetiring(w: World)
    requires Safe(w) && Retiring(w) && w.stage.Planning?
    ensures Retiring(NextDecide(w))
  {
  }

  /** While entries are being erased or created nothing is drained, so nothing is retired. */
  lemma ErasingRetiring(w: World, a: Action)
    requires Safe(w) && Retiring(w) && Enabled(w, a) && (a.EraseStep? || a.FinishErase?)
    ensures Retiring(Next(w, a))
  {
    hide Prepare, EmptySnapshot, Safe, NextDecide, NextInit, NextCreate;
  }

  lemma CreatingRetiring(w: World, a: Action)
    requires Safe(w) && Retiring(w) && Enabled(w, a) && (a.InitStep? || a.CreateStep?)
    ensures Retiring(Next(w, a))
  {
    hide Prepare, EmptySnapshot, Safe, NextDecide, NextErase, NextFinish;
  }

  lemma CancelRetiring(w: World, a: Action)
    requires Safe(w) && Retiring(w) && Enabled(w, a) && (a.CallerCancelUnderLock? || a.ObserverCancelUnderLock?)
    ensures Retiring(Next(w, a))
  {
    hide NextDecide, NextErase, NextFinish, NextInit, NextCreate, EmptySnapshot;
  }

  lemma OtherRetiring(w: World, a: Action)
    requires Safe(w) && Retiring(w) && Enabled(w, a)
    requires !a.Decide? && !a.EraseStep? && !a.FinishErase? && !a.InitStep? && !a.CreateStep?
    requires !a.CallerCancelUnderLock? && !a.ObserverCancelUnderLock?
    ensures Retiring(Next(w, a))
  {
    hide NextDecide, NextErase, NextFinish, NextInit, NextCreate, EmptySnapshot;
  }

  function RunAll(w: World, actions: seq<Action>): World
    requires AllEnabled(w, actions)
    decreases |actions|
  {
    if |actions| == 0 then w else RunAll(Next(w, actions[0]), actions[1..])
  }

  predicate AllEnabled(w: World, actions: seq<Action>)
    decreases |actions|
  {
    |actions| == 0 || (Enabled(w, actions[0]) && AllEnabled(Next(w, actions[0]), actions[1..]))
  }

  lemma {:induction false} RunSafe(w: World, actions: seq<Action>)
    requires Safe(w) && Retiring(w) && AllEnabled(w, actions)
    ensures Safe(RunAll(w, actions)) && Retiring(RunAll(w, actions))
    decreases |actions|
  {
    hide Safe, Retiring, Next, Enabled;
    if |actions| > 0 {
      SafeKept(w, actions[0]);
      RetiringKept(w, actions[0]);
      RunSafe(Next(w, actions[0]), actions[1..]);
    }
  }

  /** In every interleaving, a reset can be consumed only when no entry is owned, none is being created,
      and no enable waits; and while nobody holds the flag the published ownership is the real one. */
  lemma ConsumedMeansDrained(actions: seq<Action>, publicReady: bool)
    requires AllEnabled(FIRST_WORLD, actions)
    ensures var w := RunAll(FIRST_WORLD, actions);
            && (w.flag == Free ==> Faithful(w.core, w.published))
            && (Enabled(w, Consume(publicReady)) && Next(w, Consume(publicReady)).caller.Clearing? ==>
                  !Owns(w.core) && !CreationInFlight(w) && !w.core.creationPending && w.mailbox.command != Enable)
  {
    hide AllEnabled, RunAll;
    RunSafe(FIRST_WORLD, actions);
  }

  // ----- the cut update is still one update -----

  datatype Ending = Ending(core: Core, published: Snapshot)

  function Bare(r: Result): Ending { Ending(r.core, r.published) }

  function Publishes(c: Core, state: State, blocked: BlockReason): Ending { Ending(c, Show(c, state, blocked)) }

  /** The erasures still to come. */
  function ErasedBelow(c: Core, left: nat, confirmed: Confirmed): Core {
    var ids := [if left >= 1 && confirmed[0] then 0 else c.ids[0], if left >= 2 && confirmed[1] then 0 else c.ids[1]];
    c.(ids := ids, owner := if ids == [0, 0] then NO_MANAGER else c.owner)
  }

  function Cleared(c: Core, manager: ManagerToken, r: Replies): Ending {
    if Owns(c) then Publishes(c, CleanupPending, NotBlocked)
    else if !c.desiredEnabled || !c.creationPending then Publishes(c, Idle(c), NotBlocked)
    else Bare(MakePair(c.(creationPending := false), manager, r, []))
  }

  /** Where an update standing at `stage` must end for these engine replies. */
  function Finish(c: Core, stage: Stage, r: Replies): Ending
    requires InsideUpdate(stage)
  {
    match stage
    case Planning(manager, engine) =>
      (match PlanFor(c, manager, engine)
       case Report(state, blocked) => Publishes(c, state, blocked)
       case Proceed => Bare(Run(c, manager, r, [])))
    case Erasing(left, undo, manager) =>
      var e := ErasedBelow(c, left, if undo then r.undo else r.erase);
      if undo then Publishes(e, if Owns(e) then CleanupPending else Failed, NotBlocked) else Cleared(e, manager, r)
    case Preparing(second, manager) => if second then SecondEnding(c, manager, r) else Bare(MakePair(c, manager, r, []))
    case Creating(second, packed, manager) => if second then CreatedSecond(c, r) else CreatedFirst(c, manager, r)
    case Publishing(state, blocked) => Publishes(c, state, blocked)
  }

  /** The engine replies this step reports are the ones in `r`. */
  predicate Answers(w: World, a: Action, r: Replies) {
    match a
    case EraseStep(confirmed) => w.stage.Erasing? && 0 < w.stage.left <= 2 ==>
      confirmed == (if w.stage.undo then r.undo else r.erase)[w.stage.left - 1]
    case InitStep(init) => w.stage.Preparing? ==> init == if w.stage.second then r.init1 else r.init0
    case CreateStep(id) => w.stage.Creating? ==> id == if w.stage.second then r.id1 else r.id0
    case _ => true
  }

  lemma GiveUpEvents(c: Core, failure: Failure, undo: Confirmed, events: seq<Event>)
    ensures Bare(GiveUp(c, failure, undo, events)) == Bare(GiveUp(c, failure, undo, []))
  {
    hide Erasures, Cleaned;
  }

  /** The second half of a creation, without its history. */
  function SecondEnding(c: Core, manager: ManagerToken, r: Replies): Ending {
    match Prepare(c, c.desiredKeys.second, r.init1)
    case NotReady(failure) => Bare(GiveUp(c, failure, r.undo, []))
    case Ready(packed) => CreatedSecond(c, r)
  }

  function CreatedSecond(c: Core, r: Replies): Ending {
    if r.id1 == 0 then Bare(GiveUp(c, SecondCreateFailed, r.undo, []))
    else if r.id1 == c.ids[0] then Bare(GiveUp(c, DuplicateId, r.undo, []))
    else
      Publishes(c.(ids := [c.ids[0], r.id1], ownedKeys := c.desiredKeys, ownedIndependent := c.desiredIndependent, activePair := true),
                Active, NotBlocked)
  }

  lemma SecondEnds(c: Core, manager: ManagerToken, r: Replies, events: seq<Event>)
    ensures Bare(MakeSecond(c, manager, r, events)) == SecondEnding(c, manager, r)
  {
    hide Prepare, GiveUp;
    var begun := events + [Initialized(r.init1)];
    match Prepare(c, c.desiredKeys.second, r.init1)
    case NotReady(failure) => GiveUpEvents(c, failure, r.undo, begun);
    case Ready(packed) =>
      var made := begun + [Created(manager, packed, r.id1)];
      GiveUpEvents(c, SecondCreateFailed, r.undo, made);
      GiveUpEvents(c, DuplicateId, r.undo, made);
  }

  function CreatedFirst(c: Core, manager: ManagerToken, r: Replies): Ending {
    if r.id0 == 0 then Bare(GiveUp(c, FirstCreateFailed, r.undo, []))
    else SecondEnding(c.(owner := manager, ids := [r.id0, c.ids[1]]), manager, r)
  }

  lemma PairEnds(c: Core, manager: ManagerToken, r: Replies, events: seq<Event>)
    ensures Bare(MakePair(c, manager, r, events)) ==
            match Prepare(c, c.desiredKeys.first, r.init0)
            case NotReady(failure) => Bare(GiveUp(c, failure, r.undo, []))
            case Ready(packed) => CreatedFirst(c, manager, r)
  {
    hide Prepare, GiveUp, MakeSecond, SecondEnding;
    var begun := events + [Initialized(r.init0)];
    match Prepare(c, c.desiredKeys.first, r.init0)
    case NotReady(failure) => GiveUpEvents(c, failure, r.undo, begun);
    case Ready(packed) =>
      var made := begun + [Created(manager, packed, r.id0)];
      GiveUpEvents(c, FirstCreateFailed, r.undo, made);
      SecondEnds(c.(owner := manager, ids := [r.id0, c.ids[1]]), manager, r, made);
  }

  lemma PairEventsDoNotMatter(c: Core, manager: ManagerToken, r: Replies, events: seq<Event>)
    ensures Bare(MakePair(c, manager, r, events)) == Bare(MakePair(c, manager, r, []))
  {
    hide Prepare, GiveUp, MakePair, CreatedFirst;
    PairEnds(c, manager, r, events);
    PairEnds(c, manager, r, []);
  }

  lemma RunClears(t: Core, manager: ManagerToken, r: Replies, events: seq<Event>)
    ensures Bare(Run(t, manager, r, events)) == Cleared(if Owns(t) then Cleaned(t, r.erase) else t, manager, r)
  {
    hide Erasures, MakePair;
    var c := if Owns(t) then Cleaned(t, r.erase) else t;
    var after := if Owns(t) then events + Erasures(t, r.erase) else events;
    PairEventsDoNotMatter(c.(creationPending := false), manager, r, after + [PairModel.Consumed]);
  }

  lemma CleaningStart(c: Core, confirmed: Confirmed)
    requires Owns(c)
    ensures ErasedBelow(c.(activePair := false), 2, confirmed) == Cleaned(c, confirmed)
  {
  }

  lemma FailFinishes(w: World, failure: Failure, manager: ManagerToken, r: Replies)
    ensures var f := FailStage(w, failure, manager);
            InsideUpdate(f.stage) && Finish(f.core, f.stage, r) == Bare(GiveUp(w.core, failure, r.undo, []))
  {
    hide Erasures, Cleaned, ErasedBelow;
    if Owns(w.core) { CleaningStart(w.core.(failure := failure), r.undo); }
  }

  lemma DecideFinishes(w: World, r: Replies)
    requires w.stage.Planning?
    ensures InsideUpdate(NextDecide(w).stage) && Finish(NextDecide(w).core, NextDecide(w).stage, r) == Finish(w.core, w.stage, r)
  {
    hide Run, MakePair, Cleaned, ErasedBelow, PlanFor, MakeSecond, GiveUp;
    RunClears(w.core, w.stage.manager, r, []);
    if Owns(w.core) { CleaningStart(w.core, r.erase); }
  }

  lemma EraseFinishes(w: World, confirmed: bool, r: Replies)
    requires w.stage.Erasing? && 0 < w.stage.left <= 2 && Answers(w, EraseStep(confirmed), r)
    ensures var n := NextErase(w, confirmed); InsideUpdate(n.stage) && Finish(n.core, n.stage, r) == Finish(w.core, w.stage, r)
  {
    hide Cleared, ErasedBelow;
    ErasedStep(w.core, w.stage.left - 1, if w.stage.undo then r.undo else r.erase);
  }

  lemma ErasedStep(c: Core, k: nat, confirmed: Confirmed)
    requires k < 2
    ensures ErasedBelow(if c.ids[k] != 0 && confirmed[k] then c.(ids := c.ids[k := 0]) else c, k, confirmed) == ErasedBelow(c, k + 1, confirmed)
  {
    var d := if c.ids[k] != 0 && confirmed[k] then c.(ids := c.ids[k := 0]) else c;
    assert d.ids[1 - k] == c.ids[1 - k];
    assert ErasedBelow(d, k, confirmed).ids == ErasedBelow(c, k + 1, confirmed).ids;
  }

  lemma FinishEraseFinishes(w: World, r: Replies)
    requires w.stage.Erasing? && w.stage.left == 0
    ensures var n := NextFinish(w); InsideUpdate(n.stage) && Finish(n.core, n.stage, r) == Finish(w.core, w.stage, r)
  {
    hide MakePair, SecondEnding, ErasedBelow, PlanFor, CreatedFirst, CreatedSecond;
    NothingLeft(w.core, if w.stage.undo then r.undo else r.erase);
  }

  lemma NothingLeft(c: Core, confirmed: Confirmed)
    ensures ErasedBelow(c, 0, confirmed) == if Owns(c) then c else c.(owner := NO_MANAGER)
  {
    assert c.ids == [c.ids[0], c.ids[1]];
  }

  lemma InitFinishes(w: World, init: Init, r: Replies)
    requires w.stage.Preparing? && Answers(w, InitStep(init), r)
    ensures var n := NextInit(w, init); InsideUpdate(n.stage) && Finish(n.core, n.stage, r) == Finish(w.core, w.stage, r)
  {
    hide Prepare, GiveUp, FailStage, Run, MakePair, CreatedFirst, CreatedSecond;
    var c, m := w.core, w.stage.manager;
    PairEnds(c, m, r, []);
    var key := if w.stage.second then c.desiredKeys.second else c.desiredKeys.first;
    match Prepare(c, key, init)
    case NotReady(failure) => FailFinishes(w, failure, m, r);
    case Ready(packed) =>
  }

  lemma CreateFinishes(w: World, id: EntryId, r: Replies)
    requires w.stage.Creating? && Answers(w, CreateStep(id), r)
    ensures var n := NextCreate(w, id); InsideUpdate(n.stage) && Finish(n.core, n.stage, r) == Finish(w.core, w.stage, r)
  {
    hide Prepare, GiveUp, FailStage, MakeSecond, MakePair, Run;
    FailFinishes(w, FirstCreateFailed, w.stage.manager, r);
    FailFinishes(w, SecondCreateFailed, w.stage.manager, r);
    FailFinishes(w, DuplicateId, w.stage.manager, r);
  }

  /** One step of anybody, taken while the observer is inside an update, does not change where the update ends. */
  lemma StepRefines(w: World, a: Action, r: Replies)
    requires Safe(w) && Enabled(w, a) && InsideUpdate(w.stage) && Answers(w, a, r)
    ensures a.PublishStep? ==> Ending(Next(w, a).core, Next(w, a).published) == Finish(w.core, w.stage, r)
    ensures !a.PublishStep? ==>
              InsideUpdate(Next(w, a).stage) && Finish(Next(w, a).core, Next(w, a).stage, r) == Finish(w.core, w.stage, r)
  {
    hide NextDecide, NextErase, NextFinish, NextInit, NextCreate;
    match a
    case Decide => DecideFinishes(w, r);
    case EraseStep(confirmed) => EraseFinishes(w, confirmed, r);
    case FinishErase => FinishEraseFinishes(w, r);
    case InitStep(init) => InitFinishes(w, init, r);
    case CreateStep(id) => CreateFinishes(w, id, r);
    case PublishStep => PublishFinishes(w, r);
    case _ => OthersKeep(w, a);
  }

  lemma PublishFinishes(w: World, r: Replies)
    requires w.stage.Publishing?
    ensures Ending(w.core, Show(w.core, w.stage.state, w.stage.blocked)) == Finish(w.core, w.stage, r)
  {
  }

  lemma OthersKeep(w: World, a: Action)
    requires Safe(w) && Enabled(w, a) && InsideUpdate(w.stage)
    requires !a.Decide? && !a.EraseStep? && !a.FinishErase? && !a.InitStep? && !a.CreateStep? && !a.PublishStep?
    ensures Next(w, a).core == w.core && Next(w, a).stage == w.stage
  {
    hide NextDecide, NextErase, NextFinish, NextInit, NextCreate;
  }

  /** A stretch of steps by everybody in which the update under way receives the replies `r` and then publishes. */
  predicate Serves(w: World, actions: seq<Action>, r: Replies)
    decreases |actions|
  {
    && |actions| > 0 && Enabled(w, actions[0]) && Answers(w, actions[0], r)
    && (if |actions| == 1 then actions[0].PublishStep?
        else !actions[0].PublishStep? && Serves(Next(w, actions[0]), actions[1..], r))
  }

  function Served(w: World, actions: seq<Action>, r: Replies): World
    requires Serves(w, actions, r)
    decreases |actions|
  {
    if |actions| == 1 then Next(w, actions[0]) else Served(Next(w, actions[0]), actions[1..], r)
  }

  lemma {:induction false} ServedFinishes(w: World, actions: seq<Action>, r: Replies)
    requires Safe(w) && InsideUpdate(w.stage) && Serves(w, actions, r)
    ensures Ending(Served(w, actions, r).core, Served(w, actions, r).published) == Finish(w.core, w.stage, r)
    decreases |actions|
  {
    hide Safe, Next, Enabled, Answers, Finish, InsideUpdate;
    StepRefines(w, actions[0], r);
    if |actions| > 1 {
      SafeKept(w, actions[0]);
      ServedFinishes(Next(w, actions[0]), actions[1..], r);
    }
  }

  /** However requests, cancellations and resets interleave with it, an update that took the mailbox ends
      and publishes exactly as one uninterrupted update does for the same engine replies. */
  lemma InterleavedUpdate(w: World, actions: seq<Action>, r: Replies)
    requires Safe(w) && w.stage.Flagged?
    requires Serves(Next(w, TakeMail), actions, r)
    ensures var u := Update(w.core, w.mailbox, w.stage.manager, w.stage.engine, r);
            Served(Next(w, TakeMail), actions, r).core == u.core && Served(Next(w, TakeMail), actions, r).published == u.published
  {
    hide Serves, Served, Run;
    SafeKept(w, TakeMail);
    ServedFinishes(Next(w, TakeMail), actions, r);
    var t := Take(w.core, w.mailbox);
    RunClears(t, w.stage.manager, r, []);
    RunClears(t, w.stage.manager, r, [Taken(w.mailbox)]);
  }
}
