/** Where one update of the camera pair ends, case by case, over the fields before it, the request it takes and what
    the engine replies; and that an active pair stays through every run until someone asks otherwise. */
module PairOutcomes {
  import opened PairModel

  const COMPLETE: EngineCallbacks := EngineCallbacks(true, true, true)

  // ----- an active pair -----

  /** An active pair stays: no field but the repeated request's own changes, the engine is not called, and the update
      publishes it as active. */
  lemma ActiveStays(c: Core, request: Request, r: Replies)
    requires c.ids[0] != 0 && c.ids[1] != 0 && c.activePair && ValidManager(c.owner)
    requires || (request.command == NoCommand && c.desiredEnabled && !c.creationPending && c.failure == NoFailure)
             || request == Request(Enable, c.ownedKeys, c.ownedIndependent)
    ensures var u := Update(c, request, c.owner, COMPLETE, r);
            && u.published == Snapshot(Active, NoFailure, NotBlocked, c.owner, c.ids, false, false)
            && u.events == [Taken(request), Shown(u.published)]
            && (request.command == NoCommand ==> u.core == c)
            && u.core == c.(desiredKeys := u.core.desiredKeys, desiredIndependent := u.core.desiredIndependent,
                            desiredEnabled := true, creationPending := false, failure := NoFailure)
            && (request.command == Enable ==> u.core.desiredKeys == c.ownedKeys && u.core.desiredIndependent == c.ownedIndependent)
  {
    hide Run;
  }

  /** There is something to do: entries are owned, or an enable waits. */
  predicate Work(c: Core, request: Request) {
    c.ids[0] != 0 || c.ids[1] != 0 || request.command == Enable || (request.command == NoCommand && c.creationPending)
  }

  /** The manager cannot be served: it is invalid, not the one that owns the entries, or offers an incomplete engine. */
  predicate Barred(c: Core, manager: ManagerToken, engine: EngineCallbacks) {
    || manager.identity == 0 || manager.generation == 0
    || ((c.ids[0] != 0 || c.ids[1] != 0) && manager != c.owner)
    || engine != COMPLETE
  }

  /** With work to do and a manager that cannot be served the update blocks, names why, calls the engine never and
      keeps everything owned; it blocks for no other reason. */
  lemma BlockedExactly(c: Core, request: Request, manager: ManagerToken, engine: EngineCallbacks, r: Replies)
    requires c.creationPending ==> c.desiredEnabled
    ensures var u := Update(c, request, manager, engine, r);
            && (u.published.state == Blocked <==> Work(c, request) && Barred(c, manager, engine))
            && (u.published.state == Blocked ==>
                  && u.published.blocked == (if !ValidManager(manager) then InvalidManager
                                             else if (c.ids[0] != 0 || c.ids[1] != 0) && manager != c.owner then ManagerMismatch
                                             else MissingCallbacks)
                  && u.events == [Taken(request), Shown(u.published)]
                  && u.core.owner == c.owner && u.core.ids == c.ids && u.core.activePair == c.activePair
                  && u.core.ownedKeys == c.ownedKeys && u.core.ownedIndependent == c.ownedIndependent
                  && (request.command == NoCommand ==> u.core == c)
                  && (request.command == Enable ==> u.core.desiredEnabled && u.core.desiredKeys == request.keys &&
                                                    u.core.desiredIndependent == request.independent)
                  && (request.command == Disable ==> !u.core.desiredEnabled && !u.core.creationPending))
            && (u.published.state != Blocked ==> u.published.blocked == NotBlocked)
  {
    hide Cleaned, Erasures, MakePair;
    var t := Take(c, request);
    RunUnblocked(t, manager, r, [Taken(request)]);
  }

  lemma RunUnblocked(t: Core, manager: ManagerToken, r: Replies, taken: seq<Event>)
    ensures Run(t, manager, r, taken).published.state != Blocked && Run(t, manager, r, taken).published.blocked == NotBlocked
  {
    hide Cleaned, Erasures, Prepare;
  }

  /** With nothing owned and no enable waiting, nothing is called; a failure shows until the next request. */
  lemma IdleReports(c: Core, request: Request, manager: ManagerToken, engine: EngineCallbacks, r: Replies)
    requires !Work(c, request)
    ensures var u := Update(c, request, manager, engine, r);
            && u.events == [Taken(request), Shown(u.published)] && u.core.ids == [0, 0] && !u.core.creationPending
            && u.published.state == (if request.command == Disable || c.failure == NoFailure then Disabled else Failed)
            && u.core.failure == (if request.command == Disable then NoFailure else c.failure)
  {
    hide Run;
    assert c.ids == [0, 0];
  }

  // ----- erasing -----

  /** The owned entries are to go: nobody wants a pair, another one is wanted, or what is owned is not an active pair. */
  predicate Unwanted(c: Core, request: Request) {
    (c.ids[0] != 0 || c.ids[1] != 0) &&
    match request.command
    case NoCommand => !(c.ids[0] != 0 && c.ids[1] != 0 && c.activePair && c.desiredEnabled && !c.creationPending && c.failure == NoFailure)
    case Enable => !(c.ids[0] != 0 && c.ids[1] != 0 && c.activePair && c.ownedKeys == request.keys && c.ownedIndependent == request.independent)
    case Disable => true
  }

  /** What the engine is asked to erase: the second entry, then the first. */
  function Reverse(c: Core, confirmed: Confirmed): seq<Event> {
    if c.ids[0] == 0 then [Erased(c.owner, c.ids[1], confirmed[1])]
    else if c.ids[1] == 0 then [Erased(c.owner, c.ids[0], confirmed[0])]
    else [Erased(c.owner, c.ids[1], confirmed[1]), Erased(c.owner, c.ids[0], confirmed[0])]
  }

  /** Every owned entry's removal is confirmed. */
  predicate AllGone(c: Core, confirmed: Confirmed) {
    (c.ids[0] != 0 ==> confirmed[0]) && (c.ids[1] != 0 ==> confirmed[1])
  }

  /** Unwanted entries are erased, the second before the first, and before anything is created; each one not confirmed
      is kept and nothing is created until it is gone. */
  lemma UnwantedErased(c: Core, request: Request, r: Replies)
    requires Unwanted(c, request) && ValidManager(c.owner)
    ensures var u := Update(c, request, c.owner, COMPLETE, r);
            && [Taken(request)] + Reverse(c, r.erase) <= u.events
            && (!AllGone(c, r.erase) ==>
                  && u.published.state == CleanupPending
                  && u.events == [Taken(request)] + Reverse(c, r.erase) + [Shown(u.published)] && u.core.owner == c.owner
                  && u.core.ids == [if r.erase[0] then 0 else c.ids[0], if r.erase[1] then 0 else c.ids[1]])
  {
    hide Run, Cleaned, Reverse;
    var t := Take(c, request);
    assert AllGone(c, r.erase) <==> AllGone(t, r.erase);
    ReverseTaken(c, t, r.erase);
    RunErases(t, r, [Taken(request)]);
  }

  lemma ReverseTaken(c: Core, t: Core, confirmed: Confirmed)
    requires t.ids == c.ids && t.owner == c.owner
    ensures Reverse(t, confirmed) == Reverse(c, confirmed)
  {
  }

  lemma RunErases(t: Core, r: Replies, taken: seq<Event>)
    requires t.ids[0] != 0 || t.ids[1] != 0
    ensures var u := Run(t, t.owner, r, taken);
            && taken + Reverse(t, r.erase) <= u.events
            && (!AllGone(t, r.erase) ==>
                  && u.events == taken + Reverse(t, r.erase) + [Shown(u.published)] && u.core.owner == t.owner
                  && u.core.ids == [if r.erase[0] then 0 else t.ids[0], if r.erase[1] then 0 else t.ids[1]]
                  && u.published.state == CleanupPending)
  {
    hide MakePair, Reverse;
    var events := taken + Erasures(t, r.erase);
    ReverseIsErasures(t, r.erase);
    PairAppends(Cleaned(t, r.erase).(creationPending := false), t.owner, r, events + [Consumed]);
    assert events <= events + [Consumed];
  }

  lemma ReverseIsErasures(t: Core, confirmed: Confirmed)
    requires t.ids[0] != 0 || t.ids[1] != 0
    ensures Erasures(t, confirmed) == Reverse(t, confirmed)
  {
  }

  lemma PairAppends(c: Core, manager: ManagerToken, r: Replies, events: seq<Event>)
    ensures events <= MakePair(c, manager, r, events).events
  {
    hide Prepare, Cleaned, Erasures;
  }

  /** An update that need not create ends with nothing owned once every removal is confirmed. */
  lemma UnwantedGone(c: Core, request: Request, r: Replies)
    requires Unwanted(c, request) && ValidManager(c.owner) && AllGone(c, r.erase)
    requires request.command == Disable || (request.command == NoCommand && !c.creationPending)
    ensures var u := Update(c, request, c.owner, COMPLETE, r);
            && u.events == [Taken(request)] + Reverse(c, r.erase) + [Shown(u.published)]
            && u.core.ids == [0, 0] && u.core.owner == NO_MANAGER && !u.core.activePair && !u.core.creationPending
            && u.published.state == (if request.command == Disable || c.failure == NoFailure then Disabled else Failed)
  {
    hide MakePair;
    var t := Take(c, request);
    assert Erasures(t, r.erase) == Reverse(c, r.erase);
  }

  // ----- creating -----

  /** A pair is to be made now: an enable waits or is taken, and whatever was owned is confirmed gone. */
  predicate Due(c: Core, request: Request, manager: ManagerToken, r: Replies) {
    && ValidManager(manager)
    && (request.command == Enable || (request.command == NoCommand && c.creationPending && c.desiredEnabled))
    && if c.ids[0] != 0 || c.ids[1] != 0 then Unwanted(c, request) && manager == c.owner && AllGone(c, r.erase) else true
  }

  predicate Usable(init: Init) { init.ok && NamesEmpty(init.bytes) }

  /** The first thing that goes wrong in an attempt, if anything does. */
  function FirstTrouble(r: Replies): Failure {
    if !r.init0.ok then InitializerFailed
    else if !NamesEmpty(r.init0.bytes) then InitializerContract
    else if r.id0 == 0 then FirstCreateFailed
    else if !r.init1.ok then InitializerFailed
    else if !NamesEmpty(r.init1.bytes) then InitializerContract
    else if r.id1 == 0 then SecondCreateFailed
    else if r.id1 == r.id0 then DuplicateId
    else NoFailure
  }

  /** An attempt makes the pair exactly when both descriptors are usable and the engine returns two different IDs;
      otherwise it names the first thing that went wrong and keeps the first entry only while its removal is not
      confirmed. Either way the enable is consumed. */
  lemma AttemptExactly(c: Core, request: Request, manager: ManagerToken, r: Replies)
    requires Due(c, request, manager, r) && Orderly(c) && (c.ids == [0, 0] ==> c.owner == NO_MANAGER)
    ensures var u := Update(c, request, manager, COMPLETE, r);
            && !u.core.creationPending && u.core.desiredEnabled && u.core.failure == FirstTrouble(r)
            && u.published == Snapshot(u.published.state, FirstTrouble(r), NotBlocked, u.core.owner, u.core.ids, false, false)
            && (FirstTrouble(r) == NoFailure ==> MadeBoth(u, c, request, manager, r))
            && (FirstTrouble(r) != NoFailure ==> Undone(u, manager, r))
  {
    hide NamesEmpty, PackedAs, Erasures, MakePair;
    var t := Take(c, request);
    var d := if Owns(t) then Cleaned(t, r.erase) else t;
    var events := if Owns(t) then [Taken(request)] + Erasures(t, r.erase) else [Taken(request)];
    MakePairExactly(d.(creationPending := false), manager, r, events + [Consumed]);
  }

  predicate MadeBoth(u: Result, c: Core, request: Request, manager: ManagerToken, r: Replies) {
    && u.published.state == Active && u.core.owner == manager && u.core.ids == [r.id0, r.id1] && Settled(u.core)
    && (request.command == Enable ==> u.core.ownedKeys == request.keys && u.core.ownedIndependent == request.independent)
    && (request.command != Enable ==> u.core.ownedKeys == c.desiredKeys && u.core.ownedIndependent == c.desiredIndependent)
  }

  predicate Undone(u: Result, manager: ManagerToken, r: Replies) {
    if Usable(r.init0) && r.id0 != 0 && !r.undo[0] then
      u.published.state == CleanupPending && u.core.ids == [r.id0, 0] && u.core.owner == manager && !u.core.activePair
    else
      u.published.state == Failed && u.core.ids == [0, 0] && u.core.owner == NO_MANAGER && !u.core.activePair
  }

  lemma MakePairExactly(c: Core, manager: ManagerToken, r: Replies, events: seq<Event>)
    requires Making(c) && !Owns(c) && c.owner == NO_MANAGER
    ensures var u := MakePair(c, manager, r, events);
            && !u.core.creationPending && u.core.desiredEnabled && u.core.failure == FirstTrouble(r)
            && u.published == Snapshot(u.published.state, FirstTrouble(r), NotBlocked, u.core.owner, u.core.ids, false, false)
            && (FirstTrouble(r) == NoFailure ==>
                  u.published.state == Active && u.core.owner == manager && u.core.ids == [r.id0, r.id1] && Settled(u.core) &&
                  u.core.ownedKeys == c.desiredKeys && u.core.ownedIndependent == c.desiredIndependent)
            && (FirstTrouble(r) != NoFailure ==> Undone(u, manager, r))
  {
    hide NamesEmpty, PackedAs, Erasures, Cleaned, MakeSecond;
    assert c.ids == [0, 0];
    if Usable(r.init0) && r.id0 != 0 {
      var made := events + [Initialized(r.init0)] + [Created(manager, Prepare(c, c.desiredKeys.first, r.init0).packed, r.id0)];
      MakeSecondExactly(c.(owner := manager, ids := [r.id0, 0]), manager, r, made);
    }
  }

  lemma MakeSecondExactly(c: Core, manager: ManagerToken, r: Replies, events: seq<Event>)
    requires Making(c) && c.owner == manager && c.ids == [r.id0, 0] && r.id0 != 0 && Usable(r.init0)
    ensures var u := MakeSecond(c, manager, r, events);
            && !u.core.creationPending && u.core.desiredEnabled && u.core.failure == FirstTrouble(r)
            && u.published == Snapshot(u.published.state, FirstTrouble(r), NotBlocked, u.core.owner, u.core.ids, false, false)
            && (FirstTrouble(r) == NoFailure ==>
                  u.published.state == Active && u.core.owner == manager && u.core.ids == [r.id0, r.id1] && Settled(u.core) &&
                  u.core.ownedKeys == c.desiredKeys && u.core.ownedIndependent == c.desiredIndependent)
            && (FirstTrouble(r) != NoFailure ==> Undone(u, manager, r))
  {
    hide NamesEmpty, PackedAs, Erasures;
  }

  // ----- cancelling and losing the manager -----

  /** With nothing owned a cancel empties everything; with anything owned it changes nothing. */
  lemma CancelsExactly(s: RunState)
    requires Tied(s.core, Replay(s.log))
    ensures var e := After(s, CancelOp);
            if s.core.ids == [0, 0] then
              && e.core == s.core.(desiredEnabled := false, creationPending := false, activePair := false, failure := NoFailure)
              && e.mailbox == Request(NoCommand, NO_KEYS, false) && e.log == s.log + [Cancelled]
              && e.published == Snapshot(Disabled, NoFailure, NotBlocked, ManagerToken(0, 0), [0, 0], false, false)
            else e == s
  {
    hide AdvanceAll;
    assert s.core.ids == [s.core.ids[0], s.core.ids[1]];
  }

  /** The loss of the owning manager forgets its entries without an engine call, drops every wish and request, and shows
      the failure; the loss of any other manager changes nothing. */
  lemma DestroysExactly(s: RunState, manager: ManagerToken)
    ensures var e := After(s, DestroyedOp(manager));
            if (s.core.ids[0] != 0 || s.core.ids[1] != 0) && manager == s.core.owner then
              && e.core.ids == [0, 0] && e.core.owner == ManagerToken(0, 0) && e.core.failure == ManagerDestroyed
              && !e.core.desiredEnabled && !e.core.creationPending && !e.core.activePair
              && e.mailbox == Request(NoCommand, NO_KEYS, false)
              && e.published == Snapshot(Failed, ManagerDestroyed, NotBlocked, ManagerToken(0, 0), [0, 0], false, false)
              && e.log == s.log + [Destroyed(manager), Shown(e.published)]
            else e == s
  {
  }

  // ----- an active pair over whole runs -----

  /** Nobody asks for anything but the pair there is, and its manager lives. */
  predicate Gentle(c: Core, op: Op) {
    match op
    case Post(request) => Repeats(c, request)
    case UpdateOp(_, _, _, posted) => Repeats(c, posted)
    case CancelOp => true
    case DestroyedOp(manager) => manager != c.owner
  }

  predicate Repeats(c: Core, request: Request) {
    request.command == NoCommand || request == Request(Enable, c.ownedKeys, c.ownedIndependent)
  }

  predicate EngineCall(e: Event) { e.Initialized? || e.Created? || e.Erased? || e.Destroyed? || e.Cancelled? || e.Consumed? }

  /** Once a pair is shown active it is kept, whoever updates it: until another request or the loss of its manager no
      engine call is made, nothing owned changes, and every update by its manager shows it active again. */
  lemma {:induction false} ActiveLasts(s: RunState, ops: seq<Op>)
    requires Settled(s.core) && ValidManager(s.core.owner) && Repeats(s.core, s.mailbox)
    requires forall k | 0 <= k < |ops| :: Gentle(s.core, ops[k])
    ensures var e := AfterAll(s, ops);
            && Settled(e.core) && e.core == s.core && Repeats(e.core, e.mailbox)
            && s.log <= e.log && (forall k | |s.log| <= k < |e.log| :: !EngineCall(e.log[k]))
            && (forall k | |s.log| <= k < |e.log| && e.log[k].Shown? ::
                  e.log[k].snapshot.state == Active || e.log[k].snapshot.state == Blocked)
    decreases |ops|
  {
    hide After, Settled, Gentle, EngineCall, Repeats;
    if |ops| > 0 {
      ActiveLastsOnce(s, ops[0]);
      var t := After(s, ops[0]);
      ActiveLasts(t, ops[1..]);
    }
  }

  lemma ActiveLastsOnce(s: RunState, op: Op)
    requires Settled(s.core) && ValidManager(s.core.owner) && Repeats(s.core, s.mailbox) && Gentle(s.core, op)
    ensures var e := After(s, op);
            && e.core == s.core && Repeats(e.core, e.mailbox) && s.log <= e.log
            && (forall k | |s.log| <= k < |e.log| ::
                  !EngineCall(e.log[k]) && (e.log[k].Shown? ==> e.log[k].snapshot.state == Active || e.log[k].snapshot.state == Blocked))
            && (op.UpdateOp? && op.manager == s.core.owner && op.engine == COMPLETE ==> e.published.state == Active)
            && (op.UpdateOp? && Barred(s.core, op.manager, op.engine) ==> e.published.state == Blocked)
  {
    hide Run;
    if op.UpdateOp? {
      if Barred(s.core, op.manager, op.engine) {
        BlockedExactly(s.core, s.mailbox, op.manager, op.engine, op.replies);
      } else {
        ActiveStays(s.core, s.mailbox, op.replies);
      }
    }
  }

  /** What is published active in any run is a settled pair of a valid manager, so all of this applies to it. */
  lemma ShownActiveSettles(ops: seq<Op>)
    requires AfterAll(OPEN_RUN, ops).published.state == Active
    ensures var c := AfterAll(OPEN_RUN, ops).core; Settled(c) && ValidManager(c.owner) && c.ids[0] != c.ids[1]
  {
    hide AfterAll, AdvanceAll;
    Conservation(ops);
  }
}
