/** The camera pair's ownership, as values: what one update does for given engine replies, and a ledger
    that replays every engine call to say which entries exist and which calls were allowed. */
module PairModel {
  import opened LoadedImage

  type EntryId = nat
  type EntryIds = s: seq<EntryId> | |s| == 2 witness [0, 0]
  type Confirmed = s: seq<bool> | |s| == 2 witness [false, false]
  type PoseKey = k: seq<byte> | |k| == 16 witness ZeroKey()
  type Descriptor = d: seq<byte> | |d| == 256 witness ZeroDescriptor()

  datatype PairKeys = PairKeys(first: PoseKey, second: PoseKey)
  datatype ManagerToken = ManagerToken(identity: nat, generation: nat)
  datatype EngineCallbacks = EngineCallbacks(initialize: bool, create: bool, erase: bool)
  datatype Command = NoCommand | Enable | Disable
  datatype Request = Request(command: Command, keys: PairKeys, independent: bool)
  datatype State = Disabled | Active | CleanupPending | Failed | Blocked
  datatype Failure = NoFailure | InitializerFailed | InitializerContract | FirstCreateFailed | SecondCreateFailed |
                     DuplicateId | ManagerDestroyed
  datatype EmptyPairCancel = CancelDone | CancelBusy | CancelOwned
  datatype BlockReason = NotBlocked | InvalidManager | MissingCallbacks | ManagerMismatch
  datatype Snapshot = Snapshot(state: State, failure: Failure, blocked: BlockReason, owner: ManagerToken,
                               ids: EntryIds, requestPending: bool, creationPending: bool)

  /** The fields only the holder of the processing flag touches. */
  datatype Core = Core(owner: ManagerToken, ids: EntryIds, desiredKeys: PairKeys, ownedKeys: PairKeys,
                       desiredIndependent: bool, ownedIndependent: bool, desiredEnabled: bool,
                       creationPending: bool, activePair: bool, failure: Failure)

  const NO_MANAGER: ManagerToken := ManagerToken(0, 0)
  const NO_KEYS: PairKeys := PairKeys(ZeroKey(), ZeroKey())
  const NO_REQUEST: Request := Request(NoCommand, NO_KEYS, false)
  const EMPTY_SNAPSHOT: Snapshot := Snapshot(Disabled, NoFailure, NotBlocked, NO_MANAGER, [0, 0], false, false)
  const START: Core := Core(NO_MANAGER, [0, 0], NO_KEYS, NO_KEYS, false, false, false, false, false, NoFailure)

  function ZeroKey(): seq<byte> { seq(16, i => 0) }

  function ZeroDescriptor(): seq<byte> { seq(256, i => 0) }

  predicate ValidManager(m: ManagerToken) { m.identity != 0 && m.generation != 0 }

  // ----- descriptors -----

  /** Both names empty and inline. */
  predicate NamesEmpty(d: Descriptor) {
    d[0] == 0 && d[32..36] == [0, 0, 0, 0] && d[64] == 0 && d[192..196] == [0, 0, 0, 0]
  }

  /** Mode, flag and pose key written over an initialized descriptor; every other byte kept. */
  function PackedAs(d: Descriptor, mode: byte, key: PoseKey): Descriptor {
    d[..40] + [mode, 0, 0, 0, 1] + d[45..48] + key + d[64..]
  }

  predicate Carries(d: Descriptor, mode: byte, key: PoseKey) {
    NamesEmpty(d) && d[40..44] == [mode, 0, 0, 0] && d[44] == 1 && d[48..64] == key
  }

  lemma PackedCarries(d: Descriptor, mode: byte, key: PoseKey)
    ensures Carries(PackedAs(d, mode, key), mode, key) <==> NamesEmpty(d)
    ensures forall i | 0 <= i < 256 && !(40 <= i < 45) && !(48 <= i < 64) :: PackedAs(d, mode, key)[i] == d[i]
  {
    var p := PackedAs(d, mode, key);
    assert p[32..36] == d[32..36] && p[192..196] == d[192..196];
    assert p[48..64] == key;
  }

  // ----- one update -----

  /** Engine results for one update: initializer results, created IDs, erase confirmations for the
      entry cleanup and for the cleanup after a failed creation. */
  datatype Init = Init(ok: bool, bytes: Descriptor)
  datatype Replies = Replies(erase: Confirmed, init0: Init, id0: EntryId, init1: Init, id1: EntryId, undo: Confirmed)

  function Silence(): Replies {
    Replies([false, false], Init(false, ZeroDescriptor()), 0, Init(false, ZeroDescriptor()), 0, [false, false])
  }

  datatype Event =
    | Taken(request: Request)
    | Consumed
    | Initialized(init: Init)
    | Created(manager: ManagerToken, packed: Descriptor, id: EntryId)
    | Erased(manager: ManagerToken, id: EntryId, confirmed: bool)
    | Shown(snapshot: Snapshot)
    | Destroyed(manager: ManagerToken)
    | Cancelled

  datatype Result = Result(core: Core, published: Snapshot, events: seq<Event>)
  datatype Plan = Report(state: State, blocked: BlockReason) | Proceed
  datatype Prepared = Ready(packed: Descriptor) | NotReady(failure: Failure)

  predicate Owns(c: Core)
  {
    c.ids[0] != 0 || c.ids[1] != 0
  }

  predicate BothOwned(c: Core)
  {
    c.ids[0] != 0 && c.ids[1] != 0
  }

  /** A pair created for the last enable, with nothing left to do. */
  predicate Settled(c: Core)
  {
    BothOwned(c) && c.activePair && c.desiredEnabled && !c.creationPending && c.failure == NoFailure && Wanted(c)
  }

  /** The owned pair carries what the last enable asked for. */
  predicate Wanted(c: Core)
  {
    c.ownedKeys == c.desiredKeys && c.ownedIndependent == c.desiredIndependent
  }

  function Take(c: Core, request: Request): Core
  {
    match request.command
    case NoCommand => c
    case Enable =>
      c.(desiredKeys := request.keys, desiredIndependent := request.independent, desiredEnabled := true, failure := NoFailure,
         creationPending := !(c.activePair && BothOwned(c) && c.ownedKeys == request.keys && c.ownedIndependent == request.independent))
    case Disable => c.(desiredEnabled := false, creationPending := false, failure := NoFailure)
  }

  function Idle(c: Core): State { if c.failure == NoFailure then Disabled else Failed }

  /** What an update does after taking the mailbox, before any engine call. */
  function PlanFor(c: Core, manager: ManagerToken, engine: EngineCallbacks): Plan
  {
    if !Owns(c) && !c.creationPending then Report(Idle(c), NotBlocked)
    else if !ValidManager(manager) then Report(Blocked, InvalidManager)
    else if Owns(c) && manager != c.owner then Report(Blocked, ManagerMismatch)
    else if !engine.initialize || !engine.create || !engine.erase then Report(Blocked, MissingCallbacks)
    else if BothOwned(c) && c.desiredEnabled && c.activePair && !c.creationPending && c.failure == NoFailure then Report(Active, NotBlocked)
    else Proceed
  }

  function Show(c: Core, state: State, blocked: BlockReason): Snapshot {
    Snapshot(state, c.failure, blocked, c.owner, c.ids, false, c.creationPending)
  }

  function Done(c: Core, state: State, blocked: BlockReason, events: seq<Event>): Result {
    Result(c, Show(c, state, blocked), events + [Shown(Show(c, state, blocked))])
  }

  /** Erases in reverse creation order; an ID goes only when its removal is confirmed. */
  function Cleaned(c: Core, confirmed: Confirmed): Core
  {
    var ids := [if confirmed[0] then 0 else c.ids[0], if confirmed[1] then 0 else c.ids[1]];
    c.(activePair := false, ids := ids, owner := if ids == [0, 0] then NO_MANAGER else c.owner)
  }

  function Erasures(c: Core, confirmed: Confirmed): seq<Event>
  {
    (if c.ids[1] != 0 then [Erased(c.owner, c.ids[1], confirmed[1])] else []) +
    (if c.ids[0] != 0 then [Erased(c.owner, c.ids[0], confirmed[0])] else [])
  }

  function Prepare(c: Core, key: PoseKey, init: Init): Prepared {
    if !init.ok then NotReady(InitializerFailed)
    else if !NamesEmpty(init.bytes) then NotReady(InitializerContract)
    else Ready(if c.desiredIndependent then PackedAs(init.bytes, 2, ZeroKey()) else PackedAs(init.bytes, 0, key))
  }

  function GiveUp(c: Core, failure: Failure, undo: Confirmed, events: seq<Event>): Result
  {
    var f := c.(failure := failure);
    if !Owns(f) then Done(f, Failed, NotBlocked, events)
    else
      var cleaned := Cleaned(f, undo);
      Done(cleaned, if Owns(cleaned) then CleanupPending else Failed, NotBlocked, events + Erasures(f, undo))
  }

  function MakeSecond(c: Core, manager: ManagerToken, r: Replies, events: seq<Event>): Result
  {
    var begun := events + [Initialized(r.init1)];
    match Prepare(c, c.desiredKeys.second, r.init1)
    case NotReady(failure) => GiveUp(c, failure, r.undo, begun)
    case Ready(packed) =>
      var made := begun + [Created(manager, packed, r.id1)];
      if r.id1 == 0 then GiveUp(c, SecondCreateFailed, r.undo, made)
      else if r.id1 == c.ids[0] then GiveUp(c, DuplicateId, r.undo, made)
      else
        Done(c.(ids := [c.ids[0], r.id1], ownedKeys := c.desiredKeys, ownedIndependent := c.desiredIndependent, activePair := true),
             Active, NotBlocked, made)
  }

  function MakePair(c: Core, manager: ManagerToken, r: Replies, events: seq<Event>): Result
  {
    var begun := events + [Initialized(r.init0)];
    match Prepare(c, c.desiredKeys.first, r.init0)
    case NotReady(failure) => GiveUp(c, failure, r.undo, begun)
    case Ready(packed) =>
      var made := begun + [Created(manager, packed, r.id0)];
      if r.id0 == 0 then GiveUp(c, FirstCreateFailed, r.undo, made)
      else MakeSecond(c.(owner := manager, ids := [r.id0, c.ids[1]]), manager, r, made)
  }

  function Run(t: Core, manager: ManagerToken, r: Replies, taken: seq<Event>): Result
  {
    var c := if Owns(t) then Cleaned(t, r.erase) else t;
    var events := if Owns(t) then taken + Erasures(t, r.erase) else taken;
    if Owns(c) then Done(c, CleanupPending, NotBlocked, events)
    else if !c.desiredEnabled || !c.creationPending then Done(c, Idle(c), NotBlocked, events)
    else MakePair(c.(creationPending := false), manager, r, events + [Consumed])
  }

  function Update(c: Core, request: Request, manager: ManagerToken, engine: EngineCallbacks, r: Replies): Result
  {
    var t := Take(c, request);
    match PlanFor(t, manager, engine)
    case Report(state, blocked) => Done(t, state, blocked, [Taken(request)])
    case Proceed => Run(t, manager, r, [Taken(request)])
  }

  function Cancel(c: Core): Core {
    c.(desiredEnabled := false, creationPending := false, activePair := false, failure := NoFailure)
  }

  function Forget(c: Core): Core {
    c.(ids := [0, 0], owner := NO_MANAGER, desiredEnabled := false, creationPending := false, activePair := false,
       failure := ManagerDestroyed)
  }

  // ----- the ledger -----

  /** What a history of events amounts to: the entries that exist, how many creations the last consumed
      enable still allows, whether an enable waits to be consumed, the request it came with, and
      whether every event so far was allowed. */
  datatype Ledger = Ledger(entries: set<(ManagerToken, EntryId)>, budget: nat, armed: bool, wanted: Request, legal: bool)

  const OPENING: Ledger := Ledger({}, 0, false, NO_REQUEST, true)

  function Entries(owner: ManagerToken, ids: EntryIds): set<(ManagerToken, EntryId)>
  {
    (if ids[0] != 0 then {(owner, ids[0])} else {}) + (if ids[1] != 0 then {(owner, ids[1])} else {})
  }

  predicate Allowed(l: Ledger, e: Event) {
    match e
    case Taken(_) => true
    case Consumed => l.armed && l.entries == {}
    case Initialized(_) => l.budget > 0
    case Created(m, packed, id) =>
      && ValidManager(m) && l.budget > 0
      && (l.budget == 2 ==> l.entries == {})
      && (l.budget == 1 ==> |l.entries| == 1 && forall x | x in l.entries :: x.0 == m)
      && (if l.wanted.independent then Carries(packed, 2, ZeroKey())
          else Carries(packed, 0, if l.budget == 2 then l.wanted.keys.first else l.wanted.keys.second))
    case Erased(m, id, confirmed) => id != 0 && (m, id) in l.entries
    case Shown(s) =>
      && Entries(s.owner, s.ids) == l.entries
      && (s.state == Active ==> s.ids[0] != 0 && s.ids[1] != 0 && s.ids[0] != s.ids[1])
      && (s.state == Disabled ==> l.entries == {})
    case Destroyed(m) => l.entries != {} && forall x | x in l.entries :: x.0 == m
    case Cancelled => l.entries == {}
  }

  function Advance(l: Ledger, e: Event): Ledger {
    var a := l.(legal := l.legal && Allowed(l, e));
    match e
    case Taken(request) =>
      if request.command == Enable then a.(armed := true, wanted := request, budget := 0)
      else if request.command == Disable then a.(armed := false, budget := 0)
      else a.(budget := 0)
    case Consumed => a.(armed := false, budget := 2)
    case Initialized(_) => a
    case Created(m, packed, id) =>
      if id == 0 || l.budget == 0 then a.(budget := 0) else a.(entries := l.entries + {(m, id)}, budget := l.budget - 1)
    case Erased(m, id, confirmed) => a.(entries := if confirmed then l.entries - {(m, id)} else l.entries, budget := 0)
    case Shown(_) => a
    case Destroyed(m) => a.(entries := {}, armed := false, budget := 0)
    case Cancelled => a.(armed := false, budget := 0)
  }

  function AdvanceAll(l: Ledger, events: seq<Event>): Ledger
    decreases |events|
  {
    if |events| == 0 then l else AdvanceAll(Advance(l, events[0]), events[1..])
  }

  lemma {:induction false} AdvanceConcat(l: Ledger, a: seq<Event>, b: seq<Event>)
    ensures AdvanceAll(l, a + b) == AdvanceAll(AdvanceAll(l, a), b)
    decreases |a|
  {
    if a == [] {
      assert a + b == b;
    } else {
      AdvanceConcat(Advance(l, a[0]), a[1..], b);
      assert (a + b)[0] == a[0] && (a + b)[1..] == a[1..] + b;
    }
  }

  lemma AdvanceOne(l: Ledger, a: seq<Event>, e: Event)
    ensures AdvanceAll(l, a + [e]) == Advance(AdvanceAll(l, a), e)
  {
    AdvanceConcat(l, a, [e]);
    assert AdvanceAll(AdvanceAll(l, a), [e]) == AdvanceAll(Advance(AdvanceAll(l, a), e), []);
  }

  /** The ledger of a whole history. */
  function Replay(log: seq<Event>): Ledger { AdvanceAll(OPENING, log) }

  function Creates(log: seq<Event>): nat
    decreases |log|
  {
    if |log| == 0 then 0 else (if log[0].Created? then 1 else 0) + Creates(log[1..])
  }

  function Enables(log: seq<Event>): nat
    decreases |log|
  {
    if |log| == 0 then 0 else (if log[0].Taken? && log[0].request.command == Enable then 1 else 0) + Enables(log[1..])
  }

  lemma {:induction false} LegalBefore(l: Ledger, events: seq<Event>)
    requires AdvanceAll(l, events).legal
    ensures l.legal
    decreases |events|
  {
    if |events| > 0 { LegalBefore(Advance(l, events[0]), events[1..]); }
  }

  /** In an allowed history every taken enable pays for at most two creations. */
  lemma {:induction false} CreatesBounded(l: Ledger, events: seq<Event>)
    requires AdvanceAll(l, events).legal
    ensures Creates(events) <= l.budget + (if l.armed then 2 else 0) + 2 * Enables(events)
    decreases |events|
  {
    if |events| > 0 {
      CreatesBounded(Advance(l, events[0]), events[1..]);
      LegalBefore(Advance(l, events[0]), events[1..]);
    }
  }

  /** The controller's fields agree with the ledger of everything it asked of the engine. */
  ghost predicate Tied(c: Core, l: Ledger) {
    && l.legal && Entries(c.owner, c.ids) == l.entries
    && (c.owner == NO_MANAGER <==> !Owns(c)) && (Owns(c) ==> ValidManager(c.owner))
    && (BothOwned(c) ==> c.ids[0] != c.ids[1])
    && c.desiredKeys == l.wanted.keys && c.desiredIndependent == l.wanted.independent
    && (c.creationPending ==> l.armed) && Orderly(c)
  }

  /** A waiting enable is not yet failed; an active pair that no request contradicts is the wanted one. */
  predicate Orderly(c: Core) {
    && (c.creationPending ==> c.desiredEnabled && c.failure == NoFailure)
    && (c.activePair ==> BothOwned(c))
    && (c.activePair && c.desiredEnabled && !c.creationPending ==> Wanted(c))
  }

  lemma TakeKeeps(c: Core, l: Ledger, request: Request)
    requires Tied(c, l)
    ensures Tied(Take(c, request), AdvanceAll(l, [Taken(request)]))
  {
    hide AdvanceAll;
    AdvanceNothing(l);
    AdvanceOne(l, [], Taken(request));
    assert [] + [Taken(request)] == [Taken(request)];
  }

  lemma DoneKeeps(c: Core, l: Ledger, events: seq<Event>, state: State, blocked: BlockReason)
    requires Tied(c, AdvanceAll(l, events))
    requires state == Active ==> BothOwned(c)
    requires state == Disabled ==> !Owns(c)
    ensures Tied(Done(c, state, blocked, events).core, AdvanceAll(l, Done(c, state, blocked, events).events))
  {
    AdvanceOne(l, events, Shown(Show(c, state, blocked)));
  }

  /** What the erasures leave in the ledger. */
  lemma ErasuresAdvance(c: Core, l: Ledger, confirmed: Confirmed, events: seq<Event>)
    requires Tied(c, AdvanceAll(l, events)) && Owns(c)
    ensures AdvanceAll(l, events + Erasures(c, confirmed)) ==
            AdvanceAll(l, events).(entries := Entries(c.owner, Cleaned(c, confirmed).ids), budget := 0)
  {
    hide AdvanceAll;
    var second, first := Erased(c.owner, c.ids[1], confirmed[1]), Erased(c.owner, c.ids[0], confirmed[0]);
    if c.ids[1] == 0 {
      AdvanceOne(l, events, first);
      assert Erasures(c, confirmed) == [first];
    } else if c.ids[0] == 0 {
      AdvanceOne(l, events, second);
      assert Erasures(c, confirmed) == [second];
    } else {
      AdvanceOne(l, events, second);
      AdvanceOne(l, events + [second], first);
      assert events + Erasures(c, confirmed) == events + [second] + [first];
    }
  }

  lemma CleanKeeps(c: Core, l: Ledger, confirmed: Confirmed, events: seq<Event>)
    requires Tied(c, AdvanceAll(l, events)) && Owns(c)
    ensures Tied(Cleaned(c, confirmed), AdvanceAll(l, events + Erasures(c, confirmed)))
  {
    hide AdvanceAll, Erasures;
    ErasuresAdvance(c, l, confirmed, events);
  }

  lemma GiveUpKeeps(c: Core, l: Ledger, failure: Failure, undo: Confirmed, events: seq<Event>)
    requires Tied(c, AdvanceAll(l, events)) && !c.creationPending
    ensures Tied(GiveUp(c, failure, undo, events).core, AdvanceAll(l, GiveUp(c, failure, undo, events).events))
  {
    hide Advance, AdvanceAll, Cleaned, Erasures;
    var f := c.(failure := failure);
    if Owns(f) {
      CleanKeeps(f, l, undo, events);
      var cleaned := Cleaned(f, undo);
      DoneKeeps(cleaned, l, events + Erasures(f, undo), if Owns(cleaned) then CleanupPending else Failed, NotBlocked);
    } else {
      DoneKeeps(f, l, events, Failed, NotBlocked);
    }
  }

  /** A prepared descriptor carries the wanted key in the wanted mode. */
  lemma PrepareCarries(c: Core, key: PoseKey, init: Init)
    requires Prepare(c, key, init).Ready?
    ensures if c.desiredIndependent then Carries(Prepare(c, key, init).packed, 2, ZeroKey())
            else Carries(Prepare(c, key, init).packed, 0, key)
  {
    PackedCarries(init.bytes, 2, ZeroKey());
    PackedCarries(init.bytes, 0, key);
  }

  /** An enable was consumed and nothing failed yet. */
  predicate Making(c: Core) { c.desiredEnabled && !c.creationPending && !c.activePair && c.failure == NoFailure }

  lemma SecondKeeps(c: Core, l: Ledger, manager: ManagerToken, r: Replies, events: seq<Event>)
    requires Tied(c, AdvanceAll(l, events)) && manager == c.owner && Making(c)
    requires c.ids[0] != 0 && c.ids[1] == 0 && AdvanceAll(l, events).budget == 1
    ensures Tied(MakeSecond(c, manager, r, events).core, AdvanceAll(l, MakeSecond(c, manager, r, events).events))
  {
    hide AdvanceAll, GiveUp, Carries, PackedAs, NamesEmpty, Cleaned, Erasures;
    var begun := events + [Initialized(r.init1)];
    AdvanceOne(l, events, Initialized(r.init1));
    match Prepare(c, c.desiredKeys.second, r.init1)
    case NotReady(failure) => GiveUpKeeps(c, l, failure, r.undo, begun);
    case Ready(packed) =>
      PrepareCarries(c, c.desiredKeys.second, r.init1);
      AdvanceOne(l, begun, Created(manager, packed, r.id1));
      var made := begun + [Created(manager, packed, r.id1)];
      if r.id1 == 0 {
        GiveUpKeeps(c, l, SecondCreateFailed, r.undo, made);
      } else if r.id1 == c.ids[0] {
        GiveUpKeeps(c, l, DuplicateId, r.undo, made);
      } else {
        var pair := c.(ids := [c.ids[0], r.id1], ownedKeys := c.desiredKeys, ownedIndependent := c.desiredIndependent, activePair := true);
        DoneKeeps(pair, l, made, Active, NotBlocked);
      }
  }

  lemma PairKeeps(c: Core, l: Ledger, manager: ManagerToken, r: Replies, events: seq<Event>)
    requires Tied(c, AdvanceAll(l, events)) && ValidManager(manager)
    requires !Owns(c) && AdvanceAll(l, events).budget == 2 && Making(c)
    ensures Tied(MakePair(c, manager, r, events).core, AdvanceAll(l, MakePair(c, manager, r, events).events))
  {
    hide AdvanceAll, GiveUp, Carries, PackedAs, NamesEmpty, MakeSecond;
    var begun := events + [Initialized(r.init0)];
    AdvanceOne(l, events, Initialized(r.init0));
    match Prepare(c, c.desiredKeys.first, r.init0)
    case NotReady(failure) => GiveUpKeeps(c, l, failure, r.undo, begun);
    case Ready(packed) =>
      PrepareCarries(c, c.desiredKeys.first, r.init0);
      AdvanceOne(l, begun, Created(manager, packed, r.id0));
      var made := begun + [Created(manager, packed, r.id0)];
      if r.id0 == 0 {
        GiveUpKeeps(c, l, FirstCreateFailed, r.undo, made);
      } else {
        SecondKeeps(c.(owner := manager, ids := [r.id0, c.ids[1]]), l, manager, r, made);
      }
  }

  lemma RunKeeps(t: Core, l: Ledger, manager: ManagerToken, r: Replies, taken: seq<Event>)
    requires Tied(t, AdvanceAll(l, taken)) && ValidManager(manager)
    ensures Tied(Run(t, manager, r, taken).core, AdvanceAll(l, Run(t, manager, r, taken).events))
  {
    hide AdvanceAll, GiveUp, MakePair, Cleaned, Erasures;
    var c := if Owns(t) then Cleaned(t, r.erase) else t;
    var events := if Owns(t) then taken + Erasures(t, r.erase) else taken;
    if Owns(t) { CleanKeeps(t, l, r.erase, taken); }
    if Owns(c) {
      DoneKeeps(c, l, events, CleanupPending, NotBlocked);
    } else if !c.desiredEnabled || !c.creationPending {
      DoneKeeps(c, l, events, Idle(c), NotBlocked);
    } else {
      AdvanceOne(l, events, Consumed);
      PairKeeps(c.(creationPending := false), l, manager, r, events + [Consumed]);
    }
  }

  /** Whatever the engine replies, an update leaves the fields tied to the ledger: entries created and
      not confirmed erased are exactly the nonzero IDs, and every engine call was allowed. */
  lemma UpdateKeeps(c: Core, l: Ledger, request: Request, manager: ManagerToken, engine: EngineCallbacks, r: Replies)
    requires Tied(c, l)
    ensures Tied(Update(c, request, manager, engine, r).core, AdvanceAll(l, Update(c, request, manager, engine, r).events))
  {
    hide AdvanceAll, Take, Run;
    TakeKeeps(c, l, request);
    var t := Take(c, request);
    match PlanFor(t, manager, engine)
    case Report(state, blocked) => DoneKeeps(t, l, [Taken(request)], state, blocked);
    case Proceed => RunKeeps(t, l, manager, r, [Taken(request)]);
  }

  // ----- whole runs -----

  /** One operation between callbacks; a posted request may come from any thread or from inside a callback. */
  datatype Op =
    | Post(request: Request)
    | UpdateOp(manager: ManagerToken, engine: EngineCallbacks, replies: Replies, posted: Request)
    | CancelOp
    | DestroyedOp(manager: ManagerToken)

  datatype RunState = RunState(core: Core, mailbox: Request, published: Snapshot, log: seq<Event>)

  const OPEN_RUN: RunState := RunState(START, NO_REQUEST, EMPTY_SNAPSHOT, [])

  function After(s: RunState, op: Op): RunState
  {
    match op
    case Post(request) => s.(mailbox := request)
    case UpdateOp(manager, engine, replies, posted) =>
      var u := Update(s.core, s.mailbox, manager, engine, replies);
      RunState(u.core, posted, u.published, s.log + u.events)
    case CancelOp =>
      if Owns(s.core) || s.core.owner != NO_MANAGER then s
      else RunState(Cancel(s.core), NO_REQUEST, EMPTY_SNAPSHOT, s.log + [Cancelled])
    case DestroyedOp(manager) =>
      if !Owns(s.core) || manager != s.core.owner then s
      else
        var f := Forget(s.core);
        RunState(f, NO_REQUEST, Show(f, Failed, NotBlocked), s.log + [Destroyed(manager), Shown(Show(f, Failed, NotBlocked))])
  }

  /** Published ownership is the real ownership whenever no operation is in progress. */
  ghost predicate Faithful(c: Core, published: Snapshot) {
    published.owner == c.owner && published.ids == c.ids && published.failure == c.failure &&
    published.creationPending == c.creationPending && (published.state == Active ==> Settled(c))
  }

  ghost predicate RunInv(s: RunState) {
    Tied(s.core, Replay(s.log)) && Faithful(s.core, s.published)
  }

  lemma GiveUpShows(c: Core, failure: Failure, undo: Confirmed, events: seq<Event>)
    ensures Faithful(GiveUp(c, failure, undo, events).core, GiveUp(c, failure, undo, events).published)
  {
    hide Erasures, Cleaned;
  }

  lemma PairShows(c: Core, manager: ManagerToken, r: Replies, events: seq<Event>)
    requires Making(c) && !Owns(c)
    ensures Faithful(MakePair(c, manager, r, events).core, MakePair(c, manager, r, events).published)
  {
    hide GiveUp, Prepare, MakeSecond;
    match Prepare(c, c.desiredKeys.first, r.init0)
    case NotReady(failure) => GiveUpShows(c, failure, r.undo, events + [Initialized(r.init0)]);
    case Ready(packed) =>
      var made := events + [Initialized(r.init0)] + [Created(manager, packed, r.id0)];
      if r.id0 == 0 { GiveUpShows(c, FirstCreateFailed, r.undo, made); }
      else { SecondShows(c.(owner := manager, ids := [r.id0, c.ids[1]]), manager, r, made); }
  }

  lemma SecondShows(c: Core, manager: ManagerToken, r: Replies, events: seq<Event>)
    requires Making(c) && c.ids[0] != 0
    ensures Faithful(MakeSecond(c, manager, r, events).core, MakeSecond(c, manager, r, events).published)
  {
    hide GiveUp, Prepare;
    match Prepare(c, c.desiredKeys.second, r.init1)
    case NotReady(failure) => GiveUpShows(c, failure, r.undo, events + [Initialized(r.init1)]);
    case Ready(packed) =>
      var made := events + [Initialized(r.init1)] + [Created(manager, packed, r.id1)];
      GiveUpShows(c, SecondCreateFailed, r.undo, made);
      GiveUpShows(c, DuplicateId, r.undo, made);
  }

  lemma UpdateShows(c: Core, request: Request, manager: ManagerToken, engine: EngineCallbacks, r: Replies)
    requires Orderly(c)
    ensures Faithful(Update(c, request, manager, engine, r).core, Update(c, request, manager, engine, r).published)
  {
    hide Take, Run;
    TakeOrderly(c, request);
    RunShows(Take(c, request), manager, r, [Taken(request)]);
  }

  lemma RunShows(t: Core, manager: ManagerToken, r: Replies, taken: seq<Event>)
    requires Orderly(t)
    ensures Faithful(Run(t, manager, r, taken).core, Run(t, manager, r, taken).published)
  {
    hide Erasures, MakePair;
    var c := if Owns(t) then Cleaned(t, r.erase) else t;
    var events := if Owns(t) then taken + Erasures(t, r.erase) else taken;
    if !Owns(c) && c.desiredEnabled && c.creationPending {
      PairShows(c.(creationPending := false), manager, r, events + [Consumed]);
    }
  }

  lemma TakeOrderly(c: Core, request: Request)
    requires Orderly(c)
    ensures Orderly(Take(c, request))
  {
  }

  lemma AfterKeeps(s: RunState, op: Op)
    requires RunInv(s)
    ensures RunInv(After(s, op))
  {
    hide Update, AdvanceAll;
    var l := Replay(s.log);
    match op
    case Post(_) =>
    case UpdateOp(manager, engine, replies, posted) =>
      var u := Update(s.core, s.mailbox, manager, engine, replies);
      UpdateKeeps(s.core, l, s.mailbox, manager, engine, replies);
      UpdateShows(s.core, s.mailbox, manager, engine, replies);
      AdvanceConcat(OPENING, s.log, u.events);
    case CancelOp =>
      AdvanceOne(OPENING, s.log, Cancelled);
    case DestroyedOp(manager) =>
      if Owns(s.core) && manager == s.core.owner {
        ForgetKeeps(s.core, l);
        AdvanceConcat(OPENING, s.log, [Destroyed(manager), Shown(Show(Forget(s.core), Failed, NotBlocked))]);
      }
  }

  lemma ForgetKeeps(c: Core, l: Ledger)
    requires Tied(c, l) && Owns(c)
    ensures Tied(Forget(c), AdvanceAll(l, [Destroyed(c.owner), Shown(Show(Forget(c), Failed, NotBlocked))]))
  {
    hide AdvanceAll;
    AdvanceOne(l, [], Destroyed(c.owner));
    assert [] + [Destroyed(c.owner)] == [Destroyed(c.owner)];
    AdvanceNothing(l);
    AdvanceOne(l, [Destroyed(c.owner)], Shown(Show(Forget(c), Failed, NotBlocked)));
    assert [Destroyed(c.owner)] + [Shown(Show(Forget(c), Failed, NotBlocked))] ==
           [Destroyed(c.owner), Shown(Show(Forget(c), Failed, NotBlocked))];
  }

  lemma AdvanceNothing(l: Ledger)
    ensures AdvanceAll(l, []) == l
  {
  }

  function AfterAll(s: RunState, ops: seq<Op>): RunState
    decreases |ops|
  {
    if |ops| == 0 then s else AfterAll(After(s, ops[0]), ops[1..])
  }

  lemma {:induction false} RunKeepsInv(s: RunState, ops: seq<Op>)
    requires RunInv(s)
    ensures RunInv(AfterAll(s, ops))
    decreases |ops|
  {
    hide RunInv, After;
    if |ops| > 0 {
      AfterKeeps(s, ops[0]);
      RunKeepsInv(After(s, ops[0]), ops[1..]);
    }
  }

  /** Ownership conservation over every run, whatever the engine replies and whenever requests are posted:
      entries created and not confirmed erased are exactly the held IDs under the owner, every engine
      call was allowed, and creations never exceed two per taken enable. */
  lemma Conservation(ops: seq<Op>)
    ensures RunInv(AfterAll(OPEN_RUN, ops))
    ensures var s := AfterAll(OPEN_RUN, ops);
            && Replay(s.log).legal && Replay(s.log).entries == Entries(s.core.owner, s.core.ids)
            && Creates(s.log) <= 2 * Enables(s.log)
  {
    hide AfterAll, AdvanceAll;
    OpeningHolds();
    RunKeepsInv(OPEN_RUN, ops);
    CreatesBounded(OPENING, AfterAll(OPEN_RUN, ops).log);
  }

  /** A disable whose erasures are confirmed leaves nothing owned and the pair disabled. */
  lemma DisableEmpties(c: Core, r: Replies, engine: EngineCallbacks)
    requires Owns(c) ==> ValidManager(c.owner)
    requires engine == EngineCallbacks(true, true, true) && r.erase == [true, true]
    ensures var u := Update(c, Request(Disable, NO_KEYS, false), c.owner, engine, r);
            !Owns(u.core) && (Owns(c) ==> u.core.owner == NO_MANAGER) && u.published.state == Disabled && !u.core.creationPending
  {
    hide Erasures;
  }

  /** An enable served by a cooperating engine publishes an active pair holding both new IDs. */
  lemma EnableActivates(c: Core, request: Request, manager: ManagerToken, engine: EngineCallbacks, r: Replies)
    requires !Owns(c) && !c.activePair && request.command == Enable && ValidManager(manager) && engine == EngineCallbacks(true, true, true)
    requires r.init0.ok && NamesEmpty(r.init0.bytes) && r.init1.ok && NamesEmpty(r.init1.bytes)
    requires r.id0 != 0 && r.id1 != 0 && r.id0 != r.id1
    ensures var u := Update(c, request, manager, engine, r);
            u.published.state == Active && u.core.owner == manager && u.core.ids == [r.id0, r.id1] && u.core.ownedKeys == request.keys
  {
    hide PackedAs, NamesEmpty;
  }

  /** A failed creation is never repeated by later updates that take no new request. */
  lemma FailureSticks(c: Core, manager: ManagerToken, engine: EngineCallbacks, r: Replies)
    requires !c.creationPending
    ensures var u := Update(c, NO_REQUEST, manager, engine, r);
            !u.core.creationPending && u.core.failure == c.failure && Creates(u.events) == 0
  {
    hide MakePair;
    CreatesErasures(c, r.erase);
  }

  lemma CreatesErasures(c: Core, confirmed: Confirmed)
    ensures forall s: Snapshot :: Creates([Taken(NO_REQUEST)] + Erasures(c, confirmed) + [Shown(s)]) == 0
    ensures forall s: Snapshot :: Creates([Taken(NO_REQUEST)] + [Shown(s)]) == 0
  {
    forall s: Snapshot
      ensures Creates([Taken(NO_REQUEST)] + Erasures(c, confirmed) + [Shown(s)]) == 0 && Creates([Taken(NO_REQUEST)] + [Shown(s)]) == 0
    {
      NoCreates([Taken(NO_REQUEST)] + Erasures(c, confirmed) + [Shown(s)]);
      NoCreates([Taken(NO_REQUEST)] + [Shown(s)]);
    }
  }

  lemma {:induction false} NoCreates(log: seq<Event>)
    requires forall k | 0 <= k < |log| :: !log[k].Created?
    ensures Creates(log) == 0
    decreases |log|
  {
    if |log| > 0 { NoCreates(log[1..]); }
  }

  lemma OpeningHolds()
    ensures RunInv(OPEN_RUN)
  {
  }
}
