/** The controller that owns the two native camera entries. Engine callbacks are adversarial: they return
    anything and may call back into the controller, where requests are accepted and everything else is
    refused by the processing flag. */
module PairController {
  import opened PairModel
  import opened LoadedImage

  class Controller {
    var mailbox: Request
    var published: Snapshot
    var processing: bool

    /** The private fields, which only the holder of `processing` touches. */
    var core: Core

    /** Every taken request, engine call, publication and lifetime event so far. */
    ghost var log: seq<Event>

    ghost function Whole(): RunState
      reads this`core, this`mailbox, this`published, this`log
    {
      RunState(core, mailbox, published, log)
    }

    constructor ()
      ensures Whole() == OPEN_RUN && !processing
    {
      mailbox, published, processing, core, log := NO_REQUEST, EMPTY_SNAPSHOT, false, START, [];
    }

    // ----- requests -----

    method RequestEnable(keys: PairKeys)
      modifies this`mailbox
      ensures mailbox == Request(Enable, keys, false)
    {
      mailbox := Request(Enable, keys, false);
    }

    method RequestIndependentPose()
      modifies this`mailbox
      ensures mailbox == Request(Enable, NO_KEYS, true)
    {
      mailbox := Request(Enable, NO_KEYS, true);
    }

    method RequestDisable()
      modifies this`mailbox
      ensures mailbox == Request(Disable, NO_KEYS, false)
    {
      mailbox := Request(Disable, NO_KEYS, false);
    }

    method GetSnapshot() returns (r: Snapshot)
      ensures r == published.(requestPending := mailbox.command != NoCommand)
    {
      r := published;
      r := r.(requestPending := mailbox.command != NoCommand);
    }

    // ----- engine callbacks -----

    /** Whatever a callback does to the controller: any number of requests, and refused updates,
        cancellations and lifetime events. */
    method Reenter()
      requires processing
      modifies this
      ensures processing && Whole() == old(Whole()).(mailbox := mailbox)
      decreases 1
    {
      var calls: int := *;
      calls := if calls < 0 then 0 else calls;
      for n := 0 to calls
        invariant processing && Whole() == old(Whole()).(mailbox := mailbox)
      {
        var choice: nat, keys: PairKeys, manager: ManagerToken, engine: EngineCallbacks := *, *, *, *;
        if choice == 0 {
          RequestEnable(keys);
        } else if choice == 1 {
          RequestIndependentPose();
        } else if choice == 2 {
          RequestDisable();
        } else if choice == 3 {
          var ran, replies := ProcessUpdate(manager, engine);
        } else if choice == 4 {
          var cancelled := CancelUncreatedRequest();
        } else {
          var acknowledged := AcknowledgeManagerDestroyed(manager);
        }
      }
    }

    method Initialize(descriptor: array<byte>) returns (ok: bool)
      requires processing && descriptor.Length == 256
      modifies this, descriptor
      ensures processing && Whole() == old(Whole()).(mailbox := mailbox, log := old(log) + [Initialized(Init(ok, descriptor[..]))])
      decreases 2
    {
      Reenter();
      modify descriptor;
      ok := *;
      log := log + [Initialized(Init(ok, descriptor[..]))];
    }

    method Create(manager: ManagerToken, descriptor: array<byte>) returns (id: EntryId)
      requires processing && descriptor.Length == 256
      modifies this
      ensures processing && Whole() == old(Whole()).(mailbox := mailbox, log := old(log) + [Created(manager, descriptor[..], id)])
      decreases 2
    {
      Reenter();
      id := *;
      log := log + [Created(manager, descriptor[..], id)];
    }

    method Erase(manager: ManagerToken, id: EntryId) returns (confirmed: bool)
      requires processing
      modifies this
      ensures processing && Whole() == old(Whole()).(mailbox := mailbox, log := old(log) + [Erased(manager, id, confirmed)])
      decreases 2
    {
      Reenter();
      confirmed := *;
      log := log + [Erased(manager, id, confirmed)];
    }

    // ----- descriptors -----

    static method ZeroDword(descriptor: array<byte>, offset: nat) returns (zero: bool)
      requires offset + 4 <= descriptor.Length
      ensures zero <==> descriptor[offset..offset + 4] == [0, 0, 0, 0]
    {
      zero := descriptor[offset] == 0 && descriptor[offset + 1] == 0 && descriptor[offset + 2] == 0 && descriptor[offset + 3] == 0;
    }

    static method PackModeZero(descriptor: array<byte>, key: PoseKey) returns (ok: bool)
      requires descriptor.Length == 256
      modifies descriptor
      ensures ok <==> NamesEmpty(old(descriptor[..]))
      ensures descriptor[..] == if ok then PackedAs(old(descriptor[..]), 0, key) else old(descriptor[..])
    {
      var first := ZeroDword(descriptor, 32);
      var second := ZeroDword(descriptor, 192);
      if descriptor[0] != 0 || !first || descriptor[64] != 0 || !second {
        return false;
      }
      ghost var was := descriptor[..];
      forall i | 40 <= i < 44 { descriptor[i] := 0; }
      descriptor[44] := 1;
      forall i | 48 <= i < 64 { descriptor[i] := key[i - 48]; }
      assert descriptor[..] == PackedAs(was, 0, key);
      ok := true;
    }

    static method PackIndependentPose(descriptor: array<byte>) returns (ok: bool)
      requires descriptor.Length == 256
      modifies descriptor
      ensures ok <==> NamesEmpty(old(descriptor[..]))
      ensures descriptor[..] == if ok then PackedAs(old(descriptor[..]), 2, ZeroKey()) else old(descriptor[..])
    {
      ok := PackModeZero(descriptor, ZeroKey());
      if ok {
        ghost var was := descriptor[..];
        descriptor[40] := 2;
        assert descriptor[..] == was[40 := 2];
      }
    }

    // ----- update steps -----

    method Publish(state: State, blocked: BlockReason)
      modifies this`published, this`log
      ensures published == Show(core, state, blocked) && log == old(log) + [Shown(published)]
    {
      published := Snapshot(state, core.failure, blocked, core.owner, core.ids, false, core.creationPending);
      log := log + [Shown(published)];
    }

    /** Asks the engine to erase one held ID and drops it only on confirmation. */
    method EraseHeld(index: nat) returns (ghost gone: bool)
      requires processing && index < 2
      modifies this
      ensures processing && published == old(published)
      ensures core == old(core).(ids := if gone then old(core.ids)[index := 0] else old(core.ids))
      ensures log == old(log) + if old(core.ids)[index] != 0 then [Erased(old(core.owner), old(core.ids)[index], gone)] else []
      decreases 3
    {
      gone := false;
      var id := core.ids[index];
      if id != 0 {
        var confirmed := Erase(core.owner, id);
        gone := confirmed;
        if confirmed { core := core.(ids := core.ids[index := 0]); }
      }
    }

    method Cleanup() returns (ghost confirmed: Confirmed)
      requires processing && Owns(core)
      modifies this
      ensures processing && published == old(published)
      ensures core == Cleaned(old(core), confirmed) && log == old(log) + Erasures(old(core), confirmed)
      decreases 4
    {
      ghost var was, before := core, log;
      core := core.(activePair := false);
      confirmed := [false, false];
      var index := 2;
      while index != 0
        invariant 0 <= index <= 2 && processing && published == old(published)
        invariant index == 2 ==> log == before && core.ids == was.ids
        invariant index == 1 ==> log == before + SecondErasure(was, confirmed[1]) && core.ids == [was.ids[0], if confirmed[1] then 0 else was.ids[1]]
        invariant index == 0 ==> log == before + Erasures(was, confirmed) &&
                                 core.ids == [if confirmed[0] then 0 else was.ids[0], if confirmed[1] then 0 else was.ids[1]]
        invariant core == was.(activePair := false, ids := core.ids)
        decreases index
      {
        ghost var gone := EraseHeld(index - 1);
        confirmed := confirmed[index - 1 := gone];
        index := index - 1;
      }
      if core.ids[0] == 0 && core.ids[1] == 0 { core := core.(owner := NO_MANAGER); }
    }

    static ghost function SecondErasure(c: Core, confirmed: bool): seq<Event> {
      if c.ids[1] != 0 then [Erased(c.owner, c.ids[1], confirmed)] else []
    }

    method PrepareDescriptor(descriptor: array<byte>, key: PoseKey) returns (ok: bool, ghost init: Init)
      requires processing && descriptor.Length == 256
      modifies this, descriptor
      ensures processing && Prepare(old(core), key, init) == if ok then Ready(descriptor[..]) else NotReady(core.failure)
      ensures Whole() == old(Whole()).(mailbox := mailbox, core := old(core).(failure := core.failure), log := old(log) + [Initialized(init)])
      ensures ok ==> core.failure == old(core.failure)
      decreases 3
    {
      ok := Initialize(descriptor);
      init := Init(ok, descriptor[..]);
      if !ok {
        core := core.(failure := InitializerFailed);
        return;
      }
      if core.desiredIndependent { ok := PackIndependentPose(descriptor); } else { ok := PackModeZero(descriptor, key); }
      if !ok { core := core.(failure := InitializerContract); }
    }

    static lemma GiveUpAgain(c: Core, failure: Failure, undo: Confirmed, events: seq<Event>)
      ensures GiveUp(c.(failure := failure), failure, undo, events) == GiveUp(c, failure, undo, events)
    {
    }

    static lemma SecondIgnores(c: Core, manager: ManagerToken, r: Replies, init: Init, id: EntryId, events: seq<Event>)
      ensures MakeSecond(c, manager, r.(init0 := init, id0 := id), events) == MakeSecond(c, manager, r, events)
    {
    }

    static lemma PairIgnores(c: Core, manager: ManagerToken, r: Replies, erase: Confirmed, events: seq<Event>)
      ensures MakePair(c, manager, r.(erase := erase), events) == MakePair(c, manager, r, events)
    {
      hide GiveUp;
    }

    /** Records why, erases what this attempt created, and publishes. `events` is what this update logged since `before`. */
    method CreationFailed(reason: Failure, ghost before: seq<Event>, ghost events: seq<Event>) returns (ghost undo: Confirmed)
      requires processing && log == before + events
      modifies this
      ensures processing && Ended(GiveUp(old(core), reason, undo, events), before)
      decreases 5
    {
      hide Cleaned, Erasures;
      core := core.(failure := reason);
      undo := [false, false];
      if Owns(core) { undo := Cleanup(); }
      Publish(if Owns(core) then CleanupPending else Failed, NotBlocked);
      assert log == before + GiveUp(old(core), reason, undo, events).events;
    }

    ghost predicate Ended(r: Result, before: seq<Event>)
      reads this
    {
      core == r.core && published == r.published && log == before + r.events
    }

    static lemma SecondRefused(c: Core, manager: ManagerToken, r: Replies, events: seq<Event>)
      requires Prepare(c, c.desiredKeys.second, r.init1).NotReady?
      ensures MakeSecond(c, manager, r, events) ==
              GiveUp(c, Prepare(c, c.desiredKeys.second, r.init1).failure, r.undo, events + [Initialized(r.init1)])
    {
      hide GiveUp, Prepare;
    }

    static lemma SecondMade(c: Core, manager: ManagerToken, r: Replies, events: seq<Event>)
      requires Prepare(c, c.desiredKeys.second, r.init1).Ready?
      ensures var made := events + [Initialized(r.init1)] + [Created(manager, Prepare(c, c.desiredKeys.second, r.init1).packed, r.id1)];
              MakeSecond(c, manager, r, events) ==
              if r.id1 == 0 then GiveUp(c, SecondCreateFailed, r.undo, made)
              else if r.id1 == c.ids[0] then GiveUp(c, DuplicateId, r.undo, made)
              else Done(Paired(c, r.id1), Active, NotBlocked, made)
    {
      hide GiveUp, Prepare;
    }

    static function Paired(c: Core, id: EntryId): Core {
      c.(ids := [c.ids[0], id], ownedKeys := c.desiredKeys, ownedIndependent := c.desiredIndependent, activePair := true)
    }

    /** The second entry of a pair whose first exists. */
    method CreateSecond(manager: ManagerToken, ghost before: seq<Event>, ghost events: seq<Event>) returns (ghost r: Replies)
      requires processing && log == before + events
      modifies this
      ensures processing && Ended(MakeSecond(old(core), manager, r, events), before)
      decreases 6
    {
      hide GiveUp, Prepare, Silence, MakeSecond;
      r := Silence();
      ghost var was := core;
      var second := new byte[256];
      var ok;
      ghost var init, undo;
      ok, init := PrepareDescriptor(second, core.desiredKeys.second);
      r := r.(init1 := init);
      ghost var begun := events + [Initialized(init)];
      assert log == before + begun;
      if !ok {
        ghost var reason := core.failure;
        undo := CreationFailed(core.failure, before, begun);
        r := r.(undo := undo);
        GiveUpAgain(was, reason, undo, begun);
        SecondRefused(was, manager, r, events);
        return;
      }
      var id := Create(manager, second);
      r := r.(id1 := id);
      ghost var made := begun + [Created(manager, second[..], id)];
      assert log == before + made;
      if id == 0 || id == core.ids[0] {
        undo := CreationFailed(if id == 0 then SecondCreateFailed else DuplicateId, before, made);
        r := r.(undo := undo);
        SecondMade(was, manager, r, events);
        return;
      }
      core := core.(ids := core.ids[1 := id], ownedKeys := core.desiredKeys, ownedIndependent := core.desiredIndependent,
                    activePair := true);
      Publish(Active, NotBlocked);
      SecondMade(was, manager, r, events);
      assert core == Paired(was, id);
    }

    /** Both entries, first then second, after the request was consumed. */
    method CreatePair(manager: ManagerToken, ghost before: seq<Event>, ghost events: seq<Event>) returns (ghost r: Replies)
      requires processing && log == before + events
      modifies this
      ensures processing && Ended(MakePair(old(core), manager, r, events), before)
      decreases 7
    {
      hide GiveUp, Prepare, MakeSecond, Silence;
      r := Silence();
      var first := new byte[256];
      var ok;
      ghost var init, undo;
      ok, init := PrepareDescriptor(first, core.desiredKeys.first);
      ghost var begun := events + [Initialized(init)];
      assert log == before + begun;
      if !ok {
        ghost var reason := core.failure;
        undo := CreationFailed(core.failure, before, begun);
        r := r.(init0 := init, undo := undo);
        GiveUpAgain(old(core), reason, undo, begun);
        return;
      }
      var id := Create(manager, first);
      ghost var made := begun + [Created(manager, first[..], id)];
      assert log == before + made;
      if id == 0 {
        undo := CreationFailed(FirstCreateFailed, before, made);
        r := r.(init0 := init, id0 := id, undo := undo);
        return;
      }
      core := core.(owner := manager, ids := core.ids[0 := id]);
      ghost var one := core;
      assert one.ids == [id, old(core.ids)[1]];
      r := CreateSecond(manager, before, made);
      SecondIgnores(one, manager, r, init, id, made);
      r := r.(init0 := init, id0 := id);
    }

    /** Cleans up what is owned, then consumes a pending request. */
    method Proceed(manager: ManagerToken, ghost before: seq<Event>, ghost taken: seq<Event>) returns (ghost r: Replies)
      requires processing && log == before + taken
      modifies this
      ensures processing && Ended(Run(old(core), manager, r, taken), before)
      decreases 8
    {
      hide MakePair, Cleaned, Erasures, Silence;
      ghost var erase: Confirmed := [false, false];
      ghost var events := taken;
      r := Silence().(erase := erase);
      if Owns(core) {
        erase := Cleanup();
        events := taken + Erasures(old(core), erase);
        r := r.(erase := erase);
        assert log == before + events;
        if Owns(core) {
          Publish(CleanupPending, NotBlocked);
          return;
        }
      }
      if !core.desiredEnabled || !core.creationPending {
        Publish(if core.failure == NoFailure then Disabled else PairModel.Failed, NotBlocked);
        return;
      }
      core := core.(creationPending := false);
      log := log + [Consumed];
      assert log == before + (events + [Consumed]);
      ghost var consumed := core;
      r := CreatePair(manager, before, events + [Consumed]);
      PairIgnores(consumed, manager, r, erase, events + [Consumed]);
      r := r.(erase := erase);
    }

    /** Empties the mailbox into the desired state. */
    method TakeMailbox() returns (request: Request)
      modifies this`mailbox, this`core, this`log
      ensures request == old(mailbox) && mailbox == NO_REQUEST
      ensures core == Take(old(core), request) && log == old(log) + [Taken(request)]
    {
      request := mailbox;
      mailbox := NO_REQUEST;
      log := log + [Taken(request)];
      if request.command == Enable {
        core := core.(desiredKeys := request.keys, desiredIndependent := request.independent, desiredEnabled := true,
                      creationPending := true, failure := NoFailure);
        if core.activePair && BothOwned(core) && core.ownedKeys == core.desiredKeys &&
           core.ownedIndependent == core.desiredIndependent
        {
          core := core.(creationPending := false);
        }
      } else if request.command == Disable {
        core := core.(desiredEnabled := false, creationPending := false, failure := NoFailure);
      }
    }

    /** One observer update. For some engine replies it does exactly what the specification says for them;
        while another operation holds the processing flag it does nothing. */
    method ProcessUpdate(manager: ManagerToken, engine: EngineCallbacks) returns (ran: bool, ghost r: Replies)
      modifies this
      ensures ran <==> !old(processing)
      ensures processing == old(processing)
      ensures !ran ==> Whole() == old(Whole())
      ensures ran ==> Whole() == After(old(Whole()), UpdateOp(manager, engine, r, mailbox))
      ensures ran && PlanFor(Take(old(core), old(mailbox)), manager, engine).Report? ==> mailbox == NO_REQUEST
      decreases if processing then 0 else 9
    {
      hide Run, Take, Silence;
      r := Silence();
      if processing { return false, r; }
      processing := true;
      ghost var before := log;
      var request := TakeMailbox();
      if core.ids[0] == 0 && core.ids[1] == 0 && !core.creationPending {
        Publish(if core.failure == NoFailure then Disabled else PairModel.Failed, NotBlocked);
      } else if !ValidManager(manager) {
        Publish(Blocked, InvalidManager);
      } else if Owns(core) && manager != core.owner {
        Publish(Blocked, ManagerMismatch);
      } else if !engine.initialize || !engine.create || !engine.erase {
        Publish(Blocked, MissingCallbacks);
      } else if BothOwned(core) && core.desiredEnabled && core.activePair && !core.creationPending && core.failure == NoFailure {
        Publish(Active, NotBlocked);
      } else {
        r := Proceed(manager, before, [Taken(request)]);
      }
      processing := false;
      ran := true;
    }

    /** Cancels only work that has created nothing. */
    method CancelUncreatedRequest() returns (r: EmptyPairCancel)
      modifies this
      ensures processing == old(processing)
      ensures r == CancelBusy <==> old(processing)
      ensures r == CancelBusy ==> Whole() == old(Whole())
      ensures r != CancelBusy ==> Whole() == After(old(Whole()), CancelOp)
      ensures r == CancelDone <==> !old(processing) && !Owns(old(core)) && old(core.owner) == NO_MANAGER
      decreases 0
    {
      hide Update, Silence;
      if processing { return CancelBusy; }
      if Owns(core) || core.owner != NO_MANAGER { return CancelOwned; }
      mailbox := NO_REQUEST;
      core := core.(desiredEnabled := false, creationPending := false, activePair := false, failure := NoFailure);
      published := EMPTY_SNAPSHOT;
      log := log + [Cancelled];
      return CancelDone;
    }

    /** The owning manager is gone: forgets its entries without any engine call. */
    method AcknowledgeManagerDestroyed(manager: ManagerToken) returns (ok: bool)
      modifies this
      ensures processing == old(processing)
      ensures ok <==> !old(processing) && Owns(old(core)) && manager == old(core.owner)
      ensures Whole() == if old(processing) then old(Whole()) else After(old(Whole()), DestroyedOp(manager))
      decreases 0
    {
      hide Update, Silence;
      if processing || !Owns(core) || manager != core.owner { return false; }
      core := core.(ids := [0, 0], owner := NO_MANAGER, desiredEnabled := false, creationPending := false, activePair := false,
                    failure := ManagerDestroyed);
      mailbox := NO_REQUEST;
      log := log + [Destroyed(manager)];
      Publish(PairModel.Failed, NotBlocked);
      assert core == Forget(old(core));
      assert log == old(log) + [Destroyed(manager), Shown(published)];
      ok := true;
    }
  }
}
