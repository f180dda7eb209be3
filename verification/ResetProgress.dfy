/** A scene reset makes progress: what its guards mean, literally, and that from every quiet moment some run of
    observer and caller drains the pair, retires the reset and consumes it. */
module ResetProgress {
  import opened PairModel
  import opened ResetProtocol

  const ALL_CALLBACKS: EngineCallbacks := EngineCallbacks(true, true, true)

  // ----- the guards -----

  /** Consumed exactly when it is held, was retired, the session is publicly ready and the pair shows nothing. */
  lemma ConsumesExactly(r: Reset, publicReady: bool, pair: Snapshot)
    ensures ReadyToConsume(r, publicReady, pair) <==>
              && r.profile != 0 && r.retired && publicReady
              && (pair.owner.identity == 0 || pair.owner.generation == 0) && pair.ids == [0, 0]
              && !pair.requestPending && !pair.creationPending
  {
  }

  /** Retired exactly when it is held, the pair confirmed its cancel and shows nothing; nothing else about it changes. */
  lemma RetiresExactly(r: Reset, cancelled: EmptyPairCancel, pair: Snapshot)
    ensures Observed(r, cancelled, pair).profile == r.profile
    ensures Observed(r, cancelled, pair).retired <==>
              r.retired || (&& r.profile != 0 && cancelled == CancelDone
                            && (pair.owner.identity == 0 || pair.owner.generation == 0) && pair.ids == [0, 0]
                            && !pair.requestPending && !pair.creationPending)
  {
  }

  /** An enable is admitted exactly when no reset is requested and its epoch is the ready public one. */
  lemma AdmitsExactly(w: World, keys: PairKeys, independent: bool, authorized: nat, current: nat, publicReady: bool)
    ensures Enabled(w, Action.Post(Request(Enable, keys, independent), authorized, current, publicReady)) <==>
              !w.requested && authorized == current && publicReady
  {
  }

  // ----- runs -----

  lemma {:induction false} OneMore(w: World, actions: seq<Action>, a: Action)
    requires AllEnabled(w, actions) && Enabled(RunAll(w, actions), a)
    ensures AllEnabled(w, actions + [a]) && RunAll(w, actions + [a]) == Next(RunAll(w, actions), a)
    decreases |actions|
  {
    hide Enabled, Next;
    if actions == [] {
      assert actions + [a] == [a];
      assert [a][1..] == [];
    } else {
      OneMore(Next(w, actions[0]), actions[1..], a);
      assert (actions + [a])[1..] == actions[1..] + [a];
    }
  }

  /** Actions that lead from one world to another. */
  ghost predicate Leads(w: World, actions: seq<Action>, end: World) {
    AllEnabled(w, actions) && RunAll(w, actions) == end
  }

  lemma LeadsOn(w: World, actions: seq<Action>, middle: World, a: Action)
    requires Leads(w, actions, middle) && Enabled(middle, a)
    ensures Leads(w, actions + [a], Next(middle, a))
  {
    hide Enabled, Next, AllEnabled, RunAll;
    OneMore(w, actions, a);
  }

  lemma LeadsNowhere(w: World)
    ensures Leads(w, [], w)
  {
  }

  /** What a completed reset leaves. */
  predicate Reopened(w: World) {
    && w.reset == Reset(0, false) && !w.requested && w.flag == Free && w.stage.Resting? && w.caller.Outside?
    && w.mailbox == NO_REQUEST && w.core.ids == [0, 0] && !w.core.creationPending && w.published == EMPTY_SNAPSHOT
  }

  predicate AtRest(w: World) { w.stage.Resting? && w.caller.Outside? }

  lemma Onward(w: World, actions: seq<Action>, middle: World, a: Action) returns (more: seq<Action>, end: World)
    requires Leads(w, actions, middle) && Enabled(middle, a)
    ensures more == actions + [a] && end == Next(middle, a) && Leads(w, more, end)
  {
    hide Leads, Enabled, Next;
    LeadsOn(w, actions, middle, a);
    more, end := actions + [a], Next(middle, a);
  }

  /** A reset in progress, with everything drained. */
  predicate Drained(w: World, profile: nat, retired: bool) {
    && AtRest(w) && w.flag == Free && w.requested && w.reset == Reset(profile, retired)
    && w.mailbox == NO_REQUEST && w.core.ids == [0, 0] && w.core.owner == NO_MANAGER && !w.core.creationPending
    && w.published == EMPTY_SNAPSHOT
  }

  /** The caller begins a reset; with the observer off it retires it as well. */
  lemma ResetBegins(w0: World, before: seq<Action>, w: World, profile: nat, off: bool) returns (a: seq<Action>, x: World)
    requires Leads(w0, before, w)
    requires Safe(w) && AtRest(w) && !Owns(w.core) && profile != 0
    ensures Leads(w0, a, x) && Drained(x, profile, off)
  {
    hide Leads;
    a, x := Onward(w0, before, w, Begin(profile));
    a, x := Onward(w0, a, x, CallerCancel);
    a, x := Onward(w0, a, x, CallerCancelUnderLock);
    a, x := Onward(w0, a, x, CallerSnapshot);
    a, x := Onward(w0, a, x, CallerRetire(off));
    assert x.core.ids == [0, 0];
  }

  /** The observer's own cancel retires the reset. */
  lemma ObserverRetires(w0: World, before: seq<Action>, w: World, profile: nat) returns (a: seq<Action>, x: World)
    requires Leads(w0, before, w) && Drained(w, profile, false) && profile != 0
    ensures Leads(w0, a, x) && Drained(x, profile, true)
  {
    hide Leads;
    a, x := Onward(w0, before, w, ObserverCancel);
    a, x := Onward(w0, a, x, ObserverCancelUnderLock);
    a, x := Onward(w0, a, x, ObserverSnapshot);
    a, x := Onward(w0, a, x, ObserverRetire);
  }

  lemma ResetEnds(w0: World, before: seq<Action>, w: World, profile: nat) returns (a: seq<Action>, x: World)
    requires Leads(w0, before, w) && Drained(w, profile, true) && profile != 0
    ensures Leads(w0, a, x) && Reopened(x)
  {
    hide Leads;
    a, x := Onward(w0, before, w, ConsumeSnapshot);
    a, x := Onward(w0, a, x, Consume(true));
    a, x := Onward(w0, a, x, ClearRequested);
  }

  /** One disable and one update that an engine serves empty the pair. */
  lemma DisableDrains(w: World) returns (actions: seq<Action>, end: World)
    requires Safe(w) && AtRest(w) && Owns(w.core)
    ensures Leads(w, actions, end) && Safe(end) && AtRest(end) && !Owns(end.core)
  {
    hide Leads, Safe;
    var middle;
    actions, middle := DisableTaken(w);
    actions, end := ErasuresDone(w, actions, middle);
    LeadsSafe(w, actions, end);
  }

  lemma DisableTaken(w: World) returns (actions: seq<Action>, end: World)
    requires Safe(w) && AtRest(w) && Owns(w.core)
    ensures Leads(w, actions, end) && end.stage.Erasing? && end.stage.left == 2 && !end.stage.undo && end.caller.Outside?
    ensures !end.core.desiredEnabled
  {
    hide Leads, Safe;
    LeadsNowhere(w);
    AtRestFree(w);
    var x;
    actions, x := [], w;
    actions, x := Onward(w, actions, x, Action.Post(Request(Disable, NO_KEYS, false), 0, 0, false));
    actions, x := Onward(w, actions, x, Enter(w.core.owner, ALL_CALLBACKS));
    actions, x := Onward(w, actions, x, TakeMail);
    actions, end := Onward(w, actions, x, Decide);
  }

  lemma ErasuresDone(w: World, before: seq<Action>, middle: World) returns (actions: seq<Action>, end: World)
    requires Leads(w, before, middle) && middle.stage.Erasing? && middle.stage.left == 2 && !middle.stage.undo
    requires middle.caller.Outside? && !middle.core.desiredEnabled
    ensures Leads(w, actions, end) && AtRest(end) && !Owns(end.core)
  {
    hide Leads;
    var x;
    actions, x := Onward(w, before, middle, EraseStep(true));
    actions, x := Onward(w, actions, x, EraseStep(true));
    actions, x := Onward(w, actions, x, FinishErase);
    actions, x := Onward(w, actions, x, PublishStep);
    actions, end := Onward(w, actions, x, Release);
  }

  lemma AtRestFree(w: World)
    requires Safe(w) && AtRest(w)
    ensures w.flag == Free && (Owns(w.core) ==> ValidManager(w.core.owner))
  {
  }

  lemma {:induction false} LeadsSafe(w: World, actions: seq<Action>, end: World)
    requires Safe(w) && Leads(w, actions, end)
    ensures Safe(end)
    decreases |actions|
  {
    hide Safe, Next, Enabled;
    if actions != [] {
      SafeKept(w, actions[0]);
      LeadsSafe(Next(w, actions[0]), actions[1..], end);
    }
  }

  /** From every safe moment in which observer and caller rest, with or without owned entries, some run completes a
      reset, whether the observer runs or is off: it is consumed, nothing is owned, and enables are admitted again. */
  lemma ResetCompletes(w: World, profile: nat, off: bool)
    requires Safe(w) && AtRest(w) && profile != 0
    ensures exists actions, end :: Leads(w, actions, end) && Reopened(end)
  {
    hide Leads, Safe, Drained;
    LeadsNowhere(w);
    var a: seq<Action>, x := [], w;
    if Owns(w.core) { a, x := DisableDrains(w); }
    a, x := ResetBegins(w, a, x, profile, off);
    if !off { a, x := ObserverRetires(w, a, x, profile); }
    a, x := ResetEnds(w, a, x, profile);
  }
}
