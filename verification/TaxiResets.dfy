/** When a session reset is safe. A reset forgets the flight records, yet the aircraft may still run the accepted
    toggles they stood for. The dispatcher cannot see whether it will: whenever it has a flight there is a run with
    the same dispatcher state in which the toggle is still to come, and after a reset a second one can follow it. */
module TaxiResets {
  import opened TaxiButtons
  import opened TaxiRuns

  // ----- reachable worlds -----

  ghost predicate RunLeads(w: World, actions: seq<Action>, v: World) {
    Start(w) && AllEnabled(w, actions) && QuietRun(w, actions) && RunAll(w, actions) == v
  }

  /** Some run with quiet resets ends here. */
  ghost predicate Reached(v: World) {
    exists w, actions :: RunLeads(w, actions, v)
  }

  lemma ReachedSafe(v: World)
    requires Reached(v)
    ensures OnceSafe(v) && Shaped(v)
  {
    hide OnceSafe, AllEnabled, RunAll, QuietRun;
    var w, actions :| RunLeads(w, actions, v);
    StartSafe(w);
    RunSafe(w, actions);
    assert Safe(v) by { OnceIsSafe(v); }
  }

  lemma OnceIsSafe(v: World)
    requires OnceSafe(v)
    ensures Safe(v)
  {
    hide Safe, SideOnce, Once;
  }

  lemma {:induction false} RunAppends(w: World, actions: seq<Action>, a: Action)
    requires AllEnabled(w, actions) && Shaped(RunAll(w, actions)) && Enabled(RunAll(w, actions), a)
    ensures AllEnabled(w, actions + [a]) && RunAll(w, actions + [a]) == Next(RunAll(w, actions), a)
    ensures QuietRun(w, actions) && Quiet(RunAll(w, actions), a) ==> QuietRun(w, actions + [a])
    decreases |actions|
  {
    hide Next, Enabled, Quiet, Shaped;
    var all := actions + [a];
    if |actions| == 0 {
      assert all[1..] == [];
    } else {
      RunAppends(Next(w, actions[0]), actions[1..], a);
      assert all[1..] == actions[1..] + [a];
    }
  }

  lemma ReachedNext(v: World, a: Action)
    requires Reached(v) && Shaped(v) && Enabled(v, a) && Quiet(v, a)
    ensures Reached(Next(v, a))
  {
    hide Next, Enabled, Quiet, AllEnabled, RunAll, QuietRun;
    var w, actions :| RunLeads(w, actions, v);
    RunAppends(w, actions, a);
    assert RunLeads(w, actions + [a], Next(v, a));
  }

  // ----- a world the dispatcher cannot tell apart -----

  /** The same for the dispatcher and the other side; on this side the toggle in the flight record is still to run. */
  predicate Shadow(v: World, v': World, side: nat)
    requires side < 2
  {
    && v'.commander == v.commander && v'.decision == v.decision && v'.undecided == v.undecided && v'.log == v.log
    && v'.sampled == v.sampled && v'.known == v.known && v'.buttons[1 - side] == v.buttons[1 - side]
    && |v'.buttons[side].history| == |v.buttons[side].history|
    && v'.buttons[side].flying == [v.commander.flights[side].desired]
  }

  ghost predicate Shadowed(v: World, side: nat)
    requires side < 2
  {
    v.commander.flights[side].active ==> exists v' :: Reached(v') && Shadow(v, v', side)
  }

  /** What the shadow does while the world does `a`: an execution becomes waiting, a step sees its own sample. */
  function ShadowAction(v': World, a: Action, side: nat): Action
    requires side < 2 && Shaped(v')
  {
    if a == Execute(side) then Pass
    else if a.Step? then Step(SeenBy(v', a.ctx, side))
    else a
  }

  function SeenBy(v': World, ctx: Context, side: nat): Context
    requires side < 2 && Shaped(v')
  {
    ctx.(actual := With(ctx.actual, side, v'.buttons[side].history[v'.sampled]))
  }

  function Flipped(c: Commander, ctx: Context, side: nat): Context
    requires side < 2
  {
    ctx.(actual := With(ctx.actual, side, !c.flights[side].desired))
  }

  /** An unacknowledged flight keeps a side's turn from looking at its position. */
  lemma SideBlind(c: Commander, ctx: Context, d: Decision, turn: nat, side: nat)
    requires turn < 2 && side < 2 && c.flights[side].active
    requires turn == side ==> SideStep(c, ctx, d, turn).commander.flights[side].active
    ensures SideStep(c, Flipped(c, ctx, side), d, turn) == SideStep(c, ctx, d, turn)
    ensures turn != side ==> SideStep(c, ctx, d, turn).commander.flights[side] == c.flights[side]
  {
  }

  lemma OthersFlight(c: Commander, ctx: Context, d: Decision, turn: nat)
    requires turn < 2
    ensures SideStep(c, ctx, d, turn).commander.flights[1 - turn] == c.flights[1 - turn]
    ensures SideStep(c, ctx, d, turn).commander.flights[turn] in {c.flights[turn], NO_FLIGHT}
  {
  }

  lemma SameScreening(c: Commander, ctx: Context, side: nat)
    requires side < 2
    ensures Screened(c, Flipped(c, ctx, side)) == Screened(c, ctx) && (FreshButtons(Flipped(c, ctx, side)) <==> FreshButtons(ctx))
  {
  }

  /** Nor does a whole step look at it. */
  lemma StepBlind(c: Commander, ctx: Context, side: nat)
    requires side < 2 && c.flights[side].active && Stepped(c, ctx).0.flights[side].active
    ensures Stepped(c, Flipped(c, ctx, side)) == Stepped(c, ctx)
    ensures Stepped(c, ctx).0.flights[side] == c.flights[side]
  {
    hide Screened, SideStep, FreshButtons;
    SameScreening(c, ctx, side);
    var none := Decision(NONE, NONE, NONE, c.status.serial, ctx.sample);
    var s := c.(status := Screened(c, ctx));
    var first := SideStep(s, ctx, none, 0);
    OthersFlight(s, ctx, none, 0);
    OthersFlight(first.commander, ctx, first.decision, 1);
    SideBlindIf(s, ctx, none, 0, side);
    SideBlindIf(first.commander, ctx, first.decision, 1, side);
  }

  lemma SideBlindIf(c: Commander, ctx: Context, d: Decision, turn: nat, side: nat)
    requires turn < 2 && side < 2
    ensures c.flights[side].active && SideStep(c, ctx, d, turn).commander.flights[side].active ==>
              SideStep(c, Flipped(c, ctx, side), d, turn) == SideStep(c, ctx, d, turn)
  {
    if c.flights[side].active && SideStep(c, ctx, d, turn).commander.flights[side].active { SideBlind(c, ctx, d, turn, side); }
  }

  lemma ShadowStep(v: World, v': World, ctx: Context, side: nat)
    requires side < 2 && Safe(v) && Safe(v') && Shadow(v, v', side) && Enabled(v, Step(ctx)) && v.commander.flights[side].active
    requires Next(v, Step(ctx)).commander.flights[side].active
    ensures Enabled(v', Step(SeenBy(v', ctx, side))) && Shadow(Next(v, Step(ctx)), Next(v', Step(SeenBy(v', ctx, side))), side)
  {
    hide Stepped, DecisionSafe, FreshButtons;
    var f := v.commander.flights[side];
    assert SideSafe(f, v'.buttons[side], v'.sampled);
    assert v'.buttons[side].history[v'.sampled] == !f.desired;
    StepBlind(v.commander, ctx, side);
    SameScreening(v.commander, ctx, side);
  }

  /** Every other action of the world can be followed by the shadow. */
  lemma ShadowFollows(v: World, v': World, a: Action, side: nat)
    requires side < 2 && Safe(v) && Safe(v') && Shadow(v, v', side) && v.commander.flights[side].active
    requires Enabled(v, a) && Next(v, a).commander.flights[side].active
    ensures Enabled(v', ShadowAction(v', a, side)) && Shadow(Next(v, a), Next(v', ShadowAction(v', a, side)), side)
  {
    if a.Step? {
      ShadowStep(v, v', a.ctx, side);
    } else if a.Ask? {
      hide Updated;
      UpdatedFlights(v.commander, a.request, a.permitted, a.now, a.epoch, a.profile, a.aircraftButtons);
    } else if a.Send? {
      ShadowSends(v, v', a, side);
    } else {
      ShadowMoves(v, v', a, side);
    }
  }

  lemma ShadowSends(v: World, v': World, a: Action, side: nat)
    requires side < 2 && Safe(v) && Safe(v') && Shadow(v, v', side) && v.commander.flights[side].active && a.Send? && Enabled(v, a)
    requires Next(v, a).commander.flights[side].active
    ensures Enabled(v', a) && Shadow(Next(v, a), Next(v', a), side)
  {
    hide DecisionSafe, SideSafe, PermissionCurrent, AfterSend;
    AfterSendFlights(v.commander, v.decision, a.side, a.accepted, a.now);
  }

  lemma ShadowMoves(v: World, v': World, a: Action, side: nat)
    requires side < 2 && Safe(v) && Safe(v') && Shadow(v, v', side) && v.commander.flights[side].active && Enabled(v, a)
    requires a.Sample? || a.Execute? || a.RejectSend? || a.Pass? || a.Reset?
    requires Next(v, a).commander.flights[side].active
    ensures Enabled(v', ShadowAction(v', a, side)) && Shadow(Next(v, a), Next(v', ShadowAction(v', a, side)), side)
  {
    hide DecisionSafe, SideSafe;
    if a.Execute? {
      ShadowExecutes(v, v', a.side, side);
    } else if a.RejectSend? {
      ShadowRejects(v, v', a.side, side);
    }
  }

  lemma ShadowExecutes(v: World, v': World, executed: nat, side: nat)
    requires side < 2 && Shaped(v) && Shaped(v') && Shadow(v, v', side) && Enabled(v, Execute(executed))
    ensures var a := ShadowAction(v', Execute(executed), side);
            Enabled(v', a) && Shadow(Next(v, Execute(executed)), Next(v', a), side)
  {
  }

  lemma ShadowRejects(v: World, v': World, rejected: nat, side: nat)
    requires side < 2 && Shaped(v) && Shaped(v') && Shadow(v, v', side) && v.commander.flights[side].active
    requires Enabled(v, RejectSend(rejected)) && Next(v, RejectSend(rejected)).commander.flights[side].active
    ensures Enabled(v', RejectSend(rejected)) && Shadow(Next(v, RejectSend(rejected)), Next(v', RejectSend(rejected)), side)
  {
    hide Fail;
  }

  /** A flight that an action starts is for a toggle still to run. */
  lemma FreshFlight(v: World, a: Action, side: nat)
    requires side < 2 && Safe(v) && Enabled(v, a) && Safe(Next(v, a)) && !v.commander.flights[side].active
    requires Next(v, a).commander.flights[side].active
    ensures Shadow(Next(v, a), Next(v, a), side)
  {
    hide Next, SideSafe, DecisionSafe;
    StartedBySend(v, a, side);
    SentFlies(v, a, side);
  }

  lemma StartedBySend(v: World, a: Action, side: nat)
    requires side < 2 && Shaped(v) && Enabled(v, a) && !v.commander.flights[side].active && Next(v, a).commander.flights[side].active
    ensures a.Send? && a.side == side
  {
    hide Updated, Stepped, StillCurrent, FreshButtons;
    if a.Step? {
      StepOutcomeFlight(v.commander, a.ctx, side);
    } else if a.Ask? {
      UpdatedFlights(v.commander, a.request, a.permitted, a.now, a.epoch, a.profile, a.aircraftButtons);
    } else if a.Send? {
      AfterSendFlights(v.commander, v.decision, a.side, a.accepted, a.now);
    }
  }

  lemma SentFlies(v: World, a: Action, side: nat)
    requires side < 2 && Safe(v) && a.Send? && a.side == side && Enabled(v, a) && !v.commander.flights[side].active
    requires Next(v, a).commander.flights[side].active
    ensures Next(v, a).buttons[side].flying == [Next(v, a).commander.flights[side].desired]
  {
    hide StillCurrent, DecisionSafe;
    assert SideSafe(v.commander.flights[side], v.buttons[side], v.sampled);
  }

  lemma StepOutcomeFlight(c: Commander, ctx: Context, side: nat)
    requires side < 2 && !c.flights[side].active
    ensures !Stepped(c, ctx).0.flights[side].active
  {
    hide Stepped, FreshButtons;
    StepOutcome(c, ctx);
  }

  // ----- every flight is shadowed -----

  lemma ShadowedNext(v: World, a: Action, side: nat)
    requires side < 2 && Reached(v) && Shaped(v) && Shadowed(v, side) && Enabled(v, a) && Quiet(v, a)
    ensures Reached(Next(v, a)) && Shadowed(Next(v, a), side)
  {
    hide Next, Enabled, Reached, Shadow, OnceSafe, Safe;
    ReachedNext(v, a);
    ReachedSafe(v);
    ReachedSafe(Next(v, a));
    OnceIsSafe(v);
    OnceIsSafe(Next(v, a));
    if Next(v, a).commander.flights[side].active {
      if v.commander.flights[side].active {
        var v' :| Reached(v') && Shadow(v, v', side);
        ReachedSafe(v');
        OnceIsSafe(v');
        ShadowFollows(v, v', a, side);
        ShadowQuiet(v, v', a, side);
        ReachedNext(v', ShadowAction(v', a, side));
      } else {
        FreshFlight(v, a, side);
      }
    }
  }

  lemma ShadowQuiet(v: World, v': World, a: Action, side: nat)
    requires side < 2 && Shadow(v, v', side) && Quiet(v, a) && Shaped(v')
    ensures Quiet(v', ShadowAction(v', a, side))
  {
  }

  lemma {:induction false} ShadowedRun(v: World, actions: seq<Action>, side: nat)
    requires side < 2 && Reached(v) && Shadowed(v, side) && AllEnabled(v, actions) && QuietRun(v, actions)
    ensures Shadowed(RunAll(v, actions), side)
    decreases |actions|
  {
    hide Next, Enabled, Reached, Shadowed, Quiet;
    if |actions| > 0 {
      ShadowedNext(v, actions[0], side);
      ShadowedRun(Next(v, actions[0]), actions[1..], side);
    }
  }

  lemma StartShadowed(w: World, side: nat)
    requires Start(w) && side < 2
    ensures Reached(w) && Shadowed(w, side)
  {
    assert RunLeads(w, [], w);
  }

  /** No dispatcher with a flight can tell that the toggle has already run. */
  lemma CannotTell(v: World, side: nat)
    requires side < 2 && Reached(v) && v.commander.flights[side].active
    ensures exists v' :: Reached(v') && Shadow(v, v', side)
  {
    hide AllEnabled, RunAll, QuietRun, Shadow, Start;
    var w, actions :| RunLeads(w, actions, v);
    StartShadowed(w, side);
    ShadowedRun(w, actions, side);
  }

  // ----- a second toggle after a reset -----

  /** After a reset, at any moment: a new sample, a new request for the same position, a step and an accepted send. */
  function Asking(v: World, side: nat, now: nat): Action
    requires side < 2
  {
    var selected := With(NONE, side, true);
    Ask(Request(v.commander.latest.serial + 1, 1, 0, selected, if v.commander.flights[side].desired then selected else NONE), true, now, 1, 0, true)
  }

  function Stepping(v: World, now: nat): Action
    requires Shaped(v)
  {
    var last := |v.buttons[0].history| - 1;
    Step(Context(now, 1, now, 0, Mask(v.buttons[0].history[last], v.buttons[1].history[last], false), NONE, true, true, true, false, true, 0.0, 60.0))
  }

  function Doubling(v: World, side: nat, now: nat): seq<Action>
    requires side < 2 && Shaped(v)
  {
    [Sample(|v.buttons[0].history| - 1), Asking(v, side, now), Stepping(v, now), Send(side, now, true, now)]
  }

  /** The dispatcher once a new session's request is in and nothing of the old session is left. */
  predicate Renewed(c: Commander, side: nat, desired: bool, now: nat)
    requires side < 2
  {
    && c.status == Status(c.latest.serial, With(NONE, side, true), false, NoError)
    && c.latest.desired == (if desired then With(NONE, side, true) else NONE) && c.latest.epoch == 1 && c.latest.profile == 0
    && NoFlight(c) && c.permission && c.permissionMs == now && c.startedMs == now
  }

  lemma AskRenews(c: Commander, v: World, side: nat, now: nat)
    requires side < 2 && c == SessionReset(v.commander)
    ensures var a := Asking(v, side, now);
            Renewed(Updated(c, a.request, a.permitted, a.now, a.epoch, a.profile, a.aircraftButtons), side, v.commander.flights[side].desired, now)
  {
  }

  /** A step that sees the other position decides to send; the decision is current. */
  lemma RenewedSends(c: Commander, ctx: Context, side: nat, desired: bool, now: nat)
    requires now > 0 && side < 2 && Renewed(c, side, desired, now) && Bit(ctx.actual, side) == !desired
    requires ctx == Context(now, 1, now, 0, ctx.actual, NONE, true, true, true, false, true, 0.0, 60.0)
    ensures var (c', d) := Stepped(c, ctx);
            Bit(d.send, side) && Bit(d.desired, side) == desired && StillCurrent(c', d, side, now)
  {
    assert Screened(c, ctx) == c.status;
  }

  lemma RunsFour(w: World, a: Action, b: Action, c: Action, d: Action)
    requires Shaped(w) && Enabled(w, a) && Shaped(Next(w, a)) && Enabled(Next(w, a), b)
    requires var u := Next(Next(w, a), b); Shaped(u) && Enabled(u, c) && Shaped(Next(u, c)) && Enabled(Next(u, c), d)
    requires !a.Reset? && !b.Reset? && !c.Reset? && !d.Reset?
    ensures AllEnabled(w, [a, b, c, d]) && QuietRun(w, [a, b, c, d])
    ensures RunAll(w, [a, b, c, d]) == Next(Next(Next(Next(w, a), b), c), d)
  {
    hide Next, Enabled, Shaped;
    var u := Next(Next(w, a), b);
    var v := Next(u, c);
    assert [a, b, c, d][1..] == [b, c, d] && [b, c, d][1..] == [c, d] && [c, d][1..] == [d] && [d][1..] == [];
    assert AllEnabled(Next(v, d), []) && AllEnabled(v, [d]) && AllEnabled(u, [c, d]) && AllEnabled(Next(w, a), [b, c, d]);
    assert RunAll(v, [d]) == Next(v, d) && QuietRun(v, [d]);
    assert RunAll(u, [c, d]) == Next(v, d) && QuietRun(u, [c, d]);
    assert RunAll(Next(w, a), [b, c, d]) == Next(v, d) && QuietRun(Next(w, a), [b, c, d]);
  }

  lemma DoubleSend(v: World, side: nat, now: nat)
    requires now > 0 && side < 2 && OnceSafe(v) && Safe(v) && v.buttons[side].flying == [v.commander.flights[side].desired]
    ensures var r := Next(v, Reset);
            Shaped(r) && AllEnabled(r, Doubling(v, side, now)) && QuietRun(r, Doubling(v, side, now)) &&
            |RunAll(r, Doubling(v, side, now)).buttons[side].flying| == 2
  {
    hide Updated, Stepped, Screened, StillCurrent, OnceSafe, DecisionSafe, FreshButtons;
    var desired, last := v.commander.flights[side].desired, |v.buttons[0].history| - 1;
    assert SideSafe(v.commander.flights[side], v.buttons[side], v.sampled);
    var r := Next(v, Reset);
    var sampled := Next(r, Sample(last));
    AskRenews(sampled.commander, v, side, now);
    var asked := Next(sampled, Asking(v, side, now));
    RenewedSends(asked.commander, Stepping(v, now).ctx, side, desired, now);
    var stepped := Next(asked, Stepping(v, now));
    var sent := Next(stepped, Send(side, now, true, now));
    RunsFour(r, Sample(last), Asking(v, side, now), Stepping(v, now), Send(side, now, true, now));
  }

  /** One run: both lights off, a request for the left one, an accepted send. */
  const BOTH_OFF: World :=
    World(IDLE, [Button([false], []), Button([false], [])], 0, false, Decision(NONE, NONE, NONE, 0, 0), NONE, [])
  const LEFT: Mask := Mask(true, false, false)
  const ASK_LEFT: Action := Ask(Request(1, 1, 0, LEFT, LEFT), true, 10, 1, 0, true)
  const STEP_LEFT: Action := Step(Context(10, 1, 9, 0, NONE, NONE, true, true, true, false, true, 0.0, 60.0))

  /** The flight exists, a reset forgets it, and twenty milliseconds into the run a second toggle is accepted. */
  lemma ResetCanDouble()
    ensures var run := [Sample(0), ASK_LEFT, STEP_LEFT, Send(0, 10, true, 10)];
            && Start(BOTH_OFF) && AllEnabled(BOTH_OFF, run) && QuietRun(BOTH_OFF, run)
            && var v := RunAll(BOTH_OFF, run);
               && Shaped(v) && v.commander.flights[0].active
               && AllEnabled(Next(v, Reset), Doubling(v, 0, 20))
               && RunAll(Next(v, Reset), Doubling(v, 0, 20)).buttons[0].flying == [true, true]
  {
    var sampled := Next(BOTH_OFF, Sample(0));
    var asked := Next(sampled, ASK_LEFT);
    assert asked.commander.status == Status(1, LEFT, false, NoError);
    assert Screened(asked.commander, STEP_LEFT.ctx) == asked.commander.status;
    var stepped := Next(asked, STEP_LEFT);
    assert stepped.decision == Decision(LEFT, LEFT, NONE, 1, 9);
    var v := Next(stepped, Send(0, 10, true, 10));
    RunsFour(BOTH_OFF, Sample(0), ASK_LEFT, STEP_LEFT, Send(0, 10, true, 10));
    SecondSend(v);
  }

  lemma SecondSend(v: World)
    requires v.buttons[0] == Button([false], [true]) && v.buttons[1] == Button([false], []) && v.sampled == 0 && v.undecided == NONE
    requires v.commander.flights[0] == Flight(true, true, 9, 10, 1)
    ensures Shaped(v) && AllEnabled(Next(v, Reset), Doubling(v, 0, 20))
    ensures RunAll(Next(v, Reset), Doubling(v, 0, 20)).buttons[0].flying == [true, true]
  {
    hide Updated, Stepped, Screened, StillCurrent, FreshButtons;
    var r := Next(v, Reset);
    var sampled := Next(r, Sample(0));
    AskRenews(sampled.commander, v, 0, 20);
    var asked := Next(sampled, Asking(v, 0, 20));
    RenewedSends(asked.commander, Stepping(v, 20).ctx, 0, true, 20);
    var stepped := Next(asked, Stepping(v, 20));
    RunsFour(r, Sample(0), Asking(v, 0, 20), Stepping(v, 20), Send(0, 20, true, 20));
  }

  // ----- exactly when a reset is safe -----

  /** Whatever quiet run led to this dispatcher state, and whatever follows a reset, toggles stay safe. */
  ghost predicate SafeToReset(c: Commander) {
    forall v, actions | Reached(v) && v.commander == c && Shaped(v) && AllEnabled(Next(v, Reset), actions) && QuietRun(Next(v, Reset), actions) ::
      ToggleSafe(RunAll(Next(v, Reset), actions))
  }

  lemma QuietIsSafe(v: World, actions: seq<Action>)
    requires Reached(v) && NoFlight(v.commander) && Shaped(v)
    requires AllEnabled(Next(v, Reset), actions) && QuietRun(Next(v, Reset), actions)
    ensures ToggleSafe(RunAll(Next(v, Reset), actions))
  {
    hide OnceSafe, AllEnabled, RunAll, QuietRun, Reached, ToggleSafe;
    ReachedSafe(v);
    OnceKept(v, Reset);
    RunSafe(Next(v, Reset), actions);
    SafeToggles(RunAll(Next(v, Reset), actions));
  }

  lemma FlightIsUnsafe(v: World, side: nat)
    requires Reached(v) && side < 2 && v.commander.flights[side].active
    ensures !SafeToReset(v.commander)
  {
    hide OnceSafe, Safe, AllEnabled, RunAll, QuietRun, Reached, Next, Doubling;
    CannotTell(v, side);
    var v' :| Reached(v') && Shadow(v, v', side);
    ReachedSafe(v');
    OnceIsSafe(v');
    DoubleSend(v', side, 1);
    assert !ToggleSafe(RunAll(Next(v', Reset), Doubling(v', side, 1)));
  }

  /** For every dispatcher state any run can reach: resetting the session is safe in every run that reaches it if
      and only if neither side has a flight, which the dispatcher can check before it resets. */
  lemma ResetSafetyExactly(v: World)
    requires Reached(v)
    ensures SafeToReset(v.commander) <==> NoFlight(v.commander)
  {
    hide AllEnabled, RunAll, QuietRun, Reached, ToggleSafe, Next;
    if NoFlight(v.commander) {
      forall u, actions | Reached(u) && u.commander == v.commander && Shaped(u) && AllEnabled(Next(u, Reset), actions) && QuietRun(Next(u, Reset), actions)
        ensures ToggleSafe(RunAll(Next(u, Reset), actions))
      {
        QuietIsSafe(u, actions);
      }
    } else {
      var side :| 0 <= side < 2 && v.commander.flights[side].active;
      FlightIsUnsafe(v, side);
    }
  }
}
