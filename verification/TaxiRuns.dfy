/** Runs of the dispatcher against the aircraft: requests from other threads, delayed in-order samples, delayed
    execution of accepted toggles, rejections, and session resets, which forget the flight records while the
    aircraft may still have toggles to run. Only this dispatcher toggles the latches. */
module TaxiRuns {
  import opened TaxiButtons
  import opened TaxiCutoff

  /** One side's button: every latch position so far, the last one current, and the accepted toggles that
      have neither run nor been rejected, each with the position it was meant to reach. */
  datatype Button = Button(history: seq<bool>, flying: seq<bool>)

  type Buttons = s: seq<Button> | |s| == 2 witness [Button([], []), Button([], [])]

  /** An accepted send: which request (or cutoff), which side, toward which position. */
  datatype Accepted = Accepted(serial: nat, side: nat, desired: bool, cutoff: bool)

  /** Both histories are indexed by the same moments; samples are taken at moment `sampled` or later, and `known`
      says that one arrived since the session began. */
  datatype World = World(commander: Commander, buttons: Buttons, sampled: nat, known: bool, decision: Decision, undecided: Mask, log: seq<Accepted>)

  datatype Action =
    | Ask(request: Request, permitted: bool, now: nat, epoch: nat, profile: nat, aircraftButtons: bool)
    | Sample(index: nat)
    | Step(ctx: Context)
    | Send(side: nat, checked: nat, accepted: bool, now: nat)
    | Execute(side: nat)
    | RejectSend(side: nat)
    | Pass
    | Reset

  predicate Shaped(w: World) {
    |w.buttons[0].history| == |w.buttons[1].history| && w.sampled < |w.buttons[0].history|
  }

  function Last(b: Button): bool
    requires b.history != []
  {
    b.history[|b.history| - 1]
  }

  predicate Enabled(w: World, a: Action)
    requires Shaped(w)
  {
    match a
    case Ask(_, _, _, _, _, _) => true
    case Sample(index) => w.sampled <= index < |w.buttons[0].history|
    case Step(ctx) =>
      && (FreshButtons(ctx) ==> Sampled(w, ctx.actual))
      && (Any(ctx.cutoff) ==> ctx.inhibited)
    case Send(side, _, _, _) => side < 2 && Bit(w.undecided, side)
    case Execute(side) => side < 2 && w.buttons[side].flying != []
    case RejectSend(side) => side < 2 && w.buttons[side].flying != []
    case Pass => true
    case Reset => true
  }

  /** What the dispatcher is shown is the last sample of this session. */
  predicate Sampled(w: World, actual: Mask)
    requires Shaped(w)
  {
    w.known && forall side | 0 <= side < 2 :: Bit(actual, side) == w.buttons[side].history[w.sampled]
  }

  /** The toggle runs: this latch flips, the other stays. */
  function Toggled(b: Button): Button
    requires b.history != [] && b.flying != []
  {
    Button(b.history + [!Last(b)], b.flying[1..])
  }

  function Waited(b: Button): Button
    requires b.history != []
  {
    b.(history := b.history + [Last(b)])
  }

  /** One action. A reset forgets the samples and with them readiness, so nothing decided before it is sent. */
  function Next(w: World, a: Action): World
    requires Shaped(w) && Enabled(w, a)
  {
    match a
    case Ask(r, permitted, now, epoch, profile, aircraftButtons) =>
      w.(commander := Updated(w.commander, r, permitted, now, epoch, profile, aircraftButtons))
    case Sample(index) => w.(sampled := index, known := true)
    case Step(ctx) =>
      var (c, d) := Stepped(w.commander, ctx);
      w.(commander := c, decision := d, undecided := d.send)
    case Send(side, checked, accepted, now) =>
      var s := w.(undecided := With(w.undecided, side, false));
      if StillCurrent(w.commander, w.decision, side, checked) then Transmitted(s, side, accepted, now) else s
    case Execute(side) =>
      w.(buttons := [if side == 0 then Toggled(w.buttons[0]) else Waited(w.buttons[0]),
                     if side == 1 then Toggled(w.buttons[1]) else Waited(w.buttons[1])])
    case RejectSend(side) =>
      var b := w.buttons[side];
      w.(commander := AfterRejection(w.commander, side), buttons := w.buttons[side := b.(flying := b.flying[1..])])
    case Pass => w.(buttons := [Waited(w.buttons[0]), Waited(w.buttons[1])])
    case Reset => w.(commander := SessionReset(w.commander), known := false, undecided := NONE)
  }

  function Transmitted(w: World, side: nat, accepted: bool, now: nat): World
    requires side < 2
  {
    var s := w.(commander := AfterSend(w.commander, w.decision, side, accepted, now));
    if !accepted then s
    else
      var desired, b := Bit(w.decision.desired, side), w.buttons[side];
      s.(log := w.log + [Accepted(w.decision.serial, side, desired, Bit(w.decision.cutoff, side))],
         buttons := w.buttons[side := b.(flying := b.flying + [desired])])
  }

  predicate Start(w: World) {
    && Shaped(w) && w.commander == IDLE && !w.known && w.decision.serial == 0 && w.undecided == NONE && w.log == []
    && forall side | 0 <= side < 2 ::
         w.buttons[side].flying == [] && forall k | 0 <= k < |w.buttons[side].history| :: w.buttons[side].history[k] == w.buttons[side].history[0]
  }

  // ----- what every step keeps, side by side -----

  /** From the last sample on the latch shows `value`. */
  predicate Steady(history: seq<bool>, sampled: nat, value: bool) {
    forall k | sampled <= k < |history| :: history[k] == value
  }

  /** From the last sample on the latch changes at most once, to `value`. */
  predicate Turned(history: seq<bool>, sampled: nat, value: bool) {
    && (forall j, k | sampled <= j <= k < |history| :: history[j] == value ==> history[k] == value)
    && sampled < |history| && history[|history| - 1] == value
  }

  /** One side's latch, toggles in flight and flight record agree. */
  predicate SideSafe(f: Flight, b: Button, sampled: nat) {
    && sampled < |b.history|
    && if b.flying != [] then b.flying == [f.desired] && f.active && Steady(b.history, sampled, !f.desired)
       else if f.active then Turned(b.history, sampled, f.desired)
       else Steady(b.history, sampled, Last(b))
  }

  /** A send still to be made is for a side at rest in the other position. */
  predicate DecisionSafe(f: Flight, b: Button, undecided: bool, d: Decision, side: nat)
    requires b.history != []
  {
    undecided ==>
      Bit(d.send, side) && !f.active && Last(b) == !Bit(d.desired, side) && (Bit(d.cutoff, side) ==> !Bit(d.desired, side))
  }

  predicate Safe(w: World) {
    Shaped(w) && forall side | 0 <= side < 2 ::
      && SideSafe(w.commander.flights[side], w.buttons[side], w.sampled)
      && DecisionSafe(w.commander.flights[side], w.buttons[side], Bit(w.undecided, side), w.decision, side)
  }

  lemma UpdatedFlights(c: Commander, r: Request, permitted: bool, now: nat, epoch: nat, profile: nat, aircraftButtons: bool)
    ensures Updated(c, r, permitted, now, epoch, profile, aircraftButtons).flights == c.flights
  {
  }

  /** What one side's turn in a step leaves: an acknowledged flight is dropped, and a send is decided only
      for a side without a flight whose sampled position is not the one wanted. */
  predicate SideOutcome(f: Flight, f': Flight, actual: bool, d: Decision, side: nat) {
    && (f' == f || (f.active && actual == f.desired && f' == NO_FLIGHT))
    && (Bit(d.send, side) ==> !f'.active && actual == !Bit(d.desired, side) && (Bit(d.cutoff, side) ==> !Bit(d.desired, side)))
  }

  /** A side's turn never touches the other side, except that an abort may drop its undecided send. */
  predicate OtherKept(c: Commander, d: Decision, r: SideResult, other: nat)
    requires other < 2
  {
    && r.commander.flights[other] == c.flights[other]
    && (Bit(r.decision.send, other) ==> Bit(d.send, other))
    && (Bit(r.decision.cutoff, other) <==> Bit(d.cutoff, other))
    && (Bit(r.decision.send, other) && Bit(d.desired, other) ==> Bit(r.decision.desired, other) || Bit(d.cutoff, other))
    && (Bit(r.decision.desired, other) ==> Bit(d.desired, other))
  }

  lemma SideStepOutcome(c: Commander, ctx: Context, d: Decision, side: nat)
    requires side < 2 && !Bit(d.send, side) && !Bit(d.desired, side) && !Bit(d.cutoff, side)
    ensures var r := SideStep(c, ctx, d, side);
            SideOutcome(c.flights[side], r.commander.flights[side], Bit(ctx.actual, side), r.decision, side) && OtherKept(c, d, r, 1 - side)
  {
    hide OverLimit, Fail;
  }

  lemma StepOutcome(c: Commander, ctx: Context)
    ensures var (c', d) := Stepped(c, ctx);
            if FreshButtons(ctx) then forall side | 0 <= side < 2 :: SideOutcome(c.flights[side], c'.flights[side], Bit(ctx.actual, side), d, side)
            else c'.flights == c.flights && d.send == NONE
  {
    hide Screened, OverLimit, SideStep, FreshButtons;
    var none := Decision(NONE, NONE, NONE, c.status.serial, ctx.sample);
    var s := c.(status := Screened(c, ctx));
    SideStepOutcome(s, ctx, none, 0);
    var first := SideStep(s, ctx, none, 0);
    SideStepOutcome(first.commander, ctx, first.decision, 1);
  }

  lemma OutcomeSafe(f: Flight, f': Flight, b: Button, sampled: nat, d: Decision, side: nat)
    requires SideSafe(f, b, sampled) && SideOutcome(f, f', b.history[sampled], d, side)
    ensures SideSafe(f', b, sampled) && DecisionSafe(f', b, Bit(d.send, side), d, side)
  {
  }

  lemma StepKeeps(w: World, ctx: Context)
    requires Safe(w) && Enabled(w, Step(ctx))
    ensures Safe(Next(w, Step(ctx)))
  {
    hide SideSafe, DecisionSafe, SideOutcome, Stepped, FreshButtons;
    var (c, d) := Stepped(w.commander, ctx);
    StepOutcome(w.commander, ctx);
    forall side | 0 <= side < 2
      ensures SideSafe(c.flights[side], w.buttons[side], w.sampled) && DecisionSafe(c.flights[side], w.buttons[side], Bit(d.send, side), d, side)
    {
      if FreshButtons(ctx) {
        OutcomeSafe(w.commander.flights[side], c.flights[side], w.buttons[side], w.sampled, d, side);
      } else {
        NothingDecided(c.flights[side], w.buttons[side], w.sampled, d, side);
      }
    }
  }

  lemma NothingDecided(f: Flight, b: Button, sampled: nat, d: Decision, side: nat)
    requires SideSafe(f, b, sampled) && d.send == NONE
    ensures DecisionSafe(f, b, Bit(d.send, side), d, side)
  {
  }

  lemma SendKeeps(w: World, side: nat, checked: nat, accepted: bool, now: nat)
    requires Safe(w) && Enabled(w, Send(side, checked, accepted, now))
    ensures Safe(Next(w, Send(side, checked, accepted, now)))
  {
    hide PermissionCurrent, Fail, SideSafe, DecisionSafe;
    var v := Next(w, Send(side, checked, accepted, now));
    SentSide(w, side, checked, accepted, now);
    assert v.commander.flights[1 - side] == w.commander.flights[1 - side] && v.buttons[1 - side] == w.buttons[1 - side];
    assert Bit(v.undecided, 1 - side) == Bit(w.undecided, 1 - side);
    assert |v.buttons[side].history| == |w.buttons[side].history|;
  }

  lemma SentSide(w: World, side: nat, checked: nat, accepted: bool, now: nat)
    requires Safe(w) && Enabled(w, Send(side, checked, accepted, now))
    ensures var v := Next(w, Send(side, checked, accepted, now));
            SideSafe(v.commander.flights[side], v.buttons[side], v.sampled) &&
            DecisionSafe(v.commander.flights[side], v.buttons[side], Bit(v.undecided, side), v.decision, side)
  {
    hide PermissionCurrent, Fail;
    assert SideSafe(w.commander.flights[side], w.buttons[side], w.sampled);
    assert DecisionSafe(w.commander.flights[side], w.buttons[side], Bit(w.undecided, side), w.decision, side);
  }

  /** Running the one toggle in flight takes the latch from the other position to the wanted one. */
  lemma ToggleTurns(f: Flight, b: Button, sampled: nat)
    requires SideSafe(f, b, sampled) && b.flying != []
    ensures SideSafe(f, Toggled(b), sampled) && Last(b) == !b.flying[0] && Last(Toggled(b)) == b.flying[0]
    ensures f.active && |Toggled(b).history| == |b.history| + 1
  {
    var t := Toggled(b);
    assert forall k | 0 <= k < |b.history| :: t.history[k] == b.history[k];
  }

  lemma WaitKeeps(f: Flight, b: Button, sampled: nat)
    requires SideSafe(f, b, sampled)
    ensures SideSafe(f, Waited(b), sampled) && |Waited(b).history| == |b.history| + 1 && Last(Waited(b)) == Last(b)
  {
    var t := Waited(b);
    assert forall k | 0 <= k < |b.history| :: t.history[k] == b.history[k];
  }

  lemma ExecuteKeeps(w: World, side: nat)
    requires Safe(w) && Enabled(w, Execute(side))
    ensures Safe(Next(w, Execute(side)))
  {
    hide SideSafe, Toggled, Waited;
    var v := Next(w, Execute(side));
    ToggleTurns(w.commander.flights[side], w.buttons[side], w.sampled);
    WaitKeeps(w.commander.flights[1 - side], w.buttons[1 - side], w.sampled);
    assert v.buttons[side] == Toggled(w.buttons[side]) && v.buttons[1 - side] == Waited(w.buttons[1 - side]);
  }

  lemma RejectKeeps(w: World, side: nat)
    requires Safe(w) && Enabled(w, RejectSend(side))
    ensures Safe(Next(w, RejectSend(side)))
  {
    hide Fail;
    var v := Next(w, RejectSend(side));
    assert v.commander.flights[1 - side] == w.commander.flights[1 - side] && v.buttons[1 - side] == w.buttons[1 - side];
    assert SideSafe(w.commander.flights[1 - side], w.buttons[1 - side], w.sampled);
    assert SideSafe(w.commander.flights[side], w.buttons[side], w.sampled);
  }

  lemma PassKeeps(w: World)
    requires Safe(w)
    ensures Safe(Next(w, Pass))
  {
    hide SideSafe, Waited;
    forall side | 0 <= side < 2 ensures SideSafe(w.commander.flights[side], Waited(w.buttons[side]), w.sampled) {
      WaitKeeps(w.commander.flights[side], w.buttons[side], w.sampled);
    }
    WaitKeeps(w.commander.flights[0], w.buttons[0], w.sampled);
    WaitKeeps(w.commander.flights[1], w.buttons[1], w.sampled);
  }

  /** The dispatcher has no toggle outstanding that it knows of. */
  predicate NoFlight(c: Commander) {
    forall side | 0 <= side < 2 :: !c.flights[side].active
  }

  lemma ResetKeeps(w: World)
    requires Safe(w) && NoFlight(w.commander)
    ensures Safe(Next(w, Reset))
  {
    assert forall side | 0 <= side < 2 :: SideSafe(w.commander.flights[side], w.buttons[side], w.sampled);
  }

  // ----- a request's send is accepted at most once per side -----

  /** A user send of this request toward this side was already accepted. */
  predicate Already(log: seq<Accepted>, serial: nat, side: nat) {
    exists i | 0 <= i < |log| :: !log[i].cutoff && log[i].serial == serial && log[i].side == side
  }

  predicate Once(log: seq<Accepted>) {
    forall i, j | 0 <= i < j < |log| && !log[i].cutoff && !log[j].cutoff :: !(log[i].serial == log[j].serial && log[i].side == log[j].side)
  }

  predicate Known(c: Commander, d: Decision, log: seq<Accepted>) {
    c.status.serial == c.latest.serial && d.serial <= c.status.serial && forall i | 0 <= i < |log| :: log[i].serial <= c.status.serial
  }

  /** The accepted send of the current request is in flight or has already brought the latch where it was wanted. */
  predicate Settled(c: Commander, b: Button, sampled: nat, side: nat)
    requires side < 2
  {
    var f, want := c.flights[side], Bit(c.latest.desired, side);
    if f.active then f.serial == c.status.serial && f.desired == want else Steady(b.history, sampled, want)
  }

  predicate SideOnce(c: Commander, b: Button, sampled: nat, d: Decision, undecided: bool, log: seq<Accepted>, side: nat)
    requires side < 2
  {
    var open := Bit(c.status.pending, side);
    && (open && Already(log, c.status.serial, side) ==> Settled(c, b, sampled, side))
    && (undecided && open && Bit(d.cutoff, side) ==> !Already(log, c.status.serial, side))
    && (undecided && open && d.serial == c.status.serial && !Bit(d.cutoff, side) ==>
          !Already(log, c.status.serial, side) && Bit(d.desired, side) == Bit(c.latest.desired, side))
  }

  predicate OnceSafe(w: World) {
    && Safe(w) && Once(w.log) && Known(w.commander, w.decision, w.log)
    && forall side | 0 <= side < 2 ::
         SideOnce(w.commander, w.buttons[side], w.sampled, w.decision, Bit(w.undecided, side), w.log, side)
  }

  predicate Shrinks(p: Mask, q: Mask) { (q.left ==> p.left) && (q.right ==> p.right) }

  /** A request that is not new changes no key and reopens nothing. */
  lemma NeverReplayed(c: Commander, r: Request, permitted: bool, now: nat, epoch: nat, profile: nat, aircraftButtons: bool)
    ensures var u := Updated(c, r, permitted, now, epoch, profile, aircraftButtons);
            && (r.serial <= c.latest.serial ==> u.latest == c.latest && u.status.serial == c.status.serial && Shrinks(c.status.pending, u.status.pending))
            && (r.serial > c.latest.serial ==> u.latest == r && u.status.serial == r.serial)
  {
  }

  lemma AskOnce(w: World, a: Action)
    requires OnceSafe(w) && a.Ask?
    ensures OnceSafe(Next(w, a))
  {
    hide Updated, SideSafe, DecisionSafe, Settled, Once;
    RequestKeeps(w, a);
    NeverReplayed(w.commander, a.request, a.permitted, a.now, a.epoch, a.profile, a.aircraftButtons);
    UpdatedFlights(w.commander, a.request, a.permitted, a.now, a.epoch, a.profile, a.aircraftButtons);
    var v := Next(w, a);
    forall side | 0 <= side < 2
      ensures SideOnce(v.commander, v.buttons[side], v.sampled, v.decision, Bit(v.undecided, side), v.log, side)
    {
      assert SideOnce(w.commander, w.buttons[side], w.sampled, w.decision, Bit(w.undecided, side), w.log, side);
      if a.request.serial <= w.commander.latest.serial { SameSettled(w.commander, v.commander, w.buttons[side], w.sampled, side); }
    }
  }

  lemma SameSettled(c: Commander, c': Commander, b: Button, sampled: nat, side: nat)
    requires side < 2 && c.flights[side] == c'.flights[side] && c.latest == c'.latest && c.status.serial == c'.status.serial
    ensures Settled(c, b, sampled, side) <==> Settled(c', b, sampled, side)
  {
  }

  lemma RequestKeeps(w: World, a: Action)
    requires Safe(w) && a.Ask?
    ensures Safe(Next(w, a))
  {
    hide Updated, SideSafe, DecisionSafe;
    UpdatedFlights(w.commander, a.request, a.permitted, a.now, a.epoch, a.profile, a.aircraftButtons);
  }

  lemma SampleKeeps(w: World, index: nat)
    requires Safe(w) && Enabled(w, Sample(index))
    ensures Safe(Next(w, Sample(index)))
  {
    hide DecisionSafe;
    assert forall side | 0 <= side < 2 :: SideSafe(w.commander.flights[side], w.buttons[side], w.sampled);
  }

  lemma SampleOnce(w: World, index: nat)
    requires OnceSafe(w) && Enabled(w, Sample(index))
    ensures OnceSafe(Next(w, Sample(index)))
  {
    hide Safe, Already, Once;
    SampleKeeps(w, index);
    assert forall side | 0 <= side < 2 ::
        SideOnce(w.commander, w.buttons[side], w.sampled, w.decision, Bit(w.undecided, side), w.log, side);
  }

  /** What a step leaves of the request, and why it decided to send. */
  predicate StepReasons(c: Commander, c': Commander, ctx: Context, d: Decision, side: nat)
    requires side < 2
  {
    && c'.latest == c.latest && c'.status.serial == c.status.serial && d.serial == c.status.serial
    && (Bit(c'.status.pending, side) ==> Bit(c.status.pending, side))
    && (Bit(d.send, side) && Bit(d.cutoff, side) ==> Bit(ctx.cutoff, side) && Bit(ctx.actual, side))
    && (Bit(d.send, side) && !Bit(d.cutoff, side) && Bit(c'.status.pending, side) ==> Bit(d.desired, side) == Bit(c.latest.desired, side))
    && (ctx.inhibited && Bit(c'.status.pending, side) ==> !Bit(c.latest.desired, side))
  }

  lemma ScreenedReasons(c: Commander, ctx: Context)
    ensures var s := Screened(c, ctx); s.serial == c.status.serial && Shrinks(c.status.pending, s.pending)
    ensures ctx.inhibited ==> forall side | 0 <= side < 2 :: Bit(Screened(c, ctx).pending, side) ==> !Bit(c.latest.desired, side)
  {
    hide PermissionCurrent;
  }

  /** A side's turn in the loop, as far as the request is concerned. */
  predicate SideReasons(c: Commander, ctx: Context, d: Decision, r: SideResult, side: nat)
    requires side < 2
  {
    && r.commander.latest == c.latest && r.commander.status.serial == c.status.serial && r.decision.serial == d.serial
    && Shrinks(c.status.pending, r.commander.status.pending)
    && (r.stop ==> !Bit(r.commander.status.pending, side) && !Bit(r.commander.status.pending, 1 - side))
    && (!r.stop ==> (Bit(r.decision.desired, 1 - side) <==> Bit(d.desired, 1 - side)))
    && (Bit(r.decision.send, side) && Bit(r.decision.cutoff, side) ==> Bit(ctx.cutoff, side) && Bit(ctx.actual, side))
    && (Bit(r.decision.send, side) && !Bit(r.decision.cutoff, side) ==> Bit(r.decision.desired, side) == Bit(c.latest.desired, side))
  }

  lemma SideStepReasons(c: Commander, ctx: Context, d: Decision, side: nat)
    requires side < 2 && !Bit(d.send, side) && !Bit(d.desired, side) && !Bit(d.cutoff, side)
    ensures SideReasons(c, ctx, d, SideStep(c, ctx, d, side), side)
  {
    hide OverLimit, Acknowledged;
  }

  lemma StepHasReasons(c: Commander, ctx: Context)
    ensures var (c', d) := Stepped(c, ctx); forall side | 0 <= side < 2 :: StepReasons(c, c', ctx, d, side)
  {
    hide Screened, SideStep, FreshButtons, SideOutcome;
    ScreenedReasons(c, ctx);
    var none := Decision(NONE, NONE, NONE, c.status.serial, ctx.sample);
    var s := c.(status := Screened(c, ctx));
    SideStepReasons(s, ctx, none, 0);
    SideStepOutcome(s, ctx, none, 0);
    var first := SideStep(s, ctx, none, 0);
    SideStepReasons(first.commander, ctx, first.decision, 1);
    SideStepOutcome(first.commander, ctx, first.decision, 1);
  }

  lemma StepSideOnce(c: Commander, c': Commander, ctx: Context, b: Button, sampled: nat, d: Decision, log: seq<Accepted>, side: nat, d0: Decision, u0: bool)
    requires side < 2 && SideOnce(c, b, sampled, d0, u0, log, side)
    requires SideSafe(c.flights[side], b, sampled) && SideSafe(c'.flights[side], b, sampled)
    requires SideOutcome(c.flights[side], c'.flights[side], b.history[sampled], d, side) && Bit(ctx.actual, side) == b.history[sampled]
    requires StepReasons(c, c', ctx, d, side) && (Bit(ctx.cutoff, side) ==> ctx.inhibited)
    ensures SideOnce(c', b, sampled, d, Bit(d.send, side), log, side)
  {
    hide Already;
  }

  lemma StepOnce(w: World, ctx: Context)
    requires OnceSafe(w) && Enabled(w, Step(ctx))
    ensures OnceSafe(Next(w, Step(ctx)))
  {
    hide Stepped, FreshButtons, SideOutcome, StepReasons, Already, SideOnce, SideSafe, DecisionSafe, Once;
    var v := Next(w, Step(ctx));
    StepKeeps(w, ctx);
    StepOutcome(w.commander, ctx);
    StepHasReasons(w.commander, ctx);
    assert StepReasons(w.commander, v.commander, ctx, v.decision, 0);
    StepKnown(w.commander, v.commander, ctx, v.decision, w.decision, w.log);
    forall side | 0 <= side < 2
      ensures SideOnce(v.commander, v.buttons[side], v.sampled, v.decision, Bit(v.undecided, side), v.log, side)
    {
      if FreshButtons(ctx) {
        StepSideOnce(w.commander, v.commander, ctx, w.buttons[side], w.sampled, v.decision, w.log, side, w.decision, Bit(w.undecided, side));
      } else {
        IdleSideOnce(w.commander, v.commander, ctx, w.buttons[side], w.sampled, v.decision, w.log, side, w.decision, Bit(w.undecided, side));
      }
    }
  }

  lemma StepKnown(c: Commander, c': Commander, ctx: Context, d: Decision, d0: Decision, log: seq<Accepted>)
    requires Known(c, d0, log) && StepReasons(c, c', ctx, d, 0)
    ensures Known(c', d, log)
  {
  }

  lemma IdleSideOnce(c: Commander, c': Commander, ctx: Context, b: Button, sampled: nat, d: Decision, log: seq<Accepted>, side: nat, d0: Decision, u0: bool)
    requires side < 2 && SideOnce(c, b, sampled, d0, u0, log, side) && StepReasons(c, c', ctx, d, side)
    requires c'.flights == c.flights && d.send == NONE
    ensures SideOnce(c', b, sampled, d, Bit(d.send, side), log, side)
  {
    hide Already;
  }

  lemma AlreadyAppend(log: seq<Accepted>, e: Accepted, serial: nat, side: nat)
    ensures Already(log + [e], serial, side) <==> Already(log, serial, side) || (!e.cutoff && e.serial == serial && e.side == side)
  {
    var l := log + [e];
    assert l[|log|] == e;
    if Already(log, serial, side) {
      var i :| 0 <= i < |log| && !log[i].cutoff && log[i].serial == serial && log[i].side == side;
      assert l[i] == log[i];
    }
  }

  lemma OnceAppend(log: seq<Accepted>, e: Accepted)
    requires Once(log) && (!e.cutoff ==> !Already(log, e.serial, e.side))
    ensures Once(log + [e])
  {
  }

  lemma AfterSendKeeps(c: Commander, d: Decision, side: nat, accepted: bool, now: nat)
    ensures var s := AfterSend(c, d, side, accepted, now);
            s.latest == c.latest && s.status.serial == c.status.serial && Shrinks(c.status.pending, s.status.pending)
    ensures accepted ==> AfterSend(c, d, side, accepted, now).status == c.status
  {
  }

  /** The side just sent: an accepted user send is in flight toward what the request wants. */
  lemma SentSideOnce(c: Commander, b: Button, sampled: nat, d: Decision, log: seq<Accepted>, side: nat, checked: nat, now: nat)
    requires side < 2 && SideOnce(c, b, sampled, d, true, log, side) && Known(c, d, log) && StillCurrent(c, d, side, checked)
    ensures var e := Accepted(d.serial, side, Bit(d.desired, side), Bit(d.cutoff, side));
            && (!e.cutoff ==> !Already(log, e.serial, side))
            && SideOnce(AfterSend(c, d, side, true, now), b.(flying := b.flying + [e.desired]), sampled, d, false, log + [e], side)
  {
    hide Already;
    AlreadyAppend(log, Accepted(d.serial, side, Bit(d.desired, side), Bit(d.cutoff, side)), c.status.serial, side);
  }

  /** The other side does not notice. */
  lemma OtherSideOnce(c: Commander, c': Commander, b: Button, sampled: nat, d: Decision, u: bool, log: seq<Accepted>, log': seq<Accepted>, side: nat)
    requires side < 2 && SideOnce(c, b, sampled, d, u, log, side) && c'.flights[side] == c.flights[side]
    requires c'.latest == c.latest && c'.status.serial == c.status.serial && Shrinks(c.status.pending, c'.status.pending)
    requires Already(log', c.status.serial, side) <==> Already(log, c.status.serial, side)
    ensures SideOnce(c', b, sampled, d, u, log', side) && SideOnce(c', b, sampled, d, false, log', side)
  {
    hide Already;
  }

  lemma SendOnce(w: World, side: nat, checked: nat, accepted: bool, now: nat)
    requires OnceSafe(w) && Enabled(w, Send(side, checked, accepted, now))
    ensures OnceSafe(Next(w, Send(side, checked, accepted, now)))
  {
    hide SideSafe, DecisionSafe, SideOnce, Already, Once, StillCurrent, AfterSend;
    SendKeeps(w, side, checked, accepted, now);
    var c, d := w.commander, w.decision;
    var v := Next(w, Send(side, checked, accepted, now));
    var other := 1 - side;
    AfterSendKeeps(c, d, side, accepted, now);
    AfterSendFlights(c, d, side, accepted, now);
    if StillCurrent(c, d, side, checked) && accepted {
      var e := Accepted(d.serial, side, Bit(d.desired, side), Bit(d.cutoff, side));
      SentSideOnce(c, w.buttons[side], w.sampled, d, w.log, side, checked, now);
      OnceAppend(w.log, e);
      AlreadyAppend(w.log, e, c.status.serial, other);
      OtherSideOnce(c, v.commander, w.buttons[other], w.sampled, d, Bit(w.undecided, other), w.log, v.log, other);
    } else {
      OtherSideOnce(c, v.commander, w.buttons[other], w.sampled, d, Bit(w.undecided, other), w.log, v.log, other);
      OtherSideOnce(c, v.commander, w.buttons[side], w.sampled, d, Bit(w.undecided, side), w.log, v.log, side);
    }
  }

  lemma AfterSendFlights(c: Commander, d: Decision, side: nat, accepted: bool, now: nat)
    requires side < 2
    ensures AfterSend(c, d, side, accepted, now).flights[1 - side] == c.flights[1 - side]
    ensures !accepted ==> AfterSend(c, d, side, accepted, now).flights == c.flights
  {
  }

  lemma ExecuteOnce(w: World, side: nat)
    requires OnceSafe(w) && Enabled(w, Execute(side))
    ensures OnceSafe(Next(w, Execute(side)))
  {
    hide SideSafe, DecisionSafe, Already, Once, Toggled, Waited;
    ExecuteKeeps(w, side);
    var v := Next(w, Execute(side));
    forall s | 0 <= s < 2
      ensures SideOnce(v.commander, v.buttons[s], v.sampled, v.decision, Bit(v.undecided, s), v.log, s)
    {
      assert SideOnce(w.commander, w.buttons[s], w.sampled, w.decision, Bit(w.undecided, s), w.log, s);
      if s == side { ToggleTurns(w.commander.flights[s], w.buttons[s], w.sampled); }
      else { WaitSettled(w.commander, w.buttons[s], w.sampled, s); }
    }
  }

  lemma WaitSettled(c: Commander, b: Button, sampled: nat, side: nat)
    requires side < 2 && SideSafe(c.flights[side], b, sampled)
    ensures Settled(c, b, sampled, side) ==> Settled(c, Waited(b), sampled, side)
  {
    var t := Waited(b);
    assert forall k | 0 <= k < |b.history| :: t.history[k] == b.history[k];
  }

  lemma RejectOnce(w: World, side: nat)
    requires OnceSafe(w) && Enabled(w, RejectSend(side))
    ensures OnceSafe(Next(w, RejectSend(side)))
  {
    hide DecisionSafe, Already, Once, Turned;
    RejectKeeps(w, side);
    var v := Next(w, RejectSend(side));
    forall s | 0 <= s < 2
      ensures SideOnce(v.commander, v.buttons[s], v.sampled, v.decision, Bit(v.undecided, s), v.log, s)
    {
      assert SideOnce(w.commander, w.buttons[s], w.sampled, w.decision, Bit(w.undecided, s), w.log, s);
    }
  }

  lemma PassOnce(w: World)
    requires OnceSafe(w)
    ensures OnceSafe(Next(w, Pass))
  {
    hide SideSafe, DecisionSafe, Already, Once, Waited;
    PassKeeps(w);
    var v := Next(w, Pass);
    forall s | 0 <= s < 2
      ensures SideOnce(v.commander, v.buttons[s], v.sampled, v.decision, Bit(v.undecided, s), v.log, s)
    {
      assert SideOnce(w.commander, w.buttons[s], w.sampled, w.decision, Bit(w.undecided, s), w.log, s);
      WaitSettled(w.commander, w.buttons[s], w.sampled, s);
    }
  }

  lemma ResetOnce(w: World)
    requires OnceSafe(w) && NoFlight(w.commander)
    ensures OnceSafe(Next(w, Reset))
  {
    hide Already, Once, Settled;
    ResetKeeps(w);
  }

  /** A session reset is quiet when the dispatcher has no flight. */
  predicate Quiet(w: World, a: Action) {
    a.Reset? ==> NoFlight(w.commander)
  }

  lemma OnceKept(w: World, a: Action)
    requires OnceSafe(w) && Enabled(w, a) && Quiet(w, a)
    ensures OnceSafe(Next(w, a))
  {
    hide OnceSafe, Next;
    match a
    case Ask(_, _, _, _, _, _) => AskOnce(w, a);
    case Sample(index) => SampleOnce(w, index);
    case Step(ctx) => StepOnce(w, ctx);
    case Send(side, checked, accepted, now) => SendOnce(w, side, checked, accepted, now);
    case Execute(side) => ExecuteOnce(w, side);
    case RejectSend(side) => RejectOnce(w, side);
    case Pass() => PassOnce(w);
    case Reset() => ResetOnce(w);
  }

  // ----- whole runs -----

  predicate AllEnabled(w: World, actions: seq<Action>)
    decreases |actions|
  {
    |actions| == 0 || (Shaped(w) && Enabled(w, actions[0]) && AllEnabled(Next(w, actions[0]), actions[1..]))
  }

  function RunAll(w: World, actions: seq<Action>): World
    requires AllEnabled(w, actions)
    decreases |actions|
  {
    if |actions| == 0 then w else RunAll(Next(w, actions[0]), actions[1..])
  }

  /** Every reset of the run comes while the dispatcher has no flight. */
  predicate QuietRun(w: World, actions: seq<Action>)
    requires AllEnabled(w, actions)
    decreases |actions|
  {
    |actions| == 0 || (Quiet(w, actions[0]) && QuietRun(Next(w, actions[0]), actions[1..]))
  }

  lemma StartSafe(w: World)
    requires Start(w)
    ensures OnceSafe(w)
  {
  }

  lemma {:induction false} RunSafe(w: World, actions: seq<Action>)
    requires OnceSafe(w) && AllEnabled(w, actions) && QuietRun(w, actions)
    ensures OnceSafe(RunAll(w, actions))
    decreases |actions|
  {
    hide OnceSafe, Next, Quiet;
    if |actions| > 0 {
      OnceKept(w, actions[0]);
      RunSafe(Next(w, actions[0]), actions[1..]);
    }
  }

  /** Each side has at most one accepted toggle outstanding, and if it runs now it takes the latch from the
      position not wanted to the one wanted; and no request was sent twice to a side. */
  predicate ToggleSafe(v: World) {
    && Shaped(v) && Once(v.log)
    && forall side | 0 <= side < 2 ::
         && |v.buttons[side].flying| <= 1
         && (v.buttons[side].flying != [] ==>
               Last(v.buttons[side]) == !v.buttons[side].flying[0] && Last(Toggled(v.buttons[side])) == v.buttons[side].flying[0])
  }

  lemma SafeToggles(v: World)
    requires OnceSafe(v)
    ensures ToggleSafe(v)
  {
    hide Once, SideOnce, DecisionSafe;
    forall side | 0 <= side < 2 && v.buttons[side].flying != []
      ensures Last(v.buttons[side]) == !v.buttons[side].flying[0] && Last(Toggled(v.buttons[side])) == v.buttons[side].flying[0]
    {
      ToggleTurns(v.commander.flights[side], v.buttons[side], v.sampled);
    }
  }

  /** Toggle safety, over every run whose resets are quiet. */
  lemma ToggleSafety(w: World, actions: seq<Action>)
    requires Start(w) && AllEnabled(w, actions) && QuietRun(w, actions)
    ensures ToggleSafe(RunAll(w, actions))
  {
    hide Start, AllEnabled, RunAll, QuietRun, OnceSafe, ToggleSafe;
    StartSafe(w);
    RunSafe(w, actions);
    SafeToggles(RunAll(w, actions));
  }

  // ----- runs fed by the speed cutoff -----

  /** An action, and for a step the readings the worker gives to the cutoff before it. */
  datatype Fed = Fed(action: Action, reading: Reading)

  predicate FedEnabled(w: World, cut: Cutoff, x: Fed)
    requires Shaped(w)
  {
    if x.action.Step? then
      Composed(cut, x.reading, x.action.ctx) && (FreshButtons(x.action.ctx) ==> Sampled(w, x.action.ctx.actual))
    else Enabled(w, x.action)
  }

  /** What the action does to the cutoff: update before a step, note its own sends and rejections, start afresh on reset. */
  function CutoffNext(w: World, cut: Cutoff, x: Fed): Cutoff {
    match x.action
    case Step(_) => UpdatedCutoff(cut, x.reading).0
    case Send(side, checked, accepted, _) =>
      if StillCurrent(w.commander, w.decision, side, checked) && Bit(w.decision.cutoff, side) then AfterOp(cut, SentOp(side, accepted)) else cut
    case RejectSend(side) => AfterOp(cut, RejectedOp(side))
    case Reset => CALM
    case _ => cut
  }

  lemma FedIsEnabled(w: World, cut: Cutoff, x: Fed)
    requires Shaped(w) && FedEnabled(w, cut, x)
    ensures Enabled(w, x.action)
  {
    if x.action.Step? { CommandsInhibit(cut, x.reading); }
  }

  predicate AllFed(w: World, cut: Cutoff, feeds: seq<Fed>)
    decreases |feeds|
  {
    |feeds| == 0 ||
    (Shaped(w) && FedEnabled(w, cut, feeds[0]) &&
     (FedIsEnabled(w, cut, feeds[0]); AllFed(Next(w, feeds[0].action), CutoffNext(w, cut, feeds[0]), feeds[1..])))
  }

  function Actions(feeds: seq<Fed>): (r: seq<Action>)
    ensures |r| == |feeds|
  {
    if feeds == [] then [] else [feeds[0].action] + Actions(feeds[1..])
  }

  lemma {:induction false} FedRuns(w: World, cut: Cutoff, feeds: seq<Fed>)
    requires AllFed(w, cut, feeds)
    ensures AllEnabled(w, Actions(feeds))
    decreases |feeds|
  {
    hide Next, FedEnabled, CutoffNext;
    if |feeds| > 0 {
      FedIsEnabled(w, cut, feeds[0]);
      FedRuns(Next(w, feeds[0].action), CutoffNext(w, cut, feeds[0]), feeds[1..]);
      assert Actions(feeds)[1..] == Actions(feeds[1..]);
    }
  }

  /** Toggle safety of the dispatcher and the cutoff together, as the worker drives them. */
  lemma FedToggleSafety(w: World, feeds: seq<Fed>)
    requires Start(w) && AllFed(w, CALM, feeds)
    requires (FedRuns(w, CALM, feeds); QuietRun(w, Actions(feeds)))
    ensures AllEnabled(w, Actions(feeds)) && ToggleSafe(RunAll(w, Actions(feeds)))
  {
    FedRuns(w, CALM, feeds);
    ToggleSafety(w, Actions(feeds));
  }
}
