/** When a TAXI button request is served, over the history of requests, steps and sends: it is sent only within its
    lifetime, permission, session and profile, and otherwise it ends failed with the reason. */
module TaxiRequests {
  import opened TaxiButtons
  import opened TaxiCutoff

  /** One call of the dispatcher. */
  datatype Call =
    | Ask(request: Request, permitted: bool, now: nat, epoch: nat, profile: nat, aircraftButtons: bool)
    | Step(ctx: Context)
    | Sent(decision: Decision, side: nat, accepted: bool, now: nat)
    | Rejected(side: nat)
    | Reset

  function AfterCall(c: Commander, call: Call): Commander {
    match call
    case Ask(r, permitted, now, epoch, profile, aircraftButtons) => Updated(c, r, permitted, now, epoch, profile, aircraftButtons)
    case Step(ctx) => Stepped(c, ctx).0
    case Sent(d, side, accepted, now) => AfterSend(c, d, side, accepted, now)
    case Rejected(side) => AfterRejection(c, side)
    case Reset => SessionReset(c)
  }

  /** The dispatcher after these calls. */
  function After(calls: seq<Call>): Commander
    decreases |calls|
  {
    if |calls| == 0 then IDLE else AfterCall(After(calls[..|calls| - 1]), calls[|calls| - 1])
  }

  // ----- the history -----

  datatype Taken = Taken(request: Request, now: nat)

  /** The last request whose serial was above every earlier one, and when it came. */
  function LastTaken(calls: seq<Call>): Taken
    decreases |calls|
  {
    if |calls| == 0 then Taken(Request(0, 0, 0, NONE, NONE), 0)
    else
      var before, call := LastTaken(calls[..|calls| - 1]), calls[|calls| - 1];
      if call.Ask? && call.request.serial > before.request.serial then Taken(call.request, call.now) else before
  }

  /** Whether the last ask was permitted, with no reset since, and at most 500 ms ago. */
  predicate Permitted(calls: seq<Call>, now: nat)
    decreases |calls|
  {
    if |calls| == 0 then false
    else
      match calls[|calls| - 1]
      case Ask(_, permitted, at, _, _, _) => permitted && at <= now <= at + 500
      case Reset => false
      case _ => Permitted(calls[..|calls| - 1], now)
  }

  ghost predicate Follows(c: Commander, calls: seq<Call>) {
    && c.latest == LastTaken(calls).request && c.startedMs == LastTaken(calls).now && c.status.serial == c.latest.serial
    && (forall now: nat :: PermissionCurrent(c, now) <==> Permitted(calls, now))
    && (c.status.pending.left ==> c.latest.selected.left) && (c.status.pending.right ==> c.latest.selected.right)
    && !(c.status.pending.stray) && (Any(c.status.pending) ==> WellFormed(c.latest))
  }

  /** The dispatcher's request, its time and its permission are those of the history. */
  lemma {:induction false} HistoryFollows(calls: seq<Call>)
    ensures Follows(After(calls), calls)
    decreases |calls|
  {
    if calls != [] {
      var before := calls[..|calls| - 1];
      HistoryFollows(before);
      FollowsOnce(After(before), calls);
    }
  }

  lemma FollowsOnce(c: Commander, calls: seq<Call>)
    requires calls != [] && Follows(c, calls[..|calls| - 1])
    ensures Follows(AfterCall(c, calls[|calls| - 1]), calls)
  {
    hide Stepped, Acknowledged, WellFormed, Updated;
    var call := calls[|calls| - 1];
    if call.Ask? {
      AskFollows(c, calls);
    } else {
      if call.Step? { StepFollows(c, call.ctx); }
      forall now: nat ensures PermissionCurrent(AfterCall(c, call), now) <==> Permitted(calls, now) {
        assert PermissionCurrent(c, now) <==> Permitted(calls[..|calls| - 1], now);
      }
    }
  }

  lemma AskFollows(c: Commander, calls: seq<Call>)
    requires calls != [] && Follows(c, calls[..|calls| - 1]) && calls[|calls| - 1].Ask?
    ensures Follows(AfterCall(c, calls[|calls| - 1]), calls)
  {
  }

  /** A step keeps the request, its time and its permission, and adds nothing to what is pending. */
  lemma StepFollows(c: Commander, ctx: Context)
    ensures var s := Stepped(c, ctx).0;
            && s.latest == c.latest && s.startedMs == c.startedMs && s.permission == c.permission && s.permissionMs == c.permissionMs
            && s.status.serial == c.status.serial && Within(s.status.pending, c.status.pending)
  {
    hide Acknowledged, SideStep;
    var d := Decision(NONE, NONE, NONE, c.status.serial, ctx.sample);
    var s := c.(status := Screened(c, ctx));
    var first := SideStep(s, ctx, d, 0);
    TurnFollows(s, ctx, d, 0);
    TurnFollows(first.commander, ctx, first.decision, 1);
  }

  predicate Within(p: Mask, q: Mask) { (p.left ==> q.left) && (p.right ==> q.right) && (p.stray ==> q.stray) }

  lemma TurnFollows(c: Commander, ctx: Context, d: Decision, side: nat)
    requires side < 2
    ensures var s := SideStep(c, ctx, d, side).commander;
            && s.latest == c.latest && s.startedMs == c.startedMs && s.permission == c.permission && s.permissionMs == c.permissionMs
            && s.status.serial == c.status.serial && Within(s.status.pending, c.status.pending)
  {
    hide Acknowledged;
  }

  // ----- what a step may serve -----

  /** Why a pending request may no longer be served, in the order of the checks. */
  function Trouble(c: Commander, ctx: Context): Error {
    if !(c.permission && c.permissionMs <= ctx.now <= c.permissionMs + 500) then PermissionExpired
    else if c.latest.epoch != ctx.epoch || c.latest.profile != ctx.profile || !ctx.aircraftButtons then SessionChanged
    else if !(c.startedMs <= ctx.now < c.startedMs + 3000) then AckTimeout
    else if ctx.inhibited && ((c.latest.desired.left && c.status.pending.left) || (c.latest.desired.right && c.status.pending.right) ||
                              (c.latest.desired.stray && c.status.pending.stray)) then SpeedInhibited
    else NoError
  }

  /** A pending request that may no longer be served fails with the reason before any side is looked at; any other
      status stays. */
  lemma ScreenedExactly(c: Commander, ctx: Context)
    ensures Screened(c, ctx) ==
            if (c.status.pending.left || c.status.pending.right || c.status.pending.stray) && Trouble(c, ctx) != NoError
            then Status(c.status.serial, NONE, true, Trouble(c, ctx)) else c.status
  {
  }

  /** And with it the whole step sends nothing but OFF commands of the cutoff. */
  lemma StaleFails(c: Commander, ctx: Context, side: nat)
    requires side < 2 && Any(c.status.pending) && Trouble(c, ctx) != NoError
    ensures Stepped(c, ctx).0.status == Status(c.status.serial, NONE, true, Trouble(c, ctx))
    ensures Bit(Stepped(c, ctx).1.send, side) ==> Bit(Stepped(c, ctx).1.cutoff, side) && Bit(ctx.cutoff, side) && !Bit(Stepped(c, ctx).1.desired, side)
  {
    hide Acknowledged, Trouble, SideStep, Screened;
    ScreenedExactly(c, ctx);
    var s := c.(status := Screened(c, ctx));
    var d := Decision(NONE, NONE, NONE, c.status.serial, ctx.sample);
    FailedTurn(s, ctx, d, 0);
    var first := SideStep(s, ctx, d, 0);
    FailedTurn(first.commander, ctx, first.decision, 1);
  }

  lemma FailedTurn(c: Commander, ctx: Context, d: Decision, side: nat)
    requires side < 2 && c.status.pending == NONE
    ensures var r := SideStep(c, ctx, d, side);
            && !r.stop && r.commander.status == c.status && r.decision.desired == d.desired
            && (forall other: nat | other < 2 && other != side ::
                  (Bit(r.decision.send, other) <==> Bit(d.send, other)) && (Bit(r.decision.cutoff, other) <==> Bit(d.cutoff, other)))
            && (Bit(r.decision.send, side) ==> Bit(d.send, side) || (Bit(r.decision.cutoff, side) && Bit(ctx.cutoff, side)))
            && (Bit(d.cutoff, side) ==> Bit(r.decision.cutoff, side))
  {
    hide Acknowledged;
  }

  /** Fed the readings the cutoff was fed, a step sends a side exactly when its sample is recent, no earlier toggle of
      the side is unacknowledged, and either the cutoff commands the lit side or the pending request wants the other
      position and is still served. */
  lemma ServedExactly(cut: Cutoff, r: Reading, c: Commander, ctx: Context, side: nat)
    requires Composed(cut, r, ctx) && side < 2
    ensures Bit(Stepped(c, ctx).1.send, side) <==>
              && ctx.identityValid && ctx.aircraftButtons && ctx.buttonsValid && 0 < ctx.sample <= ctx.now <= ctx.sample + 500
              && (c.flights[side].active ==> ctx.sample > c.flights[side].sample && ctx.sample > c.flights[side].sent &&
                                             Bit(ctx.actual, side) == c.flights[side].desired)
              && ((Bit(ctx.cutoff, side) && Bit(ctx.actual, side)) ||
                  (Bit(c.status.pending, side) && Trouble(c, ctx) == NoError && ctx.speedUsable &&
                   Bit(ctx.actual, side) != Bit(c.latest.desired, side)))
  {
    hide Trouble, Screened, Stepped, Composed;
    SendsExactly(cut, r, c, ctx, side);
    ScreenedExactly(c, ctx);
  }

  /** Over every history: what a step sends, other than the cutoff's OFF, is the last taken request's, first taken less
      than 3000 ms before, asked for with permission within the last 500 ms, for this session and profile, toward the
      position it asked for and the light does not show. */
  lemma SendsInTime(calls: seq<Call>, ctx: Context, side: nat)
    requires side < 2
    requires var d := Stepped(After(calls), ctx).1; Bit(d.send, side) && !Bit(d.cutoff, side)
    ensures var t, d := LastTaken(calls), Stepped(After(calls), ctx).1;
            && t.now <= ctx.now < t.now + 3000 && Permitted(calls, ctx.now)
            && t.request.epoch == ctx.epoch && t.request.profile == ctx.profile && ctx.aircraftButtons && ctx.identityValid
            && d.serial == t.request.serial && Bit(t.request.selected, side)
            && ctx.buttonsValid && 0 < ctx.sample <= ctx.now <= ctx.sample + 500
            && Bit(ctx.actual, side) != Bit(t.request.desired, side)
  {
    hide After, LastTaken, Permitted, SideStep, Screened, Trouble, Acknowledged;
    var c := After(calls);
    HistoryFollows(calls);
    ScreenedExactly(c, ctx);
    var s := c.(status := Screened(c, ctx));
    var d := Decision(NONE, NONE, NONE, c.status.serial, ctx.sample);
    RequestTurn(s, ctx, d, 0);
    var first := SideStep(s, ctx, d, 0);
    RequestTurn(first.commander, ctx, first.decision, 1);
    TroubleMeans(c, ctx);
  }

  lemma TroubleMeans(c: Commander, ctx: Context)
    requires Trouble(c, ctx) == NoError
    ensures PermissionCurrent(c, ctx.now) && c.startedMs <= ctx.now < c.startedMs + 3000
    ensures c.latest.epoch == ctx.epoch && c.latest.profile == ctx.profile && ctx.aircraftButtons
  {
  }

  predicate CutoffsSent(d: Decision) { (d.cutoff.left ==> d.send.left) && (d.cutoff.right ==> d.send.right) }

  lemma RequestTurn(c: Commander, ctx: Context, d: Decision, side: nat)
    requires side < 2 && CutoffsSent(d) && !Bit(d.send, side)
    ensures var r := SideStep(c, ctx, d, side);
            && r.commander.latest == c.latest && r.decision.serial == d.serial && Within(r.commander.status.pending, c.status.pending)
            && CutoffsSent(r.decision)
            && (forall k: nat | k < 2 && k != side ::
                  (Bit(r.decision.send, k) ==> Bit(d.send, k)) && (Bit(r.decision.cutoff, k) <==> Bit(d.cutoff, k)))
            && (Bit(r.decision.send, side) && !Bit(r.decision.cutoff, side) ==>
                  Bit(c.status.pending, side) && Bit(ctx.actual, side) != Bit(c.latest.desired, side))
  {
    hide Acknowledged;
  }

  /** What such a step leaves of one side: a toggle stays in flight until a later sample shows its position, and a
      request stays pending until it is in trouble or a usable reading shows the position it wants. */
  lemma LeavesExactly(cut: Cutoff, r: Reading, c: Commander, ctx: Context, side: nat)
    requires Composed(cut, r, ctx) && side < 2
    ensures var s, f, actual := Stepped(c, ctx).0, c.flights[side], Bit(ctx.actual, side);
            var sees := ctx.identityValid && ctx.aircraftButtons && ctx.buttonsValid && 0 < ctx.sample <= ctx.now <= ctx.sample + 500;
            var lands := f.active && ctx.sample > f.sample && ctx.sample > f.sent && actual == f.desired;
            && s.flights[side] == (if sees && lands then Flight(false, false, 0, 0, 0) else f)
            && (Bit(s.status.pending, side) <==>
                  && Bit(c.status.pending, side) && Trouble(c, ctx) == NoError
                  && !(sees && (f.active ==> lands) && !(Bit(ctx.cutoff, side) && actual) && ctx.speedUsable && actual == Bit(c.latest.desired, side)))
  {
    hide Trouble, Screened, SideStep, Composed;
    AbortUnreachable(cut, r, c, ctx);
    ScreenedExactly(c, ctx);
    var none := Decision(NONE, NONE, NONE, c.status.serial, ctx.sample);
    var s := c.(status := Screened(c, ctx));
    TurnLeaves(s, ctx, none, 0);
    var first := SideStep(s, ctx, none, 0);
    TurnLeaves(first.commander, ctx, first.decision, 1);
  }

  lemma TurnLeaves(c: Commander, ctx: Context, d: Decision, side: nat)
    requires side < 2 && !SideStep(c, ctx, d, side).stop
    ensures var s, f, actual := SideStep(c, ctx, d, side).commander, c.flights[side], Bit(ctx.actual, side);
            var lands := f.active && ctx.sample > f.sample && ctx.sample > f.sent && actual == f.desired;
            && s.latest == c.latest && s.flights[1 - side] == c.flights[1 - side]
            && (Bit(s.status.pending, 1 - side) <==> Bit(c.status.pending, 1 - side))
            && s.flights[side] == (if lands then NO_FLIGHT else f)
            && (Bit(s.status.pending, side) <==>
                  Bit(c.status.pending, side) &&
                  !((f.active ==> lands) && !(Bit(ctx.cutoff, side) && actual) && ctx.speedUsable && actual == Bit(c.latest.desired, side)))
  {
  }

  // ----- single calls, literally -----

  /** A request with a new serial is consumed whatever becomes of it; it starts pending unless it is malformed, not
      permitted, without buttons, or for another session or profile. */
  lemma NewRequestExactly(c: Commander, r: Request, permitted: bool, now: nat, epoch: nat, profile: nat, aircraftButtons: bool)
    requires r.serial > c.latest.serial
    ensures var u := Updated(c, r, permitted, now, epoch, profile, aircraftButtons);
            var malformed := r.selected.stray || r.desired.stray || (r.desired.left && !r.selected.left) || (r.desired.right && !r.selected.right);
            && u.latest == r && u.startedMs == now && u.permission == permitted && u.permissionMs == now && u.flights == c.flights
            && u.status.serial == r.serial
            && (u.status.pending == r.selected && !u.status.failed && u.status.error == NoError <==>
                  !malformed && (r.selected == NONE || (permitted && aircraftButtons && epoch != 0 && r.epoch == epoch && r.profile == profile)))
            && (u.status.failed ==>
                  u.status.pending == NONE &&
                  u.status.error == (if malformed then Invalid else if !permitted then NotPermitted
                                     else if !aircraftButtons then Unavailable else SessionChanged))
  {
  }

  /** A seen serial starts nothing: at most it fails what is pending, when permission is withdrawn, the request is
      cancelled, or the same serial comes with other contents. */
  lemma OldRequestExactly(c: Commander, r: Request, permitted: bool, now: nat, epoch: nat, profile: nat, aircraftButtons: bool)
    requires r.serial <= c.latest.serial
    ensures var u := Updated(c, r, permitted, now, epoch, profile, aircraftButtons);
            && u.latest == c.latest && u.startedMs == c.startedMs && u.permission == permitted && u.permissionMs == now
            && u.flights == c.flights
            && u.status == if (c.status.pending.left || c.status.pending.right || c.status.pending.stray) &&
                              (!permitted || r.serial == 0 || (r.serial == c.latest.serial && r != c.latest))
                           then Status(c.status.serial, NONE, true, if !permitted then NotPermitted else if r.serial == 0 then RequestCancelled else Changed)
                           else c.status
  {
  }

  /** A decision may still be sent exactly when it sends this side, nothing is in flight there, and it is a cutoff or
      the same request is pending with permission at most 500 ms old. */
  lemma CurrentExactly(c: Commander, d: Decision, side: nat, now: nat)
    ensures StillCurrent(c, d, side, now) <==>
              && side < 2 && Bit(d.send, side) && !c.flights[side].active
              && (Bit(d.cutoff, side) || (c.permission && c.permissionMs <= now <= c.permissionMs + 500 &&
                                          d.serial == c.status.serial && Bit(c.status.pending, side)))
  {
  }

  /** An accepted send is in flight with its position, sample, time and serial; a refused one fails its own request
      unless it was the cutoff's; no other side's flight changes. */
  lemma SentExactly(c: Commander, d: Decision, side: nat, accepted: bool, now: nat)
    requires side < 2 && Bit(d.send, side)
    ensures var u := AfterSend(c, d, side, accepted, now);
            && u.flights[1 - side] == c.flights[1 - side] && u.latest == c.latest
            && u.flights[side] == (if accepted then Flight(true, Bit(d.desired, side), d.sample, now, d.serial) else c.flights[side])
            && u.status == if !accepted && !Bit(d.cutoff, side) && d.serial == c.status.serial && Any(c.status.pending)
                           then Status(c.status.serial, NONE, true, CommandFailed) else c.status
  {
  }

  /** A rejection takes the toggle out of flight and fails the request that sent it, if it is still the pending one. */
  lemma RejectedExactly(c: Commander, side: nat)
    requires side < 2 && c.flights[side].active
    ensures var u := AfterRejection(c, side);
            && !u.flights[side].active && u.flights[1 - side] == c.flights[1 - side] && u.latest == c.latest
            && u.status == if c.flights[side].serial == c.status.serial && Any(c.status.pending)
                           then Status(c.status.serial, NONE, true, CommandRejected) else c.status
  {
  }
}
