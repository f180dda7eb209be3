/** The speed cutoff: above the limit it demands OFF for each side that is on, and it keeps inhibiting
    until a fresh sample shows each side off. */
module TaxiCutoff {
  import opened TaxiButtons

  const RETRY_MS: nat := 1000

  type Waits = s: seq<bool> | |s| == 2 witness [false, false]
  type Times = s: seq<nat> | |s| == 2 witness [0, 0]

  datatype Cutoff = Cutoff(over: bool, pending: Mask, waiting: Waits, sentSample: Times, nextAttempt: Times)

  const CALM: Cutoff := Cutoff(false, NONE, [false, false], [0, 0], [0, 0])

  /** `speedUsable` means valid, finite and not negative. */
  datatype Reading = Reading(now: nat, speedUsable: bool, knots: real, buttonsValid: bool, on: Mask, sample: nat, limit: real, aircraftButtons: bool)

  predicate FreshReading(r: Reading) {
    r.buttonsValid && r.sample != 0 && r.sample <= r.now && r.now - r.sample <= 500
  }

  function Over(c: Cutoff, r: Reading): bool { if r.speedUsable then r.knots > r.limit else c.over }

  /** A fresh sample of a side that is off, later than any awaited send. */
  predicate SeenOff(c: Cutoff, r: Reading, side: nat)
    requires side < 2
  {
    FreshReading(r) && !Bit(r.on, side) && (c.waiting[side] ==> r.sample > c.sentSample[side])
  }

  predicate Commands(c: Cutoff, r: Reading, side: nat)
    requires side < 2
  {
    Bit(r.on, side) && Bit(c.pending, side) && !c.waiting[side] && r.now >= c.nextAttempt[side]
  }

  function AfterSide(c: Cutoff, r: Reading, side: nat): Cutoff
    requires side < 2
  {
    if !Bit(r.on, side) then
      if SeenOff(c, r, side) then c.(pending := With(c.pending, side, false), waiting := c.waiting[side := false]) else c
    else if Commands(c, r, side) then
      c.(sentSample := c.sentSample[side := r.sample], nextAttempt := c.nextAttempt[side := r.now + RETRY_MS])
    else c
  }

  /** The state the loop over the sides starts from. */
  function Latched(c: Cutoff, r: Reading): Cutoff {
    var o := c.(over := Over(c, r));
    if o.over then o.(pending := Mask(true, true, o.pending.stray)) else o
  }

  function UpdatedCutoff(c: Cutoff, r: Reading): (Cutoff, Mask) {
    if !r.aircraftButtons then (c.(over := Over(c, r), pending := NONE, waiting := [false, false]), NONE)
    else
      var l := Latched(c, r);
      if !FreshReading(r) then (l, NONE)
      else
        var first := AfterSide(l, r, 0);
        (AfterSide(first, r, 1), Mask(Commands(l, r, 0), Commands(first, r, 1), false))
  }

  predicate Inhibits(c: Cutoff) { c.over || Any(c.pending) }

  class TaxiSpeedCutoff {
    var over: bool
    var pending: Mask
    var waiting: Waits
    var sentSample: Times
    var nextAttempt: Times

    function Value(): Cutoff
      reads this
    {
      Cutoff(over, pending, waiting, sentSample, nextAttempt)
    }

    constructor ()
      ensures Value() == CALM
    {
      over, pending, waiting, sentSample, nextAttempt := false, NONE, [false, false], [0, 0], [0, 0];
    }

    method UpdateSide(r: Reading, commands: Mask, side: nat) returns (m: Mask)
      requires side < 2 && FreshReading(r) && (over ==> Bit(pending, side) || !Bit(r.on, side))
      modifies this`pending, this`waiting, this`sentSample, this`nextAttempt
      ensures Value() == AfterSide(old(Value()), r, side)
      ensures m == if Commands(old(Value()), r, side) then With(commands, side, true) else commands
    {
      m := commands;
      if !Bit(r.on, side) {
        if !waiting[side] || r.sample > sentSample[side] {
          pending := With(pending, side, false);
          waiting := waiting[side := false];
        }
        return;
      }
      if over { pending := With(pending, side, true); }
      if Bit(pending, side) && !waiting[side] && r.now >= nextAttempt[side] {
        m := With(m, side, true);
        sentSample := sentSample[side := r.sample];
        nextAttempt := nextAttempt[side := r.now + RETRY_MS];
      }
    }

    method Update(r: Reading) returns (commands: Mask)
      modifies this
      ensures (Value(), commands) == UpdatedCutoff(old(Value()), r)
    {
      hide AfterSide;
      commands := NONE;
      if r.speedUsable { over := r.knots > r.limit; }
      if !r.aircraftButtons {
        pending := NONE;
        waiting := [false, false];
        return;
      }
      if over { pending := Mask(true, true, pending.stray); }
      if !FreshReading(r) { return; }
      ghost var l := Value();
      commands := UpdateSide(r, commands, 0);
      SideKept(l, r);
      commands := UpdateSide(r, commands, 1);
    }

    static lemma SideKept(c: Cutoff, r: Reading)
      ensures AfterSide(c, r, 0).over == c.over && AfterSide(c, r, 0).pending.right == c.pending.right
    {
    }

    method Sent(side: nat, accepted: bool)
      modifies this`waiting
      ensures waiting == if side < 2 && accepted then old(waiting)[side := true] else old(waiting)
    {
      if side < 2 && accepted { waiting := waiting[side := true]; }
    }

    /** A rejection proves the command did not run; OFF stays demanded. */
    method Rejected(side: nat)
      modifies this`waiting
      ensures waiting == if side < 2 then old(waiting)[side := false] else old(waiting)
    {
      if side < 2 { waiting := waiting[side := false]; }
    }

    method Inhibited() returns (r: bool)
      ensures r <==> Inhibits(Value())
    {
      r := over || Any(pending);
    }
  }

  // ----- inhibition over runs -----

  datatype Op = UpdateOp(reading: Reading) | SentOp(side: nat, accepted: bool) | RejectedOp(side: nat)

  function AfterOp(c: Cutoff, op: Op): Cutoff {
    match op
    case UpdateOp(r) => UpdatedCutoff(c, r).0
    case SentOp(side, accepted) => if side < 2 && accepted then c.(waiting := c.waiting[side := true]) else c
    case RejectedOp(side) => if side < 2 then c.(waiting := c.waiting[side := false]) else c
  }

  function AfterOps(c: Cutoff, ops: seq<Op>): Cutoff
    decreases |ops|
  {
    if |ops| == 0 then c else AfterOps(AfterOp(c, ops[0]), ops[1..])
  }

  /** This operation releases the demand for the side: its light is seen off afresh, or the aircraft has no buttons. */
  predicate Releases(c: Cutoff, op: Op, side: nat)
    requires side < 2
  {
    op.UpdateOp? && (!op.reading.aircraftButtons || SeenOff(c, op.reading, side))
  }

  predicate NeverReleased(c: Cutoff, ops: seq<Op>, side: nat)
    requires side < 2
    decreases |ops|
  {
    |ops| == 0 || (!Releases(c, ops[0], side) && NeverReleased(AfterOp(c, ops[0]), ops[1..], side))
  }

  lemma DemandKept(c: Cutoff, op: Op, side: nat)
    requires side < 2 && Bit(c.pending, side) && !Releases(c, op, side)
    ensures Bit(AfterOp(c, op).pending, side)
  {
  }

  /** Conversely, a release does end the side's demand. */
  lemma DemandEnds(c: Cutoff, r: Reading, side: nat)
    requires side < 2 && Releases(c, UpdateOp(r), side)
    ensures !Bit(UpdatedCutoff(c, r).0.pending, side)
  {
  }

  lemma {:induction false} DemandPersists(c: Cutoff, ops: seq<Op>, side: nat)
    requires side < 2 && Bit(c.pending, side) && NeverReleased(c, ops, side)
    ensures Bit(AfterOps(c, ops).pending, side) && Inhibits(AfterOps(c, ops))
    decreases |ops|
  {
    if |ops| > 0 {
      DemandKept(c, ops[0], side);
      DemandPersists(AfterOp(c, ops[0]), ops[1..], side);
    }
  }

  /** From a crossing of the limit, inhibition lasts until a fresh sample, later than any awaited send,
      shows each side off. */
  lemma CrossingInhibits(c: Cutoff, r: Reading, ops: seq<Op>, side: nat)
    requires side < 2 && r.aircraftButtons && r.speedUsable && r.knots > r.limit
    requires var crossed := UpdatedCutoff(c, r).0; !SeenOff(Latched(c, r), r, side) && NeverReleased(crossed, ops, side)
    ensures Inhibits(AfterOps(UpdatedCutoff(c, r).0, ops))
  {
    var crossed := UpdatedCutoff(c, r).0;
    assert Bit(crossed.pending, side);
    DemandPersists(crossed, ops, side);
  }

  // ----- cutoff and dispatcher together -----

  /** The context the worker builds for the dispatcher from the cutoff's update of the same readings. */
  predicate Composed(cut: Cutoff, r: Reading, ctx: Context) {
    var (after, commands) := UpdatedCutoff(cut, r);
    && ctx.now == r.now && ctx.sample == r.sample && ctx.actual == r.on && ctx.cutoff == commands
    && ctx.buttonsValid == r.buttonsValid && ctx.speedUsable == r.speedUsable && ctx.knots == r.knots && ctx.limit == r.limit
    && ctx.aircraftButtons == r.aircraftButtons && ctx.inhibited == Inhibits(after)
  }

  /** A cutoff command implies inhibition. */
  lemma CommandsInhibit(cut: Cutoff, r: Reading)
    ensures Any(UpdatedCutoff(cut, r).1) ==> Inhibits(UpdatedCutoff(cut, r).0)
  {
  }

  /** Every ON of the decision so far is a send, no cutoff, and within the limit. */
  predicate OnsAllowed(d: Decision, ctx: Context) {
    OnAllowed(d, ctx, 0) && OnAllowed(d, ctx, 1)
  }

  predicate OnAllowed(d: Decision, ctx: Context, side: nat)
    requires side < 2
  {
    Bit(d.desired, side) ==>
      !ctx.inhibited && ctx.speedUsable && ctx.knots <= ctx.limit && Bit(d.send, side) && !Bit(d.cutoff, side)
  }

  lemma TurnAllowed(c: Commander, ctx: Context, d: Decision, side: nat)
    requires side < 2 && OnsAllowed(d, ctx) && !Bit(d.send, side) && !Bit(d.desired, side) && !Bit(d.cutoff, side)
    ensures var r := SideStep(c, ctx, d, side).decision;
            OnsAllowed(r, ctx) && (Bit(r.cutoff, 1 - side) <==> Bit(d.cutoff, 1 - side)) &&
            (Bit(r.send, 1 - side) ==> Bit(d.send, 1 - side)) && (Bit(r.desired, 1 - side) ==> Bit(d.desired, 1 - side))
  {
    hide Acknowledged, Fail;
  }

  /** No ON is decided while inhibited or above the limit. */
  lemma NoOnAboveLimit(c: Commander, ctx: Context, side: nat)
    requires side < 2 && Bit(Stepped(c, ctx).1.desired, side)
    ensures !ctx.inhibited && ctx.speedUsable && ctx.knots <= ctx.limit && Bit(Stepped(c, ctx).1.send, side)
    ensures !Bit(Stepped(c, ctx).1.cutoff, side)
  {
    hide SideStep, Screened, FreshButtons;
    var none := Decision(NONE, NONE, NONE, c.status.serial, ctx.sample);
    var s := c.(status := Screened(c, ctx));
    TurnAllowed(s, ctx, none, 0);
    var first := SideStep(s, ctx, none, 0);
    TurnAllowed(first.commander, ctx, first.decision, 1);
  }

  /** Fed the same readings, the dispatcher never reaches its mid-loop abort: the screening has already
      failed any pending ON, or nothing is over the limit. */
  lemma AbortUnreachable(cut: Cutoff, r: Reading, c: Commander, ctx: Context)
    requires Composed(cut, r, ctx)
    ensures var s := c.(status := Screened(c, ctx));
            var d := Decision(NONE, NONE, NONE, c.status.serial, ctx.sample);
            !SideStep(s, ctx, d, 0).stop && !SideStep(SideStep(s, ctx, d, 0).commander, ctx, SideStep(s, ctx, d, 0).decision, 1).stop
  {
    hide Acknowledged, PermissionCurrent;
    var s := c.(status := Screened(c, ctx));
    OnMeansCalm(c, ctx);
    if ctx.speedUsable && !ctx.inhibited { NotOver(cut, r, ctx); }
  }

  lemma OnMeansCalm(c: Commander, ctx: Context)
    ensures ctx.inhibited ==> !Any(Both(c.latest.desired, Screened(c, ctx).pending))
  {
  }

  lemma NotOver(cut: Cutoff, r: Reading, ctx: Context)
    requires Composed(cut, r, ctx) && ctx.speedUsable && !ctx.inhibited
    ensures ctx.knots <= ctx.limit
  {
  }

  /** Therefore every cutoff command for a side that is on, and has no toggle in flight, is sent as an OFF. */
  lemma CutoffNeverSkipped(cut: Cutoff, r: Reading, c: Commander, ctx: Context, side: nat)
    requires Composed(cut, r, ctx) && side < 2 && Bit(ctx.cutoff, side) && ctx.identityValid
    requires !c.flights[side].active
    ensures Bit(Stepped(c, ctx).1.send, side) && Bit(Stepped(c, ctx).1.cutoff, side) && !Bit(Stepped(c, ctx).1.desired, side)
  {
    hide Screened;
    AbortUnreachable(cut, r, c, ctx);
    CommandsFresh(cut, r, side);
  }

  /** What makes a step toggle a side: no unacknowledged toggle, and a cutoff or a screened request that
      wants the other position. */
  predicate SendDue(c: Commander, ctx: Context, side: nat)
    requires side < 2
  {
    var actual := Bit(ctx.actual, side);
    && ctx.identityValid && FreshButtons(ctx) && ctx.aircraftButtons
    && (c.flights[side].active ==> Acknowledged(c.flights[side], ctx, actual))
    && ((Bit(ctx.cutoff, side) && actual) ||
        (Bit(Screened(c, ctx).pending, side) && ctx.speedUsable && actual != Bit(c.latest.desired, side)))
  }

  /** One side's turn, when it does not abort. */
  lemma TurnSends(c: Commander, ctx: Context, d: Decision, side: nat)
    requires side < 2 && !Bit(d.send, side) && !Bit(d.desired, side) && !SideStep(c, ctx, d, side).stop
    ensures var r, actual := SideStep(c, ctx, d, side), Bit(ctx.actual, side);
            && (Bit(r.decision.send, side) <==>
                  (c.flights[side].active ==> Acknowledged(c.flights[side], ctx, actual)) &&
                  ((Bit(ctx.cutoff, side) && actual) || (Bit(c.status.pending, side) && ctx.speedUsable && actual != Bit(c.latest.desired, side))))
            && (Bit(r.decision.send, side) ==> (Bit(r.decision.desired, side) <==> !actual))
    ensures var r := SideStep(c, ctx, d, side);
            && (Bit(r.decision.send, 1 - side) <==> Bit(d.send, 1 - side)) && (Bit(r.decision.desired, 1 - side) <==> Bit(d.desired, 1 - side))
            && r.commander.flights[1 - side] == c.flights[1 - side] && r.commander.latest == c.latest
            && (Bit(r.commander.status.pending, 1 - side) <==> Bit(c.status.pending, 1 - side))
  {
    hide Acknowledged, OverLimit, Fail;
  }

  /** Fed the same readings, a step sends exactly what is due, toward the position not sampled. */
  lemma SendsExactly(cut: Cutoff, r: Reading, c: Commander, ctx: Context, side: nat)
    requires Composed(cut, r, ctx) && side < 2
    ensures Bit(Stepped(c, ctx).1.send, side) <==> SendDue(c, ctx, side)
    ensures Bit(Stepped(c, ctx).1.send, side) ==> (Bit(Stepped(c, ctx).1.desired, side) <==> !Bit(ctx.actual, side))
  {
    hide Screened, Composed, FreshButtons, Acknowledged, OverLimit, SideStep;
    AbortUnreachable(cut, r, c, ctx);
    var none := Decision(NONE, NONE, NONE, c.status.serial, ctx.sample);
    var s := c.(status := Screened(c, ctx));
    TurnSends(s, ctx, none, 0);
    var first := SideStep(s, ctx, none, 0);
    TurnSends(first.commander, ctx, first.decision, 1);
  }

  lemma CommandsFresh(cut: Cutoff, r: Reading, side: nat)
    requires side < 2 && Bit(UpdatedCutoff(cut, r).1, side)
    ensures FreshReading(r) && r.aircraftButtons && Bit(r.on, side)
  {
  }
}
