/** The dispatcher of the aircraft's TAXI push buttons: its fields as a value, and what each operation
    does to them. */
module TaxiButtons {
  const PERMISSION_AGE: nat := 500
  const REQUEST_LIFETIME: nat := 3000

  /** Bit 0, bit 1, and whether any higher bit is set. */
  datatype Mask = Mask(left: bool, right: bool, stray: bool)
  datatype Error = NoError | NotPermitted | RequestCancelled | Changed | Invalid | Unavailable | SessionChanged |
                   PermissionExpired | AckTimeout | SpeedInhibited | CommandFailed | CommandRejected
  datatype Request = Request(serial: nat, epoch: nat, profile: nat, selected: Mask, desired: Mask)
  datatype Status = Status(serial: nat, pending: Mask, failed: bool, error: Error)
  datatype Flight = Flight(active: bool, desired: bool, sample: nat, sent: nat, serial: nat)
  datatype Context = Context(now: nat, epoch: nat, sample: nat, profile: nat, actual: Mask, cutoff: Mask, identityValid: bool,
                             buttonsValid: bool, speedUsable: bool, inhibited: bool, aircraftButtons: bool, knots: real, limit: real)
  datatype Decision = Decision(send: Mask, desired: Mask, cutoff: Mask, serial: nat, sample: nat)

  const NONE: Mask := Mask(false, false, false)
  const NO_FLIGHT: Flight := Flight(false, false, 0, 0, 0)

  type Flights = s: seq<Flight> | |s| == 2 witness [NO_FLIGHT, NO_FLIGHT]

  datatype Commander = Commander(latest: Request, status: Status, flights: Flights, permissionMs: nat, startedMs: nat, permission: bool)

  const IDLE: Commander :=
    Commander(Request(0, 0, 0, NONE, NONE), Status(0, NONE, false, NoError), [NO_FLIGHT, NO_FLIGHT], 0, 0, false)

  predicate Bit(m: Mask, side: nat) { if side == 0 then m.left else m.right }

  function With(m: Mask, side: nat, value: bool): Mask {
    if side == 0 then m.(left := value) else m.(right := value)
  }

  predicate Any(m: Mask) { m.left || m.right || m.stray }

  function Both(a: Mask, b: Mask): Mask { Mask(a.left && b.left, a.right && b.right, a.stray && b.stray) }

  // ----- operations -----

  function Reject(s: Status, e: Error): Status { s.(pending := NONE, failed := true, error := e) }

  function Fail(s: Status, e: Error): Status { if Any(s.pending) then Reject(s, e) else s }

  /** A request is well formed when it selects only the two sides and desires only selected ones. */
  predicate WellFormed(r: Request) {
    !r.selected.stray && !r.desired.stray && (r.desired.left ==> r.selected.left) && (r.desired.right ==> r.selected.right)
  }

  function NewStatus(r: Request, permitted: bool, epoch: nat, profile: nat, aircraftButtons: bool): Status {
    var s := Status(r.serial, r.selected, false, NoError);
    if !WellFormed(r) then Reject(s, Invalid)
    else if !Any(r.selected) then s
    else if !permitted then Reject(s, NotPermitted)
    else if !aircraftButtons then Reject(s, Unavailable)
    else if epoch == 0 || r.epoch != epoch || r.profile != profile then Reject(s, SessionChanged)
    else s
  }

  function Updated(c: Commander, r: Request, permitted: bool, now: nat, epoch: nat, profile: nat, aircraftButtons: bool): Commander {
    var status := if permitted then c.status else Fail(c.status, NotPermitted);
    var p := c.(permission := permitted, permissionMs := now, status := status);
    if r.serial == 0 then p.(status := Fail(status, RequestCancelled))
    else if r.serial <= c.latest.serial then
      if r.serial == c.latest.serial && r != c.latest then p.(status := Fail(status, Changed)) else p
    else p.(latest := r, status := NewStatus(r, permitted, epoch, profile, aircraftButtons), startedMs := now)
  }

  function SessionReset(c: Commander): Commander {
    c.(status := Fail(c.status, SessionChanged), permission := false, flights := [NO_FLIGHT, NO_FLIGHT])
  }

  predicate FreshButtons(ctx: Context) {
    ctx.buttonsValid && ctx.sample != 0 && ctx.now >= ctx.sample && ctx.now - ctx.sample <= PERMISSION_AGE
  }

  predicate PermissionCurrent(c: Commander, now: nat) {
    c.permission && now >= c.permissionMs && now - c.permissionMs <= PERMISSION_AGE
  }

  /** The checks before any side is looked at, each failing the pending request. */
  function Screened(c: Commander, ctx: Context): Status {
    var s0 := if PermissionCurrent(c, ctx.now) then c.status else Fail(c.status, PermissionExpired);
    var s1 := if c.latest.epoch != ctx.epoch || c.latest.profile != ctx.profile || !ctx.aircraftButtons then Fail(s0, SessionChanged) else s0;
    var s2 := if ctx.now < c.startedMs || ctx.now - c.startedMs >= REQUEST_LIFETIME then Fail(s1, AckTimeout) else s1;
    if ctx.inhibited && Any(Both(c.latest.desired, s2.pending)) then Fail(s2, SpeedInhibited) else s2
  }

  /** A later sample showing the wanted position acknowledges an accepted toggle. */
  predicate Acknowledged(f: Flight, ctx: Context, actual: bool) {
    f.active && ctx.sample > f.sample && ctx.sample > f.sent && actual == f.desired
  }

  datatype SideResult = SideResult(commander: Commander, decision: Decision, stop: bool)

  predicate OverLimit(ctx: Context) { ctx.inhibited || ctx.knots > ctx.limit }

  function SideStep(c: Commander, ctx: Context, d: Decision, side: nat): SideResult
    requires side < 2
  {
    var actual := Bit(ctx.actual, side);
    var flight := if Acknowledged(c.flights[side], ctx, actual) then NO_FLIGHT else c.flights[side];
    var a := c.(flights := c.flights[side := flight]);
    if flight.active then SideResult(a, d, false)
    else if Bit(ctx.cutoff, side) && actual then
      SideResult(a, d.(send := With(d.send, side, true), cutoff := With(d.cutoff, side, true)), false)
    else if !Bit(a.status.pending, side) || !ctx.speedUsable then SideResult(a, d, false)
    else if Bit(a.latest.desired, side) && OverLimit(ctx) then
      SideResult(a.(status := Fail(a.status, SpeedInhibited)), d.(send := Both(d.send, d.cutoff), desired := NONE), true)
    else if actual == Bit(a.latest.desired, side) then
      SideResult(a.(status := a.status.(pending := With(a.status.pending, side, false))), d, false)
    else
      SideResult(a, d.(send := With(d.send, side, true),
                       desired := if Bit(a.latest.desired, side) then With(d.desired, side, true) else d.desired), false)
  }

  function Stepped(c: Commander, ctx: Context): (Commander, Decision) {
    var d := Decision(NONE, NONE, NONE, c.status.serial, ctx.sample);
    var s := c.(status := Screened(c, ctx));
    if !ctx.identityValid || !FreshButtons(ctx) || !ctx.aircraftButtons then (s, d)
    else
      var first := SideStep(s, ctx, d, 0);
      if first.stop then (first.commander, first.decision)
      else
        var second := SideStep(first.commander, ctx, first.decision, 1);
        (second.commander, second.decision)
  }

  predicate StillCurrent(c: Commander, d: Decision, side: nat, now: nat) {
    && side < 2 && Bit(d.send, side) && !c.flights[side].active
    && (Bit(d.cutoff, side) || (PermissionCurrent(c, now) && d.serial == c.status.serial && Bit(c.status.pending, side)))
  }

  function AfterSend(c: Commander, d: Decision, side: nat, accepted: bool, now: nat): Commander {
    if side >= 2 || !Bit(d.send, side) then c
    else if accepted then c.(flights := c.flights[side := Flight(true, Bit(d.desired, side), d.sample, now, d.serial)])
    else if !Bit(d.cutoff, side) && d.serial == c.status.serial then c.(status := Fail(c.status, CommandFailed))
    else c
  }

  function AfterRejection(c: Commander, side: nat): Commander {
    if side < 2 && c.flights[side].active then
      var s := if c.flights[side].serial == c.status.serial then Fail(c.status, CommandRejected) else c.status;
      c.(flights := c.flights[side := NO_FLIGHT], status := s)
    else c
  }

  class TaxiButtonCommand {
    var latest: Request
    var status: Status
    var flights: Flights
    var permissionMs: nat
    var startedMs: nat
    var permission: bool

    function Value(): Commander
      reads this
    {
      Commander(latest, status, flights, permissionMs, startedMs, permission)
    }

    constructor ()
      ensures Value() == IDLE
    {
      latest, status, flights := Request(0, 0, 0, NONE, NONE), Status(0, NONE, false, NoError), [NO_FLIGHT, NO_FLIGHT];
      permissionMs, startedMs, permission := 0, 0, false;
    }

    method RejectRequest(e: Error)
      modifies this`status
      ensures status == Reject(old(status), e)
    {
      status := status.(pending := NONE, failed := true, error := e);
    }

    method FailRequest(e: Error)
      modifies this`status
      ensures status == Fail(old(status), e)
    {
      if Any(status.pending) { RejectRequest(e); }
    }

    method Update(request: Request, permitted: bool, now: nat, epoch: nat, profile: nat, aircraftButtons: bool)
      modifies this`latest, this`status, this`permissionMs, this`startedMs, this`permission
      ensures Value() == Updated(old(Value()), request, permitted, now, epoch, profile, aircraftButtons)
    {
      permission := permitted;
      permissionMs := now;
      if !permitted { FailRequest(NotPermitted); }
      if request.serial == 0 {
        FailRequest(RequestCancelled);
        return;
      }
      if request.serial <= latest.serial {
        if request.serial == latest.serial && request != latest { FailRequest(Changed); }
        return;
      }
      latest := request;
      status := Status(request.serial, request.selected, false, NoError);
      startedMs := now;
      if !WellFormed(request) {
        RejectRequest(Invalid);
      } else if !Any(request.selected) {
        return;
      } else if !permitted {
        RejectRequest(NotPermitted);
      } else if !aircraftButtons {
        RejectRequest(Unavailable);
      } else if epoch == 0 || request.epoch != epoch || request.profile != profile {
        RejectRequest(SessionChanged);
      }
    }

    /** Keeps the consumed request key. */
    method ResetSession()
      modifies this`status, this`permission, this`flights
      ensures Value() == SessionReset(old(Value()))
    {
      FailRequest(SessionChanged);
      permission := false;
      flights := [NO_FLIGHT, NO_FLIGHT];
    }

    method Screen(c: Context)
      modifies this`status
      ensures status == Screened(old(Value()), c)
    {
      if !permission || c.now < permissionMs || c.now - permissionMs > PERMISSION_AGE { FailRequest(PermissionExpired); }
      if Any(status.pending) && (latest.epoch != c.epoch || latest.profile != c.profile || !c.aircraftButtons) {
        FailRequest(SessionChanged);
      }
      if Any(status.pending) && (c.now < startedMs || c.now - startedMs >= REQUEST_LIFETIME) { FailRequest(AckTimeout); }
      if Any(status.pending) && c.inhibited && Any(Both(latest.desired, status.pending)) { FailRequest(SpeedInhibited); }
    }

    method DecideSide(c: Context, d: Decision, side: nat) returns (r: Decision, stop: bool)
      requires side < 2
      modifies this`status, this`flights
      ensures SideResult(Value(), r, stop) == SideStep(old(Value()), c, d, side)
    {
      r, stop := d, false;
      var actual := Bit(c.actual, side);
      if flights[side].active && c.sample > flights[side].sample && c.sample > flights[side].sent && actual == flights[side].desired {
        flights := flights[side := NO_FLIGHT];
      }
      if flights[side].active { return; }
      if Bit(c.cutoff, side) && actual {
        r := r.(send := With(r.send, side, true), cutoff := With(r.cutoff, side, true));
        return;
      }
      if !Bit(status.pending, side) || !c.speedUsable { return; }
      var desired := Bit(latest.desired, side);
      if desired && (c.inhibited || c.knots > c.limit) {
        FailRequest(SpeedInhibited);
        r := r.(send := Both(r.send, r.cutoff), desired := NONE);
        stop := true;
        return;
      }
      if actual == desired {
        status := status.(pending := With(status.pending, side, false));
      } else {
        r := r.(send := With(r.send, side, true));
        if desired { r := r.(desired := With(r.desired, side, true)); }
      }
    }

    method Step(c: Context) returns (r: Decision)
      modifies this`status, this`flights
      ensures (Value(), r) == Stepped(old(Value()), c)
    {
      hide SideStep, Screened;
      r := Decision(NONE, NONE, NONE, status.serial, c.sample);
      ghost var d, before := r, old(Value());
      Screen(c);
      if !c.identityValid || !FreshButtons(c) || !c.aircraftButtons { return; }
      ghost var s := Value();
      var side, stop := 0, false;
      while side < 2 && !stop
        invariant 0 <= side <= 2
        invariant side == 0 ==> Value() == s && r == d && !stop
        invariant side == 1 ==> SideResult(Value(), r, stop) == SideStep(s, c, d, 0)
        invariant side == 2 ==> !SideStep(s, c, d, 0).stop &&
                                SideResult(Value(), r, stop) == SideStep(SideStep(s, c, d, 0).commander, c, SideStep(s, c, d, 0).decision, 1)
      {
        r, stop := DecideSide(c, r, side);
        side := side + 1;
      }
    }

    method Current(d: Decision, side: nat, now: nat) returns (r: bool)
      ensures r <==> StillCurrent(Value(), d, side, now)
    {
      if side >= 2 || !Bit(d.send, side) || flights[side].active { return false; }
      if Bit(d.cutoff, side) { return true; }
      return permission && now >= permissionMs && now - permissionMs <= PERMISSION_AGE && d.serial == status.serial &&
             Bit(status.pending, side);
    }

    method Sent(d: Decision, side: nat, accepted: bool, now: nat)
      modifies this`status, this`flights
      ensures Value() == AfterSend(old(Value()), d, side, accepted, now)
    {
      if side >= 2 || !Bit(d.send, side) { return; }
      if accepted {
        flights := flights[side := Flight(true, Bit(d.desired, side), d.sample, now, d.serial)];
      } else if !Bit(d.cutoff, side) && d.serial == status.serial {
        FailRequest(CommandFailed);
      }
    }

    method Rejected(side: nat)
      modifies this`status, this`flights
      ensures Value() == AfterRejection(old(Value()), side)
    {
      if side < 2 && flights[side].active {
        var serial := flights[side].serial;
        flights := flights[side := NO_FLIGHT];
        if serial == status.serial { FailRequest(CommandRejected); }
      }
    }
  }
}
