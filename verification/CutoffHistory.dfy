/** When the speed cutoff commands OFF, stated over the history of readings, sends and rejections alone. */
module CutoffHistory {
  import opened TaxiButtons
  import opened TaxiCutoff

  datatype Command = Never | At(now: nat, sample: nat)

  function Latest(ops: seq<Op>): Op
    requires ops != []
  {
    ops[|ops| - 1]
  }

  function Earlier(ops: seq<Op>): seq<Op>
    requires ops != []
  {
    ops[..|ops| - 1]
  }

  /** The last usable speed was over its limit. */
  predicate TooFast(ops: seq<Op>)
    decreases |ops|
  {
    if |ops| == 0 then false
    else if Latest(ops).UpdateOp? && Latest(ops).reading.speedUsable then Latest(ops).reading.knots > Latest(ops).reading.limit
    else TooFast(Earlier(ops))
  }

  /** A sample at most 500 ms old, not from the future. */
  predicate Recent(r: Reading) {
    r.buttonsValid && 0 < r.sample <= r.now && r.now <= r.sample + 500
  }

  /** A recent sample shows the side off, taken after the last command if one is awaited. */
  predicate ShownOff(ops: seq<Op>, r: Reading, side: nat)
    requires side < 2
    decreases |ops|, 1
  {
    && Recent(r) && !Bit(r.on, side)
    && (Awaited(ops, side) ==> LastCommand(ops, side) == Never || r.sample > LastCommand(ops, side).sample)
  }

  /** An accepted send that was neither rejected nor followed by a sample showing the side off. */
  predicate Awaited(ops: seq<Op>, side: nat)
    requires side < 2
    decreases |ops|, 0
  {
    if |ops| == 0 then false
    else
      match Latest(ops)
      case SentOp(s, accepted) => (s == side && accepted) || Awaited(Earlier(ops), side)
      case RejectedOp(s) => s != side && Awaited(Earlier(ops), side)
      case UpdateOp(r) => r.aircraftButtons && Awaited(Earlier(ops), side) && !ShownOff(Earlier(ops), r, side)
  }

  /** The speed was over the limit at some reading since which no sample showed the side off. */
  predicate Demanded(ops: seq<Op>, side: nat)
    requires side < 2
    decreases |ops|, 0
  {
    if |ops| == 0 then false
    else if !Latest(ops).UpdateOp? then Demanded(Earlier(ops), side)
    else
      var r := Latest(ops).reading;
      r.aircraftButtons && (TooFast(ops) || Demanded(Earlier(ops), side)) && !ShownOff(Earlier(ops), r, side)
  }

  /** When the side was last commanded. */
  function LastCommand(ops: seq<Op>, side: nat): Command
    requires side < 2
    decreases |ops|, 0
  {
    if |ops| == 0 then Never
    else if Latest(ops).UpdateOp? && CommandDue(Earlier(ops), Latest(ops).reading, side) then
      At(Latest(ops).reading.now, Latest(ops).reading.sample)
    else LastCommand(Earlier(ops), side)
  }

  /** OFF is to be commanded now: a recent sample shows the side on, the speed is over the limit or the side still
      demanded, no accepted command is awaited, and none was given within 1000 ms. */
  predicate CommandDue(ops: seq<Op>, r: Reading, side: nat)
    requires side < 2
    decreases |ops|, 1
  {
    && r.aircraftButtons && Recent(r) && Bit(r.on, side)
    && (Demanded(ops, side) || (if r.speedUsable then r.knots > r.limit else TooFast(ops)))
    && !Awaited(ops, side)
    && (LastCommand(ops, side) == Never || r.now >= LastCommand(ops, side).now + 1000)
  }

  // ----- the state is the history -----

  lemma {:induction false} AfterSplits(c: Cutoff, ops: seq<Op>, op: Op)
    ensures AfterOps(c, ops + [op]) == AfterOp(AfterOps(c, ops), op)
    decreases |ops|
  {
    hide AfterOp;
    if ops == [] {
      assert ops + [op] == [op];
      assert [op][1..] == [];
    } else {
      AfterSplits(AfterOp(c, ops[0]), ops[1..], op);
      assert (ops + [op])[1..] == ops[1..] + [op];
    }
  }

  ghost predicate SideIs(c: Cutoff, ops: seq<Op>, side: nat)
    requires side < 2
  {
    && (Bit(c.pending, side) <==> Demanded(ops, side)) && (c.waiting[side] <==> Awaited(ops, side))
    && match LastCommand(ops, side)
       case Never => c.nextAttempt[side] == 0 && c.sentSample[side] == 0
       case At(now, sample) => c.nextAttempt[side] == now + 1000 && c.sentSample[side] == sample
  }

  ghost predicate StateIs(c: Cutoff, ops: seq<Op>) {
    c.over == TooFast(ops) && !c.pending.stray && SideIs(c, ops, 0) && SideIs(c, ops, 1)
  }

  /** The cutoff's fields are functions of the history. */
  lemma {:induction false} StateFollows(ops: seq<Op>)
    ensures StateIs(AfterOps(CALM, ops), ops)
    decreases |ops|
  {
    if ops != [] {
      var before, op := Earlier(ops), Latest(ops);
      StateFollows(before);
      AfterSplits(CALM, before, op);
      assert ops == before + [op];
      FollowsOnce(AfterOps(CALM, before), before, op);
    }
  }

  lemma FollowsOnce(c: Cutoff, ops: seq<Op>, op: Op)
    requires StateIs(c, ops)
    ensures StateIs(AfterOp(c, op), ops + [op])
  {
    assert Earlier(ops + [op]) == ops && Latest(ops + [op]) == op;
    if op.UpdateOp? {
      UpdateFollows(c, ops, op.reading, 0);
      UpdateFollows(c, ops, op.reading, 1);
    }
  }

  lemma UpdateFollows(c: Cutoff, ops: seq<Op>, r: Reading, side: nat)
    requires StateIs(c, ops) && side < 2
    ensures var u := UpdatedCutoff(c, r);
            && u.0.over == TooFast(ops + [UpdateOp(r)]) && !u.0.pending.stray && SideIs(u.0, ops + [UpdateOp(r)], side)
            && (Bit(u.1, side) <==> CommandDue(ops, r, side)) && !u.1.stray
  {
    hide UpdatedCutoff;
    assert Earlier(ops + [UpdateOp(r)]) == ops && Latest(ops + [UpdateOp(r)]) == UpdateOp(r);
    SideUpdated(c, r, side);
    var next := ops + [UpdateOp(r)];
    assert TooFast(next) == (if r.speedUsable then r.knots > r.limit else TooFast(ops));
    assert Demanded(next, side) <==> r.aircraftButtons && (TooFast(next) || Demanded(ops, side)) && !ShownOff(ops, r, side);
    assert Awaited(next, side) <==> r.aircraftButtons && Awaited(ops, side) && !ShownOff(ops, r, side);
    assert LastCommand(next, side) == if CommandDue(ops, r, side) then At(r.now, r.sample) else LastCommand(ops, side);
  }

  /** What one reading does to one side. */
  lemma SideUpdated(c: Cutoff, r: Reading, side: nat)
    requires side < 2 && !c.pending.stray
    ensures var u, fast := UpdatedCutoff(c, r), if r.speedUsable then r.knots > r.limit else c.over;
            var off := Recent(r) && !Bit(r.on, side) && (c.waiting[side] ==> r.sample > c.sentSample[side]);
            var due := && r.aircraftButtons && Recent(r) && Bit(r.on, side) && (Bit(c.pending, side) || fast)
                       && !c.waiting[side] && r.now >= c.nextAttempt[side];
            && u.0.over == fast && !u.0.pending.stray && !u.1.stray && (Bit(u.1, side) <==> due)
            && (Bit(u.0.pending, side) <==> r.aircraftButtons && (Bit(c.pending, side) || fast) && !off)
            && u.0.waiting[side] == (r.aircraftButtons && c.waiting[side] && !off)
            && u.0.nextAttempt[side] == (if due then r.now + 1000 else c.nextAttempt[side])
            && u.0.sentSample[side] == (if due then r.sample else c.sentSample[side])
  {
    hide Recent, FreshReading, AfterSide, SeenOff, Commands;
    RecentIsFresh(r);
    var l := Latched(c, r);
    if Recent(r) {
      OwnTurn(l, r, 0);
      OwnTurn(AfterSide(l, r, 0), r, 1);
    }
  }

  lemma OwnTurn(l: Cutoff, r: Reading, side: nat)
    requires side < 2 && !l.pending.stray && Recent(r)
    ensures var a, off := AfterSide(l, r, side), !Bit(r.on, side) && (l.waiting[side] ==> r.sample > l.sentSample[side]);
            && a.over == l.over && !a.pending.stray && (Bit(a.pending, 1 - side) <==> Bit(l.pending, 1 - side))
            && a.waiting[1 - side] == l.waiting[1 - side] && a.nextAttempt[1 - side] == l.nextAttempt[1 - side]
            && a.sentSample[1 - side] == l.sentSample[1 - side]
            && (Bit(a.pending, side) <==> Bit(l.pending, side) && !off) && a.waiting[side] == (l.waiting[side] && !off)
            && (Commands(l, r, side) <==> Bit(r.on, side) && Bit(l.pending, side) && !l.waiting[side] && r.now >= l.nextAttempt[side])
            && a.nextAttempt[side] == (if Commands(l, r, side) then r.now + 1000 else l.nextAttempt[side])
            && a.sentSample[side] == (if Commands(l, r, side) then r.sample else l.sentSample[side])
  {
    RecentIsFresh(r);
  }

  lemma RecentIsFresh(r: Reading)
    ensures Recent(r) <==> FreshReading(r)
  {
  }

  /** Over every run: a side is commanded OFF exactly when that is due by the history, and no bit beyond the two
      sides is ever commanded. */
  lemma CommandsExactly(ops: seq<Op>, r: Reading, side: nat)
    requires side < 2
    ensures var commands := UpdatedCutoff(AfterOps(CALM, ops), r).1;
            (Bit(commands, side) <==> CommandDue(ops, r, side)) && !commands.stray
  {
    hide UpdatedCutoff, CommandDue;
    StateFollows(ops);
    UpdateFollows(AfterOps(CALM, ops), ops, r, side);
  }

  /** Over every run: commands are inhibited exactly while the speed is too high or some side is still demanded. */
  lemma InhibitedExactly(ops: seq<Op>)
    ensures Inhibits(AfterOps(CALM, ops)) <==> TooFast(ops) || Demanded(ops, 0) || Demanded(ops, 1)
  {
    hide AfterOps;
    StateFollows(ops);
  }

  /** The first recent reading over the limit commands every side that is on, at once. */
  lemma FirstCrossingCommands(ops: seq<Op>, r: Reading, side: nat)
    requires side < 2 && forall k | 0 <= k < |ops| :: ops[k].UpdateOp? && !(ops[k].reading.speedUsable && ops[k].reading.knots > ops[k].reading.limit)
    requires r.aircraftButtons && r.speedUsable && r.knots > r.limit && r.buttonsValid && 0 < r.sample <= r.now <= r.sample + 500
    ensures Bit(UpdatedCutoff(AfterOps(CALM, ops), r).1, side) <==> Bit(r.on, side)
  {
    hide AfterOps, UpdatedCutoff;
    NothingYet(ops, side);
    CommandsExactly(ops, r, side);
  }

  lemma {:induction false} NothingYet(ops: seq<Op>, side: nat)
    requires side < 2 && forall k | 0 <= k < |ops| :: ops[k].UpdateOp? && !(ops[k].reading.speedUsable && ops[k].reading.knots > ops[k].reading.limit)
    ensures !TooFast(ops) && !Demanded(ops, side) && !Awaited(ops, side) && LastCommand(ops, side) == Never
    decreases |ops|
  {
    if ops != [] { NothingYet(Earlier(ops), side); }
  }
}
