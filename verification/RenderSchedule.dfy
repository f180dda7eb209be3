/** The schedule that opens one camera feed's gate for one observer interval at a time. */
module RenderSchedule {
  const MINIMUM_RATE: nat := 5
  const MAXIMUM_RATE: nat := 60
  const DEFAULT_RATE: nat := 10

  type Pair<T> = (T, T)

  datatype Schedule = Schedule(rate: nat, feeds: nat, next: nat, haveTime: bool, previous: nat, lastAny: nat,
                               active: Pair<bool>, seen: Pair<bool>, last: Pair<nat>)

  const FRESH: Schedule := Schedule(DEFAULT_RATE, 2, 0, false, 0, 0, (false, false), (false, false), (0, 0))

  function At<T>(p: Pair<T>, feed: nat): T { if feed == 0 then p.0 else p.1 }

  function Put<T>(p: Pair<T>, feed: nat, v: T): Pair<T> { if feed == 0 then (v, p.1) else (p.0, v) }

  /** Settings in range, the next feed exists, and no recorded time lies after the last tick. */
  predicate Sound(s: Schedule) {
    && MINIMUM_RATE <= s.rate <= MAXIMUM_RATE && 1 <= s.feeds <= 2 && s.next < s.feeds
    && (!s.haveTime ==> s.seen == (false, false))
    && (s.seen.0 || s.seen.1 ==> s.lastAny <= s.previous)
    && (s.seen.0 ==> s.last.0 <= s.previous) && (s.seen.1 ==> s.last.1 <= s.previous)
  }

  function Clamp(v: nat, lo: nat, hi: nat): nat
    requires lo <= hi
  {
    if v < lo then lo else if v > hi then hi else v
  }

  function Configured(s: Schedule, rate: nat, feeds: nat): Schedule {
    var f := Clamp(feeds, 1, 2);
    s.(rate := Clamp(rate, MINIMUM_RATE, MAXIMUM_RATE), feeds := f, next := if s.next >= f then 0 else s.next)
  }

  function Cleared(s: Schedule): Schedule {
    s.(active := (false, false), seen := (false, false), last := (0, 0), haveTime := false, previous := 0, lastAny := 0, next := 0)
  }

  /** Milliseconds between activations at this many per second, rounded up. */
  function Spacing(perSecond: nat): nat
    requires perSecond > 0
  {
    (1000 + perSecond - 1) / perSecond
  }

  function TotalRate(s: Schedule): nat { s.rate * s.feeds }

  lemma PositiveRate(s: Schedule)
    requires Sound(s)
    ensures TotalRate(s) > 0 && s.rate > 0 && s.next < 2
  {
  }

  predicate Cooling(s: Schedule, now: nat)
    requires Sound(s) && s.previous <= now
  {
    || ((s.seen.0 || s.seen.1) && now - s.lastAny < Spacing(TotalRate(s)))
    || (At(s.seen, s.next) && now - At(s.last, s.next) < Spacing(s.rate))
  }

  function Ticked(s: Schedule, now: nat, suspended: bool): Schedule
    requires Sound(s)
  {
    if s.haveTime && now < s.previous then s.(active := (false, false), last := (now, now), lastAny := now, previous := now)
    else
      var t := s.(active := (false, false), haveTime := true, previous := now);
      if s.active.0 || s.active.1 || suspended || (s.haveTime && Cooling(s, now)) then t
      else
        t.(active := Put((false, false), s.next, true), seen := Put(s.seen, s.next, true), last := Put(s.last, s.next, now),
           lastAny := now, next := (s.next + 1) % s.feeds)
  }

  lemma TickSound(s: Schedule, now: nat, suspended: bool)
    requires Sound(s)
    ensures Sound(Ticked(s, now, suspended))
  {
    hide Spacing;
  }

  lemma ConfigureSound(s: Schedule, rate: nat, feeds: nat)
    requires Sound(s)
    ensures Sound(Configured(s, rate, feeds)) && Sound(Cleared(s))
  {
  }

  class Scheduler {
    var rate: nat
    var feeds: nat
    var next: nat
    var haveTime: bool
    var previous: nat
    var lastAny: nat
    var active: Pair<bool>
    var seen: Pair<bool>
    var last: Pair<nat>

    function Value(): Schedule
      reads this
    {
      Schedule(rate, feeds, next, haveTime, previous, lastAny, active, seen, last)
    }

    constructor ()
      ensures Value() == FRESH && Sound(Value())
    {
      rate, feeds, next, haveTime, previous, lastAny := DEFAULT_RATE, 2, 0, false, 0, 0;
      active, seen, last := (false, false), (false, false), (0, 0);
    }

    method Configure(newRate: nat, newFeeds: nat)
      requires Sound(Value())
      modifies this`rate, this`feeds, this`next
      ensures Value() == Configured(old(Value()), newRate, newFeeds) && Sound(Value())
    {
      rate := Clamp(newRate, MINIMUM_RATE, MAXIMUM_RATE);
      feeds := Clamp(newFeeds, 1, 2);
      if next >= feeds { next := 0; }
    }

    method Reset()
      requires Sound(Value())
      modifies this
      ensures Value() == Cleared(old(Value())) && Sound(Value())
    {
      active, seen, last, haveTime, previous, lastAny, next := (false, false), (false, false), (0, 0), false, 0, 0, 0;
    }

    /** The differences taken are never negative, whatever the clock and the settings did before. */
    method Elapsed(now: nat) returns (sinceAny: nat, sinceFeed: nat)
      requires Sound(Value()) && haveTime && previous <= now
      ensures seen.0 || seen.1 ==> sinceAny == now - lastAny
      ensures At(seen, next) ==> sinceFeed == now - At(last, next)
    {
      sinceAny := if seen.0 || seen.1 then now - lastAny else 0;
      sinceFeed := if At(seen, next) then now - At(last, next) else 0;
    }

    method Tick(now: nat, suspended: bool) returns (gates: Pair<bool>)
      requires Sound(Value())
      modifies this
      ensures Value() == Ticked(old(Value()), now, suspended) && gates == active && Sound(Value())
    {
      hide Spacing;
      TickSound(Value(), now, suspended);
      var wasActive := active.0 || active.1;
      if haveTime && now < previous {
        active, last, lastAny, previous := (false, false), (now, now), now, now;
        return active;
      }
      var cooling := false;
      if haveTime {
        var sinceAny, sinceFeed := Elapsed(now);
        var perFeed := Spacing(rate);
        var between := Spacing(rate * feeds);
        cooling := ((seen.0 || seen.1) && sinceAny < between) || (At(seen, next) && sinceFeed < perFeed);
      }
      active, haveTime, previous := (false, false), true, now;
      if wasActive || suspended || cooling { return active; }
      active, seen, last, lastAny, next :=
        Put(active, next, true), Put(seen, next, true), Put(last, next, now), now, (next + 1) % feeds;
      return active;
    }
  }

  // ----- runs -----

  datatype Beat = Beat(now: nat, suspended: bool)
  datatype Fire = Fire(time: nat, feed: nat)

  ghost function After(s: Schedule, beats: seq<Beat>): Schedule
    requires Sound(s)
    decreases |beats|
  {
    if |beats| == 0 then s
    else
      TickSound(s, beats[0].now, beats[0].suspended);
      After(Ticked(s, beats[0].now, beats[0].suspended), beats[1..])
  }

  lemma ActivationsStep(s: Schedule, beats: seq<Beat>)
    requires Sound(s) && |beats| > 0
    ensures var t := Ticked(s, beats[0].now, beats[0].suspended);
            Sound(t) && Activations(s, beats) == (if Fires(t) then [Fire(beats[0].now, s.next)] else []) + Activations(t, beats[1..])
  {
    hide Spacing, Cooling;
    TickSound(s, beats[0].now, beats[0].suspended);
  }

  predicate Fires(s: Schedule) { s.active.0 || s.active.1 }

  /** The activations of a run of ticks. */
  ghost function Activations(s: Schedule, beats: seq<Beat>): seq<Fire>
    requires Sound(s)
    decreases |beats|
  {
    if |beats| == 0 then []
    else
      TickSound(s, beats[0].now, beats[0].suspended);
      var t := Ticked(s, beats[0].now, beats[0].suspended);
      (if Fires(t) then [Fire(beats[0].now, s.next)] else []) + Activations(t, beats[1..])
  }

  /** One gate at most, the next feed's, and never on the tick after an activation. */
  lemma OneAtATime(s: Schedule, now: nat, suspended: bool)
    requires Sound(s)
    ensures var t := Ticked(s, now, suspended);
            && !(t.active.0 && t.active.1)
            && (Fires(t) ==> !Fires(s) && !suspended && At(t.active, s.next))
            && (Fires(s) ==> !Fires(t))
  {
    hide Spacing;
  }

  /** Two feeds take strict turns, through suspensions and clock reversals alike. */
  lemma {:induction false} Alternates(s: Schedule, beats: seq<Beat>)
    requires Sound(s) && s.feeds == 2
    ensures var a := Activations(s, beats);
            (a != [] ==> a[0].feed == s.next) && forall k | 0 <= k < |a| - 1 :: a[k + 1].feed == 1 - a[k].feed && a[k].feed < 2
    decreases |beats|
  {
    hide Spacing, Cooling, Activations, Ticked;
    if |beats| == 0 {
      NoBeats(s, beats);
    } else {
      ActivationsStep(s, beats);
      TurnPasses(s, beats[0].now, beats[0].suspended);
      Alternates(Ticked(s, beats[0].now, beats[0].suspended), beats[1..]);
    }
  }

  lemma NoBeats(s: Schedule, beats: seq<Beat>)
    requires Sound(s) && |beats| == 0
    ensures Activations(s, beats) == []
  {
  }

  lemma TurnPasses(s: Schedule, now: nat, suspended: bool)
    requires Sound(s)
    ensures var t := Ticked(s, now, suspended);
            Sound(t) && t.rate == s.rate && t.feeds == s.feeds && t.next == if Fires(t) then (s.next + 1) % s.feeds else s.next
  {
    hide Spacing;
    TickSound(s, now, suspended);
  }

  // ----- rate bounds -----

  /** The clock does not run back from where the schedule stands. */
  predicate Forward(s: Schedule, beats: seq<Beat>) {
    (forall k | 0 <= k < |beats| :: s.haveTime ==> s.previous <= beats[k].now) &&
    forall j, k | 0 <= j < k < |beats| :: beats[j].now <= beats[k].now
  }

  function AllTimes(fires: seq<Fire>): seq<nat> { seq(|fires|, k requires 0 <= k < |fires| => fires[k].time) }

  function FeedTimes(fires: seq<Fire>, feed: nat): seq<nat>
    decreases |fires|
  {
    if |fires| == 0 then [] else (if fires[0].feed == feed then [fires[0].time] else []) + FeedTimes(fires[1..], feed)
  }

  /** Successive times at least `gap` apart, the first at `from` or later. */
  predicate Gapped(times: seq<nat>, gap: nat, from: nat) {
    (|times| > 0 ==> times[0] >= from) && forall k | 0 <= k < |times| - 1 :: times[k + 1] >= times[k] + gap
  }

  /** How many times lie in the half-open second from `start`. */
  function InSecond(times: seq<nat>, start: nat): nat
    decreases |times|
  {
    if |times| == 0 then 0 else (if start <= times[0] < start + 1000 then 1 else 0) + InSecond(times[1..], start)
  }

  lemma SpacingCovers(perSecond: nat)
    requires perSecond > 0
    ensures perSecond * Spacing(perSecond) >= 1000
  {
    var q := (1000 + perSecond - 1) / perSecond;
    assert (1000 + perSecond - 1) == q * perSecond + (1000 + perSecond - 1) % perSecond;
  }

  lemma GappedTail(times: seq<nat>, gap: nat, from: nat)
    requires Gapped(times, gap, from) && |times| > 0
    ensures Gapped(times[1..], gap, times[0] + gap)
  {
    var rest := times[1..];
    forall k | 0 <= k < |rest| - 1 ensures rest[k + 1] >= rest[k] + gap {
      assert rest[k + 1] == times[k + 2] && rest[k] == times[k + 1];
    }
  }

  lemma {:induction false} LateOutside(times: seq<nat>, gap: nat, from: nat, start: nat)
    requires Gapped(times, gap, from) && from >= start + 1000
    ensures InSecond(times, start) == 0
    decreases |times|
  {
    if |times| > 0 {
      GappedTail(times, gap, from);
      LateOutside(times[1..], gap, times[0] + gap, start);
    }
  }

  /** Times `gap` apart put fewer than one more than 1000 / gap into any second. */
  lemma {:induction false} FewInSecond(times: seq<nat>, gap: nat, from: nat, start: nat)
    requires Gapped(times, gap, from) && gap > 0
    ensures var n := InSecond(times, start);
            n > 0 ==> (n - 1) * gap < start + 1000 - (if from > start then from else start)
    decreases |times|
  {
    if |times| > 0 {
      GappedTail(times, gap, from);
      FewInSecond(times[1..], gap, times[0] + gap, start);
      if times[0] >= start + 1000 {
        LateOutside(times[1..], gap, times[0] + gap, start);
      } else if times[0] >= start {
        var m := InSecond(times[1..], start);
        assert m > 0 ==> (m - 1) * gap + gap == m * gap;
      }
    }
  }

  lemma AtMostRate(times: seq<nat>, perSecond: nat, from: nat, start: nat)
    requires perSecond > 0 && Gapped(times, Spacing(perSecond), from)
    ensures InSecond(times, start) <= perSecond
  {
    var gap, n := Spacing(perSecond), InSecond(times, start);
    SpacingCovers(perSecond);
    FewInSecond(times, gap, from, start);
    if n > perSecond {
      MultipliesUp(perSecond, n - 1, gap);
    }
  }

  lemma MultipliesUp(a: nat, b: nat, c: nat)
    requires a <= b
    ensures a * c <= b * c
  {
  }

  /** The earliest a feed, or any feed, can fire again. */
  function AnyFrom(s: Schedule): nat
    requires Sound(s)
  {
    if s.seen.0 || s.seen.1 then s.lastAny + Spacing(TotalRate(s)) else 0
  }

  function FeedFrom(s: Schedule, feed: nat): nat
    requires Sound(s)
  {
    if At(s.seen, feed) then At(s.last, feed) + Spacing(s.rate) else 0
  }

  /** A tick without reversal fires exactly when no gate was open, nothing suspends it and both cooldowns
      are over, and then restarts them. */
  lemma FiresWhenDue(s: Schedule, now: nat, suspended: bool)
    requires Sound(s) && (s.haveTime ==> s.previous <= now)
    ensures var t := Ticked(s, now, suspended);
            && Sound(t) && t.rate == s.rate && TotalRate(t) == TotalRate(s) && t.feeds == s.feeds && t.haveTime && t.previous == now
            && (Fires(t) <==> !Fires(s) && !suspended && now >= AnyFrom(s) && now >= FeedFrom(s, s.next))
            && (Fires(t) ==> AnyFrom(t) == now + Spacing(TotalRate(s)) &&
                             FeedFrom(t, s.next) == now + Spacing(s.rate) && forall f | f < 2 && f != s.next :: FeedFrom(t, f) == FeedFrom(s, f))
            && (!Fires(t) ==> AnyFrom(t) == AnyFrom(s) && FeedFrom(t, 0) == FeedFrom(s, 0) && FeedFrom(t, 1) == FeedFrom(s, 1))
  {
    hide Spacing;
  }

  lemma {:induction false} ActivationsGapped(s: Schedule, beats: seq<Beat>, feed: nat)
    requires Sound(s) && Forward(s, beats) && feed < 2
    ensures Gapped(AllTimes(Activations(s, beats)), Spacing(TotalRate(s)), AnyFrom(s))
    ensures Gapped(FeedTimes(Activations(s, beats), feed), Spacing(s.rate), FeedFrom(s, feed))
    decreases |beats|
  {
    hide Spacing, Ticked, AnyFrom, FeedFrom, Activations, Sound, TotalRate, Gapped;
    PositiveRate(s);
    if |beats| == 0 {
      NoBeats(s, beats);
      NothingGapped(Spacing(TotalRate(s)), AnyFrom(s));
      NothingGapped(Spacing(s.rate), FeedFrom(s, feed));
    } else {
      var now := beats[0].now;
      ActivationsStep(s, beats);
      FiresWhenDue(s, now, beats[0].suspended);
      var t := Ticked(s, now, beats[0].suspended);
      ActivationsGapped(t, beats[1..], feed);
      var rest, a := Activations(t, beats[1..]), Activations(s, beats);
      if Fires(t) {
        assert a[0] == Fire(now, s.next) && a[1..] == rest;
        GappedCons(now, AllTimes(rest), Spacing(TotalRate(s)), AnyFrom(s));
        assert AllTimes(a) == [now] + AllTimes(rest);
        if s.next == feed {
          GappedCons(now, FeedTimes(rest, feed), Spacing(s.rate), FeedFrom(s, feed));
          assert FeedTimes(a, feed) == [now] + FeedTimes(rest, feed);
        } else {
          assert FeedTimes(a, feed) == FeedTimes(rest, feed) && FeedFrom(t, feed) == FeedFrom(s, feed);
        }
      } else {
        assert a == rest;
      }
    }
  }

  lemma NothingGapped(gap: nat, from: nat)
    ensures Gapped([], gap, from) && AllTimes([]) == []
  {
  }

  lemma GappedCons(now: nat, times: seq<nat>, gap: nat, from: nat)
    requires Gapped(times, gap, now + gap) && now >= from
    ensures Gapped([now] + times, gap, from)
  {
    var c := [now] + times;
    assert forall k | 0 <= k < |c| - 1 :: c[k + 1] == times[k] && c[k] == if k == 0 then now else times[k - 1];
  }

  /** While the settings stay and the clock does not run back, any half-open second holds at most `rate`
      activations of a feed and `rate * feeds` in all. */
  lemma RateBound(s: Schedule, beats: seq<Beat>, feed: nat, start: nat)
    requires Sound(s) && Forward(s, beats) && feed < 2
    ensures InSecond(FeedTimes(Activations(s, beats), feed), start) <= s.rate
    ensures InSecond(AllTimes(Activations(s, beats)), start) <= TotalRate(s)
  {
    hide Spacing, Activations, InSecond, TotalRate, FeedTimes, AllTimes, Gapped, AnyFrom, FeedFrom;
    PositiveRate(s);
    ActivationsGapped(s, beats, feed);
    AtMostRate(FeedTimes(Activations(s, beats), feed), s.rate, FeedFrom(s, feed), start);
    AtMostRate(AllTimes(Activations(s, beats)), TotalRate(s), AnyFrom(s), start);
  }

  // ----- single calls, literally -----

  /** The spacing is the least whole number of milliseconds that keeps the rate. */
  lemma SpacingExactly(perSecond: nat)
    requires perSecond > 0
    ensures perSecond * Spacing(perSecond) >= 1000 && perSecond * (Spacing(perSecond) - 1) < 1000
  {
    var q := (1000 + perSecond - 1) / perSecond;
    assert (1000 + perSecond - 1) == q * perSecond + (1000 + perSecond - 1) % perSecond;
  }

  /** Between five and sixty a second for one or two feeds; the times, the gates and, if it still exists, the next feed
      stay. */
  lemma ConfigureExactly(s: Schedule, rate: nat, feeds: nat)
    ensures var t := Configured(s, rate, feeds);
            && t.rate == (if rate < 5 then 5 else if rate > 60 then 60 else rate)
            && t.feeds == (if feeds < 1 then 1 else if feeds > 2 then 2 else feeds)
            && t.next == (if s.next < t.feeds then s.next else 0)
            && t == s.(rate := t.rate, feeds := t.feeds, next := t.next)
    ensures FRESH.rate == 10 && FRESH.feeds == 2 && FRESH.next == 0 && !FRESH.haveTime
  {
  }

  /** A clock that runs back closes the gates and restarts both cooldowns from the new time; nothing else changes. */
  lemma ReversalCloses(s: Schedule, now: nat, suspended: bool)
    requires Sound(s) && s.haveTime && now < s.previous
    ensures var t := Ticked(s, now, suspended);
            && t.active == (false, false) && t.previous == now && t.haveTime && t.seen == s.seen && t.next == s.next
            && t.rate == s.rate && t.feeds == s.feeds
            && (s.seen.0 || s.seen.1 ==> AnyFrom(t) == now + Spacing(TotalRate(s)))
            && (s.seen.0 ==> FeedFrom(t, 0) == now + Spacing(s.rate)) && (s.seen.1 ==> FeedFrom(t, 1) == now + Spacing(s.rate))
  {
    hide Spacing;
    TickSound(s, now, suspended);
  }

  /** After a reset, and at the very start, the first tick that nothing suspends opens the first feed's gate. */
  lemma ResetOpensFirst(s: Schedule, now: nat)
    requires Sound(s)
    ensures Ticked(Cleared(s), now, false).active == (true, false) && Ticked(FRESH, now, false).active == (true, false)
    ensures Cleared(s).rate == s.rate && Cleared(s).feeds == s.feeds
  {
    hide Spacing;
  }

  /** Settings may change and the clock may jump at any time without breaking soundness. */
  datatype Change = Reconfigure(rate: nat, feeds: nat) | Restart | Advance(now: nat, suspended: bool)

  ghost function Changed(s: Schedule, changes: seq<Change>): Schedule
    requires Sound(s)
    ensures Sound(Changed(s, changes))
    decreases |changes|
  {
    if |changes| == 0 then s
    else
      match changes[0]
      case Reconfigure(rate, feeds) => ConfigureSound(s, rate, feeds); Changed(Configured(s, rate, feeds), changes[1..])
      case Restart => ConfigureSound(s, 0, 0); Changed(Cleared(s), changes[1..])
      case Advance(now, suspended) => TickSound(s, now, suspended); Changed(Ticked(s, now, suspended), changes[1..])
  }
}
