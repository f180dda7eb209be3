/** The region-metadata cache of one read-only inspection. Saved observations are compared with fresh
    ones at the end; one fresh query may answer for every saved suffix it covers, and that must be
    exactly as strict as asking again for each. */
module QueryCache {
  const PAGE: nat := 4096
  const WINDOW: nat := 65536
  const REGION_LIMIT: nat := 64
  const MAX_ADDRESS: nat := 0xFFFF_FFFF_FFFF_FFFF

  datatype Attributes = Attributes(allocationBase: nat, allocationProtect: nat, state: nat, protect: nat, kind: nat)
  datatype Region = Region(base: nat, size: nat, attributes: Attributes)
  datatype Answer = NoRegion | Found(region: Region)
  datatype Served = Served(address: nat, region: Region)

  const EMPTY_REGION: Region := Region(0, 0, Attributes(0, 0, 0, 0, 0))

  /** The attributes of every page of the address space at one moment. */
  type Space = s: seq<Attributes> | |s| * PAGE <= MAX_ADDRESS witness []

  // ----- the operating system's query -----

  /** How many pages from `p` on share its attributes. */
  function Run(space: Space, p: nat): (n: nat)
    requires p < |space|
    ensures 1 <= n <= |space| - p
    ensures forall q | p <= q < p + n :: space[q] == space[p]
    ensures p + n < |space| ==> space[p + n] != space[p]
    decreases |space| - p
  {
    if p + 1 < |space| && space[p + 1] == space[p] then 1 + Run(space, p + 1) else 1
  }

  /** The maximal homogeneous run from the page of the address. */
  function Queried(space: Space, address: nat): Answer {
    var p := address / PAGE;
    if p >= |space| then NoRegion else Found(Region(p * PAGE, Run(space, p) * PAGE, space[p]))
  }

  predicate Contains(r: Region, address: nat, size: nat) {
    r.size != 0 && r.base <= address && r.base + r.size <= MAX_ADDRESS && address - r.base < r.size && size <= r.size - (address - r.base)
  }

  /** What the containing observation says about a later page. */
  function Suffix(r: Region, base: nat): Region
    requires Contains(r, base, 1)
  {
    Region(base, r.size - (base - r.base), r.attributes)
  }

  lemma {:induction false} RunUnique(space: Space, p: nat, n: nat)
    requires p < |space| && 1 <= n <= |space| - p
    requires forall q | p <= q < p + n :: space[q] == space[p]
    requires p + n < |space| ==> space[p + n] != space[p]
    ensures Run(space, p) == n
    decreases n
  {
    if n > 1 { RunUnique(space, p + 1, n - 1); }
  }

  lemma RunSuffix(space: Space, p: nat, q: nat)
    requires p < |space| && p <= q < p + Run(space, p)
    ensures Run(space, q) == Run(space, p) - (q - p) && space[q] == space[p]
  {
    assert forall k | q <= k < p + Run(space, p) :: space[k] == space[p];
    RunUnique(space, q, Run(space, p) - (q - p));
  }

  predicate PageAligned(address: nat) { address % PAGE == 0 }

  lemma Pages(address: nat)
    ensures address == (address / PAGE) * PAGE + address % PAGE && 0 <= address % PAGE < PAGE
  {
  }

  /** A fresh observation answers for a covered page exactly as a query of that page would. */
  lemma SuffixIsQuery(space: Space, from: nat, base: nat)
    requires Queried(space, from).Found? && Contains(Queried(space, from).region, base, 1) && PageAligned(base)
    ensures Queried(space, base) == Found(Suffix(Queried(space, from).region, base))
  {
    var p, q := from / PAGE, base / PAGE;
    assert base == q * PAGE;
    assert p <= q < p + Run(space, p) by {
      assert p * PAGE <= q * PAGE < p * PAGE + Run(space, p) * PAGE;
    }
    RunSuffix(space, p, q);
  }

  lemma QueriedShape(space: Space, address: nat)
    requires Queried(space, address).Found?
    ensures var r := Queried(space, address).region;
            Contains(r, address, 1) && PageAligned(r.base) && Queried(space, r.base) == Found(r)
  {
    Pages(address);
    var p := address / PAGE;
    assert (p * PAGE) / PAGE == p && (p * PAGE) % PAGE == 0;
    assert (p + Run(space, p)) * PAGE <= |space| * PAGE;
    assert Run(space, p) * PAGE >= PAGE;
  }

  // ----- the cache -----

  /** Saved observations of page-aligned regions. */
  predicate Saved(regions: seq<Region>) {
    |regions| <= REGION_LIMIT && forall k | 0 <= k < |regions| :: PageAligned(regions[k].base)
  }

  /** Asked now, separately and afresh, every saved region would answer the same. */
  predicate Unmoved(space: Space, regions: seq<Region>) {
    forall k | 0 <= k < |regions| :: Queried(space, regions[k].base) == Found(regions[k])
  }

  predicate Covers(regions: seq<Region>, value: nat) {
    exists k | 0 <= k < |regions| :: Contains(regions[k], value, 1)
  }

  /** The earliest saved region that contains the address. */
  predicate FirstCovering(regions: seq<Region>, value: nat, region: Region) {
    exists k | 0 <= k < |regions| :: regions[k] == region && Contains(region, value, 1) && forall j | 0 <= j < k :: !Contains(regions[j], value, 1)
  }

  /** What one new observation saves: the run of equal pages from the start of the 64 KiB window if it reaches the
      address's page, and otherwise from that page on, up to the next page that differs. */
  function Observation(space: Space, value: nat): Region
    requires value / 4096 < |space|
  {
    var p, w := value / 4096, 16 * (value / 65536);
    assert w <= p by { WindowPages(value); }
    var start := if AllEqual(space, w, p) then w else p;
    Region(start * 4096, Run(space, start) * 4096, space[p])
  }

  predicate AllEqual(space: Space, w: nat, p: nat)
    requires w <= p < |space|
  {
    forall q | w <= q <= p :: space[q] == space[p]
  }

  lemma WindowPages(value: nat)
    ensures 16 * (value / 65536) <= value / 4096 && (value - value % 65536) / 4096 == 16 * (value / 65536)
  {
    var n := value / 65536;
    assert value - value % 65536 == n * 65536 == (16 * n) * 4096;
  }

  lemma {:induction false} RunReaches(space: Space, w: nat, p: nat)
    requires w <= p < |space|
    ensures AllEqual(space, w, p) <==> p < w + Run(space, w)
    decreases p - w
  {
    if w < p && space[w + 1] == space[w] { RunReaches(space, w + 1, p); }
  }

  /** The observation is the window's region when that contains the address, and the address's own otherwise; an
      unmapped address is in neither. */
  lemma ObservationMeans(space: Space, value: nat)
    ensures var window, own := Queried(space, value - value % 65536), Queried(space, value);
            if value / 4096 >= |space| then
              own.NoRegion? && (window.Found? ==> !Contains(window.region, value, 1))
            else
              && window.Found? && own.Found? && Contains(own.region, value, 1)
              && Observation(space, value) == (if Contains(window.region, value, 1) then window.region else own.region)
              && PageAligned(window.region.base) && PageAligned(own.region.base)
              && Queried(space, window.region.base) == window && Queried(space, own.region.base) == own
  {
    hide Contains, PageAligned, Run, AllEqual;
    WindowPages(value);
    if value / 4096 >= |space| {
      if Queried(space, value - value % 65536).Found? { BeyondWindow(space, value); }
    } else {
      QueriedShape(space, value);
      QueriedShape(space, value - value % 65536);
      WindowHolds(space, value);
    }
  }

  /** The window's region holds the address exactly when all pages from the window's start on are equal. */
  lemma WindowHolds(space: Space, value: nat)
    requires value / 4096 < |space|
    ensures 16 * (value / 65536) <= value / 4096 && Queried(space, value - value % 65536).Found?
    ensures var p, w := value / 4096, 16 * (value / 65536);
            (Contains(Queried(space, value - value % 65536).region, value, 1) <==> AllEqual(space, w, p)) &&
            (AllEqual(space, w, p) ==> space[w] == space[p])
  {
    var p, w := value / 4096, 16 * (value / 65536);
    WindowPages(value);
    RunReaches(space, w, p);
    Pages(value);
    InRun(w, Run(space, w), p, value);
    assert (w + Run(space, w)) * 4096 <= |space| * 4096;
  }

  lemma BeyondWindow(space: Space, value: nat)
    requires value / 4096 >= |space| && Queried(space, value - value % 65536).Found?
    ensures !Contains(Queried(space, value - value % 65536).region, value, 1)
  {
    var w := (value - value % 65536) / 4096;
    Pages(value);
    assert (w + Run(space, w)) * 4096 <= |space| * 4096 <= value;
  }

  lemma InRun(w: nat, n: nat, p: nat, value: nat)
    requires w <= p && p * 4096 <= value < p * 4096 + 4096
    ensures value < w * 4096 + n * 4096 <==> p < w + n
  {
  }

  class ScopedQueryCache {
    var regions: seq<Region>
    var failed: bool
    var active: bool

    /** Every answer given so far. */
    ghost var served: seq<Served>

    ghost predicate Valid()
      reads this
    {
      && Saved(regions)
      && (!failed ==> forall k | 0 <= k < |served| :: served[k].region in regions && Contains(served[k].region, served[k].address, 1))
    }

    constructor ()
      ensures Valid() && regions == [] && !failed && active && served == []
    {
      regions, failed, active, served := [], false, true, [];
    }

    method Lookup(value: nat) returns (hit: bool, region: Region)
      ensures hit <==> exists k | 0 <= k < |regions| :: Contains(regions[k], value, 1)
      ensures hit <==> Covers(regions, value)
      ensures hit ==> region in regions && Contains(region, value, 1) && FirstCovering(regions, value, region)
    {
      for k := 0 to |regions|
        invariant forall j | 0 <= j < k :: !Contains(regions[j], value, 1)
      {
        if Contains(regions[k], value, 1) { return true, regions[k]; }
      }
      return false, EMPTY_REGION;
    }

    /** Answers from a saved region, or saves the wider window's region if it holds the address, else the
        address's own. Memory may differ from call to call. */
    method Query(space: Space, value: nat) returns (ok: bool, region: Region)
      requires Valid()
      modifies this
      ensures Valid() && active == old(active) && old(regions) <= regions && (old(failed) ==> failed)
      ensures ok ==> !failed && region in regions && Contains(region, value, 1) && served == old(served) + [Served(value, region)]
      ensures !ok ==> served == old(served)
      ensures ok && regions != old(regions) ==> Queried(space, region.base) == Found(region) && |regions| == |old(regions)| + 1
      ensures !old(active) || old(failed) ==> !ok && failed == old(failed) && regions == old(regions)
      ensures old(active) && !old(failed) ==> failed == !ok
      ensures old(active) && !old(failed) && Covers(old(regions), value) ==> ok && regions == old(regions) && FirstCovering(regions, value, region)
      ensures old(active) && !old(failed) && !Covers(old(regions), value) ==>
                (ok <==> |old(regions)| < 64 && value / 4096 < |space|) &&
                regions == if ok then old(regions) + [region] else old(regions)
      ensures old(active) && !old(failed) && !Covers(old(regions), value) && ok ==> region == Observation(space, value)
    {
      hide Queried, Observation, Contains;
      region := EMPTY_REGION;
      if !active || failed { return false, region; }
      ok, region := Lookup(value);
      if ok {
        served := served + [Served(value, region)];
        return;
      }
      if |regions| == REGION_LIMIT {
        failed := true;
        return;
      }
      ok, region := Observe(space, value);
      if !ok {
        failed := true;
        return;
      }
      regions := regions + [region];
      served := served + [Served(value, region)];
    }

    /** One new observation: the window's region if it holds the address, else the address's own. */
    method Observe(space: Space, value: nat) returns (ok: bool, region: Region)
      ensures ok <==> value / 4096 < |space|
      ensures ok ==> region == Observation(space, value) && Contains(region, value, 1) && PageAligned(region.base)
      ensures ok ==> Queried(space, region.base) == Found(region)
    {
      hide Observation, Queried, Contains, PageAligned;
      var windowStart := value - value % WINDOW;
      ObservationMeans(space, value);
      var answer := Queried(space, windowStart);
      if answer.NoRegion? || !Contains(answer.region, value, 1) {
        if windowStart != value { answer := Queried(space, value); }
        if answer.NoRegion? || !Contains(answer.region, value, 1) { return false, EMPTY_REGION; }
      }
      region := answer.region;
      ok := true;
    }

    static predicate Ordered(regions: seq<Region>, order: seq<nat>) {
      (forall k | 0 <= k < |order| :: order[k] < |regions|) &&
      forall j, k | 0 <= j < k < |order| :: regions[order[j]].base <= regions[order[k]].base
    }

    /** Places one index after every index of the same or a lower base. */
    method Place(order: seq<nat>, i: nat) returns (r: seq<nat>)
      requires Ordered(regions, order) && i < |regions|
      ensures Ordered(regions, r) && |r| == |order| + 1 && i in r && forall j | j in order :: j in r
    {
      var at := 0;
      while at < |order| && regions[order[at]].base <= regions[i].base
        invariant at <= |order| && forall k | 0 <= k < at :: regions[order[k]].base <= regions[i].base
      {
        at := at + 1;
      }
      Inserted(order, at, i);
      Joined(regions, order[..at], i, order[at..]);
      r := order[..at] + [i] + order[at..];
    }

    static lemma Joined(regions: seq<Region>, before: seq<nat>, i: nat, after: seq<nat>)
      requires Ordered(regions, before) && Ordered(regions, after) && i < |regions|
      requires forall k | 0 <= k < |before| :: regions[before[k]].base <= regions[i].base
      requires forall k | 0 <= k < |after| :: regions[i].base <= regions[after[k]].base
      requires forall j, k | 0 <= j < |before| && 0 <= k < |after| :: regions[before[j]].base <= regions[after[k]].base
      ensures Ordered(regions, before + [i] + after)
    {
      var o, n := before + [i] + after, |before|;
      forall j, k | 0 <= j < k < |o| ensures o[j] < |regions| && o[k] < |regions| && regions[o[j]].base <= regions[o[k]].base {
        assert o[j] == if j < n then before[j] else if j == n then i else after[j - n - 1];
        assert o[k] == if k < n then before[k] else if k == n then i else after[k - n - 1];
      }
    }

    /** Saved indices by base address, then by age. */
    method Order() returns (order: seq<nat>)
      ensures |order| == |regions| && Ordered(regions, order) && forall i | 0 <= i < |regions| :: i in order
    {
      order := [];
      for i := 0 to |regions|
        invariant |order| == i && Ordered(regions, order) && forall j | 0 <= j < i :: j in order
      {
        order := Place(order, i);
      }
    }

    static lemma Inserted(order: seq<nat>, at: nat, i: nat)
      requires at <= |order|
      ensures var o := order[..at] + [i] + order[at..]; i in o && forall j | j in order :: j in o
    {
      var o := order[..at] + [i] + order[at..];
      assert o[at] == i;
      forall j | j in order ensures j in o {
        var k :| 0 <= k < |order| && order[k] == j;
        assert o[if k < at then k else k + 1] == j;
      }
    }

    /** The endpoint: compares every saved region, asking afresh only where the latest fresh region does not
        already answer. Accepts exactly when separate fresh queries would all agree. */
    method Finish(space: Space) returns (ok: bool)
      requires Valid()
      modifies this`failed, this`active
      ensures ok <==> old(active) && !old(failed) && Unmoved(space, regions)
      ensures ok ==> forall k | 0 <= k < |served| ::
                       Queried(space, served[k].region.base) == Found(served[k].region) && StillHolds(space, served[k])
      ensures old(active) ==> !active && (ok <==> !failed)
      ensures !old(active) ==> !ok && failed == old(failed)
    {
      if !active { return false; }
      var order := Order();
      var latest, position := EMPTY_REGION, 0;
      ghost var from := 0;
      while position < |order| && !failed
        invariant position <= |order| && active
        invariant latest.size != 0 ==> Queried(space, from) == Found(latest)
        invariant old(failed) ==> failed
        invariant !failed ==> forall k | 0 <= k < position :: Queried(space, regions[order[k]].base) == Found(regions[order[k]])
        invariant failed && !old(failed) ==> !Unmoved(space, regions)
      {
        var initial := regions[order[position]];
        var current := initial;
        if Contains(latest, initial.base, 1) {
          SuffixIsQuery(space, from, initial.base);
          current := latest.(base := initial.base, size := latest.size - (initial.base - latest.base));
          failed := current != initial;
        } else {
          var answer := Queried(space, initial.base);
          failed := answer != Found(initial);
          if !failed { latest, from := answer.region, initial.base; }
        }
        position := position + 1;
      }
      if !failed { AllCompared(space, regions, order); }
      ok := !failed;
      active := false;
      if ok {
        forall k | 0 <= k < |served| ensures StillHolds(space, served[k]) { AnswerHolds(space, served[k]); }
      }
    }

    static lemma AllCompared(space: Space, regions: seq<Region>, order: seq<nat>)
      requires |order| == |regions| && forall k | 0 <= k < |order| :: order[k] < |regions|
      requires forall i | 0 <= i < |regions| :: i in order
      requires forall k | 0 <= k < |order| :: Queried(space, regions[order[k]].base) == Found(regions[order[k]])
      ensures Unmoved(space, regions)
    {
      forall i | 0 <= i < |regions| ensures Queried(space, regions[i].base) == Found(regions[i]) {
        assert i in order;
        var k :| 0 <= k < |order| && order[k] == i;
      }
    }
  }

  /** The page of the served address has, now, the attributes and the remaining extent the answer gave it. */
  predicate StillHolds(space: Space, s: Served) {
    var start := s.address - s.address % PAGE;
    Contains(s.region, start, 1) && Queried(space, s.address) == Found(Suffix(s.region, start))
  }

  lemma AnswerHolds(space: Space, s: Served)
    requires Queried(space, s.region.base) == Found(s.region) && Contains(s.region, s.address, 1)
    ensures StillHolds(space, s)
  {
    QueriedShape(space, s.region.base);
    Pages(s.address);
    var start := s.address - s.address % PAGE;
    assert start == (s.address / PAGE) * PAGE;
    var p := s.region.base / PAGE;
    assert s.region.base == p * PAGE;
    assert p <= s.address / PAGE;
    SuffixIsQuery(space, s.region.base, start);
    assert start / PAGE == s.address / PAGE;
  }
}
